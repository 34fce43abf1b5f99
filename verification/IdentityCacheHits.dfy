/** Calls that get an identity out of the cache: the one that fetched it, the ones that waited for it,
    and every later one of the bearer until the cache is cleared. */
module IdentityCacheHits {
  import opened Options
  import opened IdentityCache
  import opened IdentityCacheRuns

  /** A profile with an email or a uuid is returned by the call that fetched it, and remembered. */
  lemma ProfileIsReturned(calls: Calls, s: State, c: nat, client: Client)
    requires Inv(calls, s) && PhaseOf(s, c).Fetching? && (client.email.Some? || client.accountUuid.Some?)
    ensures var e := PhaseOf(s, c).cell;
      var s' := Next(calls, s, Answer(c, Profile(client)));
      && PhaseOf(s', c) == Done(Some(client)) && s'.entries == s.entries && e < |s'.cells|
      && s'.cells[e].resolved == Some(Identity(client)) && s'.cells[e].flight.None?
  {
    assert CallOk(calls, s, c);
  }

  /** A refused bearer is remembered for a minute of the asking call's clock, which returns nothing. */
  lemma RefusalIsRemembered(calls: Calls, s: State, c: nat)
    requires Inv(calls, s) && PhaseOf(s, c).Fetching?
    ensures var e := PhaseOf(s, c).cell;
      var s' := Next(calls, s, Answer(c, Refused));
      && PhaseOf(s', c) == Done(None) && s'.entries == s.entries && e < |s'.cells|
      && s'.cells[e].resolved == Some(Unresolvable(calls(c).nowMs + 60000)) && s'.cells[e].flight.None?
  {
    assert CallOk(calls, s, c);
  }

  /** The entry is set to the identity. */
  predicate IsSet(s: State, e: nat, client: Client) { e < |s.cells| && s.cells[e].resolved == Some(Identity(client)) }

  /** The call holds the entry, or has returned the identity. */
  predicate Gets(s: State, c: nat, e: nat, client: Client) {
    PhaseOf(s, c) == Holding(e) || PhaseOf(s, c) == Done(Some(client))
  }

  lemma StepGets(calls: Calls, s: State, a: Action, c: nat, e: nat, client: Client)
    requires Inv(calls, s) && IsSet(s, e, client) && Gets(s, c, e, client) && a != Drop(c)
    ensures var s' := Next(calls, s, a);
      IsSet(s', e, client) && Gets(s', c, e, client) && (PhaseOf(s, c).Done? || a == Enter(c) ==> PhaseOf(s', c).Done?)
  {
    StepKeepsCell(calls, s, a, e);
    if a.Warn? || a.call != c { OtherCallStays(calls, s, a, c); }
  }

  /** Through every run, a call that holds a set entry fetches nothing: it still holds it or has returned
      the identity, and once it has entered it has returned it, unless it was dropped. */
  lemma {:induction false} HolderGetsIdentity(calls: Calls, s: State, actions: seq<Action>, c: nat, e: nat, client: Client)
    requires Inv(calls, s) && IsSet(s, e, client) && Gets(s, c, e, client) && Drop(c) !in actions
    ensures var s' := Run(calls, s, actions);
      && IsSet(s', e, client) && Gets(s', c, e, client)
      && (PhaseOf(s, c).Done? || Enter(c) in actions ==> PhaseOf(s', c).Done?)
    decreases |actions|
  {
    hide Next, Inv, IsSet, Gets, PhaseOf;
    if |actions| > 0 {
      var a, more := actions[0], actions[1..];
      assert a in actions && (forall b :: b in more ==> b in actions) && forall b :: b in actions ==> b == a || b in more;
      KeepsKeys(calls, s);
      StepKeeps(calls, s, a);
      KeepsKeys(calls, Next(calls, s, a));
      StepGets(calls, s, a, c, e, client);
      HolderGetsIdentity(calls, Next(calls, s, a), more, c, e, client);
    }
  }

  // ----- Later calls of the bearer -----

  /** The map holds the bearer's identity. */
  predicate Remembered(s: State, key: string, e: nat, client: Client) {
    key in s.entries && s.entries[key] == e && IsSet(s, e, client)
  }

  /** The step brings a new bearer to a full map. */
  predicate Clears(calls: Calls, s: State, a: Action) {
    ((a.Lookup? && PhaseOf(s, a.call).Starting?) || a.Warn?) &&
      |s.entries| >= 256 && (if a.Lookup? then calls(a.call).key else a.key) !in s.entries
  }

  predicate NeverCleared(calls: Calls, s: State, actions: seq<Action>)
    requires WellKeyed(s)
    decreases |actions|
  {
    |actions| > 0 ==>
      && !Clears(calls, s, actions[0])
      && (WellKeyed(Next(calls, s, actions[0])) ==> NeverCleared(calls, Next(calls, s, actions[0]), actions[1..]))
  }

  lemma EntryRemembered(s: State, key: string, e: nat, client: Client, k: string, nowMs: int)
    requires WellKeyed(s) && |s.entries| <= 256 && Remembered(s, key, e, client) && (k !in s.entries ==> |s.entries| < 256)
    ensures var (s', f) := EntryFor(s, k, nowMs); Remembered(s', key, e, client) && (k == key ==> f == e)
  {
    if k in s.entries { Removed(s.entries, k); }
  }

  lemma StepRemembered(calls: Calls, s: State, a: Action, key: string, e: nat, client: Client)
    requires Inv(calls, s) && Remembered(s, key, e, client) && !Clears(calls, s, a)
    ensures Remembered(Next(calls, s, a), key, e, client)
  {
    StepKeepsCell(calls, s, a, e);
    match a
    case Lookup(c) => if PhaseOf(s, c).Starting? { EntryRemembered(s, key, e, client, calls(c).key, calls(c).nowMs); }
    case Enter(c) =>
    case Answer(c, reply) =>
    case Drop(c) =>
    case Warn(k, nowMs) => EntryRemembered(s, key, e, client, k, nowMs);
  }

  /** Exactly a clear takes an identity out of the map. */
  lemma ClearsIff(calls: Calls, s: State, a: Action, key: string, e: nat, client: Client)
    requires Inv(calls, s) && Remembered(s, key, e, client)
    ensures Clears(calls, s, a) <==> !Remembered(Next(calls, s, a), key, e, client)
  {
    if Clears(calls, s, a) {
      EntryCleared(s, key, e, if a.Lookup? then calls(a.call).key else a.key, if a.Lookup? then calls(a.call).nowMs else a.nowMs);
    } else {
      StepRemembered(calls, s, a, key, e, client);
    }
  }

  lemma EntryCleared(s: State, key: string, e: nat, k: string, nowMs: int)
    requires WellKeyed(s) && key in s.entries && s.entries[key] == e && |s.entries| >= 256 && k !in s.entries
    ensures var s' := EntryFor(s, k, nowMs).0; !(key in s'.entries && s'.entries[key] == e)
  {
  }

  /** What a call has returned does not change through any run. */
  lemma {:induction false} ReturnedStays(calls: Calls, s: State, actions: seq<Action>, c: nat)
    requires Inv(calls, s) && PhaseOf(s, c).Done?
    ensures PhaseOf(Run(calls, s, actions), c) == PhaseOf(s, c)
    decreases |actions|
  {
    if |actions| > 0 {
      var a := actions[0];
      KeepsKeys(calls, s);
      StepKeeps(calls, s, a);
      KeepsKeys(calls, Next(calls, s, a));
      StepReturned(calls, s, a, c);
      hide Next, Inv, PhaseOf;
      ReturnedStays(calls, Next(calls, s, a), actions[1..], c);
    }
  }

  lemma StepReturned(calls: Calls, s: State, a: Action, c: nat)
    requires Inv(calls, s) && PhaseOf(s, c).Done?
    ensures PhaseOf(Next(calls, s, a), c) == PhaseOf(s, c)
  {
    if a.Warn? || a.call != c { OtherCallStays(calls, s, a, c); }
  }

  /** An identity stays in the map through every run without a clear, whatever the clock says. */
  lemma {:induction false} IdentityStays(calls: Calls, s: State, actions: seq<Action>, key: string, e: nat, client: Client)
    requires Inv(calls, s) && WellKeyed(s) && Remembered(s, key, e, client) && NeverCleared(calls, s, actions)
    ensures Remembered(Run(calls, s, actions), key, e, client)
    decreases |actions|
  {
    hide Next, Inv, Remembered, Clears;
    if |actions| > 0 {
      var a := actions[0];
      StepKeeps(calls, s, a);
      KeepsKeys(calls, Next(calls, s, a));
      StepRemembered(calls, s, a, key, e, client);
      IdentityStays(calls, Next(calls, s, a), actions[1..], key, e, client);
    }
  }

  /** A call of the bearer that starts then gets the remembered entry, and entering it the identity:
      nothing is fetched. */
  lemma RememberedCall(calls: Calls, s: State, c: nat, key: string, e: nat, client: Client)
    requires Inv(calls, s) && Remembered(s, key, e, client) && PhaseOf(s, c).Starting? && calls(c).key == key
    ensures var s1 := Next(calls, s, Lookup(c));
      && WellKeyed(s1) && PhaseOf(s1, c) == Holding(e) && s1.cells == s.cells
      && PhaseOf(Next(calls, s1, Enter(c)), c) == Done(Some(client))
  {
    StepKeeps(calls, s, Lookup(c));
    EntryRemembered(s, key, e, client, key, calls(c).nowMs);
  }

  /** So one fetch serves every later call of the bearer: with the profile in, through any run without a
      clear, a call that has not started yet returns that profile in its two steps. */
  lemma FetchedOnce(calls: Calls, s: State, c: nat, client: Client, actions: seq<Action>, d: nat)
    requires Inv(calls, s) && PhaseOf(s, c).Fetching? && (client.email.Some? || client.accountUuid.Some?)
    requires var key := calls(c).key; key in s.entries && s.entries[key] == PhaseOf(s, c).cell && calls(d).key == key
    requires var s1 := Next(calls, s, Answer(c, Profile(client)));
      WellKeyed(s1) && NeverCleared(calls, s1, actions) && PhaseOf(Run(calls, s1, actions), d).Starting?
    ensures var s2 := Run(calls, Next(calls, s, Answer(c, Profile(client))), actions);
      && WellKeyed(s2) && WellKeyed(Next(calls, s2, Lookup(d)))
      && PhaseOf(Next(calls, Next(calls, s2, Lookup(d)), Enter(d)), d) == Done(Some(client))
  {
    KeepsKeys(calls, s);
    hide Run, NeverCleared, Inv, Next;
    var e, key := PhaseOf(s, c).cell, calls(c).key;
    var s1 := Next(calls, s, Answer(c, Profile(client)));
    ProfileIsReturned(calls, s, c, client);
    StepKeeps(calls, s, Answer(c, Profile(client)));
    IdentityStays(calls, s1, actions, key, e, client);
    RunKeeps(calls, s1, actions);
    KeepsKeys(calls, Run(calls, s1, actions));
    RememberedCall(calls, Run(calls, s1, actions), d, key, e, client);
  }
}
