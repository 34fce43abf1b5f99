/** Whole runs of the identity cache: what a refusal means for every later call of its bearer, and
    exactly when a bearer is warned about again. */
module IdentityCacheRuns {
  import opened Options
  import opened IdentityCache

  // ----- A refusal suppresses refetching -----

  /** The call has not looked its entry up, or holds the refused one, or has returned nothing. */
  predicate IsQuiet(s: State, c: nat, e: nat) {
    PhaseOf(s, c) == Starting || PhaseOf(s, c) == Holding(e) || PhaseOf(s, c) == Done(None)
  }

  lemma OtherCallStays(calls: Calls, s: State, a: Action, c: nat)
    requires Inv(calls, s) && (a.Warn? || a.call != c)
    ensures PhaseOf(Next(calls, s, a), c) == PhaseOf(s, c)
  {
    match a
    case Lookup(d) => EntryShape(s, calls(d).key, calls(d).nowMs);
    case Enter(d) =>
    case Answer(d, reply) =>
    case Drop(d) =>
    case Warn(key, nowMs) => EntryShape(s, key, nowMs);
  }

  lemma StepIsQuiet(calls: Calls, s: State, a: Action, key: string, e: nat, until: int, c: nat)
    requires Inv(calls, s) && Suppressed(s, key, e, until) && !Lifts(calls, s, a, key, until)
    requires calls(c).key == key && IsQuiet(s, c, e)
    ensures IsQuiet(Next(calls, s, a), c, e)
  {
    if a.Warn? || a.call != c {
      OtherCallStays(calls, s, a, c);
    } else if a.Lookup? && PhaseOf(s, c).Starting? {
      EntrySuppressed(s, key, e, until, key, calls(c).nowMs);
    }
  }

  /** Through every run before the refusal ends and without a clear, no call of the bearer that starts
      in that time, or holds the refused entry, fetches: it returns nothing, or has yet to return. */
  lemma {:induction false} BearerIsSuppressed(calls: Calls, s: State, actions: seq<Action>, key: string, e: nat, until: int, c: nat)
    requires Inv(calls, s) && Suppressed(s, key, e, until) && NeverLifted(calls, s, actions, key, until)
    requires calls(c).key == key && IsQuiet(s, c, e)
    ensures var s' := Run(calls, s, actions); Suppressed(s', key, e, until) && IsQuiet(s', c, e)
    decreases |actions|
  {
    hide Next, Inv, Suppressed, IsQuiet, Lifts;
    if |actions| > 0 {
      var a := actions[0];
      KeepsKeys(calls, s);
      StepKeeps(calls, s, a);
      KeepsKeys(calls, Next(calls, s, a));
      StepSuppressed(calls, s, a, key, e, until);
      StepIsQuiet(calls, s, a, key, e, until, c);
      BearerIsSuppressed(calls, Next(calls, s, a), actions[1..], key, e, until, c);
    }
  }

  lemma KeepsKeys(calls: Calls, s: State)
    requires Inv(calls, s)
    ensures WellKeyed(s)
  {
  }

  // ----- Exactly which calls can still fetch -----

  /** The call is fetching, or holds an entry that is not set. */
  predicate CanFetch(s: State, c: nat) {
    var p := PhaseOf(s, c);
    p.Fetching? || (p.Holding? && p.cell < |s.cells| && s.cells[p.cell].resolved.None?)
  }

  /** While the refusal stands, a call of the bearer that cannot fetch does not become one that can. */
  lemma StepCannotFetch(calls: Calls, s: State, a: Action, key: string, e: nat, until: int, c: nat)
    requires Inv(calls, s) && Suppressed(s, key, e, until) && !Lifts(calls, s, a, key, until)
    requires calls(c).key == key && !CanFetch(s, c)
    ensures !CanFetch(Next(calls, s, a), c)
  {
    assert CallOk(calls, s, c);
    if PhaseOf(s, c).Holding? { StepKeepsCell(calls, s, a, PhaseOf(s, c).cell); }
    if a.Warn? || a.call != c {
      OtherCallStays(calls, s, a, c);
      hide Next;
    } else if a.Lookup? && PhaseOf(s, c).Starting? {
      EntrySuppressed(s, key, e, until, key, calls(c).nowMs);
      hide EntryFor;
    }
  }

  lemma {:induction false} RunCannotFetch(calls: Calls, s: State, actions: seq<Action>, key: string, e: nat, until: int, c: nat)
    requires Inv(calls, s) && Suppressed(s, key, e, until) && NeverLifted(calls, s, actions, key, until)
    requires calls(c).key == key && !CanFetch(s, c)
    ensures !CanFetch(Run(calls, s, actions), c)
    decreases |actions|
  {
    hide Next, Inv, Suppressed, CanFetch, Lifts;
    if |actions| > 0 {
      var a := actions[0];
      KeepsKeys(calls, s);
      StepKeeps(calls, s, a);
      KeepsKeys(calls, Next(calls, s, a));
      StepSuppressed(calls, s, a, key, e, until);
      StepCannotFetch(calls, s, a, key, e, until, c);
      RunCannotFetch(calls, Next(calls, s, a), actions[1..], key, e, until, c);
    }
  }

  /** Some run in which the refusal stands brings the call to a fetch. */
  ghost predicate Fetches(calls: Calls, s: State, key: string, until: int, c: nat)
    requires WellKeyed(s)
  {
    exists actions: seq<Action> :: NeverLifted(calls, s, actions, key, until) && PhaseOf(Run(calls, s, actions), c).Fetching?
  }

  lemma OneStep(calls: Calls, s: State, a: Action, key: string, until: int)
    requires Inv(calls, s) && WellKeyed(s) && !(a.Lookup? || a.Warn?)
    ensures WellKeyed(Next(calls, s, a)) && NeverLifted(calls, s, [a], key, until) && Run(calls, s, [a]) == Next(calls, s, a)
  {
    StepKeeps(calls, s, a);
    hide Next, CallOk, CellOk;
    assert [a][1..] == [];
  }

  lemma TwoSteps(calls: Calls, s: State, a: Action, b: Action, key: string, until: int)
    requires Inv(calls, s) && WellKeyed(s) && !(a.Lookup? || a.Warn?) && !(b.Lookup? || b.Warn?)
    ensures WellKeyed(Next(calls, s, a)) && NeverLifted(calls, s, [a, b], key, until)
    ensures Run(calls, s, [a, b]) == Next(calls, Next(calls, s, a), b)
  {
    StepKeeps(calls, s, a);
    OneStep(calls, Next(calls, s, a), b, key, until);
    hide Next, CallOk, CellOk;
    assert [a, b][1..] == [b];
  }

  /** A call that can fetch does, once whoever holds the permit is gone. */
  lemma CanFetchDoes(calls: Calls, s: State, key: string, until: int, c: nat)
    requires Inv(calls, s) && WellKeyed(s) && CanFetch(s, c)
    ensures Fetches(calls, s, key, until, c)
  {
    var p := PhaseOf(s, c);
    if p.Fetching? {
      assert NeverLifted(calls, s, [], key, until) && Run(calls, s, []) == s;
    } else {
      assert CellOk(s, p.cell);
      if s.cells[p.cell].flight.None? {
        OneStep(calls, s, Enter(c), key, until);
        assert PhaseOf(Next(calls, s, Enter(c)), c) == Fetching(p.cell);
      } else {
        var d := s.cells[p.cell].flight.value;
        TwoSteps(calls, s, Drop(d), Enter(c), key, until);
        DropFreesPermit(s, c, d, p.cell);
        assert PhaseOf(Next(calls, Next(calls, s, Drop(d)), Enter(c)), c) == Fetching(p.cell);
      }
    }
  }

  lemma DropFreesPermit(s: State, c: nat, d: nat, e: nat)
    requires PhaseOf(s, c) == Holding(e) && PhaseOf(s, d) == Fetching(e) && e < |s.cells| && s.cells[e].resolved.None?
    ensures var s' := Dropped(s, d);
      PhaseOf(s', c) == Holding(e) && e < |s'.cells| && s'.cells[e].resolved.None? && s'.cells[e].flight.None?
  {
  }

  /** Under a standing refusal a call of the bearer can come to fetch exactly when it is fetching
      already or holds an entry, from before a clear, that is not set. */
  lemma FetchesUnderRefusalIff(calls: Calls, s: State, key: string, e: nat, until: int, c: nat)
    requires Inv(calls, s) && WellKeyed(s) && Suppressed(s, key, e, until) && calls(c).key == key
    ensures Fetches(calls, s, key, until, c) <==>
      PhaseOf(s, c).Fetching? || (PhaseOf(s, c).Holding? && PhaseOf(s, c).cell < |s.cells| && s.cells[PhaseOf(s, c).cell].resolved.None?)
  {
    if CanFetch(s, c) {
      CanFetchDoes(calls, s, key, until, c);
    } else {
      hide Inv, Suppressed, Run;
      forall actions: seq<Action> | NeverLifted(calls, s, actions, key, until) ensures !PhaseOf(Run(calls, s, actions), c).Fetching? {
        RunCannotFetch(calls, s, actions, key, e, until, c);
      }
    }
  }

  // ----- Exactly when a bearer is warned about again -----

  /** The bearer's entry is in the map and was warned about. */
  predicate IsWarned(s: State, key: string) {
    key in s.entries && s.entries[key] < |s.cells| && s.cells[s.entries[key]].warned
  }

  /** The step takes the bearer's entry out of the map: it asks for the bearer after its refusal ended,
      or clears a full map for a new bearer. */
  predicate Forgets(calls: Calls, s: State, a: Action, key: string)
    requires WellKeyed(s)
  {
    ((a.Lookup? && PhaseOf(s, a.call).Starting?) || a.Warn?) &&
      var k := if a.Lookup? then calls(a.call).key else a.key;
      var now := if a.Lookup? then calls(a.call).nowMs else a.nowMs;
      (k == key && key in s.entries && Expired(s.cells[s.entries[key]], now)) || (|s.entries| >= CAP && k !in s.entries)
  }

  lemma EntryForgets(s: State, key: string, k: string, nowMs: int)
    requires WellKeyed(s) && |s.entries| <= CAP && IsWarned(s, key)
    ensures IsWarned(EntryFor(s, k, nowMs).0, key) <==>
      !((k == key && Expired(s.cells[s.entries[key]], nowMs)) || (|s.entries| >= CAP && k !in s.entries))
  {
    if k in s.entries { Removed(s.entries, k); }
  }

  lemma EntryStaysUnwarned(s: State, key: string, k: string, nowMs: int)
    requires WellKeyed(s) && |s.entries| <= CAP && !IsWarned(s, key)
    ensures !IsWarned(EntryFor(s, k, nowMs).0, key)
  {
  }

  /** A step forgets a warned entry, or keeps it warned. */
  lemma StepWarned(calls: Calls, s: State, a: Action, key: string)
    requires Inv(calls, s) && IsWarned(s, key) && !(a.Warn? && a.key == key)
    ensures IsWarned(Next(calls, s, a), key) <==> !Forgets(calls, s, a, key)
  {
    match a
    case Lookup(c) =>
      EntryForgets(s, key, calls(c).key, calls(c).nowMs);
      hide EntryFor, Expired;
    case Enter(c) =>
    case Answer(c, reply) =>
    case Drop(c) =>
    case Warn(k, nowMs) =>
      EntryForgets(s, key, k, nowMs);
      FlagOther(calls, s, key, k, nowMs);
      hide EntryFor, Expired, Warned;
  }

  /** Warning about one bearer does not touch another's entry. */
  lemma FlagOther(calls: Calls, s: State, key: string, k: string, nowMs: int)
    requires Inv(calls, s) && k != key
    ensures IsWarned(Warned(s, k, nowMs).0, key) <==> IsWarned(EntryFor(s, k, nowMs).0, key)
  {
    EntryKeeps(calls, s, k, nowMs);
    EntryShape(s, k, nowMs);
    hide EntryFor;
  }

  /** Nothing but a warning of the bearer marks its entry. */
  lemma StepUnwarned(calls: Calls, s: State, a: Action, key: string)
    requires Inv(calls, s) && !IsWarned(s, key) && !(a.Warn? && a.key == key)
    ensures !IsWarned(Next(calls, s, a), key)
  {
    match a
    case Lookup(c) => EntryStaysUnwarned(s, key, calls(c).key, calls(c).nowMs);
    case Enter(c) =>
    case Answer(c, reply) =>
    case Drop(c) =>
    case Warn(k, nowMs) =>
      EntryStaysUnwarned(s, key, k, nowMs);
      FlagOther(calls, s, key, k, nowMs);
  }

  predicate NotAsked(actions: seq<Action>, key: string) {
    forall i :: 0 <= i < |actions| ==> !(actions[i].Warn? && actions[i].key == key)
  }

  /** Some step of the run forgets the bearer's entry. */
  predicate Forgotten(calls: Calls, s: State, actions: seq<Action>, key: string)
    requires WellKeyed(s)
    decreases |actions|
  {
    |actions| > 0 &&
      (Forgets(calls, s, actions[0], key)
       || (WellKeyed(Next(calls, s, actions[0])) && Forgotten(calls, Next(calls, s, actions[0]), actions[1..], key)))
  }

  lemma {:induction false} StaysUnwarned(calls: Calls, s: State, actions: seq<Action>, key: string)
    requires Inv(calls, s) && !IsWarned(s, key) && NotAsked(actions, key)
    ensures !IsWarned(Run(calls, s, actions), key)
    decreases |actions|
  {
    hide Next, Inv, IsWarned;
    if |actions| > 0 {
      var a := actions[0];
      KeepsKeys(calls, s);
      StepKeeps(calls, s, a);
      KeepsKeys(calls, Next(calls, s, a));
      StepUnwarned(calls, s, a, key);
      StaysUnwarned(calls, Next(calls, s, a), actions[1..], key);
    }
  }

  lemma {:induction false} WarnedUntilForgotten(calls: Calls, s: State, actions: seq<Action>, key: string)
    requires Inv(calls, s) && WellKeyed(s) && IsWarned(s, key) && NotAsked(actions, key)
    ensures IsWarned(Run(calls, s, actions), key) <==> !Forgotten(calls, s, actions, key)
    decreases |actions|
  {
    hide Next, Inv, IsWarned, Forgets;
    if |actions| > 0 {
      var a := actions[0];
      StepKeeps(calls, s, a);
      KeepsKeys(calls, Next(calls, s, a));
      StepWarned(calls, s, a, key);
      if Forgets(calls, s, a, key) {
        StaysUnwarned(calls, Next(calls, s, a), actions[1..], key);
      } else {
        WarnedUntilForgotten(calls, Next(calls, s, a), actions[1..], key);
      }
    }
  }

  /** After a yes, through any run, the next answer for the bearer is yes exactly when a step of the run,
      or the asking itself, forgets its entry: a lookup past the end of its refusal, or a clear. */
  lemma WarnedAgainIff(calls: Calls, s: State, actions: seq<Action>, key: string, nowMs: int)
    requires Inv(calls, s) && WellKeyed(s) && IsWarned(s, key) && NotAsked(actions, key)
    ensures var s' := Run(calls, s, actions);
      && WellKeyed(s')
      && (Warned(s', key, nowMs).1 <==> Forgotten(calls, s, actions, key) || Forgets(calls, s', Warn(key, nowMs), key))
  {
    hide Run, Forgotten, Next;
    RunKeeps(calls, s, actions);
    var s' := Run(calls, s, actions);
    KeepsKeys(calls, s');
    WarnedUntilForgotten(calls, s, actions, key);
    WarnIff(calls, s', key, nowMs);
    hide Warned;
  }

  /** And a yes leaves the entry warned about. */
  lemma WarnMarks(calls: Calls, s: State, key: string, nowMs: int)
    requires Inv(calls, s) && WellKeyed(s)
    ensures IsWarned(Next(calls, s, Warn(key, nowMs)), key)
  {
    EntryShape(s, key, nowMs);
    hide Room;
  }

  // ----- Filling and clearing the map -----

  lemma WarnNew(calls: Calls, s: State, key: string)
    requires Inv(calls, s) && WellKeyed(s) && key !in s.entries
    ensures var s' := Next(calls, s, Warn(key, 0));
      && s'.cells == s.cells + [Cell(key, None, true, None)] && s'.phases == s.phases
      && s'.entries == (if |s.entries| < CAP then s.entries else map[])[key := |s.cells|]
  {
  }

  /** A different bearer for every number. */
  function Numbered(i: nat): string { seq(i + 1, _ => 'k') }

  /** Warnings about the bearers from `i` on, `n` of them. */
  function Others(i: nat, n: nat): seq<Action> { seq(n, j requires 0 <= j => Warn(Numbered(i + j), 0)) }

  lemma OthersSplit(i: nat, n: nat)
    requires n > 0
    ensures Others(i, n) == [Warn(Numbered(i), 0)] + Others(i + 1, n - 1)
  {
  }

  lemma NumbersDiffer(i: nat, j: nat)
    requires i != j
    ensures Numbered(i) != Numbered(j)
  {
    assert |Numbered(i)| != |Numbered(j)|;
  }

  /** None of the bearers from `i` on is in the map. */
  ghost predicate NoneFrom(s: State, i: nat) { forall j: nat :: j >= i ==> Numbered(j) !in s.entries }

  lemma {:induction false} Fills(calls: Calls, s: State, i: nat, n: nat)
    requires Inv(calls, s) && WellKeyed(s) && NoneFrom(s, i) && |s.entries| + n <= CAP
    ensures var s' := Run(calls, s, Others(i, n));
      && Inv(calls, s') && WellKeyed(s') && |s'.entries| == |s.entries| + n && NoneFrom(s', i + n)
      && s'.phases == s.phases && |s'.cells| == |s.cells| + n && s.cells <= s'.cells
    decreases n
  {
    hide Next, Inv;
    if n > 0 {
      var a := Warn(Numbered(i), 0);
      var s1 := Next(calls, s, a);
      OthersSplit(i, n);
      RunCons(calls, s, a, Others(i + 1, n - 1));
      WarnNew(calls, s, Numbered(i));
      Inserted(s.entries, Numbered(i), |s.cells|);
      forall j: nat | j >= i + 1 ensures Numbered(j) !in s1.entries { NumbersDiffer(i, j); }
      Fills(calls, s1, i + 1, n - 1);
    }
  }

  lemma RunCons(calls: Calls, s: State, a: Action, rest: seq<Action>)
    requires Inv(calls, s) && WellKeyed(s)
    ensures Inv(calls, Next(calls, s, a)) && WellKeyed(Next(calls, s, a))
    ensures Run(calls, s, [a] + rest) == Run(calls, Next(calls, s, a), rest)
  {
    StepKeeps(calls, s, a);
    hide Next, CallOk, CellOk;
    assert ([a] + rest)[1..] == rest;
  }

  lemma {:induction false} RunTwo(calls: Calls, s: State, first: seq<Action>, second: seq<Action>)
    requires Inv(calls, s) && WellKeyed(s)
    ensures WellKeyed(Run(calls, s, first)) && Run(calls, s, first + second) == Run(calls, Run(calls, s, first), second)
    decreases |first|
  {
    hide Next, Inv;
    if |first| == 0 {
      assert first + second == second;
    } else {
      assert first == [first[0]] + first[1..] && first + second == [first[0]] + (first[1..] + second);
      RunCons(calls, s, first[0], first[1..]);
      RunCons(calls, s, first[0], first[1..] + second);
      RunTwo(calls, Next(calls, s, first[0]), first[1..], second);
    }
  }

  /** A map with one entry besides the numbered bearers is full after 255 of them; one more clears it. */
  lemma Clears(calls: Calls, s: State)
    requires Inv(calls, s) && WellKeyed(s) && NoneFrom(s, 0) && |s.entries| == 1
    ensures var s' := Run(calls, s, Others(0, 256));
      && Inv(calls, s') && WellKeyed(s') && s'.entries.Keys == {Numbered(255)} && s'.phases == s.phases
      && |s'.cells| == |s.cells| + 256 && s.cells <= s'.cells
  {
    hide Next, Inv, Run;
    var s1 := Run(calls, s, Others(0, 255));
    Fills(calls, s, 0, 255);
    assert Others(0, 256) == Others(0, 255) + [Warn(Numbered(255), 0)];
    RunTwo(calls, s, Others(0, 255), [Warn(Numbered(255), 0)]);
    WarnNew(calls, s1, Numbered(255));
    RunCons(calls, s1, Warn(Numbered(255), 0), []);
    RunNothing(calls, Next(calls, s1, Warn(Numbered(255), 0)));
    assert [Warn(Numbered(255), 0)] + [] == [Warn(Numbered(255), 0)];
  }

  lemma RunNothing(calls: Calls, s: State)
    requires WellKeyed(s)
    ensures Run(calls, s, []) == s
  {
  }

  const BEARER := ""

  /** One bearer gets two yeses: it is warned about, 256 others fill the cache and clear it, and it is
      warned about again. */
  lemma WarnedTwice(calls: Calls)
    ensures WellKeyed(EMPTY) && Warned(EMPTY, BEARER, 0).1
    ensures var s := Run(calls, EMPTY, [Warn(BEARER, 0)] + Others(0, 256)); WellKeyed(s) && Warned(s, BEARER, 0).1
  {
    EmptyInv(calls);
    var s1 := Next(calls, EMPTY, Warn(BEARER, 0));
    WarnNew(calls, EMPTY, BEARER);
    WarnIff(calls, EMPTY, BEARER, 0);
    hide Run, Next, Inv, Others, Warned;
    RunCons(calls, EMPTY, Warn(BEARER, 0), Others(0, 256));
    OneEntry(s1);
    Clears(calls, s1);
    WarnIff(calls, Run(calls, s1, Others(0, 256)), BEARER, 0);
    assert Numbered(255) != BEARER;
  }

  lemma OneEntry(s: State)
    requires s.entries == map[BEARER := 0]
    ensures NoneFrom(s, 0) && |s.entries| == 1
  {
    forall j: nat ensures Numbered(j) != BEARER { assert |Numbered(j)| > 0; }
  }

  /** Call 0 of the bearer takes its entry, 256 others clear the cache, and call 1 is refused on a new
      entry: the refusal is in the map. */
  function Refusing(): seq<Action> { [Lookup(1), Enter(1), Answer(1, Refused)] }

  /** A call that still holds an entry from before a clear is not held back by a later refusal: it
      fetches for the bearer while the refusal stands. */
  lemma OrphanFetches(calls: Calls)
    requires calls(0).key == BEARER && calls(1).key == BEARER
    ensures var s := Run(calls, EMPTY, [Lookup(0)] + (Others(0, 256) + Refusing()));
      && WellKeyed(s) && Suppressed(s, BEARER, 257, calls(1).nowMs + TTL)
      && PhaseOf(s, 0) == Holding(0) && PhaseOf(Next(calls, s, Enter(0)), 0) == Fetching(0)
  {
    EmptyInv(calls);
    var s1 := Next(calls, EMPTY, Lookup(0));
    FirstLookup(calls);
    hide Run, Inv, Others, Refusing, Next, Suppressed;
    RunCons(calls, EMPTY, Lookup(0), Others(0, 256) + Refusing());
    OneEntry(s1);
    Clears(calls, s1);
    var s2 := Run(calls, s1, Others(0, 256));
    assert s2.cells[0] == s1.cells[0];
    assert Numbered(255) != BEARER;
    RunTwo(calls, s1, Others(0, 256), Refusing());
    RefusedAfterClear(calls, s2);
  }

  lemma FirstLookup(calls: Calls)
    requires calls(0).key == BEARER
    ensures WellKeyed(EMPTY) && Next(calls, EMPTY, Lookup(0)) ==
      State(map[BEARER := 0], [Cell(BEARER, None, false, None)], map[0 := Holding(0)], {})
  {
  }

  lemma RefusedAfterClear(calls: Calls, s: State)
    requires Inv(calls, s) && WellKeyed(s) && BEARER !in s.entries && |s.entries| < CAP && calls(1).key == BEARER
    requires s.phases == map[0 := Holding(0)] && |s.cells| == 257 && s.cells[0] == Cell(BEARER, None, false, None)
    ensures var s' := Run(calls, s, Refusing());
      && WellKeyed(s') && Suppressed(s', BEARER, 257, calls(1).nowMs + TTL)
      && PhaseOf(s', 0) == Holding(0) && PhaseOf(Next(calls, s', Enter(0)), 0) == Fetching(0)
  {
    RunThree(calls, s, Lookup(1), Enter(1), Answer(1, Refused));
    LookupMisses(calls, s);
    var s1 := Next(calls, s, Lookup(1));
    FetchIsRefused(calls, s1);
  }

  lemma RunThree(calls: Calls, s: State, a: Action, b: Action, c: Action)
    requires Inv(calls, s) && WellKeyed(s)
    ensures WellKeyed(Next(calls, s, a)) && WellKeyed(Next(calls, Next(calls, s, a), b))
    ensures var s' := Next(calls, Next(calls, Next(calls, s, a), b), c); WellKeyed(s') && Run(calls, s, [a, b, c]) == s'
  {
    hide Next, Inv, Run;
    var s1 := Next(calls, s, a);
    RunCons(calls, s, a, [b, c]);
    var s2 := Next(calls, s1, b);
    RunCons(calls, s1, b, [c]);
    RunCons(calls, s2, c, []);
    RunNothing(calls, Next(calls, s2, c));
    assert [a, b, c] == [a] + [b, c] && [b, c] == [b] + [c] && [c] == [c] + [];
  }

  lemma FetchIsRefused(calls: Calls, s: State)
    requires WellKeyed(s) && |s.cells| == 258 && BEARER in s.entries && s.entries[BEARER] == 257
    requires s.phases == map[0 := Holding(0), 1 := Holding(257)]
    requires s.cells[0] == Cell(BEARER, None, false, None) && s.cells[257] == Cell(BEARER, None, false, None)
    ensures WellKeyed(Next(calls, s, Enter(1)))
    ensures var s' := Next(calls, Next(calls, s, Enter(1)), Answer(1, Refused));
      && WellKeyed(s') && Suppressed(s', BEARER, 257, calls(1).nowMs + TTL)
      && PhaseOf(s', 0) == Holding(0) && PhaseOf(Next(calls, s', Enter(0)), 0) == Fetching(0)
  {
    hide EntryFor, Expired;
    var s1 := Next(calls, s, Enter(1));
    assert s1 == s.(phases := map[0 := Holding(0), 1 := Fetching(257)], cells := s.cells[257 := Cell(BEARER, None, false, Some(1))]);
  }

  lemma LookupMisses(calls: Calls, s: State)
    requires WellKeyed(s) && PhaseOf(s, 1) == Starting && calls(1).key !in s.entries && |s.entries| < CAP
    ensures var s' := Next(calls, s, Lookup(1));
      && s'.entries == s.entries[calls(1).key := |s.cells|] && s'.cells == s.cells + [Cell(calls(1).key, None, false, None)]
      && s'.phases == s.phases[1 := Holding(|s.cells|)]
  {
  }
}
