/** The cache of client identities (`src/control_identity.rs`): a bounded map of once-cells shared by
    concurrent calls, each cell filled by at most one fetch at a time.

    A run is a sequence of atomic steps of any number of calls in any order. A call looks its entry up
    under the map's lock, then either finds the cell set, or takes the cell's permit and fetches, or
    waits; a call may be dropped at any point. */
module IdentityCache {
  import opened Options

  datatype Client = Client(email: Option<string>, accountUuid: Option<string>)

  datatype Resolved = Identity(client: Client) | Unresolvable(untilMs: int)

  const CAP := 256
  const TTL := 60000

  /** One entry: the bearer hash it was made for, what it resolved to, whether a mismatch was logged,
      and the call that holds its permit. */
  datatype Cell = Cell(key: string, resolved: Option<Resolved>, warned: bool, flight: Option<nat>)

  datatype Phase =
    | Starting
    | Holding(cell: nat)
    | Fetching(cell: nat)
    | Done(result: Option<Client>)

  /** Entries are shared: the map names cells, and a call keeps the cell it got even when the map
      forgets it. `fetched` records which identity was fetched for which hash. */
  datatype State = State(entries: map<string, nat>, cells: seq<Cell>, phases: map<nat, Phase>, fetched: set<(string, Client)>)

  datatype Request = Request(key: string, nowMs: int)

  type Calls = nat -> Request

  datatype Reply = Profile(client: Client) | Refused | Transient

  datatype Action =
    | Lookup(call: nat)
    | Enter(call: nat)
    | Answer(call: nat, reply: Reply)
    | Drop(call: nat)
    | Warn(key: string, nowMs: int)

  function PhaseOf(s: State, c: nat): Phase { if c in s.phases then s.phases[c] else Starting }

  predicate Expired(cell: Cell, nowMs: int) {
    cell.resolved.Some? && cell.resolved.value.Unresolvable? && cell.resolved.value.untilMs <= nowMs
  }

  predicate WellKeyed(s: State) { forall k :: k in s.entries ==> s.entries[k] < |s.cells| && s.cells[s.entries[k]].key == k }

  /** The map once an expired entry for the key is gone and, if a new one would not fit, all are. */
  function Room(s: State, key: string, nowMs: int): map<string, nat>
    requires WellKeyed(s)
  {
    var kept := if key in s.entries && Expired(s.cells[s.entries[key]], nowMs) then s.entries - {key} else s.entries;
    if |kept| >= CAP && key !in kept then map[] else kept
  }

  /** `entry`: the cell for a key, made if there is none. */
  function EntryFor(s: State, key: string, nowMs: int): (r: (State, nat))
    requires WellKeyed(s)
    ensures r.1 < |r.0.cells| && r.0.cells[r.1].key == key
  {
    var room := Room(s, key, nowMs);
    if key in room then (s.(entries := room), room[key])
    else (s.(entries := room[key := |s.cells|], cells := s.cells + [Cell(key, None, false, None)]), |s.cells|)
  }

  function Move(s: State, c: nat, p: Phase): State { s.(phases := s.phases[c := p]) }

  function Result(r: Resolved): Option<Client> { if r.Identity? then Some(r.client) else None }

  /** A profile without an email and without a uuid is no identity. */
  predicate IsBlank(c: Client) { c.email.None? && c.accountUuid.None? }

  function Outcome(reply: Reply, nowMs: int): Option<Resolved> {
    match reply
    case Profile(client) => if IsBlank(client) then None else Some(Identity(client))
    case Refused => Some(Unresolvable(nowMs + TTL))
    case Transient => None
  }

  function Entered(s: State, c: nat, e: nat): State
    requires e < |s.cells|
  {
    var cell := s.cells[e];
    if cell.resolved.Some? then Move(s, c, Done(Result(cell.resolved.value)))
    else if cell.flight.None? then Move(s, c, Fetching(e)).(cells := s.cells[e := cell.(flight := Some(c))])
    else s
  }

  function Answered(calls: Calls, s: State, c: nat, e: nat, reply: Reply): State
    requires e < |s.cells|
  {
    var outcome := Outcome(reply, calls(c).nowMs);
    var cell := s.cells[e].(flight := None, resolved := if outcome.Some? then outcome else s.cells[e].resolved);
    var fetched := if reply.Profile? then s.fetched + {(calls(c).key, reply.client)} else s.fetched;
    Move(s, c, Done(if outcome.Some? then Result(outcome.value) else None)).(cells := s.cells[e := cell], fetched := fetched)
  }

  function Dropped(s: State, c: nat): State {
    var p := PhaseOf(s, c);
    var cells := if p.Fetching? && p.cell < |s.cells| then s.cells[p.cell := s.cells[p.cell].(flight := None)] else s.cells;
    Move(s, c, Done(None)).(cells := cells)
  }

  /** `first_warning`: the new state and the answer. */
  function Warned(s: State, key: string, nowMs: int): (State, bool)
    requires WellKeyed(s)
  {
    var (s', e) := EntryFor(s, key, nowMs);
    (s'.(cells := s'.cells[e := s'.cells[e].(warned := true)]), !s'.cells[e].warned)
  }

  /** Steps that do not apply change nothing. */
  function Next(calls: Calls, s: State, a: Action): State
    requires WellKeyed(s)
  {
    match a
    case Lookup(c) =>
      if PhaseOf(s, c).Starting? then
        var (s', e) := EntryFor(s, calls(c).key, calls(c).nowMs);
        Move(s', c, Holding(e))
      else s
    case Enter(c) => if PhaseOf(s, c).Holding? && PhaseOf(s, c).cell < |s.cells| then Entered(s, c, PhaseOf(s, c).cell) else s
    case Answer(c, reply) =>
      if PhaseOf(s, c).Fetching? && PhaseOf(s, c).cell < |s.cells| then Answered(calls, s, c, PhaseOf(s, c).cell, reply) else s
    case Drop(c) => if PhaseOf(s, c).Done? then s else Dropped(s, c)
    case Warn(key, nowMs) => Warned(s, key, nowMs).0
  }

  // ----- What every step keeps -----

  /** One call: its cell is for its own bearer, it fetches exactly when it holds the cell's permit, and
      what it returned was fetched for its bearer. */
  predicate CallOk(calls: Calls, s: State, c: nat) {
    var p := PhaseOf(s, c);
    && (p.Holding? || p.Fetching? ==> p.cell < |s.cells| && s.cells[p.cell].key == calls(c).key)
    && (p.Fetching? ==> s.cells[p.cell].flight == Some(c))
    && (p.Done? && p.result.Some? ==> (calls(c).key, p.result.value) in s.fetched)
  }

  /** One cell: a permit is out only while nothing is set, to a call that is fetching for it, and a set
      identity was fetched for its bearer. */
  predicate CellOk(s: State, e: nat)
    requires e < |s.cells|
  {
    var cell := s.cells[e];
    && (cell.flight.Some? ==> cell.resolved.None? && PhaseOf(s, cell.flight.value) == Fetching(e))
    && (cell.resolved.Some? && cell.resolved.value.Identity? ==> (cell.key, cell.resolved.value.client) in s.fetched)
  }

  ghost predicate Inv(calls: Calls, s: State) {
    && WellKeyed(s) && |s.entries| <= CAP
    && (forall c: nat :: CallOk(calls, s, c))
    && (forall e: nat :: e < |s.cells| ==> CellOk(s, e))
  }

  const EMPTY := State(map[], [], map[], {})

  lemma EmptyInv(calls: Calls)
    ensures Inv(calls, EMPTY)
  {
  }

  /** The map stays within its bound: an expired entry goes first, and a full map is cleared. */
  lemma RoomFits(s: State, key: string, nowMs: int)
    requires WellKeyed(s) && |s.entries| <= CAP
    ensures var room := Room(s, key, nowMs);
      && (key in room ==> |room| <= CAP) && (key !in room ==> |room| < CAP)
      && forall k :: k in room ==> k in s.entries && room[k] == s.entries[k]
  {
    if key in s.entries { assert |s.entries - {key}| == |s.entries| - 1 by { Removed(s.entries, key); } }
  }

  lemma Removed(m: map<string, nat>, key: string)
    requires key in m
    ensures |m - {key}| == |m| - 1
  {
    assert (m - {key}).Keys == m.Keys - {key};
    assert |m.Keys - {key}| == |m.Keys| - 1;
  }

  lemma Inserted(m: map<string, nat>, key: string, e: nat)
    requires key !in m
    ensures |m[key := e]| == |m| + 1
  {
    assert m[key := e].Keys == m.Keys + {key};
  }

  /** What a lookup leaves of the map and the cells. */
  lemma EntryShape(s: State, key: string, nowMs: int)
    requires WellKeyed(s) && |s.entries| <= CAP
    ensures var s' := EntryFor(s, key, nowMs).0;
      && |s'.entries| <= CAP && s'.phases == s.phases && s'.fetched == s.fetched
      && (s'.cells == s.cells || s'.cells == s.cells + [Cell(key, None, false, None)])
      && forall k :: k in s'.entries && k != key ==> k in s.entries && s'.entries[k] == s.entries[k]
    ensures var (s', e) := EntryFor(s, key, nowMs); key in s'.entries && s'.entries[key] == e
  {
    RoomFits(s, key, nowMs);
    var room := Room(s, key, nowMs);
    hide Room;
    if key !in room { Inserted(room, key, |s.cells|); }
  }

  lemma EntryKeeps(calls: Calls, s: State, key: string, nowMs: int)
    requires Inv(calls, s)
    ensures Inv(calls, EntryFor(s, key, nowMs).0)
  {
    EntryShape(s, key, nowMs);
    var s' := EntryFor(s, key, nowMs).0;
    hide EntryFor, Room;
    forall c: nat ensures CallOk(calls, s', c) { assert CallOk(calls, s, c); }
    forall d: nat | d < |s'.cells| ensures CellOk(s', d) { if d < |s.cells| { assert CellOk(s, d); } }
  }

  lemma LookupKeeps(calls: Calls, s: State, c: nat)
    requires Inv(calls, s) && PhaseOf(s, c).Starting?
    ensures Inv(calls, Next(calls, s, Lookup(c)))
  {
    EntryKeeps(calls, s, calls(c).key, calls(c).nowMs);
    var (s1, e) := EntryFor(s, calls(c).key, calls(c).nowMs);
    assert s1.phases == s.phases;
    hide EntryFor;
    MoveKeeps(calls, s1, c, Holding(e));
  }

  /** A call that holds no permit moves to a state that fits it. */
  lemma MoveKeeps(calls: Calls, s: State, c: nat, p: Phase)
    requires Inv(calls, s) && !PhaseOf(s, c).Fetching? && CallOk(calls, Move(s, c, p), c)
    ensures Inv(calls, Move(s, c, p))
  {
    var s' := Move(s, c, p);
    forall d: nat ensures CallOk(calls, s', d) { if d != c { assert CallOk(calls, s, d); } }
    forall e: nat | e < |s'.cells| ensures CellOk(s', e) { assert CellOk(s, e); }
  }

  lemma EnterKeeps(calls: Calls, s: State, c: nat)
    requires Inv(calls, s) && PhaseOf(s, c).Holding?
    ensures PhaseOf(s, c).cell < |s.cells| && Inv(calls, Entered(s, c, PhaseOf(s, c).cell))
  {
    var e := PhaseOf(s, c).cell;
    assert CallOk(calls, s, c);
    assert CellOk(s, e);
    var cell := s.cells[e];
    if cell.resolved.Some? {
      MoveKeeps(calls, s, c, Done(Result(cell.resolved.value)));
    } else if cell.flight.None? {
      var s' := Entered(s, c, e);
      forall d: nat ensures CallOk(calls, s', d) { assert CallOk(calls, s, d); }
      forall f: nat | f < |s'.cells| ensures CellOk(s', f) { assert CellOk(s, f); }
    }
  }

  lemma AnswerKeeps(calls: Calls, s: State, c: nat, reply: Reply)
    requires Inv(calls, s) && PhaseOf(s, c).Fetching?
    ensures PhaseOf(s, c).cell < |s.cells| && Inv(calls, Answered(calls, s, c, PhaseOf(s, c).cell, reply))
  {
    var e := PhaseOf(s, c).cell;
    assert CallOk(calls, s, c);
    assert CellOk(s, e);
    var s' := Answered(calls, s, c, e, reply);
    forall d: nat ensures CallOk(calls, s', d) { assert CallOk(calls, s, d); }
    forall f: nat | f < |s'.cells| ensures CellOk(s', f) { assert CellOk(s, f); }
  }

  lemma DropKeeps(calls: Calls, s: State, c: nat)
    requires Inv(calls, s)
    ensures Inv(calls, Dropped(s, c))
  {
    assert CallOk(calls, s, c);
    var s' := Dropped(s, c);
    forall d: nat ensures CallOk(calls, s', d) { assert CallOk(calls, s, d); }
    forall f: nat | f < |s'.cells| ensures CellOk(s', f) { assert CellOk(s, f); }
  }

  lemma WarnKeeps(calls: Calls, s: State, key: string, nowMs: int)
    requires Inv(calls, s)
    ensures Inv(calls, Warned(s, key, nowMs).0)
  {
    EntryKeeps(calls, s, key, nowMs);
    var (s1, e) := EntryFor(s, key, nowMs);
    hide EntryFor;
    FlagKeeps(calls, s1, e);
  }

  lemma FlagKeeps(calls: Calls, s: State, e: nat)
    requires Inv(calls, s) && e < |s.cells|
    ensures Inv(calls, s.(cells := s.cells[e := s.cells[e].(warned := true)]))
  {
    var s' := s.(cells := s.cells[e := s.cells[e].(warned := true)]);
    forall d: nat ensures CallOk(calls, s', d) { assert CallOk(calls, s, d); }
    forall f: nat | f < |s'.cells| ensures CellOk(s', f) { assert CellOk(s, f); }
  }

  lemma StepKeeps(calls: Calls, s: State, a: Action)
    requires Inv(calls, s)
    ensures Inv(calls, Next(calls, s, a))
  {
    match a
    case Lookup(c) => if PhaseOf(s, c).Starting? { LookupKeeps(calls, s, c); }
    case Enter(c) => if PhaseOf(s, c).Holding? { EnterKeeps(calls, s, c); }
    case Answer(c, reply) => if PhaseOf(s, c).Fetching? { AnswerKeeps(calls, s, c, reply); }
    case Drop(c) => DropKeeps(calls, s, c);
    case Warn(key, nowMs) => WarnKeeps(calls, s, key, nowMs);
  }

  function Run(calls: Calls, s: State, actions: seq<Action>): State
    requires WellKeyed(s)
    decreases |actions|
  {
    if |actions| == 0 then s
    else
      var s' := Next(calls, s, actions[0]);
      if WellKeyed(s') then Run(calls, s', actions[1..]) else s'
  }

  lemma {:induction false} RunKeeps(calls: Calls, s: State, actions: seq<Action>)
    requires Inv(calls, s)
    ensures Inv(calls, Run(calls, s, actions))
    decreases |actions|
  {
    hide Next, CallOk, CellOk;
    if |actions| > 0 {
      StepKeeps(calls, s, actions[0]);
      RunKeeps(calls, Next(calls, s, actions[0]), actions[1..]);
    }
  }

  // ----- Every run -----

  /** In every reachable state the cache is bounded, and each entry has at most one fetch in flight. */
  lemma BoundedAndSingleFlight(calls: Calls, actions: seq<Action>, c: nat, d: nat)
    ensures var s := Run(calls, EMPTY, actions);
      && |s.entries| <= CAP
      && (PhaseOf(s, c).Fetching? && PhaseOf(s, d) == PhaseOf(s, c) ==> c == d)
  {
    hide Run;
    var s := Run(calls, EMPTY, actions);
    EmptyInv(calls);
    RunKeeps(calls, EMPTY, actions);
    assert CallOk(calls, s, c) && CallOk(calls, s, d);
  }

  /** Every identity a call returned was fetched for the hash of that call's bearer. */
  lemma ReturnedWasFetched(calls: Calls, actions: seq<Action>, c: nat)
    ensures var s := Run(calls, EMPTY, actions);
      PhaseOf(s, c).Done? && PhaseOf(s, c).result.Some? ==> (calls(c).key, PhaseOf(s, c).result.value) in s.fetched
  {
    hide Run;
    var s := Run(calls, EMPTY, actions);
    EmptyInv(calls);
    RunKeeps(calls, EMPTY, actions);
    assert CallOk(calls, s, c);
  }

  /** A cell keeps its key, and once set keeps what it was set to. */
  predicate CellKept(s: State, s': State, e: nat)
    requires e < |s.cells|
  {
    && e < |s'.cells| && s'.cells[e].key == s.cells[e].key
    && (s.cells[e].resolved.Some? ==> s'.cells[e].resolved == s.cells[e].resolved)
    && (s.cells[e].warned ==> s'.cells[e].warned)
  }

  lemma StepKeepsCell(calls: Calls, s: State, a: Action, e: nat)
    requires Inv(calls, s) && e < |s.cells|
    ensures CellKept(s, Next(calls, s, a), e)
  {
    match a
    case Lookup(c) => EntryShape(s, calls(c).key, calls(c).nowMs);
    case Enter(c) =>
    case Answer(c, reply) =>
      assert CallOk(calls, s, c);
      if PhaseOf(s, c).Fetching? { assert CellOk(s, PhaseOf(s, c).cell); }
    case Drop(c) =>
    case Warn(key, nowMs) => EntryShape(s, key, nowMs);
  }

  /** A set entry never changes, for as long as anybody holds it. */
  lemma {:induction false} SetOnce(calls: Calls, s: State, actions: seq<Action>, e: nat)
    requires Inv(calls, s) && e < |s.cells|
    ensures CellKept(s, Run(calls, s, actions), e)
    decreases |actions|
  {
    hide Next, CallOk, CellOk;
    if |actions| > 0 {
      StepKeeps(calls, s, actions[0]);
      StepKeepsCell(calls, s, actions[0], e);
      SetOnce(calls, Next(calls, s, actions[0]), actions[1..], e);
    }
  }

  /** A transient failure, or a profile without an identity, is not remembered: the cell is as it was
      with its permit back, so the next call that enters it fetches. */
  lemma TransientIsForgotten(calls: Calls, s: State, c: nat, d: nat, reply: Reply)
    requires Inv(calls, s) && PhaseOf(s, c).Fetching? && (reply == Transient || reply == Profile(Client(None, None)))
    requires PhaseOf(s, d) == Holding(PhaseOf(s, c).cell)
    ensures var e := PhaseOf(s, c).cell;
      var s' := Next(calls, s, Answer(c, reply));
      && WellKeyed(s') && s'.entries == s.entries && e < |s'.cells| && s'.cells[e].resolved.None? && s'.cells[e].flight.None?
      && PhaseOf(s', c) == Done(None)
      && PhaseOf(Next(calls, s', Enter(d)), d) == Fetching(e)
  {
    assert CallOk(calls, s, c);
    assert CellOk(s, PhaseOf(s, c).cell);
  }

  // ----- A refusal is remembered -----

  /** The map holds a refusal of this bearer that lasts until `until`. */
  predicate Suppressed(s: State, key: string, e: nat, until: int) {
    key in s.entries && s.entries[key] == e && e < |s.cells| && s.cells[e].resolved == Some(Unresolvable(until))
  }

  /** The step asks for the bearer when the refusal is over, or clears the map for a new bearer. */
  predicate Lifts(calls: Calls, s: State, a: Action, key: string, until: int) {
    ((a.Lookup? && PhaseOf(s, a.call).Starting?) || a.Warn?) &&
      var k := if a.Lookup? then calls(a.call).key else a.key;
      var now := if a.Lookup? then calls(a.call).nowMs else a.nowMs;
      (k == key && now >= until) || (|s.entries| >= CAP && k !in s.entries)
  }

  predicate NeverLifted(calls: Calls, s: State, actions: seq<Action>, key: string, until: int)
    requires WellKeyed(s)
    decreases |actions|
  {
    |actions| > 0 ==>
      && !Lifts(calls, s, actions[0], key, until)
      && (WellKeyed(Next(calls, s, actions[0])) ==> NeverLifted(calls, Next(calls, s, actions[0]), actions[1..], key, until))
  }

  lemma EntrySuppressed(s: State, key: string, e: nat, until: int, k: string, nowMs: int)
    requires WellKeyed(s) && |s.entries| <= CAP && Suppressed(s, key, e, until)
    requires k == key ==> nowMs < until
    requires k !in s.entries ==> |s.entries| < CAP
    ensures var (s', f) := EntryFor(s, k, nowMs); Suppressed(s', key, e, until) && (k == key ==> f == e)
  {
    if k in s.entries { Removed(s.entries, k); }
  }

  lemma StepSuppressed(calls: Calls, s: State, a: Action, key: string, e: nat, until: int)
    requires Inv(calls, s) && Suppressed(s, key, e, until) && !Lifts(calls, s, a, key, until)
    ensures Suppressed(Next(calls, s, a), key, e, until)
  {
    StepKeepsCell(calls, s, a, e);
    match a
    case Lookup(c) => if PhaseOf(s, c).Starting? { EntrySuppressed(s, key, e, until, calls(c).key, calls(c).nowMs); }
    case Enter(c) =>
    case Answer(c, reply) =>
    case Drop(c) =>
    case Warn(k, nowMs) => EntrySuppressed(s, key, e, until, k, nowMs);
  }

  /** Exactly the lifting steps take a refusal out of the map. */
  lemma LiftsIff(calls: Calls, s: State, a: Action, key: string, e: nat, until: int)
    requires Inv(calls, s) && Suppressed(s, key, e, until)
    ensures Lifts(calls, s, a, key, until) <==> !Suppressed(Next(calls, s, a), key, e, until)
  {
    if Lifts(calls, s, a, key, until) {
      EntryLifted(s, key, e, until, if a.Lookup? then calls(a.call).key else a.key, if a.Lookup? then calls(a.call).nowMs else a.nowMs);
    } else {
      StepSuppressed(calls, s, a, key, e, until);
    }
  }

  lemma EntryLifted(s: State, key: string, e: nat, until: int, k: string, nowMs: int)
    requires WellKeyed(s) && Suppressed(s, key, e, until)
    requires (k == key && nowMs >= until) || (|s.entries| >= CAP && k !in s.entries)
    ensures var s' := EntryFor(s, k, nowMs).0; !(key in s'.entries && s'.entries[key] == e)
  {
  }

  /** Through any run that neither reaches the end of the refusal for this bearer nor clears the cache,
      the refusal stays in the map and nobody fetches on its entry. */
  lemma {:induction false} RefusalSuppresses(calls: Calls, s: State, actions: seq<Action>, key: string, e: nat, until: int, c: nat)
    requires Inv(calls, s) && Suppressed(s, key, e, until) && NeverLifted(calls, s, actions, key, until)
    ensures var s' := Run(calls, s, actions); Suppressed(s', key, e, until) && PhaseOf(s', c) != Fetching(e)
    decreases |actions|
  {
    if |actions| == 0 {
      assert CallOk(calls, s, c);
      assert CellOk(s, e);
    } else {
      hide Next, CallOk, CellOk, Suppressed;
      StepKeeps(calls, s, actions[0]);
      StepSuppressed(calls, s, actions[0], key, e, until);
      RefusalSuppresses(calls, Next(calls, s, actions[0]), actions[1..], key, e, until, c);
    }
  }

  /** A call for the bearer in that time gets the remembered entry, and no answer. */
  lemma SuppressedCall(calls: Calls, s: State, c: nat, key: string, e: nat, until: int)
    requires Inv(calls, s) && Suppressed(s, key, e, until) && PhaseOf(s, c).Starting?
    requires calls(c).key == key && calls(c).nowMs < until
    ensures var s1 := Next(calls, s, Lookup(c));
      && WellKeyed(s1) && PhaseOf(s1, c) == Holding(e) && s1.cells == s.cells
      && PhaseOf(Next(calls, s1, Enter(c)), c) == Done(None)
  {
    StepKeeps(calls, s, Lookup(c));
    EntrySuppressed(s, key, e, until, key, calls(c).nowMs);
  }

  /** And once the refusal is over the bearer is asked about again, on a new entry. */
  lemma RefusalEnds(calls: Calls, s: State, c: nat, key: string, e: nat, until: int)
    requires Inv(calls, s) && Suppressed(s, key, e, until) && PhaseOf(s, c).Starting?
    requires calls(c).key == key && calls(c).nowMs >= until
    ensures var s1 := Next(calls, s, Lookup(c));
      && WellKeyed(s1) && PhaseOf(s1, c) == Holding(|s.cells|)
      && PhaseOf(Next(calls, s1, Enter(c)), c) == Fetching(|s.cells|)
  {
    StepKeeps(calls, s, Lookup(c));
    EntryRenewed(s, key, e, until, calls(c).nowMs);
    hide EntryFor, CallOk, CellOk;
  }

  lemma EntryRenewed(s: State, key: string, e: nat, until: int, nowMs: int)
    requires WellKeyed(s) && |s.entries| <= CAP && Suppressed(s, key, e, until) && nowMs >= until
    ensures var (s', f) := EntryFor(s, key, nowMs);
      f == |s.cells| && s'.cells == s.cells + [Cell(key, None, false, None)] && s'.phases == s.phases
  {
    Removed(s.entries, key);
  }

  // ----- Warnings -----

  /** The answer is yes exactly when the map has no live entry for the bearer that was warned about. */
  lemma WarnIff(calls: Calls, s: State, key: string, nowMs: int)
    requires Inv(calls, s)
    ensures Warned(s, key, nowMs).1 <==>
      key !in s.entries || Expired(s.cells[s.entries[key]], nowMs) || !s.cells[s.entries[key]].warned
  {
    if key in s.entries { Removed(s.entries, key); }
  }

  /** So a bearer is warned about again once another bearer has cleared a full cache. */
  lemma WarnsAgainAfterClear(calls: Calls, s: State, key: string, other: string, nowMs: int)
    requires Inv(calls, s) && |s.entries| == CAP && other !in s.entries && key != other
    ensures var s1 := Next(calls, s, Warn(other, nowMs)); WellKeyed(s1) && Warned(s1, key, nowMs).1
  {
    StepKeeps(calls, s, Warn(other, nowMs));
    WarnIff(calls, Next(calls, s, Warn(other, nowMs)), key, nowMs);
  }
}
