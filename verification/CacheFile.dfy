/** The periodically saved caches (`src/cache_file.rs`, `src/save_gate.rs`, and the flusher loop of
    `src/server.rs`): a dirty flag, a wake-up permit and a gate that skips writes of what is already on
    disk. Contents stand for themselves: the hashes that identify them are taken to be collision free. */
module CacheFile {
  import opened Options

  /** What a file holds; the shape is the part of it that is written at once. */
  datatype Content = Content(shape: int, rest: int)

  datatype Written = Written(content: Content, at: int)

  datatype Skipped = Unchanged | Deferred(due: int)

  /** `SaveGate::skip`: nothing to write, or nothing yet; `None` is to write. */
  function Skip(last: Option<Written>, refresh: nat, content: Content, now: int): Option<Skipped> {
    if last.None? then None
    else if last.value.content == content then Some(Unchanged)
    else if last.value.content.shape != content.shape then None
    else if now < last.value.at + refresh then Some(Deferred(last.value.at + refresh))
    else None
  }

  datatype Outcome = Wrote | NotWritten(why: Skipped) | WriteFailed

  class SavedFile {
    var dirty: bool
    var permit: bool
    var last: Option<Written>
    const refresh: nat
    /** The file itself, which only this object writes. */
    var disk: Option<Content>

    /** The gate's record is the file. */
    ghost predicate Valid()
      reads this
    {
      last.Some? ==> disk == Some(last.value.content)
    }

    constructor (refresh: nat, disk: Option<Content>)
      ensures Valid() && !dirty && !permit && last == None && this.refresh == refresh && this.disk == disk
    {
      dirty, permit, last, this.refresh, this.disk := false, false, None, refresh, disk;
    }

    method Mark()
      requires Valid()
      modifies this
      ensures Valid() && dirty && permit && last == old(last) && disk == old(disk)
    {
      dirty := true;
      permit := true;
    }

    method Take() returns (was: bool)
      requires Valid()
      modifies this
      ensures Valid() && was == old(dirty) && !dirty && permit == old(permit) && last == old(last) && disk == old(disk)
    {
      was := dirty;
      dirty := false;
    }

    /** The unconditional save; `ok` is whether the write succeeds. */
    method Save(content: Content, now: int, ok: bool) returns (r: Outcome)
      requires Valid()
      modifies this
      ensures Valid() && dirty == old(dirty) && permit == old(permit)
      ensures ok ==> r == Wrote && disk == Some(content) && last == Some(Written(content, now))
      ensures !ok ==> r == WriteFailed && disk == old(disk) && last == old(last)
    {
      if !ok { return WriteFailed; }
      disk := Some(content);
      last := Some(Written(content, now));
      r := Wrote;
    }

    /** The flusher's save: afterwards the content is on disk, or the content of the same shape that is
        there is young, or the write failed and nothing was recorded. */
    method SaveIfChanged(content: Content, now: int, ok: bool) returns (r: Outcome)
      requires Valid()
      modifies this
      ensures Valid() && dirty == old(dirty) && permit == old(permit)
      ensures r == Wrote || r == NotWritten(Unchanged) ==> disk == Some(content)
      ensures r == Wrote ==> last == Some(Written(content, now))
      ensures r.NotWritten? || r == WriteFailed ==> disk == old(disk) && last == old(last)
      ensures r.NotWritten? && r.why.Deferred? ==>
        disk.Some? && disk.value.shape == content.shape && last.Some? && now < r.why.due == last.value.at + refresh
      ensures r == WriteFailed <==> !ok && Skip(old(last), refresh, content, now).None?
    {
      var skipped := Skip(last, refresh, content, now);
      if skipped.Some? { return NotWritten(skipped.value); }
      r := Save(content, now, ok);
    }
  }

  /** A write that was tried and failed is tried again: the same record, asked later, does not skip it. */
  lemma FailedIsRetried(last: Option<Written>, refresh: nat, content: Content, now: int, later: int)
    requires Skip(last, refresh, content, now).None? && now <= later
    ensures Skip(last, refresh, content, later).None?
  {
  }

  // ----- Markers and the flusher -----

  /** A request that changes the cache: it mutates, raises the flag, then notifies. */
  datatype Marker = Idle | Mutated | Stored

  /** The flusher waits (perhaps with a retry time), lets a delay pass, clears the flag, then saves. */
  datatype Phase = Waiting | Delaying | Taken

  /** `seen` is what the last save looked at, `looked` whether there was one, `failed` whether its write
      failed. */
  datatype State = State(mem: Content, seen: Content, disk: Option<Content>, last: Option<Written>, looked: bool, failed: bool,
                         dirty: bool, permit: bool, markers: map<nat, Marker>, phase: Phase, due: Option<int>, now: int)

  datatype Action =
    | Mutate(m: nat, content: Content)
    | Store(m: nat)
    | Notify(m: nat)
    | Tick(later: nat)
    | Wake
    | Timer
    | Take
    | Attempt(ok: bool)

  function MarkerOf(s: State, m: nat): Marker { if m in s.markers then s.markers[m] else Idle }

  function Attempted(s: State, refresh: nat, ok: bool): State {
    var s' := s.(seen := s.mem, phase := Waiting, due := None, looked := true, failed := false);
    match Skip(s.last, refresh, s.mem, s.now)
    case Some(Unchanged) => s'
    case Some(Deferred(due)) => s'.(due := Some(due))
    case None => if ok then s'.(disk := Some(s.mem), last := Some(Written(s.mem, s.now))) else s'.(failed := true)
  }

  /** Steps that do not apply change nothing. */
  function Next(s: State, refresh: nat, a: Action): State {
    match a
    case Mutate(m, content) => if MarkerOf(s, m).Idle? then s.(mem := content, markers := s.markers[m := Mutated]) else s
    case Store(m) => if MarkerOf(s, m).Mutated? then s.(dirty := true, markers := s.markers[m := Stored]) else s
    case Notify(m) => if MarkerOf(s, m).Stored? then s.(permit := true, markers := s.markers[m := Idle]) else s
    case Tick(later) => s.(now := s.now + later)
    case Wake => if s.phase.Waiting? && s.permit then s.(permit := false, phase := Delaying) else s
    case Timer => if s.phase.Waiting? && s.due.Some? && s.due.value <= s.now then s.(phase := Delaying) else s
    case Take => if s.phase.Delaying? then s.(dirty := false, phase := Taken) else s
    case Attempt(ok) => if s.phase.Taken? then Attempted(s, refresh, ok) else s
  }

  function Run(s: State, refresh: nat, actions: seq<Action>): State
    decreases |actions|
  {
    if |actions| == 0 then s else Run(Next(s, refresh, actions[0]), refresh, actions[1..])
  }

  function Start(content: Content, disk: Option<Content>): State {
    State(content, content, disk, None, false, false, false, false, map[], Waiting, None, 0)
  }

  // ----- No change is stranded -----

  ghost predicate AnyMarker(s: State, p: Marker) { exists m: nat :: MarkerOf(s, m) == p }

  /** The flag is up only with somebody on the way to it: a stored wake-up, a marker about to notify, or
      the flusher about to take. A change nobody has looked at has its flag up, or a marker about to
      raise it, or the flusher about to look. What the last look saw is on disk, or its write failed, or
      it is due for another look. The gate's record is the file. */
  ghost predicate Inv(s: State) {
    && (s.dirty ==> s.permit || AnyMarker(s, Stored) || s.phase.Delaying?)
    && (s.mem != s.seen ==> s.dirty || AnyMarker(s, Mutated) || s.phase.Taken?)
    && (s.looked && s.disk != Some(s.seen) ==> s.failed || s.due.Some?)
    && (!s.looked ==> s.last.None?)
    && (s.last.Some? ==> s.disk == Some(s.last.value.content) && (s.failed ==> s.disk != Some(s.seen)))
  }

  lemma StartInv(content: Content, disk: Option<Content>)
    ensures Inv(Start(content, disk))
  {
  }

  /** A marker moves on and the others stay. */
  lemma MarkerMoves(s: State, s': State, m: nat, p: Marker)
    requires s'.markers == s.markers[m := p]
    ensures p != MarkerOf(s, m) ==> forall q :: q != MarkerOf(s, m) && AnyMarker(s, q) ==> AnyMarker(s', q)
    ensures AnyMarker(s', p)
  {
    assert MarkerOf(s', m) == p;
    forall q | q != MarkerOf(s, m) && AnyMarker(s, q) ensures AnyMarker(s', q) {
      var k: nat :| MarkerOf(s, k) == q;
      assert MarkerOf(s', k) == q;
    }
  }

  lemma MarkerKeeps(s: State, refresh: nat, a: Action)
    requires Inv(s) && (a.Mutate? || a.Store? || a.Notify?)
    ensures Inv(Next(s, refresh, a))
  {
    var s' := Next(s, refresh, a);
    if s' != s { MarkerMoves(s, s', a.m, MarkerOf(s', a.m)); }
    hide AnyMarker;
  }

  lemma SameMarkers(s: State, s': State)
    requires s'.markers == s.markers
    ensures forall q :: AnyMarker(s, q) <==> AnyMarker(s', q)
  {
    forall q ensures AnyMarker(s, q) <==> AnyMarker(s', q) {
      if AnyMarker(s, q) {
        var k: nat :| MarkerOf(s, k) == q;
        assert MarkerOf(s', k) == q;
      }
      if AnyMarker(s', q) {
        var k: nat :| MarkerOf(s', k) == q;
        assert MarkerOf(s, k) == q;
      }
    }
  }

  lemma FlusherKeeps(s: State, refresh: nat, a: Action)
    requires Inv(s) && !(a.Mutate? || a.Store? || a.Notify?)
    ensures Inv(Next(s, refresh, a))
  {
    SameMarkers(s, Next(s, refresh, a));
    hide AnyMarker, MarkerOf, Attempted;
    if a.Attempt? && s.phase.Taken? { LookKeeps(s, refresh, a.ok); }
  }

  lemma LookKeeps(s: State, refresh: nat, ok: bool)
    requires Inv(s) && s.phase.Taken?
    ensures Inv(Attempted(s, refresh, ok))
  {
    SameMarkers(s, Attempted(s, refresh, ok));
    hide AnyMarker, MarkerOf;
  }

  lemma {:induction false} RunKeeps(s: State, refresh: nat, actions: seq<Action>)
    requires Inv(s)
    ensures Inv(Run(s, refresh, actions))
    decreases |actions|
  {
    hide Next, Inv;
    if |actions| > 0 {
      var a := actions[0];
      if a.Mutate? || a.Store? || a.Notify? { MarkerKeeps(s, refresh, a); } else { FlusherKeeps(s, refresh, a); }
      RunKeeps(Next(s, refresh, a), refresh, actions[1..]);
    }
  }

  /** No change is stranded, in any run from any start: a raised flag has a stored wake-up, a marker
      about to notify or the flusher about to take, and an unseen change has its flag up, a marker about
      to raise it or the flusher about to look. */
  lemma NoChangeStranded(content: Content, disk: Option<Content>, refresh: nat, actions: seq<Action>)
    ensures var s := Run(Start(content, disk), refresh, actions);
      && (s.dirty ==> s.permit || AnyMarker(s, Stored) || s.phase.Delaying?)
      && (s.mem != s.seen ==> s.dirty || AnyMarker(s, Mutated) || s.phase.Taken?)
      && (s.looked && s.disk != Some(s.seen) ==> s.failed || s.due.Some?)
  {
    hide Run, AnyMarker;
    StartInv(content, disk);
    RunKeeps(Start(content, disk), refresh, actions);
  }

  /** Once the markers are done, the flusher alone looks at whatever has changed. */
  lemma FlusherLooks(s: State, refresh: nat, ok: bool)
    requires Inv(s) && s.mem != s.seen && forall m: nat :: MarkerOf(s, m) == Idle
    ensures var s1 := Next(s, refresh, Wake);
      var s2 := Next(Next(s1, refresh, Take), refresh, Attempt(ok));
      s2.seen == s2.mem == s.mem && s2.looked
  {
    NoMarkers(s);
    hide AnyMarker, MarkerOf;
    assert s.phase.Taken? || s.phase.Delaying? || s.permit;
    var s1 := Next(s, refresh, Wake);
    var s2 := Next(s1, refresh, Take);
    assert s2.phase.Taken? && s2.mem == s.mem;
    hide Skip;
  }

  lemma NoMarkers(s: State)
    requires forall m: nat :: MarkerOf(s, m) == Idle
    ensures !AnyMarker(s, Stored) && !AnyMarker(s, Mutated)
  {
  }

  /** The step writes the file, and so the gate's record. */
  predicate Writes(s: State, refresh: nat, a: Action) { Next(s, refresh, a).last != s.last }

  predicate NoWrites(s: State, refresh: nat, actions: seq<Action>)
    decreases |actions|
  {
    |actions| > 0 ==> !Writes(s, refresh, actions[0]) && NoWrites(Next(s, refresh, actions[0]), refresh, actions[1..])
  }

  /** Without a write the gate's record stays, and the clock does not go back. */
  lemma {:induction false} RecordStays(s: State, refresh: nat, actions: seq<Action>)
    requires NoWrites(s, refresh, actions)
    ensures var s' := Run(s, refresh, actions); s'.last == s.last && s'.disk == s.disk && s'.now >= s.now
    decreases |actions|
  {
    if |actions| > 0 {
      StepWithoutWrite(s, refresh, actions[0]);
      hide Next, Writes;
      RecordStays(Next(s, refresh, actions[0]), refresh, actions[1..]);
    }
  }

  lemma StepWithoutWrite(s: State, refresh: nat, a: Action)
    requires !Writes(s, refresh, a)
    ensures var s' := Next(s, refresh, a); s'.last == s.last && s'.disk == s.disk && s'.now >= s.now
  {
    hide MarkerOf;
    if a.Attempt? && s.phase.Taken? { LookWithoutWrite(s, refresh, a.ok); }
    hide Attempted;
  }

  lemma LookWithoutWrite(s: State, refresh: nat, ok: bool)
    requires Attempted(s, refresh, ok).last == s.last
    ensures var s' := Attempted(s, refresh, ok); s'.disk == s.disk && s'.now == s.now
  {
  }

  /** A write that failed is not held against the content: through any run in which no write succeeds,
      whatever else changes, every later look at the same content writes it. */
  lemma FailedLookIsRetried(s: State, refresh: nat, actions: seq<Action>)
    requires s.phase.Taken? && Attempted(s, refresh, false).failed
    requires NoWrites(Attempted(s, refresh, false), refresh, actions)
    ensures var s' := Run(Attempted(s, refresh, false), refresh, actions);
      s'.phase.Taken? && s'.mem == s.mem ==>
        Writes(s', refresh, Attempt(true)) && Next(s', refresh, Attempt(true)).disk == Some(s.mem)
  {
    hide Run, NoWrites;
    var s1 := Attempted(s, refresh, false);
    RecordStays(s1, refresh, actions);
    FailedIsRetried(s.last, refresh, s.mem, s.now, Run(s1, refresh, actions).now);
  }

  // ----- Shutdown -----

  /** The final write of the bound-token map: only when the flag is up. */
  function ShutdownBound(s: State, ok: bool): State {
    if s.dirty && ok then s.(dirty := false, disk := Some(s.mem)) else s.(dirty := false)
  }

  /** The flusher is stopped while it waits or lets its delay pass, never between clearing the flag and
      saving. With the markers done and nothing deferred, the final write then leaves the map on disk
      exactly when something changed since the last look, or there was a look and it did not fail, or
      this process has written nothing and the file it found at its start already holds the map. */
  lemma ShutdownSavesIff(s: State)
    requires Inv(s) && (forall m: nat :: MarkerOf(s, m) == Idle) && !s.phase.Taken? && s.due.None?
    ensures ShutdownBound(s, true).disk == Some(s.mem) <==>
      s.dirty || (s.looked && !s.failed) || (s.last.None? && s.disk == Some(s.mem))
    ensures ShutdownBound(s, false).disk == s.disk && forall ok :: !ShutdownBound(s, ok).dirty
  {
    NoMarkers(s);
  }

  /** Nothing is ever deferred when every change is part of the shape, as it is for the bound tokens. */
  lemma {:induction false} NothingDeferred(s: State, refresh: nat, actions: seq<Action>)
    requires s.due.None? && AllShape(s.mem) && (s.last.Some? ==> AllShape(s.last.value.content)) && ShapeOnly(actions)
    ensures Run(s, refresh, actions).due.None?
    decreases |actions|
  {
    if |actions| > 0 {
      ShapeStep(s, refresh, actions[0]);
      hide Next;
      NothingDeferred(Next(s, refresh, actions[0]), refresh, actions[1..]);
    }
  }

  /** A content whose shape says all of it. */
  predicate AllShape(c: Content) { c.rest == c.shape }

  predicate ShapeOnly(actions: seq<Action>) { forall i :: 0 <= i < |actions| && actions[i].Mutate? ==> AllShape(actions[i].content) }

  lemma ShapeStep(s: State, refresh: nat, a: Action)
    requires s.due.None? && AllShape(s.mem) && (s.last.Some? ==> AllShape(s.last.value.content)) && (a.Mutate? ==> AllShape(a.content))
    ensures var s' := Next(s, refresh, a); s'.due.None? && AllShape(s'.mem) && (s'.last.Some? ==> AllShape(s'.last.value.content))
  {
    hide MarkerOf;
    if a.Attempt? { ShapeLook(s, refresh, a.ok); }
    hide Attempted;
  }

  lemma ShapeLook(s: State, refresh: nat, ok: bool)
    requires s.due.None? && AllShape(s.mem) && (s.last.Some? ==> AllShape(s.last.value.content))
    ensures var s' := Attempted(s, refresh, ok);
      s'.due.None? && s'.mem == s.mem && (s'.last.Some? ==> AllShape(s'.last.value.content))
  {
  }

  /** So for the bound tokens the condition is exact after every run from every start. */
  lemma ShutdownAfterRun(content: Content, disk: Option<Content>, refresh: nat, actions: seq<Action>)
    requires AllShape(content) && ShapeOnly(actions)
    requires var s := Run(Start(content, disk), refresh, actions); (forall m: nat :: MarkerOf(s, m) == Idle) && !s.phase.Taken?
    ensures var s := Run(Start(content, disk), refresh, actions);
      ShutdownBound(s, true).disk == Some(s.mem) <==>
        s.dirty || (s.looked && !s.failed) || (s.last.None? && s.disk == Some(s.mem))
  {
    hide Run, Inv, ShutdownBound;
    StartInv(content, disk);
    RunKeeps(Start(content, disk), refresh, actions);
    NothingDeferred(Start(content, disk), refresh, actions);
    ShutdownSavesIff(Run(Start(content, disk), refresh, actions));
  }

  /** After a failed flush the flag is down, and the final write does not happen: the change is lost
      although the disk could be written again. */
  lemma ShutdownLosesAfterFailure(refresh: nat, a: Content, b: Content)
    requires a != b
    ensures var s := Run(Start(a, Some(a)), refresh, [Mutate(0, b), Store(0), Notify(0), Wake, Take, Attempt(false)]);
      s.mem == b && s.failed && !s.dirty && ShutdownBound(s, true).disk == Some(a)
  {
    var s0 := Start(a, Some(a));
    var s1 := Next(s0, refresh, Mutate(0, b));
    var s2 := Next(s1, refresh, Store(0));
    var s3 := Next(s2, refresh, Notify(0));
    var s4 := Next(s3, refresh, Wake);
    var s5 := Next(s4, refresh, Take);
    var s6 := Next(s5, refresh, Attempt(false));
    RunSix(s0, refresh, Mutate(0, b), Store(0), Notify(0), Wake, Take, Attempt(false));
    assert s5.phase.Taken? && s5.mem == b && s5.last.None?;
  }

  lemma RunSix(s: State, refresh: nat, a: Action, b: Action, c: Action, d: Action, e: Action, f: Action)
    ensures Run(s, refresh, [a, b, c, d, e, f]) ==
      Next(Next(Next(Next(Next(Next(s, refresh, a), refresh, b), refresh, c), refresh, d), refresh, e), refresh, f)
  {
    hide Next, Run;
    assert [a, b, c, d, e, f] == [a] + [b, c, d, e, f] && [b, c, d, e, f] == [b] + [c, d, e, f];
    assert [c, d, e, f] == [c] + [d, e, f] && [d, e, f] == [d] + [e, f] && [e, f] == [e] + [f] && [f] == [f] + [];
    RunCons(s, refresh, a, [b, c, d, e, f]);
    var s1 := Next(s, refresh, a);
    RunCons(s1, refresh, b, [c, d, e, f]);
    var s2 := Next(s1, refresh, b);
    RunCons(s2, refresh, c, [d, e, f]);
    var s3 := Next(s2, refresh, c);
    RunCons(s3, refresh, d, [e, f]);
    var s4 := Next(s3, refresh, d);
    RunCons(s4, refresh, e, [f]);
    RunCons(Next(s4, refresh, e), refresh, f, []);
    RunNothing(Next(Next(s4, refresh, e), refresh, f), refresh);
  }

  lemma RunCons(s: State, refresh: nat, a: Action, rest: seq<Action>)
    ensures Run(s, refresh, [a] + rest) == Run(Next(s, refresh, a), refresh, rest)
  {
    assert ([a] + rest)[1..] == rest;
  }

  lemma RunNothing(s: State, refresh: nat)
    ensures Run(s, refresh, []) == s
  {
  }
}
