/** What the flusher is for (`src/save_gate.rs`, and the flusher loop of `src/server.rs`): a change of the
    shape is written at once, a change of the rest within the refresh period, a burst of changes once,
    and an idle process neither wakes nor writes. */
module CacheFlush {
  import opened Options
  import opened CacheFile

  /** The gate's rule: write when nothing was written yet, or the content is another and either its shape
      is too or the last write is old enough. */
  lemma GateIff(last: Option<Written>, refresh: nat, content: Content, now: int)
    ensures Skip(last, refresh, content, now).None? <==>
      last.None? || (last.value.content != content && (last.value.content.shape != content.shape || now - last.value.at >= refresh))
    ensures Skip(last, refresh, content, now) == Some(Unchanged) <==> last.Some? && last.value.content == content
    ensures forall due :: Skip(last, refresh, content, now) == Some(Deferred(due)) ==>
      last.Some? && now < due && due - last.value.at == refresh
  {
  }

  // ----- One look per wake-up -----

  /** From a stored wake-up the flusher goes once round: it has seen what is there, the flag is down, no
      wake-up is left and it waits, for the time the gate named if it deferred. */
  lemma OneLook(s: State, refresh: nat, ok: bool)
    requires s.phase.Waiting? && s.permit
    ensures var s' := Run(s, refresh, [Wake, Take, Attempt(ok)]);
      && s'.phase.Waiting? && !s'.permit && !s'.dirty && s'.seen == s'.mem == s.mem && s'.looked && s'.now == s.now
      && s'.markers == s.markers
      && (forall due :: s'.due == Some(due) <==> Skip(s.last, refresh, s.mem, s.now) == Some(Deferred(due)))
      && (s'.failed <==> !ok && Skip(s.last, refresh, s.mem, s.now).None?)
      && s'.disk == (if ok && Skip(s.last, refresh, s.mem, s.now).None? then Some(s.mem) else s.disk)
      && s'.last == (if ok && Skip(s.last, refresh, s.mem, s.now).None? then Some(Written(s.mem, s.now)) else s.last)
  {
    hide Skip;
    RunThree(s, refresh, Wake, Take, Attempt(ok));
  }

  lemma RunThree(s: State, refresh: nat, a: Action, b: Action, c: Action)
    ensures Run(s, refresh, [a, b, c]) == Next(Next(Next(s, refresh, a), refresh, b), refresh, c)
  {
    hide Next, Run;
    assert [a, b, c] == [a] + [b, c] && [b, c] == [b] + [c] && [c] == [c] + [];
    RunCons(s, refresh, a, [b, c]);
    RunCons(Next(s, refresh, a), refresh, b, [c]);
    RunCons(Next(Next(s, refresh, a), refresh, b), refresh, c, []);
    RunNothing(Next(Next(Next(s, refresh, a), refresh, b), refresh, c), refresh);
  }

  // ----- Nothing happens by itself -----

  /** Nobody changes the cache. */
  predicate NoTraffic(actions: seq<Action>) {
    forall i :: 0 <= i < |actions| ==> !actions[i].Mutate? && !actions[i].Store? && !actions[i].Notify?
  }

  function Clock(now: int, actions: seq<Action>): int
    decreases |actions|
  {
    if |actions| == 0 then now else Clock(if actions[0].Tick? then now + actions[0].later else now, actions[1..])
  }

  lemma {:induction false} ClockAdvances(now: int, actions: seq<Action>)
    ensures now <= Clock(now, actions)
    decreases |actions|
  {
    if |actions| > 0 { ClockAdvances(if actions[0].Tick? then now + actions[0].later else now, actions[1..]); }
  }

  /** Without traffic a waiting flusher with no stored wake-up does nothing before its retry time, and
      nothing ever when there is none. */
  lemma {:induction false} QuietUntilDue(s: State, refresh: nat, actions: seq<Action>)
    requires s.phase.Waiting? && !s.permit && NoTraffic(actions)
    requires s.due.Some? ==> Clock(s.now, actions) < s.due.value
    ensures Run(s, refresh, actions) == s.(now := Clock(s.now, actions))
    decreases |actions|
  {
    if |actions| > 0 {
      var a := actions[0];
      ClockAdvances(if a.Tick? then s.now + a.later else s.now, actions[1..]);
      assert Next(s, refresh, a) == if a.Tick? then s.(now := s.now + a.later) else s;
      QuietUntilDue(Next(s, refresh, a), refresh, actions[1..]);
    }
  }

  /** A process in which nothing changes writes nothing, its shutdown included. */
  lemma IdleWritesNothing(content: Content, disk: Option<Content>, refresh: nat, actions: seq<Action>, ok: bool)
    requires NoTraffic(actions)
    ensures var s := Run(Start(content, disk), refresh, actions); s.disk == disk && ShutdownBound(s, ok).disk == disk
  {
    QuietUntilDue(Start(content, disk), refresh, actions);
  }

  // ----- A deferred change reaches the disk within the refresh period -----

  /** A retry time is the refresh period after the last write. */
  predicate IsDue(s: State, refresh: nat) {
    s.due.Some? ==> s.last.Some? && s.due.value - s.last.value.at == refresh
  }

  lemma StepIsDue(s: State, refresh: nat, a: Action)
    requires IsDue(s, refresh)
    ensures IsDue(Next(s, refresh, a), refresh)
  {
    hide MarkerOf;
    if a.Attempt? && s.phase.Taken? { LookIsDue(s, refresh, a.ok); }
    hide Attempted;
  }

  lemma LookIsDue(s: State, refresh: nat, ok: bool)
    ensures IsDue(Attempted(s, refresh, ok), refresh)
  {
  }

  lemma {:induction false} RunIsDue(s: State, refresh: nat, actions: seq<Action>)
    requires IsDue(s, refresh)
    ensures IsDue(Run(s, refresh, actions), refresh)
    decreases |actions|
  {
    hide Next, IsDue;
    if |actions| > 0 {
      StepIsDue(s, refresh, actions[0]);
      RunIsDue(Next(s, refresh, actions[0]), refresh, actions[1..]);
    }
  }

  /** The wait until the retry time. */
  function Wait(s: State): nat
    requires s.due.Some?
  {
    if s.due.value > s.now then s.due.value - s.now else 0
  }

  /** In every run from any start, a waiting flusher with a retry time writes what is in memory when that
      time comes, with no further change: no later than the refresh period after the last write, or at
      once when that is over. */
  lemma DeferredReachesDisk(content: Content, disk: Option<Content>, refresh: nat, actions: seq<Action>)
    requires var s := Run(Start(content, disk), refresh, actions); s.phase.Waiting? && s.due.Some?
    ensures var s := Run(Start(content, disk), refresh, actions);
      var s' := Run(Next(s, refresh, Tick(Wait(s))), refresh, [Timer, Take, Attempt(true)]);
      && s.last.Some? && s'.disk == Some(s.mem) && s'.mem == s.mem && s'.due.None?
      && s'.now == if s.now < s.last.value.at + refresh then s.last.value.at + refresh else s.now
  {
    hide Run, Start;
    var s := Run(Start(content, disk), refresh, actions);
    StartIsDue(content, disk, refresh);
    RunIsDue(Start(content, disk), refresh, actions);
    StartInv(content, disk);
    RunKeeps(Start(content, disk), refresh, actions);
    RunThree(Next(s, refresh, Tick(Wait(s))), refresh, Timer, Take, Attempt(true));
    hide AnyMarker, MarkerOf;
  }

  lemma StartIsDue(content: Content, disk: Option<Content>, refresh: nat)
    ensures IsDue(Start(content, disk), refresh)
  {
  }
}
