/** What becomes of a login that is a symbolic link, or is not there (`src/codex_token_store.rs`,
    `write_back_with_digest`): both checks refuse it, and exactly one interleaving gets past them. */
module TokenLinks {
  import opened Options
  import opened TokenStore

  /** Both checks refuse what is not a regular file and leave it alone; they refuse nothing else. */
  lemma LinkIsRefused(c: Setup, s: State, w: nat)
    requires PhaseOf(s, w).Locked? || PhaseOf(s, w).Prepared?
    ensures var s' := Next(c, s, Advance(w));
      s'.file == s.file && (PhaseOf(s', w) == Done(Failed) <==> !s.file.Regular?) && (PhaseOf(s', w).Done? ==> s'.holder.None?)
  {
  }

  /** So a writer left alone with one gives up. */
  lemma AloneOverLink(c: Setup, w: nat, file: File, more: nat)
    requires !file.Regular?
    ensures var s := Run(c, Initial(file), Alone(w, 2 + more)); s.file == file && PhaseOf(s, w) == Done(Failed)
  {
    var s1 := Advanced(c, Initial(file), w);
    AloneStep(c, Initial(file), w, 2 + more);
    AloneStep(c, s1, w, 1 + more);
    LinkIsRefused(c, s1, w);
    DoneAlone(c, Advanced(c, s1, w), w, more);
  }

  lemma {:induction false} DoneAlone(c: Setup, s: State, w: nat, n: nat)
    requires PhaseOf(s, w).Done?
    ensures Run(c, s, Alone(w, n)) == s
  {
    if n > 0 {
      AloneStep(c, s, w, n);
      DoneAlone(c, s, w, n - 1);
    }
  }

  // ----- Through every run -----

  /** A link put in place between a writer's second check and its final read, with the very bytes that
      writer read first. */
  predicate IsLateLink(s: State, file: File) {
    && s.holder.Some? && PhaseOf(s, s.holder.value).Rechecked?
    && file.Link? && file.target == Some(PhaseOf(s, s.holder.value).original)
  }

  predicate NoLateWrites(c: Setup, s: State, actions: seq<Action>)
    decreases |actions|
  {
    |actions| > 0 ==>
      && (actions[0].External? ==> !InGap(s) && !IsLateLink(s, actions[0].file))
      && NoLateWrites(c, Next(c, s, actions[0]), actions[1..])
  }

  /** Nobody is on the way to replace what is not a regular file. */
  predicate IsSafe(s: State) { !s.file.Regular? ==> !InGap(s) && !IsLateLink(s, s.file) }

  lemma AdvanceSafe(c: Setup, s: State, w: nat)
    requires Inv(c, s) && IsSafe(s)
    ensures IsSafe(Advanced(c, s, w)) && (!s.file.Regular? ==> Advanced(c, s, w).file == s.file)
  {
    assert Settled(c, w, PhaseOf(s, w), s.file, s.holder, TempOf(s, w));
    hide Inv, Settled, Update, IsLogin, RefreshChanged;
    if s.holder.Some? && s.holder.value != w { AdvancedOther(c, s, w, s.holder.value); }
    AdvancedSelf(c, s, w);
  }

  lemma StepSafe(c: Setup, s: State, a: Action)
    requires Inv(c, s) && IsSafe(s) && (a.External? ==> !InGap(s) && !IsLateLink(s, a.file))
    ensures IsSafe(Next(c, s, a)) && (!s.file.Regular? && !a.External? ==> Next(c, s, a).file == s.file)
  {
    hide Inv, Advanced;
    match a
    case External(file) => if s.holder.Some? { ExternalPhases(c, s, file, s.holder.value); }
    case Advance(w) => AdvanceSafe(c, s, w);
    case Fail(w, unlinked) =>
  }

  lemma {:induction false} RunSafe(c: Setup, s: State, actions: seq<Action>, left: File)
    requires Inv(c, s) && IsSafe(s) && NoLateWrites(c, s, actions) && (!left.Regular? ==> s.file == left)
    ensures !LastExternal(left, actions).Regular? ==> Run(c, s, actions).file == LastExternal(left, actions)
    decreases |actions|
  {
    hide Inv, IsSafe, InGap, IsLateLink, Advanced;
    if |actions| > 0 {
      var a := actions[0];
      StepKeeps(c, s, a);
      StepSafe(c, s, a);
      RunSafe(c, Next(c, s, a), actions[1..], if a.External? then a.file else left);
    }
  }

  /** In every run without a write in a gap and without a late link, a link or a missing file stays until
      somebody else replaces it. */
  lemma LinkStays(c: Setup, file: File, actions: seq<Action>)
    requires NoLateWrites(c, Initial(file), actions) && !LastExternal(file, actions).Regular?
    ensures Run(c, Initial(file), actions).file == LastExternal(file, actions)
  {
    hide Inv;
    InitialInv(c, file);
    RunSafe(c, Initial(file), actions, file);
  }

  lemma StepMissing(c: Setup, s: State, a: Action)
    requires Inv(c, s) && (s.file.Missing? ==> !InGap(s)) && (a.External? ==> !InGap(s))
    ensures var s' := Next(c, s, a); (s'.file.Missing? ==> !InGap(s')) && (s.file.Missing? && !a.External? ==> s'.file == s.file)
  {
    hide Inv, Advanced;
    match a
    case External(file) => if s.holder.Some? { ExternalPhases(c, s, file, s.holder.value); }
    case Advance(w) => if s.file.Missing? { AdvanceSafe(c, s, w); } else { AdvancedFile(c, s, w); }
    case Fail(w, unlinked) =>
  }

  /** Only a publication changes the file, and it leaves a regular one. */
  lemma AdvancedFile(c: Setup, s: State, w: nat)
    ensures Advanced(c, s, w).file == s.file || Advanced(c, s, w).file.Regular?
  {
    hide RefreshChanged, IsLogin, Update;
  }

  lemma {:induction false} RunMissing(c: Setup, s: State, actions: seq<Action>, left: File)
    requires Inv(c, s) && (s.file.Missing? ==> !InGap(s)) && NoGapWrites(c, s, actions) && (left.Missing? ==> s.file == left)
    ensures LastExternal(left, actions).Missing? ==> Run(c, s, actions).file.Missing?
    decreases |actions|
  {
    hide Inv, InGap, Advanced;
    if |actions| > 0 {
      var a := actions[0];
      StepKeeps(c, s, a);
      StepMissing(c, s, a);
      RunMissing(c, Next(c, s, a), actions[1..], if a.External? then a.file else left);
    }
  }

  /** A login that somebody removed is put back by nobody else, in every run without a write in a gap. */
  lemma MissingStays(c: Setup, file: File, actions: seq<Action>)
    requires NoGapWrites(c, Initial(file), actions) && LastExternal(file, actions).Missing?
    ensures Run(c, Initial(file), actions).file.Missing?
  {
    hide Inv;
    InitialInv(c, file);
    RunMissing(c, Initial(file), actions, file);
  }

  /** Of the links that come after the second check, exactly those with the bytes read first are replaced. */
  lemma LateLinkReplacedIff(c: Setup, s: State, w: nat, target: Option<string>)
    requires PhaseOf(s, w).Rechecked?
    ensures Run(c, s, [External(Link(target)), Advance(w), Advance(w)]).file ==
            if target == Some(PhaseOf(s, w).original) then Regular(c.codec.pretty(PhaseOf(s, w).edited)) else Link(target)
  {
    hide RefreshChanged;
    var s1 := Next(c, s, External(Link(target)));
    ExternalPhases(c, s, Link(target), w);
    var s2 := Next(c, s1, Advance(w));
    var actions := [External(Link(target)), Advance(w), Advance(w)];
    assert actions[1..] == [Advance(w), Advance(w)] && actions[1..][1..] == [Advance(w)];
    assert Run(c, s2, [Advance(w)]) == Run(c, Next(c, s2, Advance(w)), []);
    assert Run(c, s1, [Advance(w), Advance(w)]) == Run(c, s2, [Advance(w)]);
  }

  /** And from any login with the source token there is a run in which that happens. */
  lemma LateLinkIsReplaced(c: Setup, w: nat, start: File)
    requires start.Regular? && Holds(c.codec, start, c.request(w).expected) && IsPresent(c.request(w).tokens.refresh)
    ensures Run(c, Initial(start), Alone(w, 5) + [External(Link(Some(start.bytes))), Advance(w), Advance(w)]).file.Regular?
  {
    hide Update, IsLogin, Run, Alone;
    var late := [External(Link(Some(start.bytes))), Advance(w), Advance(w)];
    var s := Run(c, Initial(start), Alone(w, 5));
    AloneRechecked(c, w, start);
    LateLinkReplacedIff(c, s, w, Some(start.bytes));
    RunAppend(c, Initial(start), Alone(w, 5), late);
  }

  lemma AloneRechecked(c: Setup, w: nat, start: File)
    requires start.Regular? && Holds(c.codec, start, c.request(w).expected) && IsPresent(c.request(w).tokens.refresh)
    ensures var p := PhaseOf(Run(c, Initial(start), Alone(w, 5)), w); p.Rechecked? && p.original == start.bytes
  {
    hide Update, IsLogin;
    var s0 := Initial(start);
    var s1 := Advanced(c, s0, w);
    var s2 := Advanced(c, s1, w);
    var s3 := Advanced(c, s2, w);
    var s4 := Advanced(c, s3, w);
    AloneStep(c, s0, w, 5);
    AloneStep(c, s1, w, 4);
    AloneStep(c, s2, w, 3);
    AloneStep(c, s3, w, 2);
    AloneStep(c, s4, w, 1);
    assert Run(c, Advanced(c, s4, w), Alone(w, 0)) == Advanced(c, s4, w);
    hide Run;
    assert PhaseOf(s3, w).Loaded? && PhaseOf(s3, w).original == start.bytes;
    assert PhaseOf(s4, w).Prepared? && PhaseOf(s4, w).original == start.bytes;
  }
}
