/** Publishing rotated Codex tokens into `auth.json` (`src/codex_token_store.rs`,
    `write_back_with_digest`): tcr writers that share an advisory lock, run against processes that
    write the file in place and know nothing of the lock.

    A run is a sequence of atomic steps in any order. Every system call of a writer is one step, an
    external process may put any file in place at any time, and any call of a writer may fail. */
module TokenStore {
  import opened Options
  import opened JsonTree

  // ----- The document -----

  /** The JSON reader and pretty printer, and the digest a source token is remembered by. */
  datatype Codec = Codec(parse: string -> Option<Json>, pretty: Json -> string, digest: string -> string)

  datatype Tokens = Tokens(idToken: Option<string>, access: string, refresh: Option<string>)

  /** `Value::get`. */
  function Get(d: Json, name: string): Option<Json> {
    if d.JObj? && name in d.fields then Some(d.fields[name]) else None
  }

  /** Whether an optional string field of a derived struct can hold what the document has. */
  predicate IsOptionalText(d: Json, name: string) {
    Get(d, name).None? || Get(d, name).value.JStr? || Get(d, name).value == JBare("null")
  }

  function Text(d: Json, name: string): Option<string> {
    if Get(d, name).Some? && Get(d, name).value.JStr? then Some(Get(d, name).value.text) else None
  }

  predicate IsPresent(t: Option<string>) { t.Some? && t.value != "" }

  /** A ChatGPT login: an object whose `tokens` hold an access and a refresh token. */
  predicate IsLogin(d: Json) {
    && d.JObj? && IsOptionalText(d, "auth_mode") && (Text(d, "auth_mode").Some? ==> Text(d, "auth_mode").value == "chatgpt")
    && Get(d, "tokens").Some? && IsTokenData(Get(d, "tokens").value)
  }

  predicate IsTokenData(t: Json) {
    && t.JObj? && IsOptionalText(t, "id_token") && IsOptionalText(t, "account_id")
    && IsPresent(Text(t, "access_token")) && IsPresent(Text(t, "refresh_token"))
  }

  /** The refresh token the final comparison looks at: any text there, login or not. */
  function RefreshText(d: Json): Option<string> {
    if Get(d, "tokens").Some? then Text(Get(d, "tokens").value, "refresh_token") else None
  }

  function WithTokens(fields: map<string, Json>, t: Tokens): map<string, Json>
    requires t.refresh.Some?
  {
    var kept := if t.idToken.Some? then fields["id_token" := JStr(t.idToken.value)] else fields;
    kept["access_token" := JStr(t.access)]["refresh_token" := JStr(t.refresh.value)]
  }

  /** The document a writer publishes. */
  function Update(d: Json, t: Tokens, now: string): Json
    requires IsLogin(d) && t.refresh.Some?
  {
    JObj(d.fields["tokens" := JObj(WithTokens(d.fields["tokens"].fields, t))]["last_refresh" := JStr(now)])
  }

  /** A document without the fields a publication may write. */
  function Strip(d: Json): Json {
    if !d.JObj? then d
    else if Get(d, "tokens").Some? && d.fields["tokens"].JObj? then
      JObj((d.fields - {"last_refresh"})["tokens" := JObj(d.fields["tokens"].fields - {"id_token", "access_token", "refresh_token"})])
    else JObj(d.fields - {"last_refresh"})
  }

  lemma TokensKept(fields: map<string, Json>, t: Tokens)
    requires t.refresh.Some?
    ensures var names := {"id_token", "access_token", "refresh_token"};
      WithTokens(fields, t) - names == fields - names
  {
  }

  /** A publication keeps every field but the tokens and `last_refresh`. */
  lemma UpdateKeeps(d: Json, t: Tokens, now: string)
    requires IsLogin(d) && t.refresh.Some?
    ensures Strip(Update(d, t, now)) == Strip(d)
  {
    hide WithTokens;
    TokensKept(d.fields["tokens"].fields, t);
    var e := Update(d, t, now);
    assert Strip(e).fields == Strip(d).fields;
  }

  /** What is published is a login with the new tokens; without a new id token it keeps the old. */
  lemma UpdateWrites(d: Json, t: Tokens, now: string)
    requires IsLogin(d) && IsPresent(t.refresh)
    ensures RefreshText(Update(d, t, now)) == t.refresh && Text(Update(d, t, now), "last_refresh") == Some(now)
    ensures Text(Update(d, t, now).fields["tokens"], "access_token") == Some(t.access)
    ensures Get(Update(d, t, now).fields["tokens"], "id_token") ==
            if t.idToken.Some? then Some(JStr(t.idToken.value)) else Get(d.fields["tokens"], "id_token")
    ensures IsLogin(Update(d, t, now)) <==> t.access != ""
  {
  }

  // ----- The state -----

  /** What the path names. Reading follows a link; renaming replaces whatever is there. */
  datatype File = Missing | Link(target: Option<string>) | Regular(bytes: string)

  function Contents(f: File): Option<string> {
    match f
    case Missing => None
    case Link(target) => target
    case Regular(bytes) => Some(bytes)
  }

  datatype Result = Published | Superseded | WouldBlock | Failed

  /** How far one writer has come. `original` is what it read; `edited` is what it will publish;
      `undisturbed` records that nothing else has written since its final read. */
  datatype Phase =
    | Waiting
    | Locked
    | Linkless
    | Loaded(original: string, document: Json)
    | Prepared(original: string, edited: Json)
    | Rechecked(original: string, edited: Json)
    | Compared(original: string, edited: Json, undisturbed: bool)
    | Done(result: Result)

  /** `temps` are the private temporary files on disk, by writer. */
  datatype State = State(file: File, holder: Option<nat>, phases: map<nat, Phase>, temps: map<nat, string>)

  function PhaseOf(s: State, w: nat): Phase { if w in s.phases then s.phases[w] else Waiting }

  /** What each writer was asked to do. */
  datatype Request = Request(expected: string, tokens: Tokens, now: string)

  datatype Setup = Setup(codec: Codec, request: nat -> Request)

  /** What is taken for granted of a run's reader, printer and requests: what a request publishes is read
      back as the document it prints, and digests do not collide. */
  ghost predicate Lawful(c: Setup) {
    && (forall s, w: nat ::
          c.codec.parse(s).Some? && IsLogin(c.codec.parse(s).value) && c.request(w).tokens.refresh.Some? ==>
            ReadsBack(c.codec, Update(c.codec.parse(s).value, c.request(w).tokens, c.request(w).now)))
    && (forall a, b :: c.codec.digest(a) == c.codec.digest(b) ==> a == b)
  }

  predicate ReadsBack(c: Codec, d: Json) { c.parse(c.pretty(d)) == Some(d) }

  datatype Action =
    | External(file: File)
    | Advance(w: nat)
    | Fail(w: nat, unlinked: bool)

  function Enter(s: State, w: nat, p: Phase): State { s.(phases := s.phases[w := p]) }

  /** A writer returns: the lock goes with its handle, and an unpublished temporary is emptied. */
  function Finish(s: State, w: nat, r: Result, unlinked: bool): State {
    s.(phases := s.phases[w := Done(r)], holder := None,
       temps := if w !in s.temps then s.temps else if unlinked then s.temps - {w} else s.temps[w := ""])
  }

  /** `read`: the document, if the bytes are a login. */
  function Document(c: Codec, f: File): Option<Json> {
    var bytes :- Contents(f);
    c.parse(bytes)
  }

  /** What the first read leads to. */
  function AfterRead(c: Setup, s: State, w: nat): State {
    var d := Document(c.codec, s.file);
    if d.None? || !IsLogin(d.value) then Finish(s, w, Failed, true)
    else if c.codec.digest(RefreshText(d.value).value) != c.request(w).expected then Finish(s, w, Superseded, true)
    else Enter(s, w, Loaded(Contents(s.file).value, d.value))
  }

  function AfterPrepare(c: Setup, s: State, w: nat, original: string, d: Json): State {
    var t := c.request(w).tokens;
    if !IsPresent(t.refresh) || !IsLogin(d) then Finish(s, w, Failed, true)
    else
      var edited := Update(d, t, c.request(w).now);
      Enter(s, w, Prepared(original, edited)).(temps := s.temps[w := c.codec.pretty(edited)])
  }

  /** What the final read leads to. */
  function AfterCompare(c: Setup, s: State, w: nat, original: string, edited: Json): State {
    if Contents(s.file).None? then Finish(s, w, Failed, true)
    else if Contents(s.file).value == original then Enter(s, w, Compared(original, edited, true))
    else if RefreshChanged(c, s.file, w) then Finish(s, w, Superseded, true)
    else Finish(s, w, WouldBlock, true)
  }

  /** The file holds the text of a refresh token, and it is another one. */
  predicate RefreshChanged(c: Setup, f: File, w: nat) {
    var d := Document(c.codec, f);
    && d.Some? && RefreshText(d.value).Some?
    && c.codec.digest(RefreshText(d.value).value) != c.request(w).expected
  }

  function Publish(c: Setup, s: State, w: nat, edited: Json): State {
    Finish(s.(file := Regular(c.codec.pretty(edited)), temps := s.temps - {w}), w, Published, true)
  }

  function Advanced(c: Setup, s: State, w: nat): State {
    match PhaseOf(s, w)
    case Waiting => if s.holder.None? then Enter(s, w, Locked).(holder := Some(w)) else s
    case Locked => if s.file.Regular? then Enter(s, w, Linkless) else Finish(s, w, Failed, true)
    case Linkless => AfterRead(c, s, w)
    case Loaded(original, document) => AfterPrepare(c, s, w, original, document)
    case Prepared(original, edited) => if s.file.Regular? then Enter(s, w, Rechecked(original, edited)) else Finish(s, w, Failed, true)
    case Rechecked(original, edited) => AfterCompare(c, s, w, original, edited)
    case Compared(_, edited, _) => Publish(c, s, w, edited)
    case Done(_) => s
  }

  /** A write by somebody else ends the undisturbed stretch of whoever is past its final read. */
  function Disturb(p: Phase): Phase { if p.Compared? then p.(undisturbed := false) else p }

  function Next(c: Setup, s: State, a: Action): State {
    match a
    case External(file) => s.(file := file, phases := map w | w in s.phases :: Disturb(s.phases[w]))
    case Advance(w) => Advanced(c, s, w)
    case Fail(w, unlinked) => if PhaseOf(s, w).Done? || PhaseOf(s, w).Waiting? then s else Finish(s, w, Failed, unlinked)
  }

  function Run(c: Setup, s: State, actions: seq<Action>): State
    decreases |actions|
  {
    if |actions| == 0 then s else Run(c, Next(c, s, actions[0]), actions[1..])
  }

  lemma {:induction false} RunAppend(c: Setup, s: State, first: seq<Action>, second: seq<Action>)
    ensures Run(c, s, first + second) == Run(c, Run(c, s, first), second)
    decreases |first|
  {
    hide Next;
    if |first| == 0 {
      assert first + second == second;
    } else {
      assert (first + second)[1..] == first[1..] + second;
      RunAppend(c, Next(c, s, first[0]), first[1..], second);
    }
  }

  function Initial(file: File): State { State(file, None, map[], map[]) }

  // ----- What every step keeps -----

  /** A writer between taking the lock and returning. */
  predicate IsActive(p: Phase) { !p.Waiting? && !p.Done? }

  predicate HasTemp(p: Phase) { p.Prepared? || p.Rechecked? || p.Compared? }

  /** A writer's notes: it read a login whose refresh token was the expected one, and what it will
      publish is that document with the new tokens. */
  predicate Faithful(c: Setup, w: nat, p: Phase) {
    && (p.Loaded? ==> Source(c, w, p.original) && c.codec.parse(p.original) == Some(p.document))
    && (HasTemp(p) ==> Source(c, w, p.original) && Edited(c, w, p.original, p.edited))
  }

  predicate Source(c: Setup, w: nat, original: string) {
    var d := c.codec.parse(original);
    d.Some? && IsLogin(d.value) && c.codec.digest(RefreshText(d.value).value) == c.request(w).expected
  }

  predicate Edited(c: Setup, w: nat, original: string, edited: Json)
    requires Source(c, w, original)
  {
    && IsPresent(c.request(w).tokens.refresh)
    && edited == Update(c.codec.parse(original).value, c.request(w).tokens, c.request(w).now)
  }

  function TempOf(s: State, w: nat): string { if w in s.temps then s.temps[w] else "" }

  /** One writer in one state: it holds the lock exactly while active, its notes are faithful, an
      undisturbed final read still describes the file, and a live temporary belongs to a writer
      that has yet to publish it. */
  predicate Settled(c: Setup, w: nat, p: Phase, file: File, holder: Option<nat>, temp: string) {
    && (IsActive(p) <==> holder == Some(w))
    && Faithful(c, w, p)
    && (p.Compared? && p.undisturbed ==> Contents(file) == Some(p.original))
    && (temp != "" ==> HasTemp(p))
  }

  ghost predicate Inv(c: Setup, s: State) {
    forall w: nat :: Settled(c, w, PhaseOf(s, w), s.file, s.holder, TempOf(s, w))
  }

  lemma InitialInv(c: Setup, file: File)
    ensures Inv(c, Initial(file))
  {
  }

  /** A change that touches one writer only, and the file only when nobody else is active. */
  predicate OnlyWriter(s: State, s': State, w: nat, v: nat) {
    v != w ==> PhaseOf(s', v) == PhaseOf(s, v) && TempOf(s', v) == TempOf(s, v)
  }

  lemma WriterMoves(c: Setup, s: State, s': State, w: nat)
    requires Inv(c, s) && (s.holder.None? || s.holder == Some(w)) && (s'.holder.None? || s'.holder == Some(w))
    requires forall v: nat :: OnlyWriter(s, s', w, v)
    requires Settled(c, w, PhaseOf(s', w), s'.file, s'.holder, TempOf(s', w))
    ensures Inv(c, s')
  {
    hide Faithful, PhaseOf, TempOf, Contents;
    forall v: nat ensures Settled(c, v, PhaseOf(s', v), s'.file, s'.holder, TempOf(s', v)) {
      assert OnlyWriter(s, s', w, v);
      assert Settled(c, v, PhaseOf(s, v), s.file, s.holder, TempOf(s, v));
    }
  }

  lemma EnterKeeps(c: Setup, s: State, w: nat, p: Phase)
    requires Inv(c, s) && s.holder == Some(w) && IsActive(p) && Faithful(c, w, p)
    requires p.Compared? && p.undisturbed ==> Contents(s.file) == Some(p.original)
    requires HasTemp(PhaseOf(s, w)) ==> HasTemp(p)
    ensures Inv(c, Enter(s, w, p))
  {
    assert Settled(c, w, PhaseOf(s, w), s.file, s.holder, TempOf(s, w));
    hide Faithful;
    WriterMoves(c, s, Enter(s, w, p), w);
  }

  lemma FinishKeeps(c: Setup, s: State, w: nat, r: Result, unlinked: bool)
    requires Inv(c, s) && s.holder == Some(w)
    ensures Inv(c, Finish(s, w, r, unlinked))
  {
    hide Inv;
    WriterMoves(c, s, Finish(s, w, r, unlinked), w);
  }

  lemma LockKeeps(c: Setup, s: State, w: nat)
    requires Inv(c, s) && s.holder.None? && PhaseOf(s, w).Waiting?
    ensures Inv(c, Enter(s, w, Locked).(holder := Some(w)))
  {
    assert Settled(c, w, PhaseOf(s, w), s.file, s.holder, TempOf(s, w));
    WriterMoves(c, s, Enter(s, w, Locked).(holder := Some(w)), w);
  }

  lemma ReadKeeps(c: Setup, s: State, w: nat)
    requires Inv(c, s) && s.holder == Some(w) && PhaseOf(s, w).Linkless?
    ensures Inv(c, AfterRead(c, s, w))
  {
    hide Inv, Finish, Enter;
    var d := Document(c.codec, s.file);
    if d.None? || !IsLogin(d.value) {
      FinishKeeps(c, s, w, Failed, true);
    } else if c.codec.digest(RefreshText(d.value).value) != c.request(w).expected {
      FinishKeeps(c, s, w, Superseded, true);
    } else {
      EnterKeeps(c, s, w, Loaded(Contents(s.file).value, d.value));
    }
  }

  lemma PrepareKeeps(c: Setup, s: State, w: nat)
    requires Inv(c, s) && s.holder == Some(w) && PhaseOf(s, w).Loaded?
    ensures Inv(c, AfterPrepare(c, s, w, PhaseOf(s, w).original, PhaseOf(s, w).document))
  {
    var p := PhaseOf(s, w);
    assert Settled(c, w, p, s.file, s.holder, TempOf(s, w));
    if !IsPresent(c.request(w).tokens.refresh) || !IsLogin(p.document) {
      FinishKeeps(c, s, w, Failed, true);
    } else {
      hide Inv, IsLogin, Update;
      WriterMoves(c, s, AfterPrepare(c, s, w, p.original, p.document), w);
    }
  }

  lemma CompareKeeps(c: Setup, s: State, w: nat)
    requires Inv(c, s) && s.holder == Some(w) && PhaseOf(s, w).Rechecked?
    ensures Inv(c, AfterCompare(c, s, w, PhaseOf(s, w).original, PhaseOf(s, w).edited))
  {
    var p := PhaseOf(s, w);
    assert Settled(c, w, p, s.file, s.holder, TempOf(s, w));
    hide Inv, Finish, Enter, RefreshChanged, Source, Edited;
    if Contents(s.file).None? {
      FinishKeeps(c, s, w, Failed, true);
    } else if Contents(s.file).value == p.original {
      EnterKeeps(c, s, w, Compared(p.original, p.edited, true));
    } else {
      FinishKeeps(c, s, w, Superseded, true);
      FinishKeeps(c, s, w, WouldBlock, true);
    }
  }

  lemma PublishKeeps(c: Setup, s: State, w: nat)
    requires Inv(c, s) && s.holder == Some(w) && PhaseOf(s, w).Compared?
    ensures Inv(c, Publish(c, s, w, PhaseOf(s, w).edited))
  {
    hide Inv;
    WriterMoves(c, s, Publish(c, s, w, PhaseOf(s, w).edited), w);
  }

  lemma AdvanceKeeps(c: Setup, s: State, w: nat)
    requires Inv(c, s)
    ensures Inv(c, Advanced(c, s, w))
  {
    var p := PhaseOf(s, w);
    assert Settled(c, w, p, s.file, s.holder, TempOf(s, w));
    hide Inv, Finish, Enter, AfterRead, AfterPrepare, AfterCompare, Publish, Source, Edited;
    match p {
      case Waiting => if s.holder.None? { LockKeeps(c, s, w); }
      case Locked =>
        FinishKeeps(c, s, w, Failed, true);
        EnterKeeps(c, s, w, Linkless);
      case Linkless => ReadKeeps(c, s, w);
      case Loaded(_, _) => PrepareKeeps(c, s, w);
      case Prepared(original, edited) =>
        FinishKeeps(c, s, w, Failed, true);
        EnterKeeps(c, s, w, Rechecked(original, edited));
      case Rechecked(_, _) => CompareKeeps(c, s, w);
      case Compared(_, _, _) => PublishKeeps(c, s, w);
      case Done(_) =>
    }
  }

  lemma ExternalPhases(c: Setup, s: State, file: File, v: nat)
    ensures PhaseOf(Next(c, s, External(file)), v) == Disturb(PhaseOf(s, v))
  {
  }

  lemma ExternalKeeps(c: Setup, s: State, file: File)
    requires Inv(c, s)
    ensures Inv(c, Next(c, s, External(file)))
  {
    var s' := Next(c, s, External(file));
    forall v: nat ensures Settled(c, v, PhaseOf(s', v), s'.file, s'.holder, TempOf(s', v)) {
      assert Settled(c, v, PhaseOf(s, v), s.file, s.holder, TempOf(s, v));
      ExternalPhases(c, s, file, v);
    }
  }

  lemma StepKeeps(c: Setup, s: State, a: Action)
    requires Inv(c, s)
    ensures Inv(c, Next(c, s, a))
  {
    match a
    case External(file) => ExternalKeeps(c, s, file);
    case Advance(w) => AdvanceKeeps(c, s, w);
    case Fail(w, unlinked) =>
      assert Settled(c, w, PhaseOf(s, w), s.file, s.holder, TempOf(s, w));
      if IsActive(PhaseOf(s, w)) { FinishKeeps(c, s, w, Failed, unlinked); }
  }

  /** The invariant holds in every reachable state. */
  lemma {:induction false} RunKeeps(c: Setup, s: State, actions: seq<Action>)
    requires Inv(c, s)
    ensures Inv(c, Run(c, s, actions))
    decreases |actions|
  {
    hide Inv, Next;
    if |actions| > 0 {
      StepKeeps(c, s, actions[0]);
      RunKeeps(c, Next(c, s, actions[0]), actions[1..]);
    }
  }

  // ----- What a publication replaces -----

  /** In every reachable state, a writer about to publish that has not been disturbed since its
      final read replaces exactly the bytes it read, by that document with the new tokens. */
  lemma PublishReplacesWhatWasRead(c: Setup, file: File, actions: seq<Action>, w: nat)
    requires Lawful(c)
    requires var p := PhaseOf(Run(c, Initial(file), actions), w); p.Compared? && p.undisturbed
    ensures var s := Run(c, Initial(file), actions);
      var s' := Next(c, s, Advance(w));
      var p := PhaseOf(s, w);
      && Contents(s.file) == Some(p.original) && PhaseOf(s', w) == Done(Published)
      && Source(c, w, p.original) && c.request(w).tokens.refresh.Some?
      && Document(c.codec, s'.file) == Some(Update(c.codec.parse(p.original).value, c.request(w).tokens, c.request(w).now))
  {
    hide Run;
    var s := Run(c, Initial(file), actions);
    InitialInv(c, file);
    RunKeeps(c, Initial(file), actions);
    assert Settled(c, w, PhaseOf(s, w), s.file, s.holder, TempOf(s, w));
  }

  /** At most one writer is between its lock and its return. */
  lemma WritersExclude(c: Setup, file: File, actions: seq<Action>, v: nat, w: nat)
    ensures var s := Run(c, Initial(file), actions);
      IsActive(PhaseOf(s, v)) && IsActive(PhaseOf(s, w)) ==> v == w
  {
    var s := Run(c, Initial(file), actions);
    InitialInv(c, file);
    RunKeeps(c, Initial(file), actions);
    assert Settled(c, v, PhaseOf(s, v), s.file, s.holder, TempOf(s, v));
    assert Settled(c, w, PhaseOf(s, w), s.file, s.holder, TempOf(s, w));
  }

  /** A writer that has returned leaves no live credentials in a temporary file. */
  lemma NoLeftovers(c: Setup, file: File, actions: seq<Action>, w: nat)
    ensures var s := Run(c, Initial(file), actions); PhaseOf(s, w).Done? && w in s.temps ==> s.temps[w] == ""
  {
    var s := Run(c, Initial(file), actions);
    InitialInv(c, file);
    RunKeeps(c, Initial(file), actions);
    assert Settled(c, w, PhaseOf(s, w), s.file, s.holder, TempOf(s, w));
  }

  // ----- External edits survive -----

  /** The gap the protocol cannot close: after the final read, before the rename. */
  predicate InGap(s: State) { s.holder.Some? && PhaseOf(s, s.holder.value).Compared? }

  predicate NoGapWrites(c: Setup, s: State, actions: seq<Action>)
    decreases |actions|
  {
    |actions| > 0 ==>
      (actions[0].External? ==> !InGap(s)) && NoGapWrites(c, Next(c, s, actions[0]), actions[1..])
  }

  /** The file as somebody else last left it. */
  function LastExternal(base: File, actions: seq<Action>): File
    decreases |actions|
  {
    if |actions| == 0 then base
    else LastExternal(if actions[0].External? then actions[0].file else base, actions[1..])
  }

  /** The file is what was left, or the same document but for the tokens and `last_refresh`. */
  predicate Carries(c: Codec, left: File, now: File) {
    || now == left
    || (Document(c, now).Some? && Document(c, left).Some? && Strip(Document(c, now).value) == Strip(Document(c, left).value))
  }

  predicate Undisturbed(s: State) { InGap(s) ==> PhaseOf(s, s.holder.value).undisturbed }

  lemma PublishCarries(c: Setup, s: State, w: nat, left: File)
    requires Lawful(c) && Inv(c, s) && PhaseOf(s, w).Compared? && Undisturbed(s) && Carries(c.codec, left, s.file)
    ensures Carries(c.codec, left, Publish(c, s, w, PhaseOf(s, w).edited).file)
  {
    var p := PhaseOf(s, w);
    assert Settled(c, w, p, s.file, s.holder, TempOf(s, w));
    hide Inv, Update, Strip, IsLogin;
    UpdateKeeps(c.codec.parse(p.original).value, c.request(w).tokens, c.request(w).now);
  }

  lemma AdvancedOther(c: Setup, s: State, w: nat, v: nat)
    requires v != w
    ensures PhaseOf(Advanced(c, s, w), v) == PhaseOf(s, v)
  {
    hide Document, RefreshChanged, IsLogin, Update, Contents;
  }

  /** Where one step can take a writer: it comes past its first read only over a login with its
      source token, and returns true only by publishing. */
  predicate Follows(c: Setup, w: nat, file: File, p: Phase, q: Phase) {
    || q == p
    || (q.Done? && (q.result == Published <==> p.Compared?))
    || (p.Waiting? && q.Locked?) || (p.Locked? && q.Linkless?)
    || (p.Linkless? && q.Loaded? && Holds(c.codec, file, c.request(w).expected))
    || (p.Loaded? && q.Prepared?) || (p.Prepared? && q.Rechecked?)
    || (p.Rechecked? && q.Compared? && q.undisturbed)
  }

  /** Only a publication changes the file, and the lock goes with the writer. */
  lemma AdvancedSelf(c: Setup, s: State, w: nat)
    requires IsActive(PhaseOf(s, w)) ==> s.holder == Some(w)
    ensures var s' := Advanced(c, s, w);
      var p, q := PhaseOf(s, w), PhaseOf(s', w);
      && Follows(c, w, s.file, p, q) && (!p.Compared? ==> s'.file == s.file)
      && (if q == p then s'.holder == s.holder else s'.holder == if q.Done? then None else Some(w))
      && (p.Compared? ==> q == Done(Published) && s' == Publish(c, s, w, p.edited)) && (p.Done? ==> s' == s)
  {
    hide RefreshChanged, IsLogin, Update;
  }

  lemma WriterStep(c: Setup, s: State, w: nat)
    requires Inv(c, s) && Undisturbed(s)
    ensures Undisturbed(Advanced(c, s, w))
    ensures !PhaseOf(s, w).Compared? ==> Advanced(c, s, w).file == s.file
  {
    assert Settled(c, w, PhaseOf(s, w), s.file, s.holder, TempOf(s, w));
    hide Inv, Advanced, Settled;
    AdvancedSelf(c, s, w);
    if s.holder.Some? && s.holder.value != w { AdvancedOther(c, s, w, s.holder.value); }
  }

  lemma StepCarries(c: Setup, s: State, a: Action, left: File)
    requires Lawful(c) && Inv(c, s) && Undisturbed(s) && Carries(c.codec, left, s.file)
    requires a.External? ==> !InGap(s)
    ensures Undisturbed(Next(c, s, a))
    ensures Carries(c.codec, if a.External? then a.file else left, Next(c, s, a).file)
  {
    hide Lawful, Inv, Carries, Advanced;
    match a
    case External(file) =>
      CarriesItself(c.codec, file);
      if s.holder.Some? { ExternalPhases(c, s, file, s.holder.value); }
    case Advance(w) =>
      WriterStep(c, s, w);
      if PhaseOf(s, w).Compared? {
        PublishCarries(c, s, w, left);
        HolderIs(c, s, w);
        AdvancedSelf(c, s, w);
      }
    case Fail(w, unlinked) =>
  }

  lemma CarriesItself(c: Codec, f: File)
    ensures Carries(c, f, f)
  {
  }

  lemma {:induction false} RunCarries(c: Setup, s: State, actions: seq<Action>, left: File)
    requires Lawful(c) && Inv(c, s) && Undisturbed(s) && Carries(c.codec, left, s.file)
    requires NoGapWrites(c, s, actions)
    ensures Carries(c.codec, LastExternal(left, actions), Run(c, s, actions).file)
    decreases |actions|
  {
    hide Lawful, Inv, Undisturbed, Carries, Next, InGap;
    if |actions| > 0 {
      var a := actions[0];
      StepKeeps(c, s, a);
      StepCarries(c, s, a, left);
      RunCarries(c, Next(c, s, a), actions[1..], if a.External? then a.file else left);
    }
  }

  /** In every interleaving of writers and external writes in which no external write falls into a
      gap, the file always carries the last external write: no completed edit is lost, and every
      field but the tokens and `last_refresh` is as it was left. */
  lemma EditsSurvive(c: Setup, file: File, actions: seq<Action>)
    requires Lawful(c) && NoGapWrites(c, Initial(file), actions)
    ensures Carries(c.codec, LastExternal(file, actions), Run(c, Initial(file), actions).file)
  {
    InitialInv(c, file);
    CarriesItself(c.codec, file);
    RunCarries(c, Initial(file), actions, file);
  }

  /** A write that does fall into the gap is overwritten whatever it was: the comparison and the
      rename are not one step. */
  lemma GapWriteIsLost(c: Setup, s: State, w: nat, file: File)
    requires PhaseOf(s, w).Compared?
    ensures Run(c, s, [External(file), Advance(w)]).file == Regular(c.codec.pretty(PhaseOf(s, w).edited))
  {
    var s1 := Next(c, s, External(file));
    ExternalPhases(c, s, file, w);
    assert [External(file), Advance(w)][1..] == [Advance(w)];
    assert Run(c, s1, [Advance(w)]) == Run(c, Next(c, s1, Advance(w)), []);
  }

  /** Exactly when a write in the gap is lost: unless it put there what is published, or a document that
      differs from the one the writer read in nothing but the tokens and `last_refresh`. */
  lemma GapWriteLostIff(c: Setup, s: State, w: nat, file: File)
    requires Lawful(c) && Inv(c, s) && PhaseOf(s, w).Compared?
    ensures Source(c, w, PhaseOf(s, w).original)
    ensures var now := Run(c, s, [External(file), Advance(w)]).file;
      Carries(c.codec, file, now) <==>
        || file == now
        || (Document(c.codec, file).Some?
            && Strip(Document(c.codec, file).value) == Strip(c.codec.parse(PhaseOf(s, w).original).value))
  {
    var p := PhaseOf(s, w);
    assert Settled(c, w, p, s.file, s.holder, TempOf(s, w));
    hide Inv, Update, Strip, IsLogin, Run;
    GapWriteIsLost(c, s, w, file);
    var d := c.codec.parse(p.original).value;
    UpdateKeeps(d, c.request(w).tokens, c.request(w).now);
    assert ReadsBack(c.codec, p.edited);
  }

  // ----- Tokens written by somebody else -----

  /** The state right after the last external write, or the first one when there is none. */
  function LastMark(c: Setup, mark: State, s: State, actions: seq<Action>): State
    decreases |actions|
  {
    if |actions| == 0 then mark
    else LastMark(c, if actions[0].External? then Next(c, s, actions[0]) else mark, Next(c, s, actions[0]), actions[1..])
  }

  /** The writer has published since the mark, and was given the refresh token the file had then. */
  predicate RotatedBy(c: Setup, mark: State, s: State, w: nat) {
    !PhaseOf(mark, w).Done? && PhaseOf(s, w) == Done(Published) && Holds(c.codec, mark.file, c.request(w).expected)
  }

  predicate StaysDone(mark: State, s: State, w: nat) { PhaseOf(mark, w).Done? ==> PhaseOf(s, w) == PhaseOf(mark, w) }

  /** The file is as it was left, or a writer given its refresh token has rotated it. */
  ghost predicate KeepsTokens(c: Setup, mark: State, s: State) {
    && (forall w: nat :: StaysDone(mark, s, w))
    && (s.file == mark.file || exists w: nat :: RotatedBy(c, mark, s, w))
  }

  lemma DoneStays(c: Setup, s: State, a: Action, w: nat)
    requires PhaseOf(s, w).Done?
    ensures PhaseOf(Next(c, s, a), w) == PhaseOf(s, w)
  {
    if a.External? { ExternalPhases(c, s, a.file, w); }
    if a.Advance? && a.w != w { AdvancedOther(c, s, a.w, w); }
  }

  lemma PublishRotates(c: Setup, mark: State, s: State, w: nat)
    requires Inv(c, s) && Undisturbed(s) && PhaseOf(s, w).Compared? && s.file == mark.file && StaysDone(mark, s, w)
    ensures RotatedBy(c, mark, Advanced(c, s, w), w)
  {
    assert Settled(c, w, PhaseOf(s, w), s.file, s.holder, TempOf(s, w));
    hide Inv, Update, Strip, IsLogin, Advanced;
    AdvancedSelf(c, s, w);
  }

  lemma StepKeepsTokens(c: Setup, mark: State, s: State, a: Action)
    requires Inv(c, s) && Undisturbed(s) && KeepsTokens(c, mark, s) && !a.External?
    ensures KeepsTokens(c, mark, Next(c, s, a))
  {
    var s' := Next(c, s, a);
    hide Inv, Undisturbed, Holds, Next;
    forall w: nat ensures StaysDone(mark, s', w) {
      assert StaysDone(mark, s, w);
      if PhaseOf(s, w).Done? { DoneStays(c, s, a, w); }
    }
    if s.file == mark.file {
      if a.Advance? && PhaseOf(s, a.w).Compared? {
        PublishRotates(c, mark, s, a.w);
        NextAdvances(c, s, a);
      } else {
        OnlyPublishWrites(c, s, a);
      }
    } else {
      var w: nat :| RotatedBy(c, mark, s, w);
      DoneStays(c, s, a, w);
      assert RotatedBy(c, mark, s', w);
    }
  }

  lemma NextAdvances(c: Setup, s: State, a: Action)
    requires a.Advance?
    ensures Next(c, s, a) == Advanced(c, s, a.w)
  {
  }

  lemma OnlyPublishWrites(c: Setup, s: State, a: Action)
    requires Inv(c, s) && !a.External? && !(a.Advance? && PhaseOf(s, a.w).Compared?)
    ensures Next(c, s, a).file == s.file
  {
    if a.Advance? {
      assert Settled(c, a.w, PhaseOf(s, a.w), s.file, s.holder, TempOf(s, a.w));
      hide Inv, Advanced;
      AdvancedSelf(c, s, a.w);
    }
  }

  lemma MarkKeepsTokens(c: Setup, s: State)
    ensures KeepsTokens(c, s, s)
  {
  }

  lemma StepUndisturbed(c: Setup, s: State, a: Action)
    requires Inv(c, s) && Undisturbed(s) && (a.External? ==> !InGap(s))
    ensures Undisturbed(Next(c, s, a))
  {
    hide Inv, Advanced;
    match a
    case External(file) => if s.holder.Some? { ExternalPhases(c, s, file, s.holder.value); }
    case Advance(w) => WriterStep(c, s, w);
    case Fail(w, unlinked) =>
  }

  lemma {:induction false} RunKeepsTokens(c: Setup, mark: State, s: State, actions: seq<Action>)
    requires Inv(c, s) && Undisturbed(s) && KeepsTokens(c, mark, s) && NoGapWrites(c, s, actions)
    ensures KeepsTokens(c, LastMark(c, mark, s, actions), Run(c, s, actions))
    decreases |actions|
  {
    hide Inv, Undisturbed, KeepsTokens, Next, InGap;
    if |actions| > 0 {
      var a := actions[0];
      StepKeeps(c, s, a);
      StepUndisturbed(c, s, a);
      if a.External? {
        MarkKeepsTokens(c, Next(c, s, a));
        RunKeepsTokens(c, Next(c, s, a), Next(c, s, a), actions[1..]);
      } else {
        StepKeepsTokens(c, mark, s, a);
        RunKeepsTokens(c, mark, Next(c, s, a), actions[1..]);
      }
    }
  }

  /** In every interleaving without a write in a gap, tokens that somebody else wrote are replaced only
      by a rotation of those very tokens: the file is still what the last external write left, or a
      writer that was given the digest of that write's refresh token has published since. */
  lemma OnlyItsOwnRotation(c: Setup, file: File, actions: seq<Action>)
    requires NoGapWrites(c, Initial(file), actions)
    ensures var s := Run(c, Initial(file), actions);
      var mark := LastMark(c, Initial(file), Initial(file), actions);
      && mark.file == LastExternal(file, actions)
      && (s.file == mark.file || exists w: nat :: RotatedBy(c, mark, s, w))
  {
    hide Run, NoGapWrites, LastMark;
    InitialInv(c, file);
    MarkKeepsTokens(c, Initial(file));
    RunKeepsTokens(c, Initial(file), Initial(file), actions);
    MarkHasLast(c, Initial(file), Initial(file), actions);
  }

  lemma {:induction false} MarkHasLast(c: Setup, mark: State, s: State, actions: seq<Action>)
    ensures LastMark(c, mark, s, actions).file == LastExternal(mark.file, actions)
    decreases |actions|
  {
    if |actions| > 0 {
      var a := actions[0];
      MarkHasLast(c, if a.External? then Next(c, s, a) else mark, Next(c, s, a), actions[1..]);
    }
  }

  // ----- One source token is spent once -----

  /** The file is a login whose refresh token has the digest. */
  predicate Holds(c: Codec, f: File, digest: string) {
    var d := Document(c, f);
    d.Some? && IsLogin(d.value) && c.digest(RefreshText(d.value).value) == digest
  }

  /** The writer was given this source token and returned true. */
  predicate Won(c: Setup, s: State, digest: string, w: nat) {
    PhaseOf(s, w) == Done(Published) && c.request(w).expected == digest
  }

  ghost predicate Spent(c: Setup, s: State, digest: string) { exists w: nat :: Won(c, s, digest, w) }

  /** No one puts the source token back once it is spent. */
  ghost predicate NoRestore(c: Setup, s: State, digest: string, actions: seq<Action>)
    decreases |actions|
  {
    |actions| > 0 ==>
      && (actions[0].External? && Spent(c, s, digest) ==> !Holds(c.codec, actions[0].file, digest))
      && NoRestore(c, Next(c, s, actions[0]), digest, actions[1..])
  }

  /** No rotation issues the source token again. */
  ghost predicate NeverIssued(c: Setup, digest: string) {
    forall w: nat :: c.request(w).tokens.refresh.Some? ==> c.codec.digest(c.request(w).tokens.refresh.value) != digest
  }

  /** A writer for this source token that found it in the file. */
  predicate HasFound(c: Setup, s: State, digest: string) {
    && s.holder.Some? && c.request(s.holder.value).expected == digest
    && (PhaseOf(s, s.holder.value).Loaded? || HasTemp(PhaseOf(s, s.holder.value)))
  }

  ghost predicate OneWinner(c: Setup, s: State, digest: string) {
    && (forall v: nat, w: nat :: Won(c, s, digest, v) && Won(c, s, digest, w) ==> v == w)
    && (Spent(c, s, digest) ==> !Holds(c.codec, s.file, digest) && !HasFound(c, s, digest))
  }

  lemma PublishedIsRotated(c: Setup, s: State, w: nat, digest: string)
    requires Lawful(c) && Inv(c, s) && PhaseOf(s, w).Compared? && NeverIssued(c, digest)
    ensures !Holds(c.codec, Publish(c, s, w, PhaseOf(s, w).edited).file, digest)
  {
    var p := PhaseOf(s, w);
    assert Settled(c, w, p, s.file, s.holder, TempOf(s, w));
    hide Inv, Update, Strip, IsLogin;
    UpdateWrites(c.codec.parse(p.original).value, c.request(w).tokens, c.request(w).now);
  }

  lemma AdvanceOneWinner(c: Setup, s: State, w: nat, digest: string)
    requires Lawful(c) && Inv(c, s) && NeverIssued(c, digest) && OneWinner(c, s, digest)
    ensures OneWinner(c, Advanced(c, s, w), digest)
  {
    var s' := Advanced(c, s, w);
    hide Lawful, Inv, NeverIssued, Advanced, Holds, Publish;
    var p := PhaseOf(s, w);
    if IsActive(p) { HolderIs(c, s, w); }
    AdvancedSelf(c, s, w);
    forall v: nat ensures Won(c, s', digest, v) <==>
      Won(c, s, digest, v) || (v == w && p.Compared? && c.request(w).expected == digest)
    {
      if v != w { AdvancedOther(c, s, w, v); }
    }
    if p.Compared? {
      PublishedIsRotated(c, s, w, digest);
      if Spent(c, s, digest) { SpentStays(c, s, s', digest); }
    } else {
      SameWinners(c, s, s', digest);
      if s.holder.Some? && s.holder.value != w { AdvancedOther(c, s, w, s.holder.value); }
    }
  }

  lemma SpentStays(c: Setup, s: State, s': State, digest: string)
    requires Spent(c, s, digest) && forall v: nat :: Won(c, s, digest, v) ==> Won(c, s', digest, v)
    ensures Spent(c, s', digest)
  {
    var v: nat :| Won(c, s, digest, v);
    assert Won(c, s', digest, v);
  }

  lemma SameWinners(c: Setup, s: State, s': State, digest: string)
    requires forall v: nat :: Won(c, s', digest, v) <==> Won(c, s, digest, v)
    ensures Spent(c, s', digest) <==> Spent(c, s, digest)
  {
    if Spent(c, s, digest) { SpentStays(c, s, s', digest); }
    if Spent(c, s', digest) { SpentStays(c, s', s, digest); }
  }

  lemma HolderIs(c: Setup, s: State, w: nat)
    requires Inv(c, s) && IsActive(PhaseOf(s, w))
    ensures s.holder == Some(w)
  {
    assert Settled(c, w, PhaseOf(s, w), s.file, s.holder, TempOf(s, w));
  }

  lemma OtherOneWinner(c: Setup, s: State, a: Action, digest: string)
    requires Inv(c, s) && OneWinner(c, s, digest) && !a.Advance?
    requires a.External? && Spent(c, s, digest) ==> !Holds(c.codec, a.file, digest)
    ensures OneWinner(c, Next(c, s, a), digest)
  {
    var s' := Next(c, s, a);
    hide Inv, Holds;
    forall v: nat ensures Won(c, s', digest, v) <==> Won(c, s, digest, v) {
      if a.External? { ExternalPhases(c, s, a.file, v); }
    }
    SameWinners(c, s, s', digest);
    if a.External? && s.holder.Some? { ExternalPhases(c, s, a.file, s.holder.value); }
    if a.Fail? && IsActive(PhaseOf(s, a.w)) { HolderIs(c, s, a.w); }
  }

  lemma {:induction false} RunOneWinner(c: Setup, s: State, actions: seq<Action>, digest: string)
    requires Lawful(c) && Inv(c, s) && NeverIssued(c, digest) && OneWinner(c, s, digest)
    requires NoRestore(c, s, digest, actions)
    ensures OneWinner(c, Run(c, s, actions), digest)
    decreases |actions|
  {
    hide Lawful, Inv, NeverIssued, OneWinner, Holds, Advanced;
    if |actions| > 0 {
      var a := actions[0];
      StepKeeps(c, s, a);
      if a.Advance? { AdvanceOneWinner(c, s, a.w, digest); } else { OtherOneWinner(c, s, a, digest); }
      RunOneWinner(c, Next(c, s, a), actions[1..], digest);
    }
  }

  /** Of all writers given one source token at most one returns true, in every run in which no
      rotation issues that token again and nobody puts it back once it is spent. */
  lemma SourceSpentOnce(c: Setup, file: File, actions: seq<Action>, digest: string, v: nat, w: nat)
    requires Lawful(c) && NeverIssued(c, digest) && NoRestore(c, Initial(file), digest, actions)
    ensures var s := Run(c, Initial(file), actions);
      Won(c, s, digest, v) && Won(c, s, digest, w) ==> v == w
  {
    hide Lawful, Run, NeverIssued, NoRestore;
    InitialInv(c, file);
    RunOneWinner(c, Initial(file), actions, digest);
  }

  // ----- What the other results mean -----

  /** `Ok(false)` is returned exactly at a step that finds another refresh token in the file, and
      leaves the file alone. */
  lemma SupersededMeansRotated(c: Setup, s: State, a: Action, w: nat)
    requires PhaseOf(Next(c, s, a), w) == Done(Superseded) && !PhaseOf(s, w).Done?
    ensures a == Advance(w) && Next(c, s, a).file == s.file
    ensures RefreshChanged(c, s.file, w)
    ensures Lawful(c) ==>
      forall source :: c.codec.digest(source) == c.request(w).expected ==>
        RefreshText(Document(c.codec, s.file).value) != Some(source)
  {
    hide Lawful, Update;
    if a.Advance? && a.w != w { AdvancedOther(c, s, a.w, w); }
    if a.External? { ExternalPhases(c, s, a.file, w); }
  }

  /** A conflict that is not a rotation is reported as one to retry, and leaves the file alone. */
  lemma ConflictIsRetryable(c: Setup, s: State, w: nat)
    requires PhaseOf(s, w).Rechecked? && Contents(s.file).Some?
    ensures var s' := Next(c, s, Advance(w));
      && s'.file == s.file
      && (PhaseOf(s', w) == Done(WouldBlock) <==>
            Contents(s.file).value != PhaseOf(s, w).original && !RefreshChanged(c, s.file, w))
      && (PhaseOf(s', w) == Done(WouldBlock) ==> s'.holder.None?)
  {
    hide RefreshChanged;
  }

  function Alone(w: nat, n: nat): seq<Action> { seq(n, _ => Advance(w)) }

  lemma AloneStep(c: Setup, s: State, w: nat, n: nat)
    requires n > 0
    ensures Run(c, s, Alone(w, n)) == Run(c, Advanced(c, s, w), Alone(w, n - 1))
  {
    assert Alone(w, n)[1..] == Alone(w, n - 1);
  }

  /** A writer left alone with a login that holds its source token publishes. */
  lemma AloneSucceeds(c: Setup, s: State, w: nat)
    requires Lawful(c) && s.holder.None? && PhaseOf(s, w).Waiting? && s.file.Regular?
    requires Holds(c.codec, s.file, c.request(w).expected) && IsPresent(c.request(w).tokens.refresh)
    ensures var s' := Run(c, s, Alone(w, 7));
      && PhaseOf(s', w) == Done(Published)
      && Document(c.codec, s'.file) ==
           Some(Update(Document(c.codec, s.file).value, c.request(w).tokens, c.request(w).now))
  {
    var d := Document(c.codec, s.file).value;
    var s1 := Advanced(c, s, w);
    var s2 := Advanced(c, s1, w);
    var s3 := Advanced(c, s2, w);
    hide Update;
    AloneStep(c, s, w, 7);
    AloneStep(c, s1, w, 6);
    AloneStep(c, s2, w, 5);
    hide Run, Alone;
    assert PhaseOf(s3, w) == Loaded(s.file.bytes, d) && s3.file == s.file;
    FromLoaded(c, s3, w);
  }

  /** One step before that, it is in the gap. */
  lemma AloneReachesGap(c: Setup, s: State, w: nat)
    requires s.holder.None? && PhaseOf(s, w).Waiting? && s.file.Regular?
    requires Holds(c.codec, s.file, c.request(w).expected) && IsPresent(c.request(w).tokens.refresh)
    ensures var s' := Run(c, s, Alone(w, 6));
      && PhaseOf(s', w) == Compared(s.file.bytes, Update(Document(c.codec, s.file).value, c.request(w).tokens, c.request(w).now), true)
      && s'.file == s.file
  {
    var d := Document(c.codec, s.file).value;
    var s1 := Advanced(c, s, w);
    var s2 := Advanced(c, s1, w);
    var s3 := Advanced(c, s2, w);
    hide Update;
    AloneStep(c, s, w, 6);
    AloneStep(c, s1, w, 5);
    AloneStep(c, s2, w, 4);
    hide Run, Alone;
    assert PhaseOf(s3, w) == Loaded(s.file.bytes, d) && s3.file == s.file;
    LoadedReachesGap(c, s3, w);
  }

  /** So any edit of another field that falls there is lost, from any login with the source token. */
  lemma EditIsLost(c: Setup, w: nat, start: File, edit: File)
    requires Lawful(c) && start.Regular? && Holds(c.codec, start, c.request(w).expected) && IsPresent(c.request(w).tokens.refresh)
    requires Document(c.codec, edit).Some? && Strip(Document(c.codec, edit).value) != Strip(Document(c.codec, start).value)
    requires edit != Regular(c.codec.pretty(Update(Document(c.codec, start).value, c.request(w).tokens, c.request(w).now)))
    ensures !Carries(c.codec, edit, Run(c, Initial(start), Alone(w, 6) + [External(edit), Advance(w)]).file)
  {
    hide Strip, Update, Run, Alone, IsLogin, Lawful, Inv, Carries;
    AloneReachesGap(c, Initial(start), w);
    InitialInv(c, start);
    RunKeeps(c, Initial(start), Alone(w, 6));
    RunAppend(c, Initial(start), Alone(w, 6), [External(edit), Advance(w)]);
    var s := Run(c, Initial(start), Alone(w, 6));
    GapWriteIsLost(c, s, w, edit);
    GapWriteLostIff(c, s, w, edit);
  }

  lemma LoadedReachesGap(c: Setup, s: State, w: nat)
    requires PhaseOf(s, w).Loaded? && s.file == Regular(PhaseOf(s, w).original) && IsLogin(PhaseOf(s, w).document)
    requires IsPresent(c.request(w).tokens.refresh)
    ensures var s' := Run(c, s, Alone(w, 3));
      var p := PhaseOf(s, w);
      PhaseOf(s', w) == Compared(p.original, Update(p.document, c.request(w).tokens, c.request(w).now), true) && s'.file == s.file
  {
    hide IsLogin, Update;
    var s1 := Advanced(c, s, w);
    var s2 := Advanced(c, s1, w);
    var s3 := Advanced(c, s2, w);
    AloneStep(c, s, w, 3);
    AloneStep(c, s1, w, 2);
    AloneStep(c, s2, w, 1);
    assert Run(c, s3, Alone(w, 0)) == s3;
  }

  lemma FromLoaded(c: Setup, s: State, w: nat)
    requires PhaseOf(s, w).Loaded? && s.file == Regular(PhaseOf(s, w).original) && IsLogin(PhaseOf(s, w).document)
    requires IsPresent(c.request(w).tokens.refresh)
    ensures var s' := Run(c, s, Alone(w, 4));
      && PhaseOf(s', w) == Done(Published)
      && s'.file == Regular(c.codec.pretty(Update(PhaseOf(s, w).document, c.request(w).tokens, c.request(w).now)))
  {
    hide IsLogin, Update, Run;
    AloneStep(c, s, w, 4);
    FromPrepared(c, Advanced(c, s, w), w);
  }

  lemma FromPrepared(c: Setup, s: State, w: nat)
    requires PhaseOf(s, w).Prepared? && s.file == Regular(PhaseOf(s, w).original)
    ensures var s' := Run(c, s, Alone(w, 3));
      PhaseOf(s', w) == Done(Published) && s'.file == Regular(c.codec.pretty(PhaseOf(s, w).edited))
  {
    hide RefreshChanged;
    var s1 := Advanced(c, s, w);
    var s2 := Advanced(c, s1, w);
    var s3 := Advanced(c, s2, w);
    AloneStep(c, s, w, 3);
    AloneStep(c, s1, w, 2);
    AloneStep(c, s2, w, 1);
    assert PhaseOf(s2, w).Compared?;
  }

  /** After a metadata edit made one writer give up, the next one publishes and keeps the edit. */
  lemma RetryKeepsEdit(c: Setup, s: State, w: nat, v: nat)
    requires Lawful(c) && PhaseOf(s, w).Rechecked? && s.file.Regular? && v != w && PhaseOf(s, v).Waiting?
    requires s.file.bytes != PhaseOf(s, w).original && Holds(c.codec, s.file, c.request(w).expected)
    requires c.request(v) == c.request(w) && IsPresent(c.request(w).tokens.refresh)
    ensures var s1 := Next(c, s, Advance(w));
      var s2 := Run(c, s1, Alone(v, 7));
      && PhaseOf(s1, w) == Done(WouldBlock) && s1.file == s.file && PhaseOf(s2, v) == Done(Published)
      && Document(c.codec, s2.file).Some? && Strip(Document(c.codec, s2.file).value) == Strip(Document(c.codec, s.file).value)
  {
    hide Run, Update, Strip;
    ConflictIsRetryable(c, s, w);
    AdvancedOther(c, s, w, v);
    AloneSucceeds(c, Next(c, s, Advance(w)), v);
    UpdateKeeps(Document(c.codec, s.file).value, c.request(w).tokens, c.request(w).now);
  }
}
