/** The structural locator (`src/account_uuid.rs`, `locate`), and the documents on which the
    streaming machine finds exactly what it finds. */
module UuidAgreement {
  import opened Sequences
  import opened Options
  import opened JsonText
  import opened JsonTree
  import opened UuidMachine
  import opened UuidLocator

  // ----- Reading one field out of an object -----

  /** The value of the first member called `name`. */
  function ValueOf(ms: Members, name: string): Value
    requires HasKey(ms, name)
  {
    if Decode(ms.key) == name then ms.value else ValueOf(ms.rest, name)
  }

  /** The bytes of the members before that value. */
  function OffsetOf(ms: Members, name: string): nat
    requires HasKey(ms, name)
  {
    if Decode(ms.key) == name then HeadLen(ms)
    else HeadLen(ms) + Len(ms.value) + |ms.post| + 1 + OffsetOf(ms.rest, name)
  }

  /** No two members called `name`: a derived struct refuses a repeated field. */
  predicate Once(ms: Members, name: string) {
    ms.Member? ==> if Decode(ms.key) == name then !HasKey(ms.rest, name) else Once(ms.rest, name)
  }

  /** An object's field as a derived struct reads it, with the offset of its text. */
  function Field(v: Value, at: nat, name: string): Option<(Value, nat)> {
    if v.Obj? && KeysReadable(v.members) && Once(v.members, name) && HasKey(v.members, name)
    then Some((ValueOf(v.members, name), at + 1 + |v.gap| + OffsetOf(v.members, name)))
    else None
  }

  /** `value_start_in`: the byte after the first occurrence of the prefix in the raw text. */
  function ValueStartIn(raw: string): Option<nat> { Plus(FirstAt(raw, PREFIX), |PREFIX|) }

  /** The text of `metadata.user_id` and its offset in the document. */
  function UserId(d: Doc): Option<(Value, nat)> {
    var (metadata, at) :- Field(d.root, |d.lead|, "metadata");
    Field(metadata, at, "user_id")
  }

  /** The offset of the account uuid, read out of the parsed document. */
  function Locate(d: Doc): Option<nat> {
    var (userId, at) :- UserId(d);
    Plus(ValueStartIn(Render(userId)), at)
  }

  // ----- The text around one field -----

  /** The members up to the value called `name`, followed by `text`. */
  function PutBefore(ms: Members, name: string, text: string): string
    requires HasKey(ms, name)
  {
    if Decode(ms.key) == name then PutHead(ms, text)
    else PutHead(ms, Put(ms.value, ms.post + ("," + PutBefore(ms.rest, name, text))))
  }

  /** What follows that value. */
  function PutAfter(ms: Members, name: string, tail: string): string
    requires HasKey(ms, name)
  {
    if Decode(ms.key) == name then ms.post + PutMoreMembers(ms.rest, tail) else PutAfter(ms.rest, name, tail)
  }

  lemma {:induction false} Around(ms: Members, name: string, tail: string)
    requires HasKey(ms, name)
    ensures PutMembers(ms, tail) == PutBefore(ms, name, Put(ValueOf(ms, name), PutAfter(ms, name, tail)))
  {
    hide Put, PutHead, Decode;
    if Decode(ms.key) != name { Around(ms.rest, name, tail); }
  }

  lemma {:induction false} FieldIsPart(ms: Members, name: string)
    requires HasKey(ms, name) && WellFormedMembers(ms)
    ensures WellFormed(ValueOf(ms, name))
  {
    if Decode(ms.key) != name { FieldIsPart(ms.rest, name); }
  }

  // ----- The machine up to one field -----

  /** Keys the machine and the parser read alike. */
  predicate PlainKeys(ms: Members) {
    ms.Member? ==> '\\' !in ms.key && PlainKeys(ms.rest)
  }

  lemma {:induction false} MachineKeyPlain(raw: string)
    requires '\\' !in raw
    ensures MachineKey(raw) == raw
  {
    if raw != "" {
      MachineKeyPlain(raw[1..]);
      assert raw == raw[..1] + raw[1..];
    }
  }

  lemma PlainKey(raw: string)
    requires '\\' !in raw
    ensures MachineKey(raw) == raw == Decode(raw) && !HasLoneSurrogate(raw)
  {
    MachineKeyPlain(raw);
    DecodePlain(raw);
  }

  lemma {:induction false} PlainIsReadable(ms: Members)
    requires PlainKeys(ms)
    ensures KeysReadable(ms)
  {
    if ms.Member? {
      PlainKey(ms.key);
      PlainIsReadable(ms.rest);
    }
  }

  /** Where the one target of an object's members can be: under `name`. */
  predicate OnlyUnder(depth: nat, opened': Option<string>, name: string) {
    || (depth == 1 && name == "metadata")
    || (depth == 2 && opened' == Some("metadata") && name == "user_id")
  }

  lemma OtherIsClear(depth: nat, name: Option<string>, field: string, key: string, v: Value)
    requires OnlyUnder(depth, name, field) && key != field
    ensures Clear(depth, name, Some(key), v)
  {
    if v.Obj? && depth == 1 { ElsewhereIsClear(2, Some(key), v.members); }
  }

  /** Up to the first member called `name` the machine meets no target, and then it is in that
      member's value. */
  lemma {:induction false} RunBefore(fs: seq<Frame>, f: Frame, ms: Members, name: string, text: string, i: nat, j: nat)
    requires WellFormedMembers(ms) && PlainKeys(ms) && HasKey(ms, name) && OnlyUnder(|fs| + 1, f.name, name)
    requires f.isObj && f.awaitingKey && j == i + OffsetOf(ms, name)
    ensures Run(Quiet(fs + [f]), PutBefore(ms, name, text), i) ==
            Run(Quiet(fs + [f.(key := Some(name), awaitingKey := false)]), text, j)
    decreases ms
  {
    hide Run, Quiet, Put, WellFormed, Len, Clear, PutHead, Decode, MachineKey, OnlyUnder;
    PlainKey(ms.key);
    var g := f.(key := Some(MachineKey(ms.key)), awaitingKey := false);
    var i1 := i + HeadLen(ms);
    if Decode(ms.key) == name {
      RunHead(fs, f, ms, text, i, i1);
    } else {
      var more := PutBefore(ms.rest, name, text);
      var i2 := i1 + Len(ms.value);
      var i3 := i2 + |ms.post|;
      RunHead(fs, f, ms, Put(ms.value, ms.post + ("," + more)), i, i1);
      OtherIsClear(|fs| + 1, f.name, name, ms.key, ms.value);
      RunValue(fs, g, ms.value, ms.post + ("," + more), i1, i2);
      RunSpace(fs + [g], ms.post, "," + more, i2, i3);
      RunComma(fs, g, more, i3, i3 + 1);
      RunBefore(fs, Comma(g), ms.rest, name, text, i3 + 1, j);
    }
  }

  lemma {:induction false} WithoutFieldIsClear(depth: nat, opened': Option<string>, name: string, ms: Members)
    requires OnlyUnder(depth, opened', name) && PlainKeys(ms) && !HasKey(ms, name)
    ensures ClearMembers(depth, opened', ms)
  {
    hide Clear, OnlyUnder;
    if ms.Member? {
      PlainKey(ms.key);
      OtherIsClear(depth, opened', name, ms.key, ms.value);
      WithoutFieldIsClear(depth, opened', name, ms.rest);
    }
  }

  /** When the one field that can hold a target does not, the whole object does not. */
  lemma {:induction false} FieldClear(depth: nat, opened': Option<string>, name: string, ms: Members)
    requires OnlyUnder(depth, opened', name) && PlainKeys(ms) && Once(ms, name)
    requires HasKey(ms, name) ==> Clear(depth, opened', Some(name), ValueOf(ms, name))
    ensures ClearMembers(depth, opened', ms)
  {
    hide Clear, OnlyUnder;
    if ms.Member? {
      PlainKey(ms.key);
      if ms.key == name {
        WithoutFieldIsClear(depth, opened', name, ms.rest);
      } else {
        OtherIsClear(depth, opened', name, ms.key, ms.value);
        FieldClear(depth, opened', name, ms.rest);
      }
    }
  }

  // ----- The machine inside the target -----

  function InTarget(fs: seq<Frame>, esc: bool, pos: nat): State {
    Quiet(fs).(inStr := true, esc := esc, target := true, matchPos := pos)
  }

  /** A string body read byte by byte, `esc` when a backslash came just before. */
  predicate Bytewise(esc: bool, raw: string)
    decreases |raw|
  {
    if raw == "" then !esc
    else if esc then Bytewise(false, raw[1..])
    else if raw[0] == '\\' then Bytewise(true, raw[1..])
    else raw[0] != '"' && Bytewise(false, raw[1..])
  }

  lemma {:induction false} ScannedBytewise(raw: string)
    requires IsScanned(raw)
    ensures Bytewise(false, raw)
    decreases |raw|
  {
    if raw != "" {
      if raw[0] == '\\' {
        ScannedBytewise(raw[2..]);
        assert raw[1..][1..] == raw[2..];
      } else {
        ScannedBytewise(raw[1..]);
      }
    }
  }

  function NextEsc(esc: bool, c: char): bool { !esc && c == '\\' }

  /** One byte of the target string that is not its closing quote. */
  lemma TargetStep(fs: seq<Frame>, esc: bool, pos: nat, c: char, i: nat)
    requires pos < |PREFIX| && (esc || c != '"')
    ensures var st := Step(InTarget(fs, esc, pos), c, i);
      if c != PREFIX[pos] then st == InTarget(fs, NextEsc(esc, c), Fallback(PREFIX, c))
      else if pos + 1 < |PREFIX| then st == InTarget(fs, NextEsc(esc, c), pos + 1)
      else st.done && st.valueStart == Some(i + 1)
  {
  }

  /** The state of the matcher after a byte that does not complete the match. */
  function NextPos(pos: nat, c: char): (next: nat)
    requires pos < |PREFIX| && !(c == PREFIX[pos] && pos + 1 == |PREFIX|)
    ensures next < |PREFIX|
  {
    if c == PREFIX[pos] then pos + 1 else Fallback(PREFIX, c)
  }

  lemma TargetByteStep(fs: seq<Frame>, esc: bool, pos: nat, raw: string, tail: string, i: nat, j: nat)
    requires pos < |PREFIX| && |raw| > 0 && Bytewise(esc, raw) && j == i + 1
    requires !(raw[0] == PREFIX[pos] && pos + 1 == |PREFIX|)
    ensures Run(InTarget(fs, esc, pos), raw + tail, i) ==
            Run(InTarget(fs, NextEsc(esc, raw[0]), NextPos(pos, raw[0])), raw[1..] + tail, j)
    ensures Bytewise(NextEsc(esc, raw[0]), raw[1..])
    ensures Match(PREFIX, pos, raw) == Plus(Match(PREFIX, NextPos(pos, raw[0]), raw[1..]), 1)
  {
    hide Run, Step;
    OneAndRest(raw, tail);
    TargetStep(fs, esc, pos, raw[0], i);
    Byte1(InTarget(fs, esc, pos), raw[0], raw[1..] + tail, i, j);
  }

  lemma TargetFound(fs: seq<Frame>, esc: bool, pos: nat, raw: string, tail: string, i: nat)
    requires pos < |PREFIX| && |raw| > 0 && Bytewise(esc, raw)
    requires raw[0] == PREFIX[pos] && pos + 1 == |PREFIX|
    ensures Run(InTarget(fs, esc, pos), raw + tail, i).valueStart == Some(i + 1) && Match(PREFIX, pos, raw) == Some(1)
  {
    hide Step;
    OneAndRest(raw, tail);
    TargetStep(fs, esc, pos, raw[0], i);
    Byte1(InTarget(fs, esc, pos), raw[0], raw[1..] + tail, i, i + 1);
  }

  lemma {:induction false} RunMatch(fs: seq<Frame>, esc: bool, pos: nat, raw: string, tail: string, i: nat)
    requires pos < |PREFIX| && Bytewise(esc, raw) && Match(PREFIX, pos, raw).Some?
    ensures Run(InTarget(fs, esc, pos), raw + tail, i).valueStart == Some(i + Match(PREFIX, pos, raw).value)
    decreases |raw|
  {
    assert |raw| > 0;
    hide Run, InTarget, Bytewise, Match;
    if raw[0] == PREFIX[pos] && pos + 1 == |PREFIX| {
      TargetFound(fs, esc, pos, raw, tail, i);
    } else {
      TargetByteStep(fs, esc, pos, raw, tail, i, i + 1);
      RunMatch(fs, NextEsc(esc, raw[0]), NextPos(pos, raw[0]), raw[1..], tail, i + 1);
    }
  }

  lemma TargetClose(fs: seq<Frame>, pos: nat, tail: string, i: nat, j: nat)
    requires pos < |PREFIX| && j == i + 1
    ensures Run(InTarget(fs, false, pos), "\"" + tail, i) == Run(InString(fs, false, ""), tail, j)
  {
    hide Run;
    Byte1(InTarget(fs, false, pos), '"', tail, i, j);
  }

  /** A target without the prefix leaves the machine inside a string that is over. */
  lemma {:induction false} RunNoMatch(fs: seq<Frame>, esc: bool, pos: nat, raw: string, tail: string, i: nat, j: nat)
    requires pos < |PREFIX| && Bytewise(esc, raw) && Match(PREFIX, pos, raw).None? && j == i + |raw| + 1
    ensures Run(InTarget(fs, esc, pos), raw + ("\"" + tail), i) == Run(InString(fs, false, ""), tail, j)
    decreases |raw|
  {
    if |raw| == 0 {
      EmptyLeft("\"" + tail);
      assert raw == "";
      TargetClose(fs, pos, tail, i, j);
    } else {
      hide Run, InTarget, Bytewise;
      assert !(raw[0] == PREFIX[pos] && pos + 1 == |PREFIX|);
      TargetByteStep(fs, esc, pos, raw, "\"" + tail, i, i + 1);
      RunNoMatch(fs, NextEsc(esc, raw[0]), NextPos(pos, raw[0]), raw[1..], tail, i + 1, j);
    }
  }

  lemma MatchFromStart(raw: string)
    ensures Match(PREFIX, 0, raw) == Plus(FirstAt(raw, PREFIX), |PREFIX|)
  {
    hide Match, FirstAt;
    PrefixIsFresh();
    MatchIsFirst(PREFIX, 0, raw);
    assert Held(PREFIX, 0, raw) == raw;
  }

  lemma EnterTarget(fs: seq<Frame>, text: string, i: nat, j: nat)
    requires !AwaitsKey(fs) && IsTarget(fs) && j == i + 1
    ensures Run(Quiet(fs), "\"" + text, i) == Run(InTarget(fs, false, 0), text, j)
  {
    hide Run;
    Byte1(Quiet(fs), '"', text, i, j);
  }

  lemma RunTarget(fs: seq<Frame>, raw: string, tail: string, i: nat)
    requires IsStrBody(raw) && !AwaitsKey(fs) && IsTarget(fs)
    ensures var st := Run(Quiet(fs), Put(Str(raw), tail), i);
      if FirstAt(raw, PREFIX).Some? then st.valueStart == Some(i + 1 + FirstAt(raw, PREFIX).value + |PREFIX|)
      else st == Run(InString(fs, false, ""), tail, i + 2 + |raw|)
  {
    hide Run, FirstAt, Match, Quiet, InTarget, InString, IsTarget, AwaitsKey;
    BodyIsScanned(raw);
    ScannedBytewise(raw);
    MatchFromStart(raw);
    var text := raw + ("\"" + tail);
    EnterTarget(fs, text, i, i + 1);
    if FirstAt(raw, PREFIX).Some? {
      RunMatch(fs, false, 0, raw, "\"" + tail, i + 1);
    } else {
      RunNoMatch(fs, false, 0, raw, tail, i + 1, i + 2 + |raw|);
    }
  }

  // ----- What the machine returns always stands behind the prefix -----

  /** An occurrence of the prefix ends at `e`. */
  predicate EndsAt(h: string, e: int) {
    e >= |PREFIX| && OccursAt(h, PREFIX, e - |PREFIX|)
  }

  /** The bytes of the prefix matched so far. */
  function Progress(st: State): (p: nat)
    requires Valid(st)
    ensures p < |PREFIX|
  {
    if st.target then st.matchPos else 0
  }

  /** The prefix goes from `p` matched bytes to `q` on reading `c`. */
  predicate Advances(p: nat, c: char, q: nat) {
    p < |PREFIX| && q < |PREFIX| && (q == 0 || (q == p + 1 && c == PREFIX[p]) || (q == 1 && c == PREFIX[0]))
  }

  predicate StillOpen(st: State) { Valid(st) && !st.done && st.valueStart.None? }

  /** A step either finishes behind the last byte of the prefix, or only advances. */
  predicate GoesOn(st: State, c: char, i: nat, st': State)
    requires Valid(st)
  {
    if st'.done then Progress(st) + 1 == |PREFIX| && c == PREFIX[Progress(st)] && st'.valueStart == Some(i + 1)
    else StillOpen(st') && Advances(Progress(st), c, Progress(st'))
  }

  lemma MatchGoesOn(st: State, c: char, i: nat, esc: bool)
    requires StillOpen(st) && st.target
    ensures GoesOn(st, c, i, MatchByte(st.(esc := esc), c, i))
  {
  }

  lemma TargetGoesOn(st: State, c: char, i: nat)
    requires StillOpen(st) && st.target
    ensures GoesOn(st, c, i, TargetByte(st, c, i))
  {
    hide MatchByte;
    MatchGoesOn(st, c, i, false);
    MatchGoesOn(st, c, i, true);
    MatchGoesOn(st, c, i, st.esc);
    assert st.(esc := st.esc) == st;
  }

  lemma StrGoesOn(st: State, c: char, i: nat)
    requires StillOpen(st) && !st.target
    ensures GoesOn(st, c, i, StrByte(st, c))
  {
    hide WithTop;
  }

  lemma PlainGoesOn(st: State, c: char, i: nat)
    requires StillOpen(st) && !st.target
    ensures GoesOn(st, c, i, PlainByte(st, c))
  {
    hide WithTop, TopKey, IsTarget;
  }

  lemma StepGoesOn(st: State, c: char, i: nat)
    requires StillOpen(st)
    ensures GoesOn(st, c, i, Step(st, c, i))
  {
    hide GoesOn, TargetByte, StrByte, PlainByte;
    if st.target { TargetGoesOn(st, c, i); } else { StrGoesOn(st, c, i); PlainGoesOn(st, c, i); }
  }

  /** What is held after a step is a suffix of what was held before. */
  lemma HeldSuffix(p: nat, q: nat, s: string, e: int)
    requires |s| > 0 && Advances(p, s[0], q) && EndsAt(Held(PREFIX, q, s[1..]), e)
    ensures EndsAt(Held(PREFIX, p, s), p + 1 - q + e)
  {
    hide OccursAt, Held;
    var n := p + 1 - q;
    HeldDrops(PREFIX, p, q, s);
    OccursLater(Held(PREFIX, p, s), PREFIX, n, e - |PREFIX|);
  }

  lemma HeldDrops(pat: string, p: nat, q: nat, s: string)
    requires p < |pat| && q < |pat| && |s| > 0
    requires q == 0 || (q == p + 1 && s[0] == pat[p]) || (q == 1 && s[0] == pat[0])
    ensures p + 1 - q <= |Held(pat, p, s)| && Held(pat, q, s[1..]) == Held(pat, p, s)[p + 1 - q..]
  {
    if q == 0 {
      HeldTail(pat, p, s, 1);
      assert Held(pat, 0, s[1..]) == s[1..];
    } else if q == p + 1 {
      MatchOne(pat, p, s);
    } else {
      HeldTail(pat, p, s, 0);
      MatchOne(pat, 0, s);
      assert Held(pat, 0, s) == s && s[0..] == s;
    }
  }

  lemma HeldTail(pat: string, p: nat, s: string, k: nat)
    requires p < |pat| && k <= |s|
    ensures |Held(pat, p, s)| == p + |s| && Held(pat, p, s)[p + k..] == s[k..]
  {
  }

  lemma HeldFull(p: nat, s: string)
    requires p + 1 == |PREFIX| && |s| > 0 && s[0] == PREFIX[p]
    ensures EndsAt(Held(PREFIX, p, s), |PREFIX|)
  {
    assert Held(PREFIX, p, s)[0..|PREFIX|] == PREFIX;
  }

  lemma {:induction false} FindsHeld(st: State, s: string, i: nat)
    requires StillOpen(st)
    ensures var v, p := Run(st, s, i).valueStart, Progress(st);
      v.Some? ==> EndsAt(Held(PREFIX, p, s), p + v.value - i)
    decreases |s|
  {
    hide Step, EndsAt, Held, Progress, Advances;
    if |s| > 0 {
      var st' := Step(st, s[0], i);
      StepGoesOn(st, s[0], i);
      if st'.done {
        HeldFull(Progress(st), s);
      } else {
        FindsHeld(st', s[1..], i + 1);
        var v := Run(st', s[1..], i + 1).valueStart;
        if v.Some? {
          HeldSuffix(Progress(st), Progress(st'), s, Progress(st') + v.value - (i + 1));
        }
      }
    }
  }

  /** On every byte string, malformed or not, an offset the machine returns is just behind an
      occurrence of the prefix. */
  lemma MachineFindsPrefix(body: string)
    ensures var v := Run(START, body, 0).valueStart; v.Some? ==> EndsAt(body, v.value)
  {
    hide Run;
    FindsHeld(START, body, 0);
    assert Held(PREFIX, 0, body) == body;
  }

  // ----- Occurrences in rendered values -----

  lemma PrefixHasBackslash(s: string)
    requires FirstAt(s, PREFIX).Some?
    ensures '\\' in s
  {
    hide FirstAt;
    FirstAtSound(s, PREFIX);
    var k := FirstAt(s, PREFIX).value;
    assert s[k + 12] == s[k..k + |PREFIX|][12] == '\\';
  }

  /** A body cannot end in a backslash that is not itself escaped. */
  lemma {:induction false} LastByte(raw: string)
    requires IsScanned(raw) && |raw| > 0 && raw[|raw| - 1] == '\\'
    ensures |raw| > 1 && raw[|raw| - 2] == '\\'
    decreases |raw|
  {
    if raw[0] == '\\' {
      if |raw| > 2 { LastByte(raw[2..]); }
    } else {
      LastByte(raw[1..]);
    }
  }

  /** The occurrence would have to end in these two bytes and the new one. */
  predicate CannotEnd(s: string, pat: string)
    requires |pat| > 3
  {
    |s| < 2 || s[|s| - 1] != pat[|pat| - 2] || s[|s| - 2] != pat[|pat| - 3]
  }

  lemma {:induction false} FirstAtSnoc(s: string, c: char, pat: string)
    requires |pat| > 3 && CannotEnd(s, pat)
    ensures FirstAt(s + [c], pat) == FirstAt(s, pat)
    decreases |s|
  {
    var t := s + [c];
    if |s| + 1 == |pat| {
      assert t[..|pat|] == t;
      assert FirstAt(t[1..], pat).None?;
    } else if |s| >= |pat| {
      assert t[..|pat|] == s[..|pat|] && t[1..] == s[1..] + [c];
      FirstAtSnoc(s[1..], c, pat);
    }
  }

  /** The quotes around a string take part in no occurrence. */
  lemma StrOccurrence(raw: string)
    requires IsStrBody(raw)
    ensures FirstAt(Render(Str(raw)), PREFIX) == Plus(FirstAt(raw, PREFIX), 1)
  {
    hide FirstAt, IsStrBody, IsScanned;
    BodyIsScanned(raw);
    if |raw| > 0 && raw[|raw| - 1] == '\\' { LastByte(raw); }
    FirstAtSnoc(raw, '"', PREFIX);
    var s := Render(Str(raw));
    assert s[0] == '"' && s[1..] == raw + ['"'];
    SkipByte(s, PREFIX);
  }

  // ----- The machine over a document -----

  /** The documents both locators are written for: an object whose `metadata`, if any, is not an
      array, neither with a repeated field, and keys spelled without escapes. */
  predicate Regular(d: Doc) {
    && d.root.Obj? && PlainKeys(d.root.members) && Once(d.root.members, "metadata")
    && (HasKey(d.root.members, "metadata") ==>
          var m := ValueOf(d.root.members, "metadata");
          !m.Arr? && (m.Obj? ==> PlainKeys(m.members) && Once(m.members, "user_id")))
  }

  function Metadata(d: Doc): Value
    requires UserId(d).Some?
  {
    ValueOf(d.root.members, "metadata")
  }

  /** The document up to the value of `metadata.user_id`, followed by `text`. */
  function DocBefore(d: Doc, text: string): string
    requires UserId(d).Some?
  {
    d.lead + ("{" + (d.root.gap + PutBefore(d.root.members, "metadata", MetadataBefore(Metadata(d), text))))
  }

  function MetadataBefore(m: Value, text: string): string
    requires m.Obj? && HasKey(m.members, "user_id")
  {
    "{" + (m.gap + PutBefore(m.members, "user_id", text))
  }

  /** What follows that value. */
  function DocAfter(d: Doc): string
    requires UserId(d).Some?
  {
    PutAfter(Metadata(d).members, "user_id", "}" + PutAfter(d.root.members, "metadata", "}" + d.trail))
  }

  lemma DocAround(d: Doc)
    requires UserId(d).Some?
    ensures RenderDoc(d) == DocBefore(d, Put(UserId(d).value.0, DocAfter(d)))
  {
    hide PutMembers, PutBefore, PutAfter, ValueOf, HasKey, Once, KeysReadable, OffsetOf;
    var m := Metadata(d);
    var rest := PutAfter(d.root.members, "metadata", "}" + d.trail);
    Around(m.members, "user_id", "}" + rest);
    Around(d.root.members, "metadata", "}" + d.trail);
  }

  const ROOT := Frame(true, None, Some("metadata"), false)
  const METADATA := Frame(true, Some("metadata"), Some("user_id"), false)

  lemma RunMetadataBefore(m: Value, text: string, i: nat, j: nat)
    requires m.Obj? && WellFormed(m) && PlainKeys(m.members) && HasKey(m.members, "user_id")
    requires j == i + 1 + |m.gap| + OffsetOf(m.members, "user_id")
    ensures Run(Quiet([ROOT]), MetadataBefore(m, text), i) == Run(Quiet([ROOT, METADATA]), text, j)
  {
    hide Run, Quiet, PutBefore, HasKey, OffsetOf;
    var f := ObjFrame([ROOT]);
    var more := PutBefore(m.members, "user_id", text);
    var i1, i2 := i + 1, i + 1 + |m.gap|;
    OpenObj([ROOT], m.gap + more, i, i1);
    RunSpace([ROOT] + [f], m.gap, more, i1, i2);
    RunBefore([ROOT], f, m.members, "user_id", text, i2, j);
    assert [ROOT] + [METADATA] == [ROOT, METADATA];
  }

  lemma ReachUserId(d: Doc, text: string)
    requires WellFormedDoc(d) && Regular(d) && UserId(d).Some?
    ensures Run(START, DocBefore(d, text), 0) == Run(Quiet([ROOT, METADATA]), text, UserId(d).value.1)
  {
    hide Run, Quiet, PutBefore, HasKey, OffsetOf, MetadataBefore, WellFormed, ValueOf, Once, PlainKeys, KeysReadable, Put, START;
    WholeIsParts(d);
    var ms := d.root.members;
    var m := Metadata(d);
    var inner := MetadataBefore(m, text);
    var more := PutBefore(ms, "metadata", inner);
    var f := ObjFrame([]);
    var i1 := |d.lead|;
    var i2, i3 := i1 + 1, i1 + 1 + |d.root.gap|;
    var i4 := i3 + OffsetOf(ms, "metadata");
    RunSpace([], d.lead, "{" + (d.root.gap + more), 0, i1);
    OpenObj([], d.root.gap + more, i1, i2);
    RunSpace([] + [f], d.root.gap, more, i2, i3);
    RunBefore([], f, ms, "metadata", inner, i3, i4);
    assert [] + [ROOT] == [ROOT];
    RunMetadataBefore(m, text, i4, UserId(d).value.1);
    StartIsQuiet();
  }

  lemma StartIsQuiet()
    ensures START == Quiet([])
  {
  }

  lemma WholeIsParts(d: Doc)
    requires WellFormedDoc(d) && Regular(d) && UserId(d).Some?
    ensures AllSpace(d.lead) && AllSpace(d.root.gap) && WellFormedMembers(d.root.members)
    ensures WellFormed(Metadata(d)) && WellFormed(UserId(d).value.0)
  {
    FieldIsPart(d.root.members, "metadata");
    FieldIsPart(Metadata(d).members, "user_id");
  }

  /** Without a target the machine reads to the end and finds nothing. */
  lemma PassesOver(d: Doc)
    requires WellFormedDoc(d) && d.root.Obj? && ClearMembers(1, None, d.root.members)
    ensures Run(START, RenderDoc(d), 0).valueStart.None?
  {
    hide Run, Quiet, PutMembers, WellFormedMembers, ClearMembers, START;
    var ms := d.root.members;
    var f := ObjFrame([]);
    var more := PutMembers(ms, "}" + d.trail);
    var i1 := |d.lead|;
    var i2, i3 := i1 + 1, i1 + 1 + |d.root.gap|;
    var i4 := i3 + LenMembers(ms) + 1;
    var i5 := i4 + |d.trail|;
    RunSpace([], d.lead, "{" + (d.root.gap + more), 0, i1);
    OpenObj([], d.root.gap + more, i1, i2);
    RunSpace([] + [f], d.root.gap, more, i2, i3);
    RunMembers([], f, ms, d.trail, i3, i4);
    RunSpace([], d.trail, "", i4, i5);
    EmptyRight(d.trail);
    EndsQuiet(i5);
    StartIsQuiet();
  }

  lemma EndsQuiet(i: nat)
    ensures Run(Quiet([]), "", i).valueStart.None?
  {
  }

  // ----- Agreement -----

  /** When the machine is sure to agree: a string `user_id` carries the prefix, or the prefix does
      not occur behind it; and a container, which the machine does not look into, does not carry it. */
  predicate Settled(d: Doc) {
    UserId(d).Some? ==>
      var u := UserId(d).value.0;
      if u.Str? then FirstAt(Render(u), PREFIX).Some? || FirstAt(DocAfter(d), PREFIX).None?
      else FirstAt(Render(u), PREFIX).None?
  }

  lemma UserIdIsField(d: Doc)
    requires Regular(d)
    ensures d.root.Obj?
    ensures UserId(d).None? || !UserId(d).value.0.Str? ==> ClearMembers(1, None, d.root.members)
  {
    var ms := d.root.members;
    PlainIsReadable(ms);
    if HasKey(ms, "metadata") {
      var m := ValueOf(ms, "metadata");
      if m.Obj? {
        PlainIsReadable(m.members);
        if UserId(d).None? || !UserId(d).value.0.Str? {
          FieldClear(2, Some("metadata"), "user_id", m.members);
          FieldClear(1, None, "metadata", ms);
        }
      } else {
        FieldClear(1, None, "metadata", ms);
      }
    } else {
      WithoutFieldIsClear(1, None, "metadata", ms);
    }
  }

  lemma ReachTarget(d: Doc)
    requires WellFormedDoc(d) && Regular(d) && UserId(d).Some? && UserId(d).value.0.Str?
    ensures var (u, at) := UserId(d).value;
      IsStrBody(u.raw) && Run(START, RenderDoc(d), 0) == Run(Quiet([ROOT, METADATA]), Put(u, DocAfter(d)), at)
  {
    hide Run, Quiet, DocBefore, DocAfter, Regular, WellFormedDoc, UserId, START, RenderDoc;
    var (u, at) := UserId(d).value;
    WholeIsParts(d);
    DocAround(d);
    ReachUserId(d, Put(u, DocAfter(d)));
  }

  /** The machine on a target string and the text behind it. */
  lemma RunUserId(raw: string, after: string, at: nat)
    requires IsStrBody(raw) && (FirstAt(Render(Str(raw)), PREFIX).Some? || FirstAt(after, PREFIX).None?)
    ensures Run(Quiet([ROOT, METADATA]), Put(Str(raw), after), at).valueStart ==
            Plus(Plus(FirstAt(Render(Str(raw)), PREFIX), |PREFIX|), at)
  {
    hide Run, Quiet, FirstAt, Put, IsStrBody, Render, InString;
    RunTarget([ROOT, METADATA], raw, after, at);
    StrOccurrence(raw);
    if FirstAt(raw, PREFIX).None? { BehindString(after, at + 2 + |raw|); }
  }

  /** When there is a string to look into, the machine finds what the structural locator finds. */
  lemma TargetAgrees(d: Doc)
    requires WellFormedDoc(d) && Regular(d) && UserId(d).Some? && UserId(d).value.0.Str? && Settled(d)
    ensures Run(START, RenderDoc(d), 0).valueStart == Locate(d)
  {
    hide Run, Quiet, FirstAt, DocAfter, Regular, WellFormedDoc, UserId, START, Put, Render, IsStrBody, RenderDoc;
    var (u, at) := UserId(d).value;
    ReachTarget(d);
    RunUserId(u.raw, DocAfter(d), at);
  }

  lemma BehindString(after: string, i: nat)
    requires FirstAt(after, PREFIX).None?
    ensures Run(InString([ROOT, METADATA], false, ""), after, i).valueStart.None?
  {
    hide Run, FirstAt;
    var st := InString([ROOT, METADATA], false, "");
    FindsHeld(st, after, i);
    assert Held(PREFIX, 0, after) == after;
    var v := Run(st, after, i).valueStart;
    if v.Some? { FirstAtComplete(after, PREFIX, v.value - i - |PREFIX|); }
  }

  /** The streaming machine returns exactly the offset read out of the parsed document. */
  lemma MachineAgrees(d: Doc)
    requires WellFormedDoc(d) && Regular(d) && Settled(d)
    ensures Run(START, RenderDoc(d), 0).valueStart == Locate(d)
  {
    hide Run, FirstAt, ClearMembers, WellFormedDoc, Regular, UserId;
    if UserId(d).Some? && UserId(d).value.0.Str? {
      TargetAgrees(d);
    } else {
      UserIdIsField(d);
      PassesOver(d);
    }
  }

  /** It never looks into a container, so there it agrees exactly when the prefix is not in it. */
  lemma ContainerAgrees(d: Doc)
    requires WellFormedDoc(d) && Regular(d) && UserId(d).Some? && !UserId(d).value.0.Str?
    ensures Run(START, RenderDoc(d), 0).valueStart == Locate(d) <==> FirstAt(Render(UserId(d).value.0), PREFIX).None?
  {
    hide Run, FirstAt, ClearMembers, WellFormedDoc, Regular, UserId;
    UserIdIsField(d);
    PassesOver(d);
  }
}
