/** Overwriting the located uuid in place (`src/account_uuid.rs`, `patch_at`): what the overwrite
    keeps, and when the patched body is still the JSON it was. */
module UuidPatch {
  import opened Sequences
  import opened Options
  import opened JsonText
  import opened JsonTree
  import opened UuidMachine
  import opened UuidLocator
  import opened UuidAgreement
  import opened UuidStrings

  const WIDTH := 36

  /** No quote and no backslash. */
  predicate Clean(s: string) { forall k :: 0 <= k < |s| ==> s[k] != '"' && s[k] != '\\' }

  /** A uuid that is written at all. */
  predicate Writable(uuid: string) { |uuid| == WIDTH && Clean(uuid) }

  /** A clean value of the right width stands at `start`, closed by an escaped quote. */
  predicate Replaceable(body: string, start: nat) {
    var end := start + WIDTH;
    end + 2 <= |body| && Clean(body[start..end]) && body[end] == '\\' && body[end + 1] == '"'
  }

  function Overwrite(body: string, uuid: string, start: nat): string
    requires start + WIDTH <= |body|
  {
    body[..start] + uuid + body[start + WIDTH..]
  }

  /** The patched copy, or nothing when the body is passed on as it is. */
  function PatchAt(body: string, uuid: string, start: Option<nat>): Option<string> {
    if |uuid| != WIDTH || !Clean(uuid) || start.None? then None
    else if !Replaceable(body, start.value) then None
    else if body[start.value..start.value + WIDTH] == uuid then None
    else Some(Overwrite(body, uuid, start.value))
  }

  /** The bytes that are sent on. */
  function Sent(body: string, uuid: string, start: Option<nat>): string {
    var out := PatchAt(body, uuid, start);
    if out.None? then body else out.value
  }

  // ----- What the overwrite keeps -----

  lemma OverwriteParts(body: string, uuid: string, start: nat)
    requires start + WIDTH <= |body| && |uuid| == WIDTH
    ensures var out := Overwrite(body, uuid, start);
      && |out| == |body| && out[..start] == body[..start] && out[start..start + WIDTH] == uuid
      && out[start + WIDTH..] == body[start + WIDTH..]
  {
  }

  /** A copy is made only for a real change; it has the same length, the new uuid in the window and
      every other byte unchanged. */
  lemma PatchKeepsOutside(body: string, uuid: string, start: Option<nat>)
    ensures var out := Sent(body, uuid, start);
      && |out| == |body|
      && (PatchAt(body, uuid, start).Some? <==> out != body)
      && forall k :: 0 <= k < |body| ==>
           out[k] == (if out != body && start.value <= k < start.value + WIDTH then uuid[k - start.value] else body[k])
  {
    if PatchAt(body, uuid, start).Some? { OverwriteParts(body, uuid, start.value); }
  }

  lemma StillReplaceable(body: string, uuid: string, start: nat)
    requires Writable(uuid) && Replaceable(body, start)
    ensures var out := Overwrite(body, uuid, start);
      Replaceable(out, start) && out[start..start + WIDTH] == uuid && |out| == |body|
  {
    OverwriteParts(body, uuid, start);
    var out, end := Overwrite(body, uuid, start), start + WIDTH;
    assert out[end] == out[end..][0] && out[end + 1] == out[end..][1];
    assert body[end] == body[end..][0] && body[end + 1] == body[end..][1];
  }

  lemma OverwriteTwice(body: string, first: string, second: string, start: nat)
    requires start + WIDTH <= |body| && |first| == WIDTH && |second| == WIDTH
    requires |Overwrite(body, first, start)| == |body|
    ensures Overwrite(Overwrite(body, first, start), second, start) == Overwrite(body, second, start)
    ensures body[start..start + WIDTH] == second ==> Overwrite(body, second, start) == body
  {
    OverwriteParts(body, first, start);
  }

  /** Patching again with the same uuid changes nothing. */
  lemma PatchTwice(body: string, uuid: string, start: Option<nat>)
    ensures PatchAt(Sent(body, uuid, start), uuid, start).None?
  {
    hide Clean, Overwrite;
    if PatchAt(body, uuid, start).Some? { StillReplaceable(body, uuid, start.value); }
  }

  /** The last writable uuid is the only one that matters; an unwritable one leaves the first. */
  lemma LastPatchWins(body: string, first: string, second: string, start: Option<nat>)
    ensures Sent(Sent(body, first, start), second, start) ==
            if Writable(second) then Sent(body, second, start) else Sent(body, first, start)
  {
    hide Clean, Overwrite;
    if Writable(second) && PatchAt(body, first, start).Some? {
      StillReplaceable(body, first, start.value);
      OverwriteTwice(body, first, second, start.value);
    }
  }

  // ----- Splitting and joining string bodies -----

  predicate NoControl(s: string) { forall k :: 0 <= k < |s| ==> s[k] >= ' ' }

  lemma {:induction false} JoinBodies(a: string, b: string)
    requires IsStrBody(a) && IsStrBody(b)
    ensures IsStrBody(a + b)
    decreases |a|
  {
    hide StepLen;
    if a == "" {
      EmptyLeft(b);
    } else {
      StepLenOf(a, b);
      JoinBodies(a[StepLen(a)..], b);
    }
  }

  /** No escape runs over a quote that is not its own last byte. */
  lemma StepStopsAtQuote(a: string, b: string)
    requires |a| > 0 && a[|a| - 1] == '"' && StepLen(a + b) > 0
    ensures StepLen(a) == StepLen(a + b) && (a + b)[StepLen(a)..] == a[StepLen(a)..] + b
    ensures StepLen(a) < |a| ==> a[StepLen(a)..][|a[StepLen(a)..]| - 1] == '"'
  {
    var s := a + b;
    var n := StepLen(s);
    assert forall k :: 0 <= k < |a| ==> s[k] == a[k];
    assert s[|a| - 1] == '"';
    if n == 6 { assert IsHex(s[2]) && IsHex(s[3]) && IsHex(s[4]) && IsHex(s[5]) && s[1] == 'u' && s[0] == '\\'; }
    assert n <= |a|;
    assert s[n..] == a[n..] + b;
  }

  lemma {:induction false} SplitAtQuote(a: string, b: string)
    requires |a| > 0 ==> a[|a| - 1] == '"'
    requires IsStrBody(a + b)
    ensures IsStrBody(a) && IsStrBody(b)
    decreases |a|
  {
    hide StepLen;
    if |a| == 0 {
      assert a == "";
      EmptyLeft(b);
    } else {
      StepStopsAtQuote(a, b);
      SplitAtQuote(a[StepLen(a)..], b);
    }
  }

  /** Clean bytes at the front of a body are one step each. */
  lemma {:induction false} DropClean(w: string, b: string)
    requires Clean(w) && IsStrBody(w + b)
    ensures IsStrBody(b) && NoControl(w)
    decreases |w|
  {
    if |w| == 0 {
      assert w == "";
      EmptyLeft(b);
    } else {
      assert (w + b)[0] == w[0] && (w + b)[1..] == w[1..] + b;
      DropClean(w[1..], b);
    }
  }

  /** Replacing clean bytes behind a quote by clean bytes without a control byte. */
  lemma ReplaceInBody(a: string, w: string, u: string, b: string)
    requires IsStrBody(a + (w + b)) && |a| > 0 && a[|a| - 1] == '"' && Clean(w) && Clean(u)
    ensures IsStrBody(a) && NoControl(w)
    ensures NoControl(u) ==> IsStrBody(a + (u + b))
  {
    hide IsStrBody;
    SplitAtQuote(a, w + b);
    DropClean(w, b);
    if NoControl(u) {
      PlainFront(u, b);
      JoinBodies(a, u + b);
    }
  }

  predicate SameFront(s: string, t: string, n: nat) { n <= |s| && n <= |t| && s[..n] == t[..n] }

  /** A text with the same bytes up to the end of the first occurrence has it at the same place. */
  lemma SameFirst(s: string, t: string, pat: string, p: nat)
    requires FirstAt(s, pat) == Some(p) && |pat| > 0 && SameFront(s, t, p + |pat|)
    ensures FirstAt(t, pat) == Some(p)
  {
    hide FirstAt, OccursAt, SameFront;
    SameFrontFlips(s, t, p + |pat|);
    FirstAtSound(s, pat);
    SameOccurs(s, t, pat, p + |pat|, p);
    FirstAtComplete(t, pat, p);
    FirstAtSound(t, pat);
    var q := FirstAt(t, pat).value;
    SameOccurs(t, s, pat, p + |pat|, q);
    FirstAtComplete(s, pat, q);
  }

  lemma SameFrontFlips(s: string, t: string, n: nat)
    requires SameFront(s, t, n)
    ensures SameFront(t, s, n)
  {
  }

  lemma SameOccurs(s: string, t: string, pat: string, n: nat, k: nat)
    requires SameFront(s, t, n) && k + |pat| <= n && OccursAt(s, pat, k)
    ensures OccursAt(t, pat, k)
  {
    assert s[..n][k..k + |pat|] == s[k..k + |pat|];
    assert t[..n][k..k + |pat|] == t[k..k + |pat|];
  }

  // ----- Replacing one field of an object -----

  function SetField(ms: Members, name: string, v: Value): Members
    requires HasKey(ms, name)
  {
    if Decode(ms.key) == name then ms.(value := v) else ms.(rest := SetField(ms.rest, name, v))
  }

  lemma {:induction false} SetFieldKeys(ms: Members, name: string, v: Value, other: string)
    requires HasKey(ms, name)
    ensures var r := SetField(ms, name, v);
      && r.Member? && HasKey(r, name) && (HasKey(r, other) <==> HasKey(ms, other))
      && (Once(r, other) <==> Once(ms, other)) && (KeysReadable(r) <==> KeysReadable(ms))
  {
    hide Decode, HasLoneSurrogate;
    if Decode(ms.key) != name { SetFieldKeys(ms.rest, name, v, other); }
  }

  lemma {:induction false} SetFieldText(ms: Members, name: string, v: Value, tail: string)
    requires HasKey(ms, name)
    ensures HasKey(SetField(ms, name, v), name) && ValueOf(SetField(ms, name, v), name) == v
    ensures OffsetOf(SetField(ms, name, v), name) == OffsetOf(ms, name)
    ensures PutMembers(SetField(ms, name, v), tail) == PutBefore(ms, name, Put(v, PutAfter(ms, name, tail)))
  {
    hide Decode, Put, PutHead;
    if Decode(ms.key) != name {
      SetFieldText(ms.rest, name, v, tail);
      SameHead(ms, SetField(ms, name, v), Put(ms.value, ms.post + ("," + PutMembers(SetField(ms.rest, name, v), tail))));
    } else {
      SameHead(ms, ms.(value := v), Put(v, PutAfter(ms, name, tail)));
    }
  }

  lemma {:induction false} SetFieldWellFormed(ms: Members, name: string, v: Value)
    requires HasKey(ms, name) && WellFormedMembers(ms) && WellFormed(v)
    ensures WellFormedMembers(SetField(ms, name, v))
  {
    hide Decode, WellFormed, IsStrBody;
    if Decode(ms.key) != name { SetFieldWellFormed(ms.rest, name, v); }
  }

  /** The document with `metadata.user_id` replaced. */
  function SetUserId(d: Doc, v: Value): Doc
    requires UserId(d).Some?
  {
    var m := Metadata(d);
    d.(root := d.root.(members := SetField(d.root.members, "metadata", m.(members := SetField(m.members, "user_id", v)))))
  }

  lemma SetUserIdReads(d: Doc, v: Value)
    requires UserId(d).Some?
    ensures UserId(SetUserId(d, v)) == Some((v, UserId(d).value.1))
  {
    hide HasKey, Once, KeysReadable, ValueOf, OffsetOf, SetField;
    var m := Metadata(d);
    var ms := SetField(m.members, "user_id", v);
    SetFieldKeys(m.members, "user_id", v, "user_id");
    SetFieldText(m.members, "user_id", v, "");
    SetFieldKeys(d.root.members, "metadata", m.(members := ms), "metadata");
    SetFieldText(d.root.members, "metadata", m.(members := ms), "");
  }

  lemma SetUserIdText(d: Doc, v: Value)
    requires UserId(d).Some?
    ensures RenderDoc(SetUserId(d, v)) == DocBefore(d, Put(v, DocAfter(d)))
  {
    hide HasKey, Once, KeysReadable, ValueOf, OffsetOf, SetField, PutMembers, PutBefore, PutAfter;
    var m := Metadata(d);
    var ms := SetField(m.members, "user_id", v);
    SetFieldText(d.root.members, "metadata", m.(members := ms), "}" + d.trail);
    SetFieldText(m.members, "user_id", v, "}" + PutAfter(d.root.members, "metadata", "}" + d.trail));
  }

  lemma SetInObject(o: Value, name: string, v: Value)
    requires o.Obj? && WellFormed(o) && HasKey(o.members, name) && WellFormed(v)
    ensures WellFormed(o.(members := SetField(o.members, name, v)))
  {
    assert o.members.Member?;
    hide HasKey, SetField;
    SetFieldWellFormed(o.members, name, v);
  }

  lemma SetUserIdWellFormed(d: Doc, v: Value)
    requires UserId(d).Some? && WellFormedDoc(d) && WellFormed(v)
    ensures WellFormedDoc(SetUserId(d, v))
  {
    assert WellFormed(d.root) && WellFormedMembers(d.root.members);
    hide HasKey, Once, KeysReadable, ValueOf, SetField, WellFormed, WellFormedMembers;
    var m := Metadata(d);
    FieldIsPart(d.root.members, "metadata");
    SetInObject(m, "user_id", v);
    SetInObject(d.root, "metadata", m.(members := SetField(m.members, "user_id", v)));
  }

  // ----- Text that does not read as a value breaks the document around it -----

  lemma {:induction false} BrokenStr(a: string, text: string)
    requires IsStrBody(a) && ReadStr(text).None?
    ensures ReadStr(a + text).None?
    decreases |a|
  {
    hide StepLen;
    if a == "" {
      EmptyLeft(text);
    } else {
      StepLenOf(a, text);
      BrokenStr(a[StepLen(a)..], text);
    }
  }

  /** A control byte is refused. */
  lemma {:induction false} ControlBreaks(u: string, text: string)
    requires Clean(u) && !NoControl(u)
    ensures ReadStr(u + text).None?
    decreases |u|
  {
    var s := u + text;
    assert |u| > 0 && s[0] == u[0];
    if u[0] >= ' ' {
      assert s[1..] == u[1..] + text;
      assert !NoControl(u[1..]) by {
        var k :| 0 <= k < |u| && u[k] < ' ';
        assert u[1..][k - 1] == u[k];
      }
      ControlBreaks(u[1..], text);
    }
  }

  /** The first byte of a text that is not a value yet must not be taken for whitespace. */
  predicate Opens(text: string) { text != "" && !IsSpace(text[0]) }

  lemma {:induction false} BrokenMembers(ms: Members, name: string, text: string)
    requires WellFormedMembers(ms) && HasKey(ms, name) && Opens(text) && ReadValue(text).None?
    ensures ReadMembers(PutBefore(ms, name, text)).None?
    ensures SplitSpace(PutBefore(ms, name, text)).1 != "" && SplitSpace(PutBefore(ms, name, text)).1[0] == '"'
    decreases ms
  {
    hide Decode, ReadHead, ReadValue, Put, PutHead, WellFormed, IsStrBody;
    if Decode(ms.key) == name {
      ReadHeadComplete(ms, text);
    } else {
      var t := "," + PutBefore(ms.rest, name, text);
      var r := ms.post + t;
      PutFirst(ms.value, r);
      ReadHeadComplete(ms, Put(ms.value, r));
      assert r[0] == (if ms.post == "" then ',' else ms.post[0]);
      ReadValueComplete(ms.value, r);
      SplitSpaceOf(ms.post, t);
      assert t[1..] == PutBefore(ms.rest, name, text);
      BrokenMembers(ms.rest, name, text);
    }
  }

  lemma BrokenObject(o: Value, name: string, text: string)
    requires o.Obj? && WellFormed(o) && HasKey(o.members, name) && Opens(text) && ReadValue(text).None?
    ensures ReadValue("{" + (o.gap + PutBefore(o.members, name, text))).None?
  {
    assert o.gap == "" && WellFormedMembers(o.members);
    hide PutBefore, ReadMembers, SplitSpace, WellFormed, WellFormedMembers, HasKey, ReadValue;
    var inner := PutBefore(o.members, name, text);
    EmptyLeft(inner);
    BrokenMembers(o.members, name, text);
    BrokenBraces(inner);
  }

  lemma BrokenBraces(inner: string)
    requires SplitSpace(inner).1 != "" && SplitSpace(inner).1[0] == '"' && ReadMembers(inner).None?
    ensures ReadValue("{" + inner).None?
  {
    hide ReadMembers, SplitSpace;
    assert ReadObj(inner).None?;
    var s := "{" + inner;
    assert s[0] == '{' && s[1..] == inner;
  }

  lemma BrokenDoc(d: Doc, text: string)
    requires WellFormedDoc(d) && UserId(d).Some? && Opens(text) && ReadValue(text).None?
    ensures ParseDoc(DocBefore(d, text)).None?
  {
    assert WellFormed(d.root) && WellFormedMembers(d.root.members);
    hide PutBefore, ReadValue, SplitSpace, WellFormed, WellFormedMembers, HasKey, ValueOf, Once, KeysReadable;
    var m := Metadata(d);
    FieldIsPart(d.root.members, "metadata");
    BrokenObject(m, "user_id", text);
    BrokenObject(d.root, "metadata", MetadataBefore(m, text));
    SplitSpaceOf(d.lead, "{" + (d.root.gap + PutBefore(d.root.members, "metadata", MetadataBefore(m, text))));
  }

  // ----- Where the window lies in the document -----

  lemma {:induction false} BeforeIsText(ms: Members, name: string, text: string)
    requires HasKey(ms, name)
    ensures PutBefore(ms, name, text) == PutBefore(ms, name, "") + text
    ensures |PutBefore(ms, name, "")| == OffsetOf(ms, name)
    decreases ms
  {
    hide Decode, Put, PutHead;
    if Decode(ms.key) == name {
      PutHeadIsText(ms, "", text);
      EmptyLeft(text);
    } else {
      BeforeIsText(ms.rest, name, text);
      var more := PutBefore(ms.rest, name, "");
      PutIsRender(ms.value, ms.post + ("," + (more + text)));
      PutIsRender(ms.value, ms.post + ("," + more));
      Assoc(",", more, text);
      Assoc(ms.post, "," + more, text);
      Assoc(Render(ms.value), ms.post + ("," + more), text);
      PutHeadIsText(ms, Render(ms.value) + (ms.post + ("," + more)), text);
    }
  }

  lemma ObjectBeforeIsText(gap: string, ms: Members, name: string, text: string)
    requires HasKey(ms, name)
    ensures "{" + (gap + PutBefore(ms, name, text)) == ("{" + (gap + PutBefore(ms, name, ""))) + text
    ensures |"{" + (gap + PutBefore(ms, name, ""))| == 1 + |gap| + OffsetOf(ms, name)
  {
    hide PutBefore, OffsetOf, HasKey;
    BeforeIsText(ms, name, text);
    var b := PutBefore(ms, name, "");
    Assoc(gap, b, text);
    Assoc("{", gap + b, text);
  }

  lemma DocBeforeIsText(d: Doc, text: string)
    requires UserId(d).Some?
    ensures DocBefore(d, text) == DocBefore(d, "") + text && |DocBefore(d, "")| == UserId(d).value.1
  {
    hide PutBefore, OffsetOf, HasKey, Once, KeysReadable, ValueOf;
    var m := Metadata(d);
    var ms := d.root.members;
    ObjectBeforeIsText(m.gap, m.members, "user_id", text);
    var inner := MetadataBefore(m, "");
    assert MetadataBefore(m, text) == inner + text;
    ObjectBeforeIsText(d.root.gap, ms, "metadata", inner);
    ObjectBeforeIsText(d.root.gap, ms, "metadata", inner + text);
    var o := "{" + (d.root.gap + PutBefore(ms, "metadata", ""));
    Assoc(o, inner, text);
    Assoc(d.lead, o + inner, text);
  }

  /** A string body with the window at `k` overwritten. */
  function PatchedRaw(raw: string, k: nat, uuid: string): string
    requires k + WIDTH <= |raw|
  {
    raw[..k] + (uuid + raw[k + WIDTH..])
  }

  lemma NoQuoteInWindow(body: string, start: nat, q: nat)
    requires Replaceable(body, start) && start <= q < |body| && body[q] == '"'
    ensures start + WIDTH < q
  {
    forall j | start <= j < start + WIDTH ensures body[j] != '"' {
      assert body[start..start + WIDTH][j - start] == body[j];
    }
  }

  /** A replaceable window that starts in a string does not reach its closing quote. */
  lemma WindowInside(x: string, raw: string, y: string, k: nat, start: nat)
    requires y != "" && y[0] == '"' && k <= |raw| && start == |x| + k && Replaceable(x + (raw + y), start)
    ensures k + WIDTH < |raw| && Clean(raw[k..k + WIDTH])
  {
    var body := x + (raw + y);
    NoQuoteInWindow(body, start, |x| + |raw|);
    assert body[start..start + WIDTH] == raw[k..k + WIDTH];
  }

  lemma OverwriteInside(x: string, raw: string, y: string, k: nat, start: nat, uuid: string)
    requires k + WIDTH <= |raw| && start == |x| + k
    ensures Overwrite(x + (raw + y), uuid, start) == x + (PatchedRaw(raw, k, uuid) + y)
  {
    var body := x + (raw + y);
    var a, b := raw[..k], raw[k + WIDTH..];
    assert body[..start] == x + a;
    assert body[start + WIDTH..] == b + y;
    Assoc(x, a, uuid);
    Assoc(x, a + uuid, b + y);
    Assoc(a, uuid, b + y);
    Assoc(uuid, b, y);
    Assoc(a, uuid + b, y);
    Assoc(x + a, uuid, b + y);
    Assoc(x, a, uuid + (b + y));
  }

  /** Where the located window lies in a text with a string between `pre` and `post`. */
  function InRaw(p: nat, pre: string): int { p + |PREFIX| - |pre| - 1 }

  lemma FillAt(pre: string, raw: string, post: string, i: nat)
    requires i < |raw|
    ensures |pre| + 1 + i < |Fill(pre, raw, post)| && Fill(pre, raw, post)[|pre| + 1 + i] == raw[i]
  {
  }

  /** The prefix ends inside the string its last backslash stands in: that backslash escapes the quote
      behind it. */
  lemma PrefixEndsInside(pre: string, raw: string, post: string, p: nat)
    requires IsStrBody(raw) && OccursAt(Fill(pre, raw, post), PREFIX, p) && Inside(p + 15, pre, raw)
    ensures 2 <= InRaw(p, pre) <= |raw| && raw[InRaw(p, pre) - 1] == '"'
  {
    hide IsStrBody, IsScanned, Fill;
    var t := Fill(pre, raw, post);
    var i := p + 15 - |pre| - 1;
    assert t[p + 14] == t[p..p + |PREFIX|][14] == ':';
    assert t[p + 15] == t[p..p + |PREFIX|][15] == '\\';
    assert t[p + 16] == t[p..p + |PREFIX|][16] == '"';
    FillAt(pre, raw, post, i);
    BodyIsScanned(raw);
    if i == |raw| - 1 {
      LastByte(raw);
      FillAt(pre, raw, post, i - 1);
    }
    FillAt(pre, raw, post, i + 1);
  }

  /** Any backslash of the located prefix is in a string of the value, and so is the window. */
  lemma LocatedString(v: Value, p: nat) returns (pre: string, raw: string, post: string)
    requires WellFormed(v) && FirstAt(Render(v), PREFIX) == Some(p)
    ensures HoleIn(v, pre, raw, post) && 2 <= InRaw(p, pre) <= |raw| && raw[InRaw(p, pre) - 1] == '"'
  {
    hide FirstAt, WellFormed, Fill, IsStrBody, ReadStr, ReadValue, IsText, Starts;
    FirstAtSound(Render(v), PREFIX);
    PrefixByte(Render(v), p, 15);
    pre, raw, post := FindString(v, p + 15);
    PrefixEndsInside(pre, raw, post, p);
  }

  lemma PrefixByte(s: string, p: nat, k: nat)
    requires OccursAt(s, PREFIX, p) && k < |PREFIX|
    ensures p + k < |s| && s[p + k] == PREFIX[k]
  {
    assert s[p..p + |PREFIX|][k] == s[p + k];
  }

  /** What an overwrite of a replaceable window makes of the document's text. */
  lemma PatchedText(d: Doc, at: nat, pre: string, raw: string, post: string, k: nat, uuid: string)
    requires UserId(d).Some? && UserId(d).value.1 == at && Render(UserId(d).value.0) == Fill(pre, raw, post) && k <= |raw|
    requires Replaceable(RenderDoc(d), at + |pre| + 1 + k)
    ensures k + WIDTH < |raw| && Clean(raw[k..k + WIDTH])
    ensures Overwrite(RenderDoc(d), uuid, at + |pre| + 1 + k) ==
            DocBefore(d, Fill(pre, PatchedRaw(raw, k, uuid), post + DocAfter(d)))
  {
    hide UserId, Replaceable, DocBefore, DocAfter, RenderDoc, Overwrite, PatchedRaw, Clean, Render, Put;
    var before, after := DocBefore(d, ""), DocAfter(d);
    var x, y := (before + pre) + "\"", "\"" + (post + after);
    DocAround(d);
    PutIsRender(UserId(d).value.0, after);
    FillBefore(pre, raw, post, after);
    DocBeforeIsText(d, Fill(pre, raw, post + after));
    FillSplit(before, pre, raw, post + after);
    WindowInside(x, raw, y, k, at + |pre| + 1 + k);
    OverwriteInside(x, raw, y, k, at + |pre| + 1 + k, uuid);
    var raw' := PatchedRaw(raw, k, uuid);
    FillSplit(before, pre, raw', post + after);
    DocBeforeIsText(d, Fill(pre, raw', post + after));
  }

  lemma FillSplit(before: string, pre: string, raw: string, post: string)
    ensures before + Fill(pre, raw, post) == ((before + pre) + "\"") + (raw + ("\"" + post))
  {
    FillAfter(before, pre, raw, post);
    Assoc(before + pre, "\"", raw + ("\"" + post));
  }

  /** The patched string body: still one exactly when the uuid has no control byte. */
  lemma PatchedBody(raw: string, k: nat, uuid: string)
    requires IsStrBody(raw) && Clean(uuid) && 0 < k && k + WIDTH < |raw| && raw[k - 1] == '"' && Clean(raw[k..k + WIDTH])
    ensures var raw' := PatchedRaw(raw, k, uuid);
      && (NoControl(uuid) ==> IsStrBody(raw'))
      && forall rest :: !NoControl(uuid) ==> ReadStr(raw' + rest).None?
  {
    hide IsStrBody, Clean, NoControl, ReadStr;
    var a, w, b := raw[..k], raw[k..k + WIDTH], raw[k + WIDTH..];
    assert raw == a + (w + b);
    ReplaceInBody(a, w, uuid, b);
    forall rest ensures !NoControl(uuid) ==> ReadStr(PatchedRaw(raw, k, uuid) + rest).None? {
      if !NoControl(uuid) {
        ControlBreaks(uuid, b + rest);
        BrokenStr(a, uuid + (b + rest));
        Assoc(uuid, b, rest);
        Assoc(a, uuid + b, rest);
      }
    }
  }

  /** Up to the window the patched text is the old one, so the prefix is found where it was. */
  lemma SamePlace(pre: string, raw: string, post: string, p: nat, uuid: string)
    requires FirstAt(Fill(pre, raw, post), PREFIX) == Some(p) && 0 <= InRaw(p, pre) && InRaw(p, pre) + WIDTH <= |raw|
    ensures FirstAt(Fill(pre, PatchedRaw(raw, InRaw(p, pre), uuid), post), PREFIX) == Some(p)
  {
    hide FirstAt;
    var k := InRaw(p, pre);
    var raw' := PatchedRaw(raw, k, uuid);
    FrontOf(pre, raw, post, k);
    FrontOf(pre, raw', post, k);
    assert raw'[..k] == raw[..k];
    SameFirst(Fill(pre, raw, post), Fill(pre, raw', post), PREFIX, p);
  }

  lemma FrontOf(pre: string, raw: string, post: string, k: nat)
    requires k <= |raw|
    ensures var t := Fill(pre, raw, post); |pre| + 1 + k <= |t| && t[..|pre| + 1 + k] == (pre + "\"") + raw[..k]
  {
    var t := Fill(pre, raw, post);
    Assoc(pre, "\"", raw + ("\"" + post));
    assert t == (pre + "\"") + (raw + ("\"" + post));
  }

  /** The located offset, said of the prefix in the value's text. */
  lemma LocatedAt(d: Doc)
    requires UserId(d).Some?
    ensures Locate(d) == Plus(FirstAt(Render(UserId(d).value.0), PREFIX), UserId(d).value.1 + |PREFIX|)
  {
  }

  /** The document with the patched string in place: it has the patched text, and the same offset. */
  lemma PatchedIsDocument(d: Doc, v: Value, pre: string, raw: string, post: string, p: nat, uuid: string) returns (e: Doc)
    requires WellFormedDoc(d) && UserId(d).Some? && UserId(d).value.0 == v && HoleIn(v, pre, raw, post)
    requires FirstAt(Render(v), PREFIX) == Some(p) && 0 <= InRaw(p, pre) && InRaw(p, pre) + WIDTH <= |raw|
    requires IsStrBody(PatchedRaw(raw, InRaw(p, pre), uuid))
    ensures var text := DocBefore(d, Fill(pre, PatchedRaw(raw, InRaw(p, pre), uuid), post + DocAfter(d)));
      ParseDoc(text) == Some(e) && UserId(e).Some? && e == SetUserId(d, UserId(e).value.0) && Locate(e) == Locate(d)
  {
    hide WellFormedDoc, WellFormed, FirstAt, IsStrBody, UserId, DocBefore, DocAfter, Fill, PatchedRaw, ReadStr, ReadValue, Starts,
         ParseDoc, Locate, SetUserId, RenderDoc, Render, Put;
    var raw', after := PatchedRaw(raw, InRaw(p, pre), uuid), DocAfter(d);
    assert IsText(Fill(pre, raw', post));
    var v' :| WellFormed(v') && Render(v') == Fill(pre, raw', post);
    SamePlace(pre, raw, post, p, uuid);
    e := SetUserId(d, v');
    SetUserIdText(d, v');
    PutIsRender(v', after);
    FillBefore(pre, raw', post, after);
    SetUserIdWellFormed(d, v');
    SetUserIdReads(d, v');
    ParseComplete(e);
    LocatedAt(d);
    LocatedAt(e);
  }

  lemma OpensWith(pre: string, text: string)
    requires Starts(pre)
    ensures Opens(Open(pre, text))
  {
    OpenStarts(pre, text);
  }

  /** With a control byte in the string, the document does not parse. */
  lemma PatchedIsBroken(d: Doc, v: Value, pre: string, raw: string, post: string, k: nat, uuid: string)
    requires WellFormedDoc(d) && UserId(d).Some? && HoleIn(v, pre, raw, post) && k + WIDTH <= |raw|
    requires forall rest :: ReadStr(PatchedRaw(raw, k, uuid) + rest).None?
    ensures ParseDoc(DocBefore(d, Fill(pre, PatchedRaw(raw, k, uuid), post + DocAfter(d)))).None?
  {
    hide WellFormedDoc, UserId, IsStrBody, ParseDoc, DocBefore, DocAfter, ReadStr, ReadValue, Fill, IsText, Starts, Open, Render, PatchedRaw;
    var text := PatchedRaw(raw, k, uuid) + ("\"" + (post + DocAfter(d)));
    OpensWith(pre, text);
    BrokenDoc(d, Open(pre, text));
    OpenFill(pre, PatchedRaw(raw, k, uuid), post + DocAfter(d));
  }

  /** The patched text, with the string it is about. */
  lemma PatchedString(d: Doc, uuid: string) returns (pre: string, raw: string, post: string, p: nat)
    requires WellFormedDoc(d) && UserId(d).Some? && PatchAt(RenderDoc(d), uuid, Locate(d)).Some?
    ensures HoleIn(UserId(d).value.0, pre, raw, post) && FirstAt(Render(UserId(d).value.0), PREFIX) == Some(p)
    ensures 0 < InRaw(p, pre) && InRaw(p, pre) + WIDTH < |raw| && raw[InRaw(p, pre) - 1] == '"'
    ensures Clean(uuid) && Clean(raw[InRaw(p, pre)..InRaw(p, pre) + WIDTH])
    ensures PatchAt(RenderDoc(d), uuid, Locate(d)) ==
            Some(DocBefore(d, Fill(pre, PatchedRaw(raw, InRaw(p, pre), uuid), post + DocAfter(d))))
  {
    hide WellFormedDoc, WellFormed, UserId, RenderDoc, FirstAt, Clean, Replaceable, Overwrite, IsStrBody, DocBefore, DocAfter,
         Locate, ReadStr, ReadValue, Fill, IsText, Starts, Open, Render, PatchedRaw;
    var (v, at) := UserId(d).value;
    UserIdIsWellFormed(d);
    LocatedAt(d);
    p := FirstAt(Render(v), PREFIX).value;
    pre, raw, post := LocatedString(v, p);
    PatchedText(d, at, pre, raw, post, InRaw(p, pre), uuid);
  }

  /** A patched body is JSON exactly when the uuid has no control byte. It then parses to the same
      document with only `metadata.user_id` replaced, and the uuid is located where it was. */
  lemma PatchedDocument(d: Doc, uuid: string)
    requires WellFormedDoc(d) && PatchAt(RenderDoc(d), uuid, Locate(d)).Some?
    ensures UserId(d).Some?
    ensures var e := ParseDoc(PatchAt(RenderDoc(d), uuid, Locate(d)).value);
      && (e.Some? <==> NoControl(uuid))
      && (e.Some? ==> UserId(e.value).Some? && e.value == SetUserId(d, UserId(e.value).value.0)
                      && Locate(e.value) == Locate(d))
  {
    LocatedHasUserId(RenderDoc(d), uuid, d);
    hide WellFormedDoc, UserId, RenderDoc, FirstAt, Clean, PatchAt, IsStrBody, NoControl, ParseDoc, DocBefore, DocAfter, Locate,
         ReadStr, ReadValue, SetUserId, Fill, IsText, Starts, Open, Render, PatchedRaw, InRaw;
    var pre, raw, post, p := PatchedString(d, uuid);
    var v, k := UserId(d).value.0, InRaw(p, pre);
    PatchedBody(raw, k, uuid);
    if NoControl(uuid) {
      var e := PatchedIsDocument(d, v, pre, raw, post, p, uuid);
    } else {
      PatchedIsBroken(d, v, pre, raw, post, k, uuid);
    }
  }

  lemma OpenFill(pre: string, raw: string, post: string)
    ensures Open(pre, raw + ("\"" + post)) == Fill(pre, raw, post)
  {
  }

  lemma UserIdIsWellFormed(d: Doc)
    requires WellFormedDoc(d) && UserId(d).Some?
    ensures WellFormed(UserId(d).value.0)
  {
    FieldIsPart(d.root.members, "metadata");
    FieldIsPart(Metadata(d).members, "user_id");
  }

  // ----- Patching a body -----

  /** `locate` on a text. */
  function LocateText(body: string): Option<nat> {
    var d :- ParseDoc(body);
    Locate(d)
  }

  function PatchAccountUuid(body: string, uuid: string): string { Sent(body, uuid, LocateText(body)) }

  /** Patching a patched body looks the offset up again and finds the same one, so only the last
      writable uuid matters; a body that a control byte broke is passed on as it is. */
  lemma Repatch(body: string, first: string, second: string)
    ensures var once := PatchAccountUuid(body, first);
      PatchAccountUuid(once, second) ==
        if Writable(second) && (once == body || NoControl(first)) then PatchAccountUuid(body, second) else once
  {
    hide ParseDoc, UserId, PatchAt, Writable, NoControl, WellFormedDoc, RenderDoc, Locate;
    LastPatchWins(body, first, second, LocateText(body));
    PatchKeepsOutside(body, first, LocateText(body));
    if PatchAt(body, first, LocateText(body)).Some? {
      StartOnly(body, first);
      var d := ParseDoc(body).value;
      ParseSound(body);
      PatchedDocument(d, first);
      if !NoControl(first) { NoStart(Sent(body, first, LocateText(body)), second); }
    }
    if !Writable(second) { NotWritten(Sent(body, first, LocateText(body)), second, LocateText(Sent(body, first, LocateText(body)))); }
  }

  lemma StartOnly(body: string, uuid: string)
    requires PatchAt(body, uuid, LocateText(body)).Some?
    ensures ParseDoc(body).Some?
  {
  }

  lemma NoStart(body: string, uuid: string)
    requires ParseDoc(body).None?
    ensures PatchAccountUuid(body, uuid) == body
  {
  }

  lemma NotWritten(body: string, uuid: string, start: Option<nat>)
    requires !Writable(uuid)
    ensures Sent(body, uuid, start) == body
  {
  }

  lemma LocatedHasUserId(body: string, uuid: string, d: Doc)
    requires PatchAt(body, uuid, Locate(d)).Some?
    ensures UserId(d).Some?
  {
  }
}
