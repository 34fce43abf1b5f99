/** Concrete JSON syntax: the text serde_json reads and borrows spans from.

    A body is a `string` holding one `char` per byte.  A tree keeps every byte of the text
    (whitespace slots, raw string bodies, number spellings), so `Render` gives the text back,
    and offsets into the text are sums of lengths.  `ParseDoc` is the recursive-descent reader;
    the two theorems `ParseSound` and `ParseComplete` say that it accepts exactly the renderings
    of well-formed trees and returns the one tree that renders to its input. */
module JsonText {
  import opened Sequences
  import opened Options

  /** A JSON value.  `Bare` is null, true, false or a number; `raw` is a string's body between
      its quotes, unescaped by nobody. `gap` is the inside of an empty container. */
  datatype Value =
    | Bare(tok: string)
    | Str(raw: string)
    | Arr(gap: string, elems: Elems)
    | Obj(gap: string, members: Members)

  datatype Elems = NoElem | Elem(pre: string, value: Value, post: string, rest: Elems)

  /** One member reads `pre "key" mid : sep value post`, and a comma when another follows. */
  datatype Members =
    | NoMember
    | Member(pre: string, key: string, mid: string, sep: string, value: Value, post: string, rest: Members)

  datatype Doc = Doc(lead: string, root: Value, trail: string)

  // ----- Rendering -----

  /** The text of `v` followed by `tail`. */
  function Put(v: Value, tail: string): string
    decreases v, 0
  {
    match v
    case Bare(tok) => tok + tail
    case Str(raw) => "\"" + (raw + ("\"" + tail))
    case Arr(gap, elems) => "[" + (gap + PutElems(elems, "]" + tail))
    case Obj(gap, members) => "{" + (gap + PutMembers(members, "}" + tail))
  }

  function PutElems(es: Elems, tail: string): string
    decreases es, 0
  {
    match es
    case NoElem => tail
    case Elem(pre, value, post, rest) => pre + Put(value, post + PutMoreElems(rest, tail))
  }

  /** What follows one element: nothing, or a comma and the rest. */
  function PutMoreElems(es: Elems, tail: string): string
    decreases es, 1
  {
    if es.NoElem? then tail else "," + PutElems(es, tail)
  }

  function PutMembers(ms: Members, tail: string): string
    decreases ms, 0
  {
    match ms
    case NoMember => tail
    case Member(pre, key, mid, sep, value, post, rest) =>
      PutHead(ms, Put(value, post + PutMoreMembers(rest, tail)))
  }

  function PutMoreMembers(ms: Members, tail: string): string
    decreases ms, 1
  {
    if ms.NoMember? then tail else "," + PutMembers(ms, tail)
  }

  /** The bytes of a member before its value, followed by `tail`. */
  function PutHead(m: Members, tail: string): string
    requires m.Member?
  {
    m.pre + ("\"" + (m.key + ("\"" + (m.mid + (":" + (m.sep + tail))))))
  }

  function Render(v: Value): string { Put(v, "") }

  function RenderDoc(d: Doc): string { d.lead + Put(d.root, d.trail) }

  // ----- Lexical classes -----

  predicate IsSpace(c: char) { c == ' ' || c == '\t' || c == '\n' || c == '\r' }

  predicate IsDigit(c: char) { '0' <= c <= '9' }

  predicate IsHex(c: char) { IsDigit(c) || 'a' <= c <= 'f' || 'A' <= c <= 'F' }

  /** A byte that can stand in a number or a keyword. */
  predicate IsTokenChar(c: char) {
    IsDigit(c) || 'a' <= c <= 'z' || 'A' <= c <= 'Z' || c == '+' || c == '-' || c == '.'
  }

  predicate IsSimpleEscape(c: char) { c in "\"\\/bfnrt" }

  predicate AllSpace(s: string) { forall i :: 0 <= i < |s| ==> IsSpace(s[i]) }

  predicate AllToken(s: string) { forall i :: 0 <= i < |s| ==> IsTokenChar(s[i]) }

  /** RFC 8259 section 6: an optional minus, digits with no leading zero, a fraction, an exponent. */
  predicate IsNumber(tok: string) {
    var t := if tok != "" && tok[0] == '-' then tok[1..] else tok;
    t != "" && IsDigit(t[0]) && IsAfterWhole(if t[0] == '0' then t[1..] else SkipDigits(t))
  }

  predicate IsAfterWhole(t: string) {
    || t == ""
    || (|t| > 1 && t[0] == '.' && IsDigit(t[1]) && IsAfterFraction(SkipDigits(t[1..])))
    || IsExponent(t)
  }

  predicate IsAfterFraction(t: string) { t == "" || IsExponent(t) }

  predicate IsExponent(t: string) {
    && |t| > 1 && (t[0] == 'e' || t[0] == 'E')
    && var u := if t[1] == '+' || t[1] == '-' then t[2..] else t[1..];
       u != "" && IsDigit(u[0]) && SkipDigits(u) == ""
  }

  function SkipDigits(s: string): string {
    if s != "" && IsDigit(s[0]) then SkipDigits(s[1..]) else s
  }

  predicate IsBareToken(tok: string) {
    tok != "" && AllToken(tok) && (tok == "null" || tok == "true" || tok == "false" || IsNumber(tok))
  }

  /** How many bytes the escape at the front of `s` takes, 0 when it is not one. The hex digits
      of a `\u` escape are checked, the code unit they spell is not: a skipped string may hold a
      lone surrogate. */
  function EscapeLen(s: string): (n: nat)
    ensures n <= |s|
  {
    if |s| >= 2 && s[0] == '\\' && IsSimpleEscape(s[1]) then 2
    else if |s| >= 6 && s[0] == '\\' && s[1] == 'u'
            && IsHex(s[2]) && IsHex(s[3]) && IsHex(s[4]) && IsHex(s[5]) then 6
    else 0
  }

  /** How many bytes the next character of a string body takes, 0 at anything a body cannot hold. */
  function StepLen(s: string): (n: nat)
    ensures n <= |s|
  {
    if s == "" || s[0] == '"' || s[0] < ' ' then 0
    else if s[0] == '\\' then EscapeLen(s)
    else 1
  }

  /** A string body: no bare quote, no control byte, every backslash starts an escape. */
  predicate IsStrBody(raw: string) {
    raw == "" || (StepLen(raw) > 0 && IsStrBody(raw[StepLen(raw)..]))
  }

  /** Plain bytes in front of a body are one step each. */
  lemma {:induction false} PlainFront(front: string, rest: string)
    requires (forall k :: 0 <= k < |front| ==> front[k] >= ' ' && front[k] != '"' && front[k] != '\\') && IsStrBody(rest)
    ensures IsStrBody(front + rest)
  {
    var s := front + rest;
    if front == "" {
      assert s == rest;
    } else {
      PlainFront(front[1..], rest);
      assert s[0] == front[0] && s[1..] == front[1..] + rest;
    }
  }

  // ----- Well-formed trees -----

  predicate WellFormed(v: Value) {
    match v
    case Bare(tok) => IsBareToken(tok)
    case Str(raw) => IsStrBody(raw)
    case Arr(gap, elems) => AllSpace(gap) && (elems.Elem? ==> gap == "") && WellFormedElems(elems)
    case Obj(gap, members) => AllSpace(gap) && (members.Member? ==> gap == "") && WellFormedMembers(members)
  }

  predicate WellFormedElems(es: Elems) {
    match es
    case NoElem => true
    case Elem(pre, value, post, rest) =>
      AllSpace(pre) && WellFormed(value) && AllSpace(post) && WellFormedElems(rest)
  }

  predicate WellFormedMembers(ms: Members) {
    match ms
    case NoMember => true
    case Member(pre, key, mid, sep, value, post, rest) =>
      && AllSpace(pre) && IsStrBody(key) && AllSpace(mid) && AllSpace(sep)
      && WellFormed(value) && AllSpace(post) && WellFormedMembers(rest)
  }

  predicate WellFormedDoc(d: Doc) {
    AllSpace(d.lead) && WellFormed(d.root) && AllSpace(d.trail)
  }

  // ----- The reader -----

  /** Leading whitespace and the rest. */
  function SplitSpace(s: string): (r: (string, string))
    ensures s == r.0 + r.1 && AllSpace(r.0) && (r.1 != "" ==> !IsSpace(r.1[0]))
    ensures |r.1| <= |s|
  {
    if s != "" && IsSpace(s[0]) then
      var (ws, t) := SplitSpace(s[1..]);
      (s[..1] + ws, t)
    else ("", s)
  }

  /** The longest run of token bytes and the rest. */
  function SplitToken(s: string): (r: (string, string))
    ensures s == r.0 + r.1 && AllToken(r.0) && (r.1 != "" ==> !IsTokenChar(r.1[0]))
  {
    if s != "" && IsTokenChar(s[0]) then
      var (tok, t) := SplitToken(s[1..]);
      (s[..1] + tok, t)
    else ("", s)
  }

  /** The body of a string whose opening quote was just read, and what follows its closing quote. */
  function ReadStr(s: string): (r: Option<(string, string)>)
    ensures r.Some? ==> |r.value.1| < |s|
  {
    if s != "" && s[0] == '"' then Some(("", s[1..]))
    else
      var n := StepLen(s);
      if n == 0 then None else
      var (raw, rest) :- ReadStr(s[n..]);
      Some((s[..n] + raw, rest))
  }

  function ReadValue(s: string): (r: Option<(Value, string)>)
    ensures r.Some? ==> |r.value.1| < |s|
    decreases |s|, 0
  {
    if s == "" then None
    else if s[0] == '"' then
      var (raw, rest) :- ReadStr(s[1..]);
      Some((Str(raw), rest))
    else if s[0] == '[' then ReadArr(s[1..])
    else if s[0] == '{' then ReadObj(s[1..])
    else
      var (tok, rest) := SplitToken(s);
      if IsBareToken(tok) then Some((Bare(tok), rest)) else None
  }

  /** An array whose opening bracket was just read. */
  function ReadArr(s: string): (r: Option<(Value, string)>)
    ensures r.Some? ==> |r.value.1| < |s|
    decreases |s|, 2
  {
    var (gap, t) := SplitSpace(s);
    if t != "" && t[0] == ']' then Some((Arr(gap, NoElem), t[1..]))
    else
      var (es, rest) :- ReadElems(s);
      Some((Arr("", es), rest))
  }

  /** An object whose opening brace was just read. */
  function ReadObj(s: string): (r: Option<(Value, string)>)
    ensures r.Some? ==> |r.value.1| < |s|
    decreases |s|, 2
  {
    var (gap, t) := SplitSpace(s);
    if t != "" && t[0] == '}' then Some((Obj(gap, NoMember), t[1..]))
    else
      var (ms, rest) :- ReadMembers(s);
      Some((Obj("", ms), rest))
  }

  /** One or more elements and the closing bracket. */
  function ReadElems(s: string): (r: Option<(Elems, string)>)
    ensures r.Some? ==> |r.value.1| < |s|
    decreases |s|, 1
  {
    var (pre, s1) := SplitSpace(s);
    var (value, s2) :- ReadValue(s1);
    var (post, t) := SplitSpace(s2);
    if t == "" then None
    else if t[0] == ']' then Some((Elem(pre, value, post, NoElem), t[1..]))
    else if t[0] == ',' then
      var (more, rest) :- ReadElems(t[1..]);
      Some((Elem(pre, value, post, more), rest))
    else None
  }

  /** A member up to its colon and the whitespace after it, with a placeholder value. */
  function ReadHead(s: string): (r: Option<(Members, string)>)
    ensures r.Some? ==> |r.value.1| < |s| && r.value.0.Member?
  {
    var (pre, s1) := SplitSpace(s);
    if s1 == "" || s1[0] != '"' then None else
    var (key, s2) :- ReadStr(s1[1..]);
    var (mid, s3) := SplitSpace(s2);
    if s3 == "" || s3[0] != ':' then None else
    var (sep, s4) := SplitSpace(s3[1..]);
    Some((Member(pre, key, mid, sep, Bare("null"), "", NoMember), s4))
  }

  /** One or more members and the closing brace. */
  function ReadMembers(s: string): (r: Option<(Members, string)>)
    ensures r.Some? ==> |r.value.1| < |s|
    decreases |s|, 1
  {
    var (head, s1) :- ReadHead(s);
    var (value, s2) :- ReadValue(s1);
    var (post, t) := SplitSpace(s2);
    if t == "" then None
    else if t[0] == '}' then Some((head.(value := value, post := post), t[1..]))
    else if t[0] == ',' then
      var (more, rest) :- ReadMembers(t[1..]);
      Some((head.(value := value, post := post, rest := more), rest))
    else None
  }

  /** The whole text as one value with whitespace around it. */
  function ParseDoc(s: string): Option<Doc> {
    var (lead, s1) := SplitSpace(s);
    var (root, s2) :- ReadValue(s1);
    if SplitSpace(s2).1 == "" then Some(Doc(lead, root, s2)) else None
  }

  // ----- The reader is sound: it returns a well-formed tree that renders to its input -----

  lemma Uncons(s: string, c: char)
    requires s != "" && s[0] == c
    ensures s == [c] + s[1..]
  {
  }

  lemma {:induction false} ReadStrSound(s: string)
    requires ReadStr(s).Some?
    ensures var (raw, rest) := ReadStr(s).value; IsStrBody(raw) && s == raw + ("\"" + rest)
  {
    if s[0] == '"' {
      Uncons(s, '"');
    } else {
      var n := StepLen(s);
      ReadStrSound(s[n..]);
      var (raw, rest) := ReadStr(s[n..]).value;
      StepLenPrefix(s, raw, "\"" + rest);
    }
  }

  /** A step reads only its own bytes, so what follows it does not matter. */
  lemma StepLenPrefix(s: string, raw: string, tail: string)
    requires s[StepLen(s)..] == raw + tail
    ensures var head := s[..StepLen(s)] + raw;
      StepLen(s) > 0 ==> StepLen(head) == StepLen(s) && head[StepLen(s)..] == raw && head + tail == s
  {
    var n := StepLen(s);
    var head := s[..n] + raw;
    assert head + tail == s;
    assert n > 0 ==> head[..n] == s[..n];
    assert n == 2 ==> head[0] == s[0] && head[1] == s[1];
    assert n == 6 ==> forall i :: 0 <= i < 6 ==> head[i] == s[i];
  }

  /** Nothing after a bare token could have belonged to it. */
  predicate Ends(v: Value, rest: string) {
    v.Bare? && rest != "" ==> !IsTokenChar(rest[0])
  }

  lemma {:induction false} ReadValueSound(s: string)
    requires ReadValue(s).Some?
    ensures var (v, rest) := ReadValue(s).value; WellFormed(v) && s == Put(v, rest) && Ends(v, rest)
    decreases |s|, 0
  {
    if s[0] == '"' {
      Uncons(s, '"');
      ReadStrSound(s[1..]);
    } else if s[0] == '[' {
      Uncons(s, '[');
      ReadArrSound(s[1..]);
    } else if s[0] == '{' {
      Uncons(s, '{');
      ReadObjSound(s[1..]);
    }
  }

  lemma {:induction false} ReadArrSound(s: string)
    requires ReadArr(s).Some?
    ensures var (v, rest) := ReadArr(s).value; v.Arr? && WellFormed(v) && "[" + s == Put(v, rest)
    decreases |s|, 2
  {
    var (gap, t) := SplitSpace(s);
    if t != "" && t[0] == ']' {
      Uncons(t, ']');
    } else {
      ReadElemsSound(s);
      assert "" + s == s;
    }
  }

  lemma {:induction false} ReadObjSound(s: string)
    requires ReadObj(s).Some?
    ensures var (v, rest) := ReadObj(s).value; v.Obj? && WellFormed(v) && "{" + s == Put(v, rest)
    decreases |s|, 2
  {
    var (gap, t) := SplitSpace(s);
    if t != "" && t[0] == '}' {
      Uncons(t, '}');
    } else {
      ReadMembersSound(s);
      assert "" + s == s;
    }
  }

  lemma {:induction false} ReadElemsSound(s: string)
    requires ReadElems(s).Some?
    ensures var (es, rest) := ReadElems(s).value;
      es.Elem? && WellFormedElems(es) && s == PutElems(es, "]" + rest)
    decreases |s|, 1
  {
    var (_, s1) := SplitSpace(s);
    ReadValueSound(s1);
    var (_, s2) := ReadValue(s1).value;
    var (_, t) := SplitSpace(s2);
    Uncons(t, t[0]);
    if t[0] == ',' { ReadElemsSound(t[1..]); }
  }

  lemma ReadHeadSound(s: string)
    requires ReadHead(s).Some?
    ensures var (h, rest) := ReadHead(s).value;
      && AllSpace(h.pre) && IsStrBody(h.key) && AllSpace(h.mid) && AllSpace(h.sep)
      && s == PutHead(h, rest)
  {
    var (_, s1) := SplitSpace(s);
    Uncons(s1, '"');
    ReadStrSound(s1[1..]);
    var (_, s2) := ReadStr(s1[1..]).value;
    var (_, s3) := SplitSpace(s2);
    Uncons(s3, ':');
  }

  lemma {:induction false} ReadMembersSound(s: string)
    requires ReadMembers(s).Some?
    ensures var (ms, rest) := ReadMembers(s).value;
      ms.Member? && WellFormedMembers(ms) && s == PutMembers(ms, "}" + rest)
    decreases |s|, 1
  {
    ReadHeadSound(s);
    var (head, s1) := ReadHead(s).value;
    ReadValueSound(s1);
    var (_, s2) := ReadValue(s1).value;
    var (_, t) := SplitSpace(s2);
    Uncons(t, t[0]);
    if t[0] == ',' { ReadMembersSound(t[1..]); }
  }

  /** The parsed tree is well formed and is the text, byte for byte. */
  lemma ParseSound(s: string)
    requires ParseDoc(s).Some?
    ensures WellFormedDoc(ParseDoc(s).value) && RenderDoc(ParseDoc(s).value) == s
  {
    var (lead, s1) := SplitSpace(s);
    ReadValueSound(s1);
    var (root, s2) := ReadValue(s1).value;
    var (ws, rest) := SplitSpace(s2);
    assert ws + "" == ws;
  }

  // ----- The reader is complete: it reads back every rendering -----

  lemma {:induction false} SplitSpaceOf(ws: string, rest: string)
    requires AllSpace(ws) && (rest != "" ==> !IsSpace(rest[0]))
    ensures SplitSpace(ws + rest) == (ws, rest)
  {
    if ws == "" {
      assert ws + rest == rest;
    } else {
      assert (ws + rest)[1..] == ws[1..] + rest;
      SplitSpaceOf(ws[1..], rest);
      assert ws == (ws + rest)[..1] + ws[1..];
    }
  }

  lemma {:induction false} SplitTokenOf(tok: string, rest: string)
    requires AllToken(tok) && (rest != "" ==> !IsTokenChar(rest[0]))
    ensures SplitToken(tok + rest) == (tok, rest)
  {
    if tok == "" {
      assert tok + rest == rest;
    } else {
      assert (tok + rest)[1..] == tok[1..] + rest;
      SplitTokenOf(tok[1..], rest);
      assert tok == (tok + rest)[..1] + tok[1..];
    }
  }

  lemma StepLenOf(raw: string, tail: string)
    requires StepLen(raw) > 0
    ensures var s, n := raw + tail, StepLen(raw);
      raw[0] != '"' && s[0] == raw[0] && StepLen(s) == n && s[n..] == raw[n..] + tail && s[..n] == raw[..n]
    ensures raw[..StepLen(raw)] + raw[StepLen(raw)..] == raw
  {
    var s := raw + tail;
    assert s[0] == raw[0];
    assert |raw| > 1 ==> s[1] == raw[1];
    assert |raw| >= 6 ==> s[2] == raw[2] && s[3] == raw[3] && s[4] == raw[4] && s[5] == raw[5];
  }

  lemma {:induction false} ReadStrComplete(raw: string, rest: string)
    requires IsStrBody(raw)
    ensures ReadStr(raw + ("\"" + rest)) == Some((raw, rest))
  {
    hide StepLen;
    var s := raw + ("\"" + rest);
    if raw == "" {
      assert s[1..] == rest;
    } else {
      var n := StepLen(raw);
      StepLenOf(raw, "\"" + rest);
      ReadStrComplete(raw[n..], rest);
    }
  }

  /** No value starts with whitespace or with a byte that closes a container. */
  lemma PutFirst(v: Value, tail: string)
    requires WellFormed(v)
    ensures var s := Put(v, tail); s != "" && !IsSpace(s[0]) && s[0] != ']' && s[0] != '}'
  {
    if v.Bare? { assert Put(v, tail)[0] == v.tok[0]; }
  }

  lemma {:induction false} ReadValueComplete(v: Value, rest: string)
    requires WellFormed(v) && Ends(v, rest)
    ensures ReadValue(Put(v, rest)) == Some((v, rest))
    decreases v, 0
  {
    var s := Put(v, rest);
    match v
    case Bare(tok) =>
      assert s[0] == tok[0];
      SplitTokenOf(tok, rest);
    case Str(raw) =>
      assert s[1..] == raw + ("\"" + rest);
      ReadStrComplete(raw, rest);
    case Arr(gap, elems) =>
      var t := PutElems(elems, "]" + rest);
      assert s[1..] == gap + t;
      ReadArrComplete(gap, elems, rest);
    case Obj(gap, members) =>
      var t := PutMembers(members, "}" + rest);
      assert s[1..] == gap + t;
      ReadObjComplete(gap, members, rest);
  }

  lemma {:induction false} ReadArrComplete(gap: string, es: Elems, rest: string)
    requires WellFormed(Arr(gap, es))
    ensures ReadArr(gap + PutElems(es, "]" + rest)) == Some((Arr(gap, es), rest))
    decreases es, 2
  {
    var t := PutElems(es, "]" + rest);
    if es.NoElem? {
      SplitSpaceOf(gap, t);
      assert t[1..] == rest;
    } else {
      assert gap + t == t;
      var body := Put(es.value, es.post + PutMoreElems(es.rest, "]" + rest));
      PutFirst(es.value, es.post + PutMoreElems(es.rest, "]" + rest));
      SplitSpaceOf(es.pre, body);
      ReadElemsComplete(es, rest);
    }
  }

  lemma {:induction false} ReadObjComplete(gap: string, ms: Members, rest: string)
    requires WellFormed(Obj(gap, ms))
    ensures ReadObj(gap + PutMembers(ms, "}" + rest)) == Some((Obj(gap, ms), rest))
    decreases ms, 2
  {
    var t := PutMembers(ms, "}" + rest);
    if ms.NoMember? {
      SplitSpaceOf(gap, t);
      assert t[1..] == rest;
    } else {
      assert gap + t == t;
      var r := ms.post + PutMoreMembers(ms.rest, "}" + rest);
      PutFirst(ms.value, r);
      ReadHeadComplete(ms, Put(ms.value, r));
      ReadMembersComplete(ms, rest);
    }
  }

  lemma {:induction false} ReadElemsComplete(es: Elems, rest: string)
    requires es.Elem? && WellFormedElems(es)
    ensures ReadElems(PutElems(es, "]" + rest)) == Some((es, rest))
    decreases es, 1
  {
    var t := PutMoreElems(es.rest, "]" + rest);
    var r := es.post + t;
    PutFirst(es.value, r);
    SplitSpaceOf(es.pre, Put(es.value, r));
    assert t[0] == (if es.rest.NoElem? then ']' else ',');
    assert r[0] == (if es.post == "" then t[0] else es.post[0]);
    ReadValueComplete(es.value, r);
    SplitSpaceOf(es.post, t);
    if es.rest.Elem? {
      assert t[1..] == PutElems(es.rest, "]" + rest);
      ReadElemsComplete(es.rest, rest);
    } else {
      assert t[1..] == rest;
    }
  }

  lemma ReadHeadComplete(m: Members, rest: string)
    requires m.Member? && AllSpace(m.pre) && IsStrBody(m.key) && AllSpace(m.mid) && AllSpace(m.sep)
    requires rest != "" && !IsSpace(rest[0])
    ensures ReadHead(PutHead(m, rest)) ==
            Some((Member(m.pre, m.key, m.mid, m.sep, Bare("null"), "", NoMember), rest))
    ensures SplitSpace(PutHead(m, rest)).1 != "" && SplitSpace(PutHead(m, rest)).1[0] == '"'
  {
    var s4 := m.sep + rest;
    var s3 := ":" + s4;
    var s2 := m.mid + s3;
    var s1 := "\"" + (m.key + ("\"" + s2));
    SplitSpaceOf(m.pre, s1);
    assert s1[1..] == m.key + ("\"" + s2);
    ReadStrComplete(m.key, s2);
    SplitSpaceOf(m.mid, s3);
    assert s3[1..] == s4;
    SplitSpaceOf(m.sep, rest);
  }

  lemma {:induction false} ReadMembersComplete(ms: Members, rest: string)
    requires ms.Member? && WellFormedMembers(ms)
    ensures ReadMembers(PutMembers(ms, "}" + rest)) == Some((ms, rest))
    decreases ms, 1
  {
    var t := PutMoreMembers(ms.rest, "}" + rest);
    var r := ms.post + t;
    PutFirst(ms.value, r);
    ReadHeadComplete(ms, Put(ms.value, r));
    assert t[0] == (if ms.rest.NoMember? then '}' else ',');
    assert r[0] == (if ms.post == "" then t[0] else ms.post[0]);
    ReadValueComplete(ms.value, r);
    SplitSpaceOf(ms.post, t);
    if ms.rest.Member? {
      assert t[1..] == PutMembers(ms.rest, "}" + rest);
      ReadMembersComplete(ms.rest, rest);
    } else {
      assert t[1..] == rest;
    }
  }

  /** Every rendering of a well-formed tree is read back as that tree. */
  lemma ParseComplete(d: Doc)
    requires WellFormedDoc(d)
    ensures ParseDoc(RenderDoc(d)) == Some(d)
  {
    PutFirst(d.root, d.trail);
    SplitSpaceOf(d.lead, Put(d.root, d.trail));
    ReadValueComplete(d.root, d.trail);
    SplitSpaceOf(d.trail, "");
    assert d.trail + "" == d.trail;
  }

  // ----- Lengths, so that offsets into the text are sums -----

  function Len(v: Value): nat
  {
    match v
    case Bare(tok) => |tok|
    case Str(raw) => 2 + |raw|
    case Arr(gap, elems) => 2 + |gap| + LenElems(elems)
    case Obj(gap, members) => 2 + |gap| + LenMembers(members)
  }

  function LenElems(es: Elems): nat {
    match es
    case NoElem => 0
    case Elem(pre, value, post, rest) =>
      |pre| + Len(value) + |post| + (if rest.NoElem? then 0 else 1 + LenElems(rest))
  }

  /** Bytes of a member before its value. */
  function HeadLen(m: Members): nat
    requires m.Member?
  {
    |m.pre| + 1 + |m.key| + 1 + |m.mid| + 1 + |m.sep|
  }

  function LenMembers(ms: Members): nat {
    match ms
    case NoMember => 0
    case Member(_, _, _, _, value, post, rest) =>
      HeadLen(ms) + Len(value) + |post| + (if rest.NoMember? then 0 else 1 + LenMembers(rest))
  }

  /** What is put after a value does not change the value's own text, whose length is `Len`. */
  lemma {:induction false} PutIsRender(v: Value, tail: string)
    ensures Put(v, tail) == Render(v) + tail && |Render(v)| == Len(v)
    decreases v, 0
  {
    match v
    case Bare(tok) =>
      assert tok + "" == tok;
    case Str(raw) =>
      assert "\"" + (raw + ("\"" + tail)) == ("\"" + (raw + ("\"" + ""))) + tail;
    case Arr(gap, elems) =>
      PutElemsIsRender(elems, "]" + tail);
      PutElemsIsRender(elems, "]" + "");
      var inner := PutElems(elems, "");
      calc {
        ("[" + (gap + (inner + ("]" + "")))) + tail;
        { Assoc("[", gap + (inner + ("]" + "")), tail); Assoc(gap, inner + ("]" + ""), tail);
          Assoc(inner, "]" + "", tail); assert ("]" + "") + tail == "]" + tail; }
        "[" + (gap + (inner + ("]" + tail)));
      }
    case Obj(gap, members) =>
      PutMembersIsRender(members, "}" + tail);
      PutMembersIsRender(members, "}" + "");
      var inner := PutMembers(members, "");
      calc {
        ("{" + (gap + (inner + ("}" + "")))) + tail;
        { Assoc("{", gap + (inner + ("}" + "")), tail); Assoc(gap, inner + ("}" + ""), tail);
          Assoc(inner, "}" + "", tail); assert ("}" + "") + tail == "}" + tail; }
        "{" + (gap + (inner + ("}" + tail)));
      }
  }

  lemma {:induction false} PutElemsIsRender(es: Elems, tail: string)
    ensures PutElems(es, tail) == PutElems(es, "") + tail && |PutElems(es, "")| == LenElems(es)
    decreases es, 1
  {
    if es.Elem? {
      var m, m0 := PutMoreElems(es.rest, tail), PutMoreElems(es.rest, "");
      PutElemsIsRender(es.rest, tail);
      assert m == m0 + tail by {
        if es.rest.Elem? { Assoc(",", PutElems(es.rest, ""), tail); }
        else { assert "" + tail == tail; }
      }
      PutIsRender(es.value, es.post + m);
      PutIsRender(es.value, es.post + m0);
      var r := Render(es.value);
      Assoc(es.post, m0, tail);
      Assoc(r, es.post + m0, tail);
      Assoc(es.pre, r + (es.post + m0), tail);
    }
  }

  lemma {:induction false} PutMembersIsRender(ms: Members, tail: string)
    ensures PutMembers(ms, tail) == PutMembers(ms, "") + tail && |PutMembers(ms, "")| == LenMembers(ms)
    decreases ms, 1
  {
    if ms.Member? {
      var m, m0 := PutMoreMembers(ms.rest, tail), PutMoreMembers(ms.rest, "");
      PutMembersIsRender(ms.rest, tail);
      assert m == m0 + tail by {
        if ms.rest.Member? { Assoc(",", PutMembers(ms.rest, ""), tail); }
        else { assert "" + tail == tail; }
      }
      PutIsRender(ms.value, ms.post + m);
      PutIsRender(ms.value, ms.post + m0);
      var r := Render(ms.value);
      Assoc(ms.post, m0, tail);
      Assoc(r, ms.post + m0, tail);
      PutHeadIsText(ms, r + (ms.post + m0), tail);
    }
  }

  lemma SameHead(m: Members, n: Members, text: string)
    requires m.Member? && n.Member? && m.pre == n.pre && m.key == n.key && m.mid == n.mid && m.sep == n.sep
    ensures HeadLen(m) == HeadLen(n) && PutHead(m, text) == PutHead(n, text)
  {
  }

  lemma PutHeadIsText(m: Members, body: string, tail: string)
    requires m.Member?
    ensures PutHead(m, body + tail) == PutHead(m, body) + tail
    ensures |PutHead(m, body)| == HeadLen(m) + |body|
  {
    Assoc(m.sep, body, tail);
    var s4 := m.sep + body;
    Assoc(":", s4, tail);
    Assoc(m.mid, ":" + s4, tail);
    var s2 := m.mid + (":" + s4);
    Assoc("\"", s2, tail);
    Assoc(m.key, "\"" + s2, tail);
    var s1 := m.key + ("\"" + s2);
    Assoc("\"", s1, tail);
    Assoc(m.pre, "\"" + s1, tail);
  }
}
