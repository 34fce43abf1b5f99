/** UTF-8 through reading and printing: a text is UTF-8 exactly when its strings are, and what a UTF-8
    string stands for is UTF-8 too. */
module JsonUtf8 {
  import opened Sequences
  import opened JsonText
  import opened JsonTree

  // ----- Texts -----

  predicate Utf8Value(v: Value) {
    match v
    case Bare(_) => true
    case Str(raw) => IsUtf8(raw)
    case Arr(_, elems) => Utf8Elems(elems)
    case Obj(_, members) => Utf8Members(members)
  }

  predicate Utf8Elems(es: Elems) { es.Elem? ==> Utf8Value(es.value) && Utf8Elems(es.rest) }

  predicate Utf8Members(ms: Members) { ms.Member? ==> IsUtf8(ms.key) && Utf8Value(ms.value) && Utf8Members(ms.rest) }

  predicate IsAscii(s: string) { forall i :: 0 <= i < |s| ==> s[i] < '\U{80}' }

  /** ASCII in front of a text does not matter. */
  lemma {:induction false} AsciiFront(a: string, b: string)
    requires IsAscii(a)
    ensures IsUtf8(a + b) <==> IsUtf8(b)
    decreases |a|
  {
    if |a| == 0 {
      assert a + b == b;
    } else {
      assert (a + b)[0] == a[0] && (a + b)[1..] == a[1..] + b;
      AsciiFront(a[1..], b);
    }
  }

  /** Before an ASCII byte the two sides can be looked at one by one. */
  lemma BeforeAscii(a: string, b: string)
    requires b != "" && b[0] < '\U{80}'
    ensures IsUtf8(a + b) <==> IsUtf8(a) && IsUtf8(b)
  {
    hide IsUtf8;
    if IsUtf8(a + b) { Utf8Cut(a, b); }
    if IsUtf8(a) && IsUtf8(b) { Utf8Concat(a, b); }
  }

  lemma SpaceIsAscii(s: string)
    requires AllSpace(s)
    ensures IsAscii(s)
  {
  }

  lemma TokenIsAscii(tok: string)
    requires IsBareToken(tok)
    ensures IsAscii(tok)
  {
    assert AllToken(tok);
  }

  lemma StrUtf8(raw: string, tail: string)
    ensures IsUtf8("\"" + (raw + ("\"" + tail))) <==> IsUtf8(raw) && IsUtf8(tail)
  {
    hide IsUtf8;
    AsciiFront("\"", raw + ("\"" + tail));
    BeforeAscii(raw, "\"" + tail);
    AsciiFront("\"", tail);
  }

  /** A value's text and what follows it is UTF-8 exactly when the value's strings and the rest are. */
  lemma {:induction false} PutUtf8(v: Value, tail: string)
    requires WellFormed(v)
    ensures IsUtf8(Put(v, tail)) <==> Utf8Value(v) && IsUtf8(tail)
    decreases v, 0
  {
    hide IsUtf8, IsBareToken, IsStrBody, PutElems, PutMembers;
    match v
    case Bare(tok) =>
      TokenIsAscii(tok);
      AsciiFront(tok, tail);
    case Str(raw) => StrUtf8(raw, tail);
    case Arr(gap, elems) =>
      SpaceIsAscii(gap);
      AsciiFront("[", gap + PutElems(elems, "]" + tail));
      AsciiFront(gap, PutElems(elems, "]" + tail));
      PutElemsUtf8(elems, "]" + tail);
      AsciiFront("]", tail);
    case Obj(gap, members) =>
      SpaceIsAscii(gap);
      AsciiFront("{", gap + PutMembers(members, "}" + tail));
      AsciiFront(gap, PutMembers(members, "}" + tail));
      PutMembersUtf8(members, "}" + tail);
      AsciiFront("}", tail);
  }

  lemma {:induction false} PutElemsUtf8(es: Elems, tail: string)
    requires WellFormedElems(es)
    ensures IsUtf8(PutElems(es, tail)) <==> Utf8Elems(es) && IsUtf8(tail)
    decreases es, 0
  {
    hide IsUtf8, Put, WellFormed, Utf8Value;
    if es.Elem? {
      var more := PutMoreElems(es.rest, tail);
      SpaceIsAscii(es.pre);
      SpaceIsAscii(es.post);
      AsciiFront(es.pre, Put(es.value, es.post + more));
      PutUtf8(es.value, es.post + more);
      AsciiFront(es.post, more);
      PutElemsUtf8(es.rest, tail);
      AsciiFront(",", PutElems(es.rest, tail));
    }
  }

  lemma HeadUtf8(m: Members, t: string)
    requires m.Member? && AllSpace(m.pre) && AllSpace(m.mid) && AllSpace(m.sep)
    ensures IsUtf8(PutHead(m, t)) <==> IsUtf8(m.key) && IsUtf8(t)
  {
    hide IsUtf8;
    var s3 := m.mid + (":" + (m.sep + t));
    SpaceIsAscii(m.pre);
    SpaceIsAscii(m.mid);
    SpaceIsAscii(m.sep);
    AsciiFront(m.pre, "\"" + (m.key + ("\"" + s3)));
    StrUtf8(m.key, s3);
    AsciiFront(m.mid, ":" + (m.sep + t));
    AsciiFront(":", m.sep + t);
    AsciiFront(m.sep, t);
  }

  lemma {:induction false} PutMembersUtf8(ms: Members, tail: string)
    requires WellFormedMembers(ms)
    ensures IsUtf8(PutMembers(ms, tail)) <==> Utf8Members(ms) && IsUtf8(tail)
    decreases ms, 0
  {
    hide IsUtf8, Put, PutHead, WellFormed, Utf8Value, IsStrBody;
    if ms.Member? {
      var more := PutMoreMembers(ms.rest, tail);
      SpaceIsAscii(ms.post);
      HeadUtf8(ms, Put(ms.value, ms.post + more));
      PutUtf8(ms.value, ms.post + more);
      AsciiFront(ms.post, more);
      PutMembersUtf8(ms.rest, tail);
      AsciiFront(",", PutMembers(ms.rest, tail));
    }
  }

  lemma DocUtf8(d: Doc)
    requires WellFormedDoc(d)
    ensures IsUtf8(RenderDoc(d)) <==> Utf8Value(d.root)
  {
    hide IsUtf8, Put, WellFormed, Utf8Value;
    SpaceIsAscii(d.lead);
    SpaceIsAscii(d.trail);
    AsciiFront(d.lead, Put(d.root, d.trail));
    PutUtf8(d.root, d.trail);
    Utf8Ascii(d.trail);
  }

  // ----- What escapes stand for -----

  lemma ByteIs(b: nat)
    requires b < 256
    ensures Byte(b) as nat == b
  {
  }

  lemma Utf8Two(cp: nat)
    requires 0x80 <= cp < 0x800
    ensures IsUtf8(Utf8(cp))
  {
    var s := Utf8(cp);
    ByteIs(0xC0 + cp / 64);
    ByteIs(0x80 + cp % 64);
    assert Utf8Step(s) == 2 && s[2..] == "";
  }

  lemma Utf8Three(cp: nat)
    requires 0x800 <= cp < 0x10000 && !IsHigh(cp) && !IsLow(cp)
    ensures IsUtf8(Utf8(cp))
  {
    var s := Utf8(cp);
    ByteIs(0xE0 + cp / 4096);
    ByteIs(0x80 + cp / 64 % 64);
    ByteIs(0x80 + cp % 64);
    assert cp / 4096 == 0 ==> cp / 64 % 64 >= 32;
    assert cp / 4096 == 13 ==> cp / 64 % 64 < 32;
    assert Utf8Step(s) == 3 && s[3..] == "";
  }

  lemma Utf8Four(cp: nat)
    requires 0x10000 <= cp < 0x110000
    ensures IsUtf8(Utf8(cp))
  {
    var s := Utf8(cp);
    ByteIs(0xF0 + cp / 262144);
    ByteIs(0x80 + cp / 4096 % 64);
    ByteIs(0x80 + cp / 64 % 64);
    ByteIs(0x80 + cp % 64);
    assert cp / 262144 == 0 ==> cp / 4096 % 64 >= 16;
    assert cp / 262144 == 4 ==> cp / 4096 % 64 < 16;
    assert Utf8Step(s) == 4 && s[4..] == "";
  }

  /** Every code point but a surrogate has a UTF-8 form. */
  lemma Utf8Valid(cp: nat)
    requires cp < 0x110000 && !IsHigh(cp) && !IsLow(cp)
    ensures IsUtf8(Utf8(cp))
  {
    if cp < 0x80 {
      ByteIs(cp);
      assert Utf8Step(Utf8(cp)) == 1 && Utf8(cp)[1..] == "";
    } else if cp < 0x800 {
      Utf8Two(cp);
    } else if cp < 0x10000 {
      Utf8Three(cp);
    } else {
      Utf8Four(cp);
    }
  }

  lemma HexIsSmall(c: char)
    ensures HexValue(c) < 16
  {
  }

  lemma UnitIsSmall(s: string)
    requires |s| >= 6
    ensures CodeUnit(s) < 0x10000
  {
    HexIsSmall(s[2]);
    HexIsSmall(s[3]);
    HexIsSmall(s[4]);
    HexIsSmall(s[5]);
  }

  // ----- What strings stand for -----

  predicate HasNoEscape(s: string, n: nat)
    requires n <= |s|
  {
    forall i :: 0 <= i < n ==> s[i] != '\\'
  }

  /** Bytes before an escape stand for themselves. */
  lemma {:induction false} DecodeSkip(raw: string, n: nat)
    requires n <= |raw| && HasNoEscape(raw, n)
    ensures Decode(raw) == raw[..n] + Decode(raw[n..]) && (HasLoneSurrogate(raw) <==> HasLoneSurrogate(raw[n..]))
  {
    hide Decode, HasLoneSurrogate;
    if n == 0 {
      assert raw[0..] == raw && raw[..0] == "";
      EmptyLeft(Decode(raw));
    } else {
      DecodeOne(raw);
      DecodeSkip(raw[1..], n - 1);
      assert raw[1..][n - 1..] == raw[n..] && raw[..n] == raw[..1] + raw[1..][..n - 1];
      Assoc(raw[..1], raw[1..][..n - 1], Decode(raw[n..]));
    }
  }

  lemma DecodeOne(raw: string)
    requires raw != "" && raw[0] != '\\'
    ensures Decode(raw) == raw[..1] + Decode(raw[1..]) && (HasLoneSurrogate(raw) <==> HasLoneSurrogate(raw[1..]))
  {
  }

  lemma {:induction false} BodySkip(raw: string, n: nat)
    requires n <= |raw| && HasNoEscape(raw, n) && IsStrBody(raw)
    ensures IsStrBody(raw[n..])
  {
    if n == 0 {
      assert raw[0..] == raw;
    } else {
      assert StepLen(raw) == 1 && raw[1..][n - 1..] == raw[n..];
      BodySkip(raw[1..], n - 1);
    }
  }

  /** One well-formed sequence: no byte behind its first is a backslash, and it is a text of its own. */
  lemma StepAlone(s: string)
    requires Utf8Step(s) > 0 && s[0] != '\\'
    ensures HasNoEscape(s, Utf8Step(s)) && IsUtf8(s[..Utf8Step(s)])
  {
    var n := Utf8Step(s);
    var t := s[..n];
    assert forall i :: 0 < i < n ==> IsCont(s[i]);
    assert Utf8Step(t) == n && t[n..] == "";
  }

  /** What an escape at the front of a body stands for, and how long it is. */
  predicate Stands(raw: string, n: nat, text: string) {
    n <= |raw| && IsAscii(raw[..n]) && IsStrBody(raw[n..]) && IsUtf8(text)
    && Decode(raw) == text + Decode(raw[n..]) && !HasLoneSurrogate(raw[n..])
  }

  lemma HexAreAscii(raw: string)
    requires EscapeLen(raw) == 6
    ensures IsAscii(raw[..6]) && IsUnicodeEscape(raw)
  {
  }

  lemma PairStands(raw: string) returns (n: nat, text: string)
    requires IsStrBody(raw) && raw != "" && raw[0] == '\\' && !HasLoneSurrogate(raw) && IsPair(raw)
    ensures n > 0 && Stands(raw, n, text)
  {
    n := 12;
    PairIsAscii(raw);
    var cp := 0x10000 + (CodeUnit(raw) - 0xD800) * 1024 + (CodeUnit(raw[6..]) - 0xDC00);
    text := Utf8(cp);
    hide IsStrBody, IsUtf8, Utf8;
    Utf8Valid(cp);
  }

  lemma PairIsAscii(raw: string)
    requires IsStrBody(raw) && raw != "" && raw[0] == '\\' && IsPair(raw)
    ensures |raw| >= 12 && IsAscii(raw[..12]) && IsStrBody(raw[12..])
  {
    var low := raw[6..];
    assert StepLen(raw) == 6 && IsStrBody(low);
    assert StepLen(low) == 6 && IsStrBody(low[6..]) && low[6..] == raw[12..];
    hide IsStrBody;
    HexAreAscii(raw);
    HexAreAscii(low);
    forall i | 0 <= i < 12 ensures raw[i] < '\U{80}' {
      if i < 6 { assert raw[..6][i] == raw[i]; } else { assert low[..6][i - 6] == raw[i]; }
    }
  }

  lemma UnitStands(raw: string) returns (n: nat, text: string)
    requires IsStrBody(raw) && raw != "" && raw[0] == '\\' && !HasLoneSurrogate(raw) && !IsPair(raw) && IsUnicodeEscape(raw)
    ensures n > 0 && Stands(raw, n, text)
  {
    n := 6;
    assert StepLen(raw) == 6;
    HexAreAscii(raw);
    UnitIsSmall(raw);
    text := Utf8(CodeUnit(raw));
    Utf8Valid(CodeUnit(raw));
  }

  lemma SimpleStands(raw: string) returns (n: nat, text: string)
    requires IsStrBody(raw) && raw != "" && raw[0] == '\\' && !HasLoneSurrogate(raw) && !IsUnicodeEscape(raw)
    ensures n > 0 && Stands(raw, n, text)
  {
    n := 2;
    assert StepLen(raw) == 2 && IsSimpleEscape(raw[1]);
    text := [SimpleEscape(raw[1])];
    Utf8Ascii(text);
  }

  /** A UTF-8 body that a full parse accepts stands for UTF-8. */
  lemma {:induction false} DecodeUtf8(raw: string)
    requires IsStrBody(raw) && IsUtf8(raw) && !HasLoneSurrogate(raw)
    ensures IsUtf8(Decode(raw))
    decreases |raw|, 1
  {
    if raw == "" {
    } else if raw[0] != '\\' {
      DecodePlainUtf8(raw);
    } else {
      DecodeEscapeUtf8(raw);
    }
  }

  lemma {:induction false} DecodePlainUtf8(raw: string)
    requires IsStrBody(raw) && IsUtf8(raw) && !HasLoneSurrogate(raw) && raw != "" && raw[0] != '\\'
    ensures IsUtf8(Decode(raw))
    decreases |raw|, 0
  {
    var n := Utf8Step(raw);
    assert n > 0 && IsUtf8(raw[n..]);
    hide Utf8Step, Decode, HasLoneSurrogate, IsStrBody, IsUtf8;
    StepAlone(raw);
    DecodeSkip(raw, n);
    BodySkip(raw, n);
    DecodeUtf8(raw[n..]);
    Utf8Concat(raw[..n], Decode(raw[n..]));
  }

  lemma {:induction false} DecodeEscapeUtf8(raw: string)
    requires IsStrBody(raw) && IsUtf8(raw) && !HasLoneSurrogate(raw) && raw != "" && raw[0] == '\\'
    ensures IsUtf8(Decode(raw))
    decreases |raw|, 0
  {
    hide Decode, HasLoneSurrogate, IsStrBody, IsUtf8, IsAscii;
    var n, text := EscapeStands(raw);
    assert raw == raw[..n] + raw[n..];
    AsciiFront(raw[..n], raw[n..]);
    DecodeUtf8(raw[n..]);
    Utf8Concat(text, Decode(raw[n..]));
  }

  lemma EscapeStands(raw: string) returns (n: nat, text: string)
    requires IsStrBody(raw) && raw != "" && raw[0] == '\\' && !HasLoneSurrogate(raw)
    ensures n > 0 && Stands(raw, n, text)
  {
    hide Stands, IsStrBody, HasLoneSurrogate;
    if IsPair(raw) {
      n, text := PairStands(raw);
    } else if IsUnicodeEscape(raw) {
      n, text := UnitStands(raw);
    } else {
      n, text := SimpleStands(raw);
    }
  }

  // ----- Trees -----

  predicate Utf8Json(j: Json) {
    match j
    case JBare(_) => true
    case JStr(text) => IsUtf8(text)
    case JArr(items) => forall i :: 0 <= i < |items| ==> Utf8Json(items[i])
    case JObj(fields) => forall k :: k in fields ==> IsUtf8(k) && Utf8Json(fields[k])
  }

  /** The tree of a UTF-8 text that a full parse accepts holds UTF-8. */
  lemma {:induction false} TreeUtf8(v: Value)
    requires WellFormed(v) && Accepted(v) && Utf8Value(v)
    ensures Utf8Json(Tree(v))
    decreases v
  {
    hide IsUtf8, IsStrBody, Decode, HasLoneSurrogate;
    match v
    case Bare(_) =>
    case Str(raw) => DecodeUtf8(raw);
    case Arr(_, elems) => ItemsUtf8(elems);
    case Obj(_, members) => FieldsUtf8(members);
  }

  lemma {:induction false} ItemsUtf8(es: Elems)
    requires WellFormedElems(es) && AcceptedElems(es) && Utf8Elems(es)
    ensures forall i :: 0 <= i < |Items(es)| ==> Utf8Json(Items(es)[i])
    decreases es
  {
    if es.Elem? {
      TreeUtf8(es.value);
      ItemsUtf8(es.rest);
    }
  }

  lemma {:induction false} FieldsUtf8(ms: Members)
    requires WellFormedMembers(ms) && AcceptedMembers(ms) && Utf8Members(ms)
    ensures forall k :: k in Fields(ms) ==> IsUtf8(k) && Utf8Json(Fields(ms)[k])
    decreases ms
  {
    hide IsUtf8, IsStrBody, Decode, HasLoneSurrogate;
    if ms.Member? {
      DecodeUtf8(ms.key);
      TreeUtf8(ms.value);
      FieldsUtf8(ms.rest);
    }
  }
}
