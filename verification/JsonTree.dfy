/** What a JSON text means: unescaped strings, and trees whose objects are maps in which the last
    occurrence of a repeated key wins, as serde_json's `Value` holds them. */
module JsonTree {
  import opened Sequences
  import opened JsonText

  /** A parsed value. A bare token keeps its spelling, which is finer than the number it denotes. */
  datatype Json =
    | JBare(tok: string)
    | JStr(text: string)
    | JArr(items: seq<Json>)
    | JObj(fields: map<string, Json>)

  // ----- Unescaping -----

  function HexValue(c: char): nat {
    if IsDigit(c) then (c - '0') as nat
    else if 'a' <= c <= 'f' then (c - 'a') as nat + 10
    else if 'A' <= c <= 'F' then (c - 'A') as nat + 10
    else 0
  }

  /** The code unit spelled by a `\u` escape at the front of `s`. */
  function CodeUnit(s: string): nat
    requires |s| >= 6
  {
    ((HexValue(s[2]) * 16 + HexValue(s[3])) * 16 + HexValue(s[4])) * 16 + HexValue(s[5])
  }

  predicate IsUnicodeEscape(s: string) { |s| >= 6 && s[0] == '\\' && s[1] == 'u' }

  predicate IsHigh(u: nat) { 0xD800 <= u < 0xDC00 }

  predicate IsLow(u: nat) { 0xDC00 <= u < 0xE000 }

  /** A high surrogate escape directly followed by a low one. */
  predicate IsPair(s: string) {
    && IsUnicodeEscape(s) && IsHigh(CodeUnit(s))
    && IsUnicodeEscape(s[6..]) && IsLow(CodeUnit(s[6..]))
  }

  /** One byte as a `char`. */
  function Byte(b: nat): char { (b % 256) as char }

  /** The UTF-8 bytes of a code point. A lone surrogate gets its three-byte form, which no UTF-8
      text contains. */
  function Utf8(cp: nat): string {
    if cp < 0x80 then [Byte(cp)]
    else if cp < 0x800 then [Byte(0xC0 + cp / 64), Byte(0x80 + cp % 64)]
    else if cp < 0x10000 then [Byte(0xE0 + cp / 4096), Byte(0x80 + cp / 64 % 64), Byte(0x80 + cp % 64)]
    else [Byte(0xF0 + cp / 262144), Byte(0x80 + cp / 4096 % 64), Byte(0x80 + cp / 64 % 64), Byte(0x80 + cp % 64)]
  }

  function SimpleEscape(c: char): char {
    if c == 'b' then '\U{08}' else if c == 'f' then '\U{0C}' else if c == 'n' then '\n'
    else if c == 'r' then '\r' else if c == 't' then '\t' else c
  }

  /** A string body with its escapes replaced by the UTF-8 bytes they stand for. */
  function Decode(raw: string): string {
    if raw == "" then ""
    else if raw[0] != '\\' then raw[..1] + Decode(raw[1..])
    else if IsPair(raw) then
      Utf8(0x10000 + (CodeUnit(raw) - 0xD800) * 1024 + (CodeUnit(raw[6..]) - 0xDC00)) + Decode(raw[12..])
    else if IsUnicodeEscape(raw) then Utf8(CodeUnit(raw)) + Decode(raw[6..])
    else if |raw| >= 2 then [SimpleEscape(raw[1])] + Decode(raw[2..])
    else ""
  }

  /** Whether a full parse of the string refuses it: half of a surrogate pair on its own. */
  predicate HasLoneSurrogate(raw: string) {
    if raw == "" then false
    else if raw[0] != '\\' then HasLoneSurrogate(raw[1..])
    else if IsPair(raw) then HasLoneSurrogate(raw[12..])
    else if IsUnicodeEscape(raw) then
      IsHigh(CodeUnit(raw)) || IsLow(CodeUnit(raw)) || HasLoneSurrogate(raw[6..])
    else |raw| >= 2 && HasLoneSurrogate(raw[2..])
  }

  /** Text with no backslash decodes to itself. */
  lemma {:induction false} DecodePlain(raw: string)
    requires '\\' !in raw
    ensures Decode(raw) == raw && !HasLoneSurrogate(raw)
  {
    if raw != "" {
      DecodePlain(raw[1..]);
      assert raw == raw[..1] + raw[1..];
    }
  }

  /** Plain bytes are a string body that stands for itself. */
  lemma PlainBody(raw: string)
    requires forall i :: 0 <= i < |raw| ==> raw[i] >= ' ' && raw[i] != '"' && raw[i] != '\\'
    ensures IsStrBody(raw) && Decode(raw) == raw && !HasLoneSurrogate(raw)
  {
    PlainFront(raw, "");
    EmptyRight(raw);
    DecodePlain(raw);
  }

  // ----- Trees -----

  function Tree(v: Value): Json {
    match v
    case Bare(tok) => JBare(tok)
    case Str(raw) => JStr(Decode(raw))
    case Arr(_, elems) => JArr(Items(elems))
    case Obj(_, members) => JObj(Fields(members))
  }

  function Items(es: Elems): seq<Json> {
    match es
    case NoElem => []
    case Elem(_, value, _, rest) => [Tree(value)] + Items(rest)
  }

  /** Map addition prefers its right operand: a later occurrence of a key hides an earlier one. */
  function Fields(ms: Members): map<string, Json> {
    match ms
    case NoMember => map[]
    case Member(_, key, _, _, value, _, rest) => map[Decode(key) := Tree(value)] + Fields(rest)
  }

  /** Whether some member's unescaped key is `name`. */
  predicate HasKey(ms: Members, name: string) {
    ms.Member? && (Decode(ms.key) == name || HasKey(ms.rest, name))
  }

  /** Whether every key of the object can be read as a string. */
  predicate KeysReadable(ms: Members) {
    ms.Member? ==> !HasLoneSurrogate(ms.key) && KeysReadable(ms.rest)
  }

  lemma {:induction false} FieldsKeys(ms: Members, name: string)
    ensures name in Fields(ms) <==> HasKey(ms, name)
  {
    if ms.Member? { FieldsKeys(ms.rest, name); }
  }

  /** Whether every string of the value, keys included, is one a full parse accepts. */
  predicate Accepted(v: Value) {
    match v
    case Bare(_) => true
    case Str(raw) => !HasLoneSurrogate(raw)
    case Arr(_, elems) => AcceptedElems(elems)
    case Obj(_, members) => AcceptedMembers(members)
  }

  predicate AcceptedElems(es: Elems) {
    es.Elem? ==> Accepted(es.value) && AcceptedElems(es.rest)
  }

  predicate AcceptedMembers(ms: Members) {
    ms.Member? ==> !HasLoneSurrogate(ms.key) && Accepted(ms.value) && AcceptedMembers(ms.rest)
  }

  // ----- UTF-8 validity of a byte string -----

  predicate IsCont(c: char) { '\U{80}' <= c <= '\U{BF}' }

  /** Length of the well-formed UTF-8 sequence at the front of `s`, 0 when there is none
      (Unicode Standard, table 3-7). */
  function Utf8Step(s: string): (n: nat)
    ensures n <= |s|
  {
    if s == "" then 0
    else if s[0] < '\U{80}' then 1
    else if |s| >= 2 && '\U{C2}' <= s[0] <= '\U{DF}' && IsCont(s[1]) then 2
    else if |s| >= 3 && '\U{E0}' <= s[0] <= '\U{EF}' && IsCont(s[1]) && IsCont(s[2])
            && (s[0] == '\U{E0}' ==> s[1] >= '\U{A0}') && (s[0] == '\U{ED}' ==> s[1] < '\U{A0}') then 3
    else if |s| >= 4 && '\U{F0}' <= s[0] <= '\U{F4}' && IsCont(s[1]) && IsCont(s[2]) && IsCont(s[3])
            && (s[0] == '\U{F0}' ==> s[1] >= '\U{90}') && (s[0] == '\U{F4}' ==> s[1] < '\U{90}') then 4
    else 0
  }

  predicate IsUtf8(s: string) {
    s == "" || (Utf8Step(s) > 0 && IsUtf8(s[Utf8Step(s)..]))
  }

  /** A step depends only on the bytes it takes. */
  lemma Utf8StepOf(a: string, b: string)
    requires 0 < Utf8Step(a)
    ensures Utf8Step(a + b) == Utf8Step(a) && (a + b)[Utf8Step(a)..] == a[Utf8Step(a)..] + b
  {
    var n := Utf8Step(a);
    var s := a + b;
    assert s[0] == a[0];
    assert n >= 2 ==> s[1] == a[1];
    assert n >= 3 ==> s[2] == a[2];
    assert n == 4 ==> s[3] == a[3];
    assert n == 1 <==> a[0] < '\U{80}';
    assert n == 2 <==> '\U{C2}' <= a[0] <= '\U{DF}';
    assert n == 3 <==> '\U{E0}' <= a[0] <= '\U{EF}';
  }

  /** UTF-8 texts concatenate. */
  lemma {:induction false} Utf8Concat(a: string, b: string)
    requires IsUtf8(a) && IsUtf8(b)
    ensures IsUtf8(a + b)
  {
    hide Utf8Step;
    if a == "" {
      assert a + b == b;
    } else {
      var n := Utf8Step(a);
      Utf8Concat(a[n..], b);
      Utf8StepOf(a, b);
    }
  }

  /** No sequence runs past an ASCII byte. */
  lemma Utf8StepStops(a: string, b: string)
    requires a != "" && Utf8Step(a + b) > 0 && (b != "" ==> b[0] < '\U{80}')
    ensures Utf8Step(a) == Utf8Step(a + b)
    ensures (a + b)[Utf8Step(a)..] == a[Utf8Step(a)..] + b
  {
    var s := a + b;
    assert s[0] == a[0];
    assert |a| > 1 ==> s[1] == a[1];
    assert |a| > 2 ==> s[2] == a[2];
    assert |a| > 3 ==> s[3] == a[3];
    assert b != "" ==> s[|a|] == b[0];
  }

  /** A UTF-8 text can be cut before any ASCII byte. */
  lemma {:induction false} Utf8Cut(a: string, b: string)
    requires IsUtf8(a + b) && (b != "" ==> b[0] < '\U{80}')
    ensures IsUtf8(a) && IsUtf8(b)
  {
    hide Utf8Step;
    if a == "" {
      assert a + b == b;
    } else {
      Utf8StepStops(a, b);
      Utf8Cut(a[Utf8Step(a)..], b);
    }
  }

  /** A text of ASCII bytes is UTF-8. */
  lemma {:induction false} Utf8Ascii(s: string)
    requires forall i :: 0 <= i < |s| ==> s[i] < '\U{80}'
    ensures IsUtf8(s)
  {
    if s != "" { Utf8Ascii(s[1..]); }
  }
}
