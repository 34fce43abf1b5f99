/** What the escapes of a JSON string stand for (RFC 8259 section 7), written down as a relation between
    a body and a text and without the decoder. The decoder is that relation. */
module JsonUnescape {
  import opened Sequences
  import opened JsonText
  import opened JsonTree

  predicate HexDigit(c: char, n: nat) { n < 16 && (c == "0123456789abcdef"[n] || c == "0123456789ABCDEF"[n]) }

  /** Four hex digits and the number they spell. */
  ghost predicate Spells(h: string, n: nat) {
    && |h| == 4
    && exists a: nat, b: nat, c: nat, d: nat ::
         HexDigit(h[0], a) && HexDigit(h[1], b) && HexDigit(h[2], c) && HexDigit(h[3], d) && n == a * 4096 + b * 256 + c * 16 + d
  }

  predicate Trailing(c: char) { 0x80 <= c as int < 0xC0 }

  /** The bytes of a code point in UTF-8 (RFC 3629 section 3), read off the bytes. */
  predicate Encodes(t: string, cp: int) {
    || (|t| == 1 && 0 <= cp < 0x80 && cp == t[0] as int)
    || (|t| == 2 && 0x80 <= cp < 0x800 && Trailing(t[1]) && cp == (t[0] as int - 0xC0) * 64 + (t[1] as int - 0x80))
    || (|t| == 3 && 0x800 <= cp < 0x10000 && Trailing(t[1]) && Trailing(t[2])
        && cp == (t[0] as int - 0xE0) * 4096 + (t[1] as int - 0x80) * 64 + (t[2] as int - 0x80))
    || (|t| == 4 && 0x10000 <= cp < 0x110000 && Trailing(t[1]) && Trailing(t[2]) && Trailing(t[3])
        && cp == (t[0] as int - 0xF0) * 262144 + (t[1] as int - 0x80) * 4096 + (t[2] as int - 0x80) * 64 + (t[3] as int - 0x80))
  }

  /** A code point outside the surrogates, as one escape. */
  ghost predicate IsCode(u: string, t: string) {
    exists h, n: nat :: u == "\\u" + h && Spells(h, n) && !(0xD800 <= n < 0xE000) && Encodes(t, n)
  }

  /** A code point beyond four digits, as the escapes of two surrogates. */
  ghost predicate IsTwin(u: string, t: string) {
    exists h, high: nat, k, low: nat ::
      && u == ("\\u" + h) + ("\\u" + k) && Spells(h, high) && Spells(k, low) && 0xD800 <= high < 0xDC00 && 0xDC00 <= low < 0xE000
      && Encodes(t, 0x10000 + (high - 0xD800) * 0x400 + (low - 0xDC00))
  }

  predicate IsPlain(u: string, t: string) { |u| == 1 && u == t && u[0] >= '\U{20}' && u[0] !in {'"', '\\'} }

  predicate IsShort(u: string, t: string) {
    (u, t) in {("\\\"", "\""), ("\\\\", "\\"), ("\\/", "/"), ("\\b", "\U{08}"), ("\\f", "\U{0C}"), ("\\n", "\n"), ("\\r", "\r"), ("\\t", "\t")}
  }

  ghost predicate UnitDenotes(u: string, t: string) { IsPlain(u, t) || IsShort(u, t) || IsCode(u, t) || IsTwin(u, t) }

  ghost predicate Denotes(raw: string, text: string)
    decreases |raw|
  {
    || (raw == "" && text == "")
    || exists u, t, raw', text' :: u != "" && raw == u + raw' && text == t + text' && UnitDenotes(u, t) && Denotes(raw', text')
  }

  // ----- Code units -----

  lemma HexDigitValue(c: char, n: nat)
    ensures HexDigit(c, n) ==> IsHex(c) && HexValue(c) == n
    ensures IsHex(c) ==> HexDigit(c, HexValue(c))
  {
  }

  lemma SpelledUnit(u: string, h: string, n: nat)
    requires u == "\\u" + h && Spells(h, n)
    ensures EscapeLen(u) == 6 && CodeUnit(u) == n && IsUnicodeEscape(u)
  {
    hide HexDigit, HexValue, IsHex;
    var a: nat, b: nat, c: nat, d: nat :|
      HexDigit(h[0], a) && HexDigit(h[1], b) && HexDigit(h[2], c) && HexDigit(h[3], d) && n == a * 4096 + b * 256 + c * 16 + d;
    HexDigitValue(h[0], a);
    HexDigitValue(h[1], b);
    HexDigitValue(h[2], c);
    HexDigitValue(h[3], d);
    assert u[2] == h[0] && u[3] == h[1] && u[4] == h[2] && u[5] == h[3];
  }

  lemma UnitIsSpelled(s: string)
    requires EscapeLen(s) == 6
    ensures Spells(s[2..6], CodeUnit(s)) && s[..6] == "\\u" + s[2..6]
  {
    hide HexDigit, HexValue, IsHex;
    HexDigitValue(s[2], HexValue(s[2]));
    HexDigitValue(s[3], HexValue(s[3]));
    HexDigitValue(s[4], HexValue(s[4]));
    HexDigitValue(s[5], HexValue(s[5]));
  }

  // ----- UTF-8 -----

  lemma ByteOf(b: nat)
    requires b < 256
    ensures Byte(b) as int == b
  {
  }

  /** The six low bits and the rest. */
  lemma SixBits(n: nat)
    ensures n == n / 64 * 64 + n % 64 && n % 64 < 64
  {
  }

  lemma Halves(n: nat)
    ensures n / 4096 == n / 64 / 64 && n / 262144 == n / 4096 / 64
  {
  }

  lemma EncodesTwo(cp: nat)
    requires 0x80 <= cp < 0x800
    ensures Encodes(Utf8(cp), cp)
  {
    SixBits(cp);
    ByteOf(0xC0 + cp / 64);
    ByteOf(0x80 + cp % 64);
    hide Byte;
  }

  lemma EncodesThree(cp: nat)
    requires 0x800 <= cp < 0x10000
    ensures Encodes(Utf8(cp), cp)
  {
    SixBits(cp);
    SixBits(cp / 64);
    Halves(cp);
    ByteOf(0xE0 + cp / 4096);
    ByteOf(0x80 + cp / 64 % 64);
    ByteOf(0x80 + cp % 64);
    hide Byte;
  }

  lemma EncodesFour(cp: nat)
    requires 0x10000 <= cp < 0x110000
    ensures Encodes(Utf8(cp), cp)
  {
    SixBits(cp);
    SixBits(cp / 64);
    SixBits(cp / 4096);
    Halves(cp);
    ByteOf(0xF0 + cp / 262144);
    ByteOf(0x80 + cp / 4096 % 64);
    ByteOf(0x80 + cp / 64 % 64);
    ByteOf(0x80 + cp % 64);
    hide Byte;
  }

  lemma Utf8Encodes(cp: nat)
    requires cp < 0x110000
    ensures Encodes(Utf8(cp), cp)
  {
    if cp < 0x80 {
      ByteOf(cp);
    } else if cp < 0x800 {
      EncodesTwo(cp);
    } else if cp < 0x10000 {
      EncodesThree(cp);
    } else {
      EncodesFour(cp);
    }
  }

  lemma SameBits(a: int, b: int, c: int, d: int)
    requires a * 64 + b == c * 64 + d && 0 <= b < 64 && 0 <= d < 64
    ensures a == c && b == d
  {
  }

  /** There is one encoding. */
  lemma OneEncoding(s: string, t: string, cp: int)
    requires Encodes(s, cp) && Encodes(t, cp)
    ensures s == t
  {
    if |s| == 2 {
      SameBits(s[0] as int - 0xC0, s[1] as int - 0x80, t[0] as int - 0xC0, t[1] as int - 0x80);
    } else if |s| == 3 {
      SameThree(s, t, cp);
    } else if |s| == 4 {
      SameFour(s, t, cp);
    }
  }

  lemma SameThree(s: string, t: string, cp: int)
    requires Encodes(s, cp) && Encodes(t, cp) && |s| == 3
    ensures s == t
  {
    var a, b := s[0] as int - 0xE0, t[0] as int - 0xE0;
    var c, d := s[1] as int - 0x80, t[1] as int - 0x80;
    SameBits(a * 64 + c, s[2] as int - 0x80, b * 64 + d, t[2] as int - 0x80);
    SameBits(a, c, b, d);
  }

  lemma SameFour(s: string, t: string, cp: int)
    requires Encodes(s, cp) && Encodes(t, cp) && |s| == 4
    ensures s == t
  {
    var a, b := s[0] as int - 0xF0, t[0] as int - 0xF0;
    var c, d := s[1] as int - 0x80, t[1] as int - 0x80;
    var e, f := s[2] as int - 0x80, t[2] as int - 0x80;
    SameBits((a * 64 + c) * 64 + e, s[3] as int - 0x80, (b * 64 + d) * 64 + f, t[3] as int - 0x80);
    SameBits(a * 64 + c, e, b * 64 + d, f);
    SameBits(a, c, b, d);
  }

  // ----- Every unit is decoded to what it denotes -----

  lemma PlainDecodes(u: string, t: string, rest: string)
    requires IsPlain(u, t)
    ensures Decode(u + rest) == t + Decode(rest) && (HasLoneSurrogate(u + rest) <==> HasLoneSurrogate(rest))
  {
    var s := u + rest;
    assert s[0] == u[0] && s[..1] == u && s[1..] == rest;
  }

  lemma ShortShape(u: string, t: string)
    requires IsShort(u, t)
    ensures |u| == 2 && |t| == 1 && u[0] == '\\' && u[1] != 'u' && t[0] == SimpleEscape(u[1]) && IsSimpleEscape(u[1])
  {
  }

  lemma ShortDecodes(u: string, t: string, rest: string)
    requires IsShort(u, t)
    ensures Decode(u + rest) == t + Decode(rest) && (HasLoneSurrogate(u + rest) <==> HasLoneSurrogate(rest))
  {
    var s := u + rest;
    ShortShape(u, t);
    hide IsShort, SimpleEscape;
    assert s[0] == u[0] && s[1] == u[1] && s[2..] == rest;
    assert t == [t[0]];
  }

  /** Only its own six bytes decide a unit. */
  lemma UnitOf(u: string, rest: string)
    requires EscapeLen(u) == 6 && |u| == 6
    ensures var s := u + rest; |s| >= 6 && s[0] == '\\' && CodeUnit(s) == CodeUnit(u) && IsUnicodeEscape(s) && s[6..] == rest
  {
    var s := u + rest;
    assert s[0] == u[0] && s[1] == u[1] && s[2] == u[2] && s[3] == u[3] && s[4] == u[4] && s[5] == u[5];
  }

  lemma CodeDecodes(u: string, t: string, rest: string)
    requires IsCode(u, t)
    ensures Decode(u + rest) == t + Decode(rest) && (HasLoneSurrogate(u + rest) <==> HasLoneSurrogate(rest))
  {
    hide Spells, Encodes, EscapeLen, CodeUnit, IsUnicodeEscape, Utf8;
    var h, n: nat :| u == "\\u" + h && Spells(h, n) && !(0xD800 <= n < 0xE000) && Encodes(t, n);
    SpelledIsSmall(h, n);
    SpelledUnit(u, h, n);
    UnitOf(u, rest);
    Utf8Encodes(n);
    OneEncoding(t, Utf8(n), n);
  }

  lemma SpelledIsSmall(h: string, n: nat)
    requires Spells(h, n)
    ensures |h| == 4 && n < 0x10000
  {
  }

  lemma TwinDecodes(u: string, t: string, rest: string)
    requires IsTwin(u, t)
    ensures Decode(u + rest) == t + Decode(rest) && (HasLoneSurrogate(u + rest) <==> HasLoneSurrogate(rest))
  {
    hide Spells, Encodes, EscapeLen, CodeUnit, IsUnicodeEscape, Utf8;
    var h, high: nat, k, low: nat :|
      && u == ("\\u" + h) + ("\\u" + k) && Spells(h, high) && Spells(k, low) && 0xD800 <= high < 0xDC00 && 0xDC00 <= low < 0xE000
      && Encodes(t, 0x10000 + (high - 0xD800) * 0x400 + (low - 0xDC00));
    var first, second := "\\u" + h, "\\u" + k;
    SpelledIsSmall(h, high);
    SpelledIsSmall(k, low);
    SpelledUnit(first, h, high);
    SpelledUnit(second, k, low);
    Assoc(first, second, rest);
    UnitOf(first, second + rest);
    UnitOf(second, rest);
    var s := u + rest;
    assert s[12..] == s[6..][6..];
    var cp := 0x10000 + (high - 0xD800) * 0x400 + (low - 0xDC00);
    Utf8Encodes(cp);
    OneEncoding(t, Utf8(cp), cp);
  }

  lemma UnitDecodes(u: string, t: string, rest: string)
    requires UnitDenotes(u, t)
    ensures Decode(u + rest) == t + Decode(rest) && (HasLoneSurrogate(u + rest) <==> HasLoneSurrogate(rest))
  {
    hide Decode, HasLoneSurrogate, IsPlain, IsShort, IsCode, IsTwin;
    if IsPlain(u, t) { PlainDecodes(u, t, rest); }
    else if IsShort(u, t) { ShortDecodes(u, t, rest); }
    else if IsCode(u, t) { CodeDecodes(u, t, rest); }
    else { TwinDecodes(u, t, rest); }
  }

  // ----- Every body without a lone surrogate is made of units -----

  /** The unit in front of a body. */
  predicate InFront(raw: string, n: nat) {
    0 < n <= |raw| && IsStrBody(raw[n..]) && !HasLoneSurrogate(raw[n..])
  }

  lemma PlainInFront(raw: string)
    requires IsStrBody(raw) && !HasLoneSurrogate(raw) && raw != "" && raw[0] != '\\'
    ensures InFront(raw, 1) && IsPlain(raw[..1], raw[..1])
  {
  }

  lemma ShortInFront(raw: string)
    requires IsStrBody(raw) && !HasLoneSurrogate(raw) && raw != "" && raw[0] == '\\' && EscapeLen(raw) == 2
    ensures InFront(raw, 2) && IsShort(raw[..2], [SimpleEscape(raw[1])])
  {
    assert StepLen(raw) == 2 && !IsUnicodeEscape(raw);
    assert InFront(raw, 2);
    hide IsStrBody, HasLoneSurrogate;
    assert raw[..2] == [raw[0], raw[1]];
    ShortIs(raw[1]);
  }

  lemma ShortIs(c: char)
    requires IsSimpleEscape(c)
    ensures IsShort(['\\', c], [SimpleEscape(c)])
  {
  }

  lemma CodeInFront(raw: string)
    requires IsStrBody(raw) && !HasLoneSurrogate(raw) && raw != "" && raw[0] == '\\' && EscapeLen(raw) == 6 && !IsPair(raw)
    ensures InFront(raw, 6) && IsCode(raw[..6], Utf8(CodeUnit(raw)))
  {
    assert StepLen(raw) == 6 && IsUnicodeEscape(raw);
    assert InFront(raw, 6) && !IsHigh(CodeUnit(raw)) && !IsLow(CodeUnit(raw));
    hide IsStrBody, HasLoneSurrogate, EscapeLen, CodeUnit, Spells, Encodes, Utf8;
    UnitIsSpelled(raw);
    SpelledIsSmall(raw[2..6], CodeUnit(raw));
    Utf8Encodes(CodeUnit(raw));
  }

  lemma TwinInFront(raw: string) returns (t: string)
    requires IsStrBody(raw) && !HasLoneSurrogate(raw) && raw != "" && raw[0] == '\\' && EscapeLen(raw) == 6 && IsPair(raw)
    ensures InFront(raw, 12) && IsTwin(raw[..12], t)
  {
    var low := raw[6..];
    assert StepLen(raw) == 6 && IsStrBody(low);
    assert StepLen(low) == 6 && IsStrBody(low[6..]) && low[6..] == raw[12..];
    assert InFront(raw, 12);
    t := TwinMeans(raw, low);
  }

  lemma TwinMeans(raw: string, low: string) returns (t: string)
    requires EscapeLen(raw) == 6 && EscapeLen(low) == 6 && low == raw[6..] && IsPair(raw)
    ensures |raw| >= 12 && IsTwin(raw[..12], t)
  {
    hide EscapeLen, CodeUnit, Spells, Encodes, Utf8;
    UnitIsSpelled(raw);
    UnitIsSpelled(low);
    var cp := 0x10000 + (CodeUnit(raw) - 0xD800) * 0x400 + (CodeUnit(low) - 0xDC00);
    t := Utf8(cp);
    Utf8Encodes(cp);
    assert raw[..12] == raw[..6] + low[..6];
  }

  lemma UnitInFront(raw: string) returns (n: nat, t: string)
    requires IsStrBody(raw) && !HasLoneSurrogate(raw) && raw != ""
    ensures InFront(raw, n) && UnitDenotes(raw[..n], t)
  {
    assert StepLen(raw) > 0;
    hide IsStrBody, HasLoneSurrogate, InFront, IsPlain, IsShort, IsCode, IsTwin, IsPair;
    if raw[0] != '\\' {
      n, t := 1, raw[..1];
      PlainInFront(raw);
    } else if EscapeLen(raw) == 2 {
      n, t := 2, [SimpleEscape(raw[1])];
      ShortInFront(raw);
    } else if !IsPair(raw) {
      n, t := 6, Utf8(CodeUnit(raw));
      CodeInFront(raw);
    } else {
      n := 12;
      t := TwinInFront(raw);
    }
  }

  /** A body denotes exactly one text, the one it is decoded to, or none when a full parse refuses it. */
  lemma {:induction false} DecodeIff(raw: string, text: string)
    requires IsStrBody(raw)
    ensures Denotes(raw, text) <==> !HasLoneSurrogate(raw) && text == Decode(raw)
  {
    if Denotes(raw, text) { DenotedIsDecoded(raw, text); }
    if !HasLoneSurrogate(raw) { DecodedIsDenoted(raw); }
  }

  lemma {:induction false} DenotedIsDecoded(raw: string, text: string)
    requires Denotes(raw, text)
    ensures !HasLoneSurrogate(raw) && text == Decode(raw)
    decreases |raw|
  {
    if raw != "" {
      var u, t, raw', text' :| u != "" && raw == u + raw' && text == t + text' && UnitDenotes(u, t) && Denotes(raw', text');
      hide UnitDenotes, Decode, HasLoneSurrogate;
      DenotedIsDecoded(raw', text');
      UnitDecodes(u, t, raw');
    }
  }

  lemma NothingDenotes()
    ensures Denotes("", Decode(""))
  {
  }

  lemma UnitMore(u: string, t: string, raw: string, text: string)
    requires u != "" && UnitDenotes(u, t) && Denotes(raw, text)
    ensures Denotes(u + raw, t + text)
  {
    hide UnitDenotes;
  }

  lemma {:induction false} DecodedIsDenoted(raw: string)
    requires IsStrBody(raw) && !HasLoneSurrogate(raw)
    ensures Denotes(raw, Decode(raw))
    decreases |raw|
  {
    hide UnitDenotes, Decode, HasLoneSurrogate, IsStrBody, Denotes;
    if raw == "" {
      NothingDenotes();
    } else {
      var n, t := UnitInFront(raw);
      assert raw == raw[..n] + raw[n..];
      DecodedIsDenoted(raw[n..]);
      UnitDecodes(raw[..n], t, raw[n..]);
      UnitMore(raw[..n], t, raw[n..], Decode(raw[n..]));
    }
  }

  // ----- Which byte strings are UTF-8 -----

  /** A code point that is no surrogate, in bytes. */
  ghost predicate IsScalar(t: string) { exists cp :: Encodes(t, cp) && !(0xD800 <= cp < 0xE000) }

  ghost predicate Scalars(s: string)
    decreases |s|
  {
    s == "" || exists t, rest :: t != "" && s == t + rest && IsScalar(t) && Scalars(rest)
  }

  lemma StepIsScalar(s: string)
    requires Utf8Step(s) > 0
    ensures IsScalar(s[..Utf8Step(s)])
  {
    var t := s[..Utf8Step(s)];
    if |t| == 1 {
      assert Encodes(t, t[0] as int);
    } else if |t| == 2 {
      assert Encodes(t, (t[0] as int - 0xC0) * 64 + (t[1] as int - 0x80));
    } else if |t| == 3 {
      assert Encodes(t, (t[0] as int - 0xE0) * 4096 + (t[1] as int - 0x80) * 64 + (t[2] as int - 0x80));
    } else {
      assert Encodes(t, (t[0] as int - 0xF0) * 262144 + (t[1] as int - 0x80) * 4096 + (t[2] as int - 0x80) * 64 + (t[3] as int - 0x80));
    }
  }

  lemma ScalarIsStep(t: string)
    requires IsScalar(t)
    ensures t != "" && Utf8Step(t) == |t|
  {
    var cp :| Encodes(t, cp) && !(0xD800 <= cp < 0xE000);
  }

  /** The check of a byte string accepts exactly the concatenations of encoded code points. */
  lemma {:induction false} Utf8Iff(s: string)
    ensures IsUtf8(s) <==> Scalars(s)
    decreases |s|
  {
    hide Utf8Step, IsScalar;
    if s != "" && IsUtf8(s) {
      StepIsScalar(s);
      var n := Utf8Step(s);
      assert s == s[..n] + s[n..];
      Utf8Iff(s[n..]);
    }
    if s != "" && Scalars(s) {
      var t, rest :| t != "" && s == t + rest && IsScalar(t) && Scalars(rest);
      ScalarIsStep(t);
      Utf8StepOf(t, rest);
      Utf8Iff(rest);
      assert t[|t|..] + rest == rest;
    }
  }
}
