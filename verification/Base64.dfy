/** The base64 decoder (`src/codex_oauth.rs`): a 32-bit accumulator over 6-bit digits, against the
    encoding of sections 4 and 5 of RFC 4648.  Text and bytes are `bv8`, the accumulator and the
    digits `bv32`, as in the source. */
module Base64 {
  import opened Sequences
  import opened Options

  /** The two alphabets differ only in the characters for 62 and 63. */
  datatype Alphabet = Alphabet(sixtyTwo: bv8, sixtyThree: bv8)

  const STANDARD := Alphabet(0x2B, 0x2F)
  const URL_SAFE := Alphabet(0x2D, 0x5F)
  const PAD: bv8 := 0x3D

  predicate IsAlnum(c: bv8) { 65 <= c <= 90 || 97 <= c <= 122 || 48 <= c <= 57 }

  predicate IsAlphabet(a: Alphabet) {
    && !IsAlnum(a.sixtyTwo) && !IsAlnum(a.sixtyThree) && a.sixtyTwo != a.sixtyThree
    && a.sixtyTwo != PAD && a.sixtyThree != PAD
  }

  function Digit(c: bv8, a: Alphabet): (d: Option<bv32>)
    ensures d.Some? ==> d.value < 64
  {
    if 65 <= c <= 90 then Some((c - 65) as bv32)
    else if 97 <= c <= 122 then Some((c - 97 + 26) as bv32)
    else if 48 <= c <= 57 then Some((c - 48 + 52) as bv32)
    else if c == a.sixtyTwo then Some(62)
    else if c == a.sixtyThree then Some(63)
    else None
  }

  function Symbol(d: bv32, a: Alphabet): bv8
    requires d < 64
  {
    if d < 26 then d as bv8 + 65
    else if d < 52 then d as bv8 - 26 + 97
    else if d < 62 then d as bv8 - 52 + 48
    else if d == 62 then a.sixtyTwo else a.sixtyThree
  }

  lemma SymbolDigit(d: bv32, a: Alphabet)
    requires d < 64 && IsAlphabet(a)
    ensures Digit(Symbol(d, a), a) == Some(d) && Symbol(d, a) != PAD
  {
  }

  /** In both alphabets the 64 symbols are distinct, none is the padding, and each is read as its digit. */
  lemma BothAlphabets(a: Alphabet, d: bv32, e: bv32)
    requires (a == STANDARD || a == URL_SAFE) && d < 64 && e < 64
    ensures IsAlphabet(a) && (Symbol(d, a) == Symbol(e, a) <==> d == e)
    ensures Symbol(d, a) != PAD && Digit(Symbol(d, a), a) == Some(d)
  {
    assert IsAlphabet(STANDARD) && IsAlphabet(URL_SAFE);
    hide Symbol, Digit;
    SymbolDigit(d, a);
    SymbolDigit(e, a);
  }

  const LETTERS := "ABCDEFGHIJKLMNOPQRSTUVWXYZ"
  const SMALL := "abcdefghijklmnopqrstuvwxyz"
  const FIGURES := "0123456789"

  /** The symbols are the capitals, the small letters, the figures and the alphabet's own two. */
  lemma SymbolIs(d: bv32, a: Alphabet)
    requires d < 64
    ensures d < 26 ==> Symbol(d, a) as int == LETTERS[d] as int
    ensures 26 <= d < 52 ==> Symbol(d, a) as int == SMALL[d - 26] as int
    ensures 52 <= d < 62 ==> Symbol(d, a) as int == FIGURES[d - 52] as int
    ensures d == 62 ==> Symbol(d, a) == a.sixtyTwo
    ensures d == 63 ==> Symbol(d, a) == a.sixtyThree
  {
    hide LETTERS, SMALL, FIGURES;
    if d < 26 { LetterIs(d); } else if d < 52 { SmallIs(d - 26); } else if d < 62 { FigureIs(d - 52); }
  }

  lemma LetterIs(d: bv32)
    requires d < 26
    ensures (d as bv8 + 65) as int == LETTERS[d] as int
  {
  }

  lemma SmallIs(d: bv32)
    requires d < 26
    ensures (d as bv8 + 97) as int == SMALL[d] as int
  {
  }

  lemma FigureIs(d: bv32)
    requires d < 10
    ensures (d as bv8 + 48) as int == FIGURES[d] as int
  {
  }

  /** A character is read as a digit exactly when it is that digit's symbol, and refused when it is none's. */
  lemma DigitIff(c: bv8, a: Alphabet, d: bv32)
    requires IsAlphabet(a)
    ensures Digit(c, a) == Some(d) <==> d < 64 && Symbol(d, a) == c
  {
    hide IsAlphabet;
    if Digit(c, a) == Some(d) { DigitSymbol(c, a, d); }
    hide Digit, Symbol;
    if d < 64 && Symbol(d, a) == c { SymbolDigit(d, a); }
  }

  lemma DigitSymbol(c: bv8, a: Alphabet, d: bv32)
    requires Digit(c, a) == Some(d)
    ensures d < 64 && Symbol(d, a) == c
  {
    if 65 <= c <= 90 { Capital(c); } else if 97 <= c <= 122 { Small(c); } else if 48 <= c <= 57 { Figure(c); }
  }

  lemma Capital(c: bv8)
    requires 65 <= c <= 90
    ensures var d := (c - 65) as bv32; d < 26 && d as bv8 + 65 == c
  {
  }

  lemma Small(c: bv8)
    requires 97 <= c <= 122
    ensures var d := (c - 97 + 26) as bv32; 26 <= d < 52 && d as bv8 - 26 + 97 == c
  {
  }

  lemma Figure(c: bv8)
    requires 48 <= c <= 57
    ensures var d := (c - 48 + 52) as bv32; 52 <= d < 62 && d as bv8 - 52 + 48 == c
  {
  }

  // ----- Digits and bytes -----

  predicate AreDigits(ds: seq<bv32>) { forall i :: 0 <= i < |ds| ==> ds[i] < 64 }

  function Low(x: bv32): bv8 { (x & 0xff) as bv8 }

  // The three bytes of a group of four digits.
  function First(a: bv32, b: bv32): bv8 { Low((a << 2) | (b >> 4)) }
  function Second(b: bv32, c: bv32): bv8 { Low(((b & 15) << 4) | (c >> 2)) }
  function Third(c: bv32, d: bv32): bv8 { Low(((c & 3) << 6) | d) }

  /** The bytes a run of digits spells: its bit string cut into eights, spare bits dropped. */
  function Bytes(ds: seq<bv32>): seq<bv8> {
    if |ds| < 2 then []
    else if |ds| == 2 then [First(ds[0], ds[1])]
    else if |ds| == 3 then [First(ds[0], ds[1]), Second(ds[1], ds[2])]
    else [First(ds[0], ds[1]), Second(ds[1], ds[2]), Third(ds[2], ds[3])] + Bytes(ds[4..])
  }

  // The four digits of a group of three bytes.
  function D0(x: bv8): bv32 { (x as bv32) >> 2 }
  function D1(x: bv8, y: bv8): bv32 { (((x as bv32) & 3) << 4) | ((y as bv32) >> 4) }
  function D2(y: bv8, z: bv8): bv32 { (((y as bv32) & 15) << 2) | ((z as bv32) >> 6) }
  function D3(z: bv8): bv32 { (z as bv32) & 63 }

  /** Three bytes are four digits; a shorter last group leaves its spare bits zero. */
  function Digits(bytes: seq<bv8>): seq<bv32> {
    if |bytes| == 0 then []
    else if |bytes| == 1 then [D0(bytes[0]), D1(bytes[0], 0)]
    else if |bytes| == 2 then [D0(bytes[0]), D1(bytes[0], bytes[1]), D2(bytes[1], 0)]
    else
      [D0(bytes[0]), D1(bytes[0], bytes[1]), D2(bytes[1], bytes[2]), D3(bytes[2])] + Digits(bytes[3..])
  }

  /** A group of digits spells its bytes again. */
  lemma Group(x: bv8, y: bv8, z: bv8)
    ensures D0(x) < 64 && D1(x, y) < 64 && D2(y, z) < 64 && D3(z) < 64
    ensures First(D0(x), D1(x, y)) == x && Second(D1(x, y), D2(y, z)) == y && Third(D2(y, z), D3(z)) == z
  {
  }

  lemma {:induction false} BytesOfDigits(bytes: seq<bv8>)
    ensures Bytes(Digits(bytes)) == bytes && AreDigits(Digits(bytes))
    decreases |bytes|
  {
    hide First, Second, Third, D0, D1, D2, D3;
    if |bytes| == 1 {
      Group(bytes[0], 0, 0);
    } else if |bytes| == 2 {
      Group(bytes[0], bytes[1], 0);
    } else if |bytes| >= 3 {
      var x, y, z, rest := bytes[0], bytes[1], bytes[2], Digits(bytes[3..]);
      Group(x, y, z);
      BytesOfDigits(bytes[3..]);
      FourDigits([D0(x), D1(x, y), D2(y, z), D3(z)], rest);
      assert bytes == [x, y, z] + bytes[3..];
    }
  }

  /** The bytes of four digits. */
  function Three(p: seq<bv32>): seq<bv8>
    requires |p| == 4
  {
    [First(p[0], p[1]), Second(p[1], p[2]), Third(p[2], p[3])]
  }

  lemma FourDigits(p: seq<bv32>, ds: seq<bv32>)
    requires |p| == 4
    ensures Bytes(p + ds) == Three(p) + Bytes(ds)
  {
    hide First, Second, Third;
    assert (p + ds)[4..] == ds;
  }

  lemma NoDigits()
    ensures Bytes([]) == []
  {
  }

  lemma {:induction false} BytesOfGroups(a: seq<bv32>, b: seq<bv32>, groups: nat)
    requires |a| == 4 * groups
    ensures Bytes(a + b) == Bytes(a) + Bytes(b)
    decreases groups
  {
    hide Bytes, Three;
    if groups == 0 {
      NoDigits();
      assert a == [];
      EmptyLeft(b);
      EmptyLeft(Bytes(b));
    } else {
      var p, rest := a[..4], a[4..];
      BytesOfGroups(rest, b, groups - 1);
      FourDigits(p, rest);
      FourDigits(p, rest + b);
      Assoc(p, rest, b);
      Assoc(Three(p), Bytes(rest), Bytes(b));
      assert a == p + rest;
    }
  }

  lemma {:induction false} BytesLength(ds: seq<bv32>)
    ensures |Bytes(ds)| == 6 * |ds| / 8
    decreases |ds|
  {
    hide First, Second, Third;
    if |ds| >= 4 { BytesLength(ds[4..]); }
  }

  /** An encoding never leaves a single digit over. */
  lemma {:induction false} DigitsLength(bytes: seq<bv8>)
    ensures |Digits(bytes)| % 4 != 1
    decreases |bytes|
  {
    hide D0, D1, D2, D3;
    if |bytes| >= 3 { DigitsLength(bytes[3..]); }
  }

  // ----- Text -----

  function TrimPadding(s: seq<bv8>): seq<bv8> {
    if s != [] && s[|s| - 1] == PAD then TrimPadding(s[..|s| - 1]) else s
  }

  predicate InAlphabet(s: seq<bv8>, a: Alphabet) { forall i :: 0 <= i < |s| ==> Digit(s[i], a).Some? }

  function Values(s: seq<bv8>, a: Alphabet): (ds: seq<bv32>)
    requires InAlphabet(s, a)
    ensures |ds| == |s| && forall i :: 0 <= i < |s| ==> Digit(s[i], a) == Some(ds[i])
  {
    seq(|s|, i requires 0 <= i < |s| => Digit(s[i], a).value)
  }

  /** What a text decodes to: nothing when a character is outside the alphabet or one character
      is left over, the bytes of its digits otherwise. */
  function Decoded(s: seq<bv8>, a: Alphabet): Option<seq<bv8>> {
    var t := TrimPadding(s);
    if InAlphabet(t, a) && |t| % 4 != 1 then Some(Bytes(Values(t, a))) else None
  }

  // ----- The decoder -----

  /** The bits held back after `n` digits: none, six, four or two of the last digit. What is above
      them in the accumulator, or was shifted out of it, is not constrained. */
  predicate Holds(acc: bv32, bits: bv32, ds: seq<bv32>) {
    var n := |ds|;
    if n % 4 == 0 then bits == 0
    else if n % 4 == 1 then bits == 6 && acc & 63 == ds[n - 1]
    else if n % 4 == 2 then bits == 4 && acc & 15 == ds[n - 1] & 15
    else bits == 2 && acc & 3 == ds[n - 1] & 3
  }

  /** `acc >> bits`, for the counts the loop reaches. */
  function ShiftOut(acc: bv32, bits: bv32): bv32 {
    if bits == 0 then acc else if bits == 2 then acc >> 2 else if bits == 4 then acc >> 4 else acc >> 6
  }

  method Decode(s: seq<bv8>, a: Alphabet) returns (r: Option<seq<bv8>>)
    ensures r == Decoded(s, a)
  {
    hide Bytes, Digit, Low, Holds;
    var t := TrimPadding(s);
    var out: seq<bv8> := [];
    var acc: bv32, bits: bv32 := 0, 0;
    ghost var ds: seq<bv32> := [];
    Empty();
    for i := 0 to |t|
      invariant |ds| == i && AreDigits(ds)
      invariant forall k :: 0 <= k < i ==> Digit(t[k], a) == Some(ds[k])
      invariant out == Bytes(ds) && Holds(acc, bits, ds)
    {
      var d := Digit(t[i], a);
      if d.None? { return None; }
      var v := d.value;
      NextByte(ds, v, acc, bits);
      acc := (acc << 6) | v;
      bits := bits + 6;
      if bits >= 8 {
        bits := bits - 8;
        out := out + [Low(ShiftOut(acc, bits))];
      }
      ds := ds + [v];
    }
    if |t| % 4 == 1 { return None; }
    assert ds == Values(t, a);
    r := Some(out);
  }

  lemma Empty()
    ensures Bytes([]) == [] && Holds(0, 0, [])
  {
  }

  /** One step of the loop: the byte it writes, if any, is the next byte the digits spell. */
  lemma NextByte(ds: seq<bv32>, v: bv32, acc: bv32, bits: bv32)
    requires AreDigits(ds) && v < 64 && Holds(acc, bits, ds)
    ensures var ds', acc', bits' := ds + [v], (acc << 6) | v, bits + 6;
      && AreDigits(ds')
      && if bits' >= 8 then Bytes(ds') == Bytes(ds) + [Low(ShiftOut(acc', bits' - 8))] && Holds(acc', bits' - 8, ds')
         else Bytes(ds') == Bytes(ds) && Holds(acc', bits', ds')
  {
    hide Bytes, Low, Holds, Written, ShiftOut, AreDigits;
    MoreDigits(ds, v);
    NextHeld(ds, v, acc, bits);
    var a, b := Whole(ds), Part(ds);
    BytesOfGroups(a, b, |ds| / 4);
    BytesOfGroups(a, b + [v], |ds| / 4);
    Assoc(a, b, [v]);
    ShortGroups(b, v);
    if b != [] { Assoc(Bytes(a), Bytes(b), [Written(b, v)]); }
  }

  /** The whole groups of the digits, and the part of a group after them. */
  function Whole(ds: seq<bv32>): (a: seq<bv32>)
    ensures |a| == 4 * (|ds| / 4) && a + Part(ds) == ds
  { ds[..4 * (|ds| / 4)] }

  function Part(ds: seq<bv32>): (b: seq<bv32>)
    ensures |b| < 4 && |b| == |ds| % 4
    ensures |b| > 0 ==> b[|b| - 1] == ds[|ds| - 1]
  { ds[4 * (|ds| / 4)..] }

  lemma NextHeld(ds: seq<bv32>, v: bv32, acc: bv32, bits: bv32)
    requires AreDigits(ds) && v < 64 && Holds(acc, bits, ds)
    ensures var acc', bits', b := (acc << 6) | v, bits + 6, Part(ds);
      if bits' >= 8 then
        b != [] && Low(ShiftOut(acc', bits' - 8)) == Written(b, v) && Holds(acc', bits' - 8, ds + [v])
      else b == [] && Holds(acc', bits', ds + [v])
  {
    hide Low, First, Second, Third, Part;
    var b := Part(ds);
    if |b| == 0 { Shift0(acc, v); }
    else if |b| == 1 { Shift1(b[0], v, acc); }
    else if |b| == 2 { Shift2(b[1], v, acc); }
    else { Shift3(b[2], v, acc); }
  }

  lemma MoreDigits(ds: seq<bv32>, v: bv32)
    requires AreDigits(ds) && v < 64
    ensures AreDigits(ds + [v]) && (ds != [] ==> ds[|ds| - 1] < 64)
  {
  }

  /** The byte a digit completes after one, two or three digits of its group. */
  function Written(b: seq<bv32>, v: bv32): bv8
    requires 0 < |b| < 4
  {
    if |b| == 1 then First(b[0], v) else if |b| == 2 then Second(b[1], v) else Third(b[2], v)
  }

  lemma ShortGroups(b: seq<bv32>, v: bv32)
    requires |b| < 4
    ensures Bytes(b + [v]) == if b == [] then Bytes(b) else Bytes(b) + [Written(b, v)]
  {
    if |b| == 3 {
      hide Bytes, Three, First, Second, Third;
      NoDigits();
      FourDigits(b + [v], []);
      assert (b + [v]) + [] == b + [v];
      ThreeDigits(b, v);
    } else {
      hide First, Second, Third;
    }
  }

  lemma ThreeDigits(b: seq<bv32>, v: bv32)
    requires |b| == 3
    ensures Three(b + [v]) + [] == Bytes(b) + [Third(b[2], v)]
  {
    hide First, Second, Third;
  }

  // Shifting a digit into the word, with zero, six, four or two bits held back before. The top
  // six bits of the word are lost, and no byte depends on them.
  lemma Shift0(acc: bv32, v: bv32)
    requires v < 64
    ensures ((acc << 6) | v) & 63 == v
  {
  }

  lemma Shift1(x: bv32, v: bv32, acc: bv32)
    requires x < 64 && v < 64 && acc & 63 == x
    ensures var next := (acc << 6) | v; Low(next >> 4) == First(x, v) && next & 15 == v & 15
  {
  }

  lemma Shift2(y: bv32, v: bv32, acc: bv32)
    requires y < 64 && v < 64 && acc & 15 == y & 15
    ensures var next := (acc << 6) | v; Low(next >> 2) == Second(y, v) && next & 3 == v & 3
  {
  }

  lemma Shift3(z: bv32, v: bv32, acc: bv32)
    requires z < 64 && v < 64 && acc & 3 == z & 3
    ensures Low((acc << 6) | v) == Third(z, v)
  {
  }

  // ----- The round trip -----

  function Symbols(ds: seq<bv32>, a: Alphabet): (s: seq<bv8>)
    requires AreDigits(ds)
    ensures |s| == |ds|
  {
    seq(|ds|, i requires 0 <= i < |ds| => Symbol(ds[i], a))
  }

  function Padding(n: nat): seq<bv8> {
    if n % 4 == 2 then [PAD, PAD] else if n % 4 == 3 then [PAD] else []
  }

  /** Padding fills a whole text up to a multiple of four. */
  lemma PaddingFills(n: nat)
    requires n % 4 != 1
    ensures (n + |Padding(n)|) % 4 == 0 && |Padding(n)| < 4
    ensures forall i :: 0 <= i < |Padding(n)| ==> Padding(n)[i] == 0x3D
  {
  }

  lemma {:induction false} TrimPadded(s: seq<bv8>, pad: seq<bv8>)
    requires (forall i :: 0 <= i < |pad| ==> pad[i] == PAD) && (s != [] ==> s[|s| - 1] != PAD)
    ensures TrimPadding(s + pad) == s
    decreases |pad|
  {
    if pad == [] {
      assert s + pad == s;
    } else {
      assert (s + pad)[..|s + pad| - 1] == s + pad[..|pad| - 1];
      TrimPadded(s, pad[..|pad| - 1]);
    }
  }

  /** Decoding an encoding, padded to a multiple of four or not, gives the bytes back. */
  lemma RoundTrip(bytes: seq<bv8>, a: Alphabet)
    requires IsAlphabet(a)
    ensures AreDigits(Digits(bytes))
    ensures var text := Symbols(Digits(bytes), a);
      Decoded(text, a) == Some(bytes) && Decoded(text + Padding(|text|), a) == Some(bytes)
  {
    hide Digit, Symbol, IsAlphabet, Bytes, Digits;
    BytesOfDigits(bytes);
    DigitsLength(bytes);
    var ds := Digits(bytes);
    var s := Symbols(ds, a);
    forall i | 0 <= i < |ds|
      ensures Digit(s[i], a) == Some(ds[i]) && s[i] != PAD
    {
      SymbolDigit(ds[i], a);
    }
    assert s + [] == s;
    TrimPadded(s, []);
    TrimPadded(s, Padding(|s|));
    assert Values(s, a) == ds;
  }

  /** An accepted text of `n` characters before its padding spells exactly `6n/8` bytes; a text is
      refused exactly when a character is outside the alphabet or one is left over. */
  lemma DecodedLength(s: seq<bv8>, a: Alphabet)
    ensures var t := TrimPadding(s);
      && (Decoded(s, a).None? <==> (exists i :: 0 <= i < |t| && Digit(t[i], a).None?) || |t| % 4 == 1)
      && (Decoded(s, a).Some? ==> |Decoded(s, a).value| == 6 * |t| / 8)
  {
    hide Bytes, Digit;
    if Decoded(s, a).Some? { BytesLength(Values(TrimPadding(s), a)); }
  }
}
