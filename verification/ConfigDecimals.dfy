/** A spelling of shares that is always read back: exact decimal fractions, as `0.9` and `90%`. */
module ConfigDecimals {
  import opened Options
  import opened ConfigSet

  function Pow10(k: nat): (p: nat)
    ensures p > 0
  {
    if k == 0 then 1 else 10 * Pow10(k - 1)
  }

  function Value(n: nat, k: nat): real { n as real / Pow10(k) as real }

  /** Where the point is, or the end. */
  function PointAt(s: string): (k: nat)
    ensures k <= |s|
  {
    if s == "" || s[0] == '.' then 0 else 1 + PointAt(s[1..])
  }

  function Behind(s: string): string { if PointAt(s) < |s| then s[PointAt(s) + 1..] else "" }

  /** Digits, and digits behind a point if there is one. */
  function ReadDecimal(s: string): Option<real> {
    if PointAt(s) == 0 then None
    else
      var n :- DigitsValue(s[..PointAt(s)] + Behind(s));
      Some(Value(n, |Behind(s)|))
  }

  function Pad(s: string, len: nat): (r: string)
    ensures |r| >= len
    decreases len - |s|
  {
    if |s| >= len then s else Pad("0" + s, len)
  }

  /** `n` over ten to the `k`, with at least one digit before the point. */
  function Spell(n: nat, k: nat): string {
    var d := Pad(Show(n), k + 1);
    if k == 0 then d else d[..|d| - k] + ("." + d[|d| - k..])
  }

  ghost predicate IsDecimal(f: real) { exists n: nat, k: nat :: f == Value(n, k) }

  ghost function ShowDecimal(f: real): string {
    if IsDecimal(f) then
      var n: nat, k: nat :| f == Value(n, k);
      Spell(n, k)
    else "0"
  }

  predicate AreDigits(s: string) { forall i :: 0 <= i < |s| ==> '0' <= s[i] <= '9' }

  lemma {:induction false} ValueOfDigits(s: string)
    requires DigitsValue(s).Some?
    ensures AreDigits(s)
  {
    if s != "" { ValueOfDigits(s[..|s| - 1]); }
  }

  lemma {:induction false} ZeroInFront(s: string)
    ensures DigitsValue("0" + s) == DigitsValue(s)
  {
    if s == "" {
      assert ("0" + s)[..0] == "";
    } else {
      ZeroInFront(s[..|s| - 1]);
      assert ("0" + s)[..|s|] == "0" + s[..|s| - 1];
    }
  }

  lemma {:induction false} PadReads(s: string, len: nat)
    ensures DigitsValue(Pad(s, len)) == DigitsValue(s)
    decreases len - |s|
  {
    if |s| < len {
      ZeroInFront(s);
      PadReads("0" + s, len);
    }
  }

  lemma {:induction false} PointOf(w: string, rest: string)
    requires AreDigits(w) && (rest == "" || rest[0] == '.')
    ensures PointAt(w + rest) == |w|
  {
    if w == "" {
      assert w + rest == rest;
    } else {
      assert (w + rest)[0] == w[0] && (w + rest)[1..] == w[1..] + rest;
      PointOf(w[1..], rest);
    }
  }

  /** Digits `w`, then nothing or a point and digits `f`. */
  predicate IsSplit(w: string, f: string, rest: string) {
    w != "" && AreDigits(w) && AreDigits(f) && if f == "" then rest == "" else rest == "." + f
  }

  lemma SplitReads(w: string, f: string, rest: string)
    requires IsSplit(w, f, rest)
    ensures PointAt(w + rest) == |w| && Behind(w + rest) == f && (w + rest)[..|w|] == w
  {
    hide PointAt;
    PointOf(w, rest);
    if f != "" { assert (w + rest)[|w| + 1..] == f; }
  }

  lemma SplitIsWord(w: string, f: string, rest: string)
    requires IsSplit(w, f, rest)
    ensures var s := w + rest; IsWord(s) && s[|s| - 1] != '%' && s != "default"
  {
    var s := w + rest;
    assert s[0] == w[0];
    forall i | 0 <= i < |s| ensures s[i] == '.' || '0' <= s[i] <= '9' {
      if i < |w| { assert s[i] == w[i]; } else if i > |w| { assert s[i] == f[i - |w| - 1]; }
    }
  }

  lemma Halves(d: string, k: nat)
    requires AreDigits(d) && k < |d|
    ensures var w, f := d[..|d| - k], d[|d| - k..]; w + f == d && |f| == k && IsSplit(w, f, if k == 0 then "" else "." + f)
  {
  }

  /** A spelling is one word that is read as the number it spells. */
  lemma SpellReads(n: nat, k: nat)
    ensures ReadDecimal(Spell(n, k)) == Some(Value(n, k))
    ensures IsWord(Spell(n, k)) && Spell(n, k)[|Spell(n, k)| - 1] != '%' && Spell(n, k) != "default"
  {
    hide Show, DigitsValue, Pad, PointAt, Value, Behind, IsSplit, AreDigits;
    var d := Pad(Show(n), k + 1);
    ShowReads(n);
    PadReads(Show(n), k + 1);
    ValueOfDigits(d);
    Halves(d, k);
    var w, f := d[..|d| - k], d[|d| - k..];
    var rest := if k == 0 then "" else "." + f;
    SplitReads(w, f, rest);
    SplitIsWord(w, f, rest);
    if k == 0 { assert w + "" == d; }
  }

  lemma Hundredth(n: nat, k: nat)
    ensures Value(n, k) / 100.0 == Value(n, k + 2)
  {
    var p := Pow10(k) as real;
    assert Pow10(k + 1) == 10 * Pow10(k) && Pow10(k + 2) == 10 * Pow10(k + 1);
    assert Pow10(k + 2) as real == 100.0 * p;
    Nested(n as real, p);
  }

  lemma Nested(x: real, p: real)
    requires p > 0.0
    ensures (x / p) / 100.0 == x / (100.0 * p)
  {
    var q := x / p;
    assert x == q * p;
    assert q * p == (q / 100.0) * (100.0 * p);
  }

  ghost function Decimals(): Shares { Shares(ReadDecimal, ShowDecimal, f => f / 100.0) }

  lemma DecimalIsSaidBack(f: real)
    requires IsDecimal(f)
    ensures SaidBack(Decimals(), f)
  {
    hide Spell, ReadDecimal, Value;
    var n: nat, k: nat :| f == Value(n, k) && ShowDecimal(f) == Spell(n, k);
    SpellReads(n, k);
  }

  lemma ReadIsDecimal(s: string)
    requires ReadDecimal(s).Some?
    ensures IsDecimal(ReadDecimal(s).value)
  {
  }

  /** So there is a spelling for which every setting that is accepted is recovered. */
  lemma DecimalsAreLawful()
    ensures Lawful(Decimals())
  {
    var c := Decimals();
    forall v: string | Fraction(c, v).Some? ensures SaidBack(c, Fraction(c, v).value) {
      if v != "" && v[|v| - 1] == '%' {
        var t := Trim(v[..|v| - 1]);
        ReadIsDecimal(t);
        var n: nat, k: nat :| ReadDecimal(t).value == Value(n, k);
        Hundredth(n, k);
      } else {
        ReadIsDecimal(v);
      }
      DecimalIsSaidBack(Fraction(c, v).value);
    }
  }
}
