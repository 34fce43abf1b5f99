/** The edit distance behind "did you mean" (`src/config_keys.rs`): a one-row dynamic program,
    proved equal to the recursive Levenshtein distance, which is the length of a shortest edit
    script and a metric. */
module EditDistance {
  import opened Options

  function Min(a: nat, b: nat): nat { if a <= b then a else b }

  function Init(s: string): string
    requires s != ""
  { s[..|s| - 1] }

  function Last(s: string): char
    requires s != ""
  { s[|s| - 1] }

  function Differ(a: char, b: char): nat { if a == b then 0 else 1 }

  /** The Levenshtein distance, by the last characters. */
  function Distance(a: string, b: string): nat
    decreases |a| + |b|
  {
    if a == "" then |b|
    else if b == "" then |a|
    else Min(Distance(Init(a), Init(b)) + Differ(Last(a), Last(b)),
             Min(Distance(a, Init(b)) + 1, Distance(Init(a), b) + 1))
  }

  // ----- The one-row loop -----

  method Compute(a: string, b: string) returns (n: nat)
    ensures n == Distance(a, b)
  {
    hide Distance;
    var previous: seq<nat> := seq(|b| + 1, j => j);
    FirstRow(a, b);
    for i := 0 to |a|
      invariant IsRow(previous, a[..i], b)
    {
      var current: seq<nat> := [i + 1];
      FirstColumn(a, b, i);
      for j := 0 to |b|
        invariant |current| == j + 1
        invariant forall k :: 0 <= k <= j ==> current[k] == Distance(a[..i + 1], b[..k])
      {
        Cell(a, b, i, j);
        var substitute := previous[j] + Differ(a[i], b[j]);
        var insert := current[j] + 1;
        var delete := previous[j + 1] + 1;
        current := current + [Min(Min(substitute, insert), delete)];
      }
      previous := current;
    }
    assert a[..|a|] == a && b[..|b|] == b;
    n := previous[|b|];
  }

  lemma FirstRow(a: string, b: string)
    ensures forall j :: 0 <= j <= |b| ==> Distance(a[..0], b[..j]) == j
  {
  }

  lemma FirstColumn(a: string, b: string, i: nat)
    requires i < |a|
    ensures Distance(a[..i + 1], b[..0]) == i + 1
  {
  }

  /** A cell of the table from its three neighbours. */
  lemma Cell(a: string, b: string, i: nat, j: nat)
    requires i < |a| && j < |b|
    ensures Distance(a[..i + 1], b[..j + 1]) ==
      Min(Min(Distance(a[..i], b[..j]) + Differ(a[i], b[j]), Distance(a[..i + 1], b[..j]) + 1),
          Distance(a[..i], b[..j + 1]) + 1)
  {
    assert Init(a[..i + 1]) == a[..i] && Last(a[..i + 1]) == a[i];
    assert Init(b[..j + 1]) == b[..j] && Last(b[..j + 1]) == b[j];
  }

  /** `row[j]` is the distance from `a` to the first `j` characters of `b`. */
  predicate IsRow(row: seq<nat>, a: string, b: string) {
    |row| == |b| + 1 && forall j :: 0 <= j <= |b| ==> row[j] == Distance(a, b[..j])
  }

  // ----- Edit scripts -----

  /** One step of a script: keep, replace or delete a character, or insert one. */
  datatype Step = Keep | Swap(c: char) | Insert(c: char) | Delete

  /** What the script makes of `a`, read from the last step and the last character back; `None`
      when it does not consume `a` exactly. */
  function Run(script: seq<Step>, a: string): Option<string> {
    if script == [] then (if a == "" then Some("") else None)
    else
      var step, before := script[|script| - 1], script[..|script| - 1];
      match step
      case Insert(c) => Append(Run(before, a), [c])
      case Keep => if a == "" then None else Append(Run(before, Init(a)), [Last(a)])
      case Swap(c) => if a == "" then None else Append(Run(before, Init(a)), [c])
      case Delete => if a == "" then None else Run(before, Init(a))
  }

  function Append(s: Option<string>, t: string): Option<string> {
    if s.None? then None else Some(s.value + t)
  }

  function Cost(script: seq<Step>): nat {
    if script == [] then 0
    else Cost(script[..|script| - 1]) + (if script[|script| - 1].Keep? then 0 else 1)
  }

  /** No script is cheaper than the distance. */
  lemma {:induction false} ScriptBound(script: seq<Step>, a: string, b: string)
    requires Run(script, a) == Some(b)
    ensures Distance(a, b) <= Cost(script)
    decreases |script|
  {
    if script != [] {
      var step, before := script[|script| - 1], script[..|script| - 1];
      match step
      case Insert(c) =>
        var b' := Run(before, a).value;
        ScriptBound(before, a, b');
        assert Init(b) == b';
      case Keep =>
        var b' := Run(before, Init(a)).value;
        ScriptBound(before, Init(a), b');
        assert Init(b) == b' && Last(b) == Last(a);
      case Swap(c) =>
        var b' := Run(before, Init(a)).value;
        ScriptBound(before, Init(a), b');
        assert Init(b) == b';
      case Delete =>
        ScriptBound(before, Init(a), b);
    }
  }

  /** Some script costs exactly the distance. */
  lemma {:induction false} BestScript(a: string, b: string) returns (script: seq<Step>)
    ensures Run(script, a) == Some(b) && Cost(script) == Distance(a, b)
    decreases |a| + |b|
  {
    if a == "" && b == "" {
      script := [];
    } else if a == "" || (b != "" && Distance(a, b) == Distance(a, Init(b)) + 1) {
      var before := BestScript(a, Init(b));
      script := before + [Insert(Last(b))];
      AddStep(before, Insert(Last(b)), a);
      assert Init(b) + [Last(b)] == b;
    } else if b == "" || Distance(a, b) == Distance(Init(a), b) + 1 {
      var before := BestScript(Init(a), b);
      script := before + [Delete];
      AddStep(before, Delete, a);
    } else {
      var step := if Last(a) == Last(b) then Keep else Swap(Last(b));
      var before := BestScript(Init(a), Init(b));
      script := before + [step];
      AddStep(before, step, a);
      assert Init(b) + [Last(b)] == b;
    }
  }

  lemma AddStep(before: seq<Step>, step: Step, a: string)
    ensures Cost(before + [step]) == Cost(before) + (if step.Keep? then 0 else 1)
    ensures step.Insert? ==> Run(before + [step], a) == Append(Run(before, a), [step.c])
    ensures !step.Insert? && a != "" ==>
      Run(before + [step], a) ==
      if step.Delete? then Run(before, Init(a))
      else Append(Run(before, Init(a)), [if step.Keep? then Last(a) else step.c])
  {
    assert (before + [step])[..|before|] == before;
  }

  // ----- A metric -----

  lemma {:induction false} Symmetric(a: string, b: string)
    ensures Distance(a, b) == Distance(b, a)
    decreases |a| + |b|
  {
    if a != "" && b != "" {
      Symmetric(Init(a), Init(b));
      Symmetric(a, Init(b));
      Symmetric(Init(a), b);
    }
  }

  lemma {:induction false} ZeroIsEqual(a: string, b: string)
    ensures Distance(a, b) == 0 <==> a == b
    decreases |a| + |b|
  {
    if a != "" && b != "" {
      ZeroIsEqual(Init(a), Init(b));
      assert a == Init(a) + [Last(a)] && b == Init(b) + [Last(b)];
    }
  }

  lemma {:induction false} LengthGap(a: string, b: string)
    ensures |b| <= |a| + Distance(a, b) && |a| <= |b| + Distance(a, b) && Distance(a, b) <= |a| + |b|
    decreases |a| + |b|
  {
    if a != "" && b != "" {
      LengthGap(Init(a), Init(b));
      LengthGap(a, Init(b));
      LengthGap(Init(a), b);
    }
  }

  /** The distance is at most what each last step gives, and is what one of them gives. */
  lemma LastStep(a: string, b: string)
    requires a != "" && b != ""
    ensures var d := Distance(a, b);
      && d <= Distance(Init(a), Init(b)) + Differ(Last(a), Last(b))
      && d <= Distance(a, Init(b)) + 1 && d <= Distance(Init(a), b) + 1
      && (|| d == Distance(Init(a), Init(b)) + Differ(Last(a), Last(b))
          || d == Distance(a, Init(b)) + 1 || d == Distance(Init(a), b) + 1)
  {
  }

  lemma {:induction false} Triangle(a: string, b: string, c: string)
    ensures Distance(a, c) <= Distance(a, b) + Distance(b, c)
    decreases |a| + |b| + |c|
  {
    if a == "" || b == "" || c == "" {
      LengthGap(a, b);
      LengthGap(b, c);
      LengthGap(a, c);
    } else {
      hide Distance;
      var a', b', c' := Init(a), Init(b), Init(c);
      LastStep(a, b);
      LastStep(b, c);
      LastStep(a, c);
      if Distance(b, c) == Distance(b, c') + 1 {
        Triangle(a, b, c');
      } else if Distance(a, b) == Distance(a', b) + 1 {
        Triangle(a', b, c);
      } else if Distance(a, b) == Distance(a, b') + 1 {
        Triangle(a, b', c);
        Triangle(a, b', c');
      } else {
        Triangle(a', b', c);
        Triangle(a', b', c');
      }
    }
  }

  // ----- The nearest known key -----

  /** A key may be this many edits away and still be a likely typo. */
  function Tolerance(name: string, known: string): nat {
    var longest := if |name| >= |known| then |name| else |known|;
    if longest / 3 >= 2 then longest / 3 else 2
  }

  /** The distance the suggestion is ranked by; `lower` is the lower-casing of the platform. */
  function Rank(name: string, known: string, lower: string -> string): nat {
    Distance(lower(name), lower(known))
  }

  predicate IsClose(name: string, known: string, lower: string -> string) {
    Rank(name, known, lower) <= Tolerance(name, known)
  }

  /** Keep the close keys, then take the first of the smallest rank. */
  function Nearest(name: string, known: seq<string>, lower: string -> string): Option<string> {
    if known == [] then None
    else
      var rest := Nearest(name, known[1..], lower);
      if !IsClose(name, known[0], lower) then rest
      else if rest.Some? && Rank(name, rest.value, lower) < Rank(name, known[0], lower) then rest
      else Some(known[0])
  }

  /** A likely typo: at most two edits away, or at most a third of the longer spelling. */
  predicate IsLikely(name: string, known: string, lower: string -> string) {
    var d := Distance(lower(name), lower(known));
    d <= 2 || 3 * d <= |name| || 3 * d <= |known|
  }

  lemma CloseIff(name: string, known: string, lower: string -> string)
    ensures IsClose(name, known, lower) <==> IsLikely(name, known, lower)
  {
  }

  /** `known[k]` is likely, nothing likely is closer, and nothing earlier is as close. */
  predicate IsFirstClosest(name: string, known: seq<string>, lower: string -> string, k: int) {
    && 0 <= k < |known| && IsLikely(name, known[k], lower)
    && (forall j :: 0 <= j < |known| && IsLikely(name, known[j], lower) ==>
          Rank(name, known[k], lower) <= Rank(name, known[j], lower))
    && (forall j :: 0 <= j < k && IsLikely(name, known[j], lower) ==>
          Rank(name, known[k], lower) < Rank(name, known[j], lower))
  }

  /** The suggestion is the first closest of the likely keys, and there is none only when no key is
      likely. */
  lemma {:induction false} NearestIsFirstClosest(name: string, known: seq<string>, lower: string -> string)
    returns (k: int)
    ensures Nearest(name, known, lower).None? <==> forall j :: 0 <= j < |known| ==> !IsLikely(name, known[j], lower)
    ensures Nearest(name, known, lower).Some? ==>
      IsFirstClosest(name, known, lower, k) && known[k] == Nearest(name, known, lower).value
    decreases |known|
  {
    hide IsClose, IsLikely, Rank;
    k := 0;
    if known != [] {
      CloseIff(name, known[0], lower);
      var rest := known[1..];
      var i := NearestIsFirstClosest(name, rest, lower);
      assert forall j :: 0 < j < |known| ==> known[j] == rest[j - 1];
      var best := Nearest(name, rest, lower);
      if best.Some? && !(IsClose(name, known[0], lower)
                         && Rank(name, known[0], lower) <= Rank(name, best.value, lower)) {
        k := i + 1;
      }
    }
  }
}
