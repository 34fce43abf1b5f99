/** The stable sort of the standard library, as a function of the comparison it is given. */
module Sorting {

  ghost predicate TotalPreorder<T(!new)>(leq: (T, T) -> bool) {
    && (forall a, b :: leq(a, b) || leq(b, a))
    && (forall a, b, c :: leq(a, b) && leq(b, c) ==> leq(a, c))
  }

  ghost predicate Sorted<T>(s: seq<T>, leq: (T, T) -> bool) {
    forall i, j :: 0 <= i < j < |s| ==> leq(s[i], s[j])
  }

  /** `x` put before the first element it may precede. */
  function Place<T>(x: T, s: seq<T>, leq: (T, T) -> bool): seq<T> {
    if s == [] || leq(x, s[0]) then [x] + s else [s[0]] + Place(x, s[1..], leq)
  }

  /** Elements that compare equal keep their order. */
  function Sort<T>(s: seq<T>, leq: (T, T) -> bool): seq<T> {
    if s == [] then [] else Place(s[0], Sort(s[1..], leq), leq)
  }

  lemma Uncons<T>(s: seq<T>)
    requires s != []
    ensures s == [s[0]] + s[1..] && multiset(s) == multiset{s[0]} + multiset(s[1..])
  {
    assert s == [s[0]] + s[1..];
  }

  lemma {:induction false} PlacePermutes<T>(x: T, s: seq<T>, leq: (T, T) -> bool)
    ensures multiset(Place(x, s, leq)) == multiset{x} + multiset(s) && |Place(x, s, leq)| == |s| + 1
  {
    if s != [] && !leq(x, s[0]) {
      PlacePermutes(x, s[1..], leq);
      Uncons(s);
    }
  }

  lemma {:induction false} SortPermutes<T>(s: seq<T>, leq: (T, T) -> bool)
    ensures multiset(Sort(s, leq)) == multiset(s) && |Sort(s, leq)| == |s|
  {
    if s != [] {
      SortPermutes(s[1..], leq);
      PlacePermutes(s[0], Sort(s[1..], leq), leq);
      Uncons(s);
    }
  }

  lemma {:induction false} PlaceSorts<T(!new)>(x: T, s: seq<T>, leq: (T, T) -> bool)
    requires TotalPreorder(leq) && Sorted(s, leq)
    ensures Sorted(Place(x, s, leq), leq)
  {
    if s != [] && !leq(x, s[0]) {
      PlaceSorts(x, s[1..], leq);
      PlacePermutes(x, s[1..], leq);
      SortedCons(s[0], x, s[1..], Place(x, s[1..], leq), leq);
    } else if s != [] {
      SortedFront(x, s, leq);
    }
  }

  lemma SortedFront<T(!new)>(x: T, s: seq<T>, leq: (T, T) -> bool)
    requires TotalPreorder(leq) && Sorted(s, leq) && s != [] && leq(x, s[0])
    ensures Sorted([x] + s, leq)
  {
    forall j | 0 <= j < |s| ensures leq(x, s[j]) {
      assert j > 0 ==> leq(s[0], s[j]);
    }
  }

  lemma SortedCons<T(!new)>(y: T, x: T, s: seq<T>, t: seq<T>, leq: (T, T) -> bool)
    requires Sorted(t, leq) && multiset(t) == multiset{x} + multiset(s)
    requires leq(y, x) && forall i :: 0 <= i < |s| ==> leq(y, s[i])
    ensures Sorted([y] + t, leq)
  {
    forall j | 0 <= j < |t| ensures leq(y, t[j]) {
      assert t[j] in multiset(t);
      if t[j] != x { assert t[j] in multiset(s); }
    }
  }

  lemma {:induction false} SortSorts<T(!new)>(s: seq<T>, leq: (T, T) -> bool)
    requires TotalPreorder(leq)
    ensures Sorted(Sort(s, leq), leq)
  {
    if s != [] {
      SortSorts(s[1..], leq);
      PlaceSorts(s[0], Sort(s[1..], leq), leq);
    }
  }

  /** No two elements of `s` compare equal both ways. */
  ghost predicate Strict<T>(s: seq<T>, leq: (T, T) -> bool) {
    forall i, j :: 0 <= i < j < |s| ==> !leq(s[j], s[i])
  }

  /** Sequences with the same elements, one sorted and one strictly sorted, are the same. */
  lemma {:induction false} StrictIsUnique<T(!new)>(a: seq<T>, b: seq<T>, leq: (T, T) -> bool)
    requires Sorted(a, leq) && Sorted(b, leq) && Strict(b, leq) && multiset(a) == multiset(b)
    ensures a == b
    decreases |a|
  {
    assert |a| == |multiset(a)| && |b| == |multiset(b)|;
    if a != [] {
      SameFirst(a, b, leq);
      Uncons(a);
      Uncons(b);
      assert multiset(a[1..]) == multiset(a) - multiset{a[0]};
      assert multiset(b[1..]) == multiset(b) - multiset{b[0]};
      StrictIsUnique(a[1..], b[1..], leq);
    }
  }

  lemma SameFirst<T(!new)>(a: seq<T>, b: seq<T>, leq: (T, T) -> bool)
    requires Sorted(a, leq) && Strict(b, leq) && multiset(a) == multiset(b) && a != [] && b != []
    ensures a[0] == b[0]
  {
    assert a[0] in multiset(b) && b[0] in multiset(a);
    var i :| 0 <= i < |b| && b[i] == a[0];
    var j :| 0 <= j < |a| && a[j] == b[0];
    assert i > 0 ==> !leq(a[0], b[0]);
    assert j > 0 ==> leq(a[0], b[0]);
  }

  // ----- Sorting related sequences -----

  ghost predicate Related<A, B>(s: seq<A>, t: seq<B>, rel: (A, B) -> bool) {
    |s| == |t| && forall i :: 0 <= i < |s| ==> rel(s[i], t[i])
  }

  /** Related elements compare alike. */
  ghost predicate Agree<A(!new), B(!new)>(leqA: (A, A) -> bool, leqB: (B, B) -> bool, rel: (A, B) -> bool) {
    forall a, a', b, b' :: rel(a, b) && rel(a', b') ==> leqA(a, a') == leqB(b, b')
  }

  lemma {:induction false} PlaceRelated<A(!new), B(!new)>(x: A, s: seq<A>, y: B, t: seq<B>, leqA: (A, A) -> bool, leqB: (B, B) -> bool,
                                              rel: (A, B) -> bool)
    requires Agree(leqA, leqB, rel) && rel(x, y) && Related(s, t, rel)
    ensures Related(Place(x, s, leqA), Place(y, t, leqB), rel)
    decreases |s|
  {
    if |s| > 0 {
      assert rel(s[0], t[0]);
      assert leqA(x, s[0]) == leqB(y, t[0]);
      hide Agree;
      if leqA(x, s[0]) {
        ConsRelated(x, s, y, t, rel);
      } else {
        TailRelated(s, t, rel);
        PlaceRelated(x, s[1..], y, t[1..], leqA, leqB, rel);
        ConsRelated(s[0], Place(x, s[1..], leqA), t[0], Place(y, t[1..], leqB), rel);
      }
    }
  }

  lemma TailRelated<A, B>(s: seq<A>, t: seq<B>, rel: (A, B) -> bool)
    requires Related(s, t, rel) && |s| > 0
    ensures |t| > 0 && Related(s[1..], t[1..], rel)
  {
  }

  lemma ConsRelated<A, B>(x: A, s: seq<A>, y: B, t: seq<B>, rel: (A, B) -> bool)
    requires rel(x, y) && Related(s, t, rel)
    ensures Related([x] + s, [y] + t, rel)
  {
  }

  /** A stable sort looks at nothing but the comparison, so sorting keeps related sequences related. */
  lemma {:induction false} SortRelated<A(!new), B(!new)>(s: seq<A>, t: seq<B>, leqA: (A, A) -> bool, leqB: (B, B) -> bool, rel: (A, B) -> bool)
    requires Agree(leqA, leqB, rel) && Related(s, t, rel)
    ensures Related(Sort(s, leqA), Sort(t, leqB), rel)
    decreases |s|
  {
    if |s| > 0 {
      SortRelated(s[1..], t[1..], leqA, leqB, rel);
      PlaceRelated(s[0], Sort(s[1..], leqA), t[0], Sort(t[1..], leqB), leqA, leqB, rel);
    }
  }

  // ----- What the front of a sorted sequence keeps -----

  /** The cut after the first `n` falls between elements that compare strictly. */
  ghost predicate CleanCut<T>(s: seq<T>, n: nat, leq: (T, T) -> bool) {
    n < |s| ==> forall i, j :: 0 <= i < n <= j < |s| ==> !leq(s[j], s[i])
  }

  lemma SubsetSameSize<T>(a: multiset<T>, b: multiset<T>)
    requires a <= b && |a| == |b|
    ensures a == b
  {
    assert b == a + (b - a);
  }

  lemma Extra<T>(a: multiset<T>, b: multiset<T>)
    requires |a| == |b| && a != b
    ensures exists x :: a[x] > b[x]
  {
    if forall x :: a[x] <= b[x] { SubsetSameSize(a, b); }
  }

  lemma FrontAndBack<T>(s: seq<T>, n: nat)
    requires n <= |s|
    ensures multiset(s) == multiset(s[..n]) + multiset(s[n..]) && |multiset(s[..n])| == n
  {
    assert s == s[..n] + s[n..];
  }

  lemma Counted<T>(s: seq<T>, n: nat, x: T)
    requires n <= |s|
    ensures multiset(s)[x] == multiset(s[..n])[x] + multiset(s[n..])[x]
  {
    FrontAndBack(s, n);
  }

  /** Sequences with the same elements, both sorted, one with a clean cut: the fronts have the same
      elements. */
  lemma SameFront<T(!new)>(a: seq<T>, b: seq<T>, n: nat, leq: (T, T) -> bool)
    requires Sorted(b, leq) && CleanCut(a, n, leq) && multiset(a) == multiset(b) && n <= |a| && n <= |b|
    ensures multiset(a[..n]) == multiset(b[..n])
  {
    var front, front' := multiset(a[..n]), multiset(b[..n]);
    FrontAndBack(a, n);
    FrontAndBack(b, n);
    if front != front' {
      Extra(front, front');
      Extra(front', front);
      var x :| front[x] > front'[x];
      var y :| front'[y] > front[y];
      InFront(a, n, x);
      InFront(b, n, y);
      Counted(a, n, x);
      Counted(b, n, x);
      Counted(a, n, y);
      Counted(b, n, y);
      InBack(a, n, y);
      InBack(b, n, x);
    }
  }

  lemma InFront<T>(s: seq<T>, n: nat, x: T)
    requires n <= |s| && multiset(s[..n])[x] > 0
    ensures exists i :: 0 <= i < n && s[i] == x
  {
    assert x in s[..n];
  }

  lemma InBack<T>(s: seq<T>, n: nat, x: T)
    requires n <= |s| && multiset(s[n..])[x] > 0
    ensures exists j :: n <= j < |s| && s[j] == x
  {
    assert x in s[n..];
    var j :| 0 <= j < |s[n..]| && s[n..][j] == x;
    assert s[n + j] == x;
  }

  /** The front of a sorted sequence comes before everything that is left out. */
  lemma FrontComesFirst<T(!new)>(s: seq<T>, n: nat, leq: (T, T) -> bool)
    requires TotalPreorder(leq) && n <= |s|
    ensures |Sort(s, leq)| == |s|
    ensures var front := Sort(s, leq)[..n];
      && |front| == n && multiset(front) <= multiset(s)
      && forall p, q :: p in multiset(front) && q in multiset(s) && q !in multiset(front) ==> leq(p, q)
  {
    SortPermutes(s, leq);
    SortSorts(s, leq);
    var t := Sort(s, leq);
    hide TotalPreorder;
    FrontAndBack(t, n);
    forall p, q | p in multiset(t[..n]) && q in multiset(s) && q !in multiset(t[..n]) ensures leq(p, q) {
      InFront(t, n, p);
      Counted(t, n, q);
      InBack(t, n, q);
      var i :| 0 <= i < n && t[i] == p;
      var j :| n <= j < |t| && t[j] == q;
      assert i < j;
    }
  }

  // ----- Sequences without two of a kind -----

  ghost predicate Apart<T>(s: seq<T>, same: (T, T) -> bool) {
    forall i, j :: 0 <= i < j < |s| ==> !same(s[i], s[j])
  }

  lemma TwiceIn<T>(b: seq<T>, i: nat, j: nat)
    requires i < j < |b| && b[i] == b[j]
    ensures multiset(b)[b[i]] >= 2
  {
    assert b == b[..j] + [b[j]] + b[j + 1..];
    assert b[..j][i] == b[i] && b[i] in multiset(b[..j]);
  }

  lemma OnceIn<T(!new)>(a: seq<T>, x: nat, same: (T, T) -> bool)
    requires x < |a| && Apart(a, same) && forall y :: same(y, y)
    ensures multiset(a)[a[x]] == 1
  {
    assert a == a[..x] + [a[x]] + a[x + 1..];
    assert a[x] !in a[..x] && a[x] !in a[x + 1..];
  }

  /** No arrangement of them, or of a part of them, has two of a kind either. */
  lemma PartStaysApart<T(!new)>(a: seq<T>, b: seq<T>, same: (T, T) -> bool)
    requires multiset(b) <= multiset(a) && Apart(a, same)
    requires (forall y :: same(y, y)) && forall y, z :: same(y, z) ==> same(z, y)
    ensures Apart(b, same)
  {
    forall i, j | 0 <= i < j < |b| ensures !same(b[i], b[j]) {
      if same(b[i], b[j]) {
        assert multiset(b)[b[i]] > 0 && multiset(b)[b[j]] > 0;
        assert b[i] in multiset(a) && b[j] in multiset(a);
        var x :| 0 <= x < |a| && a[x] == b[i];
        var y :| 0 <= y < |a| && a[y] == b[j];
        assert x == y;
        TwiceIn(b, i, j);
        OnceIn(a, x, same);
      }
    }
  }
}
