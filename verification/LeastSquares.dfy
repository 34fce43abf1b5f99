/** Fitting quota weights (`scripts/fit-quota-weights.py`, `solve_normal_equations`): normal equations
    solved by Gauss-Jordan elimination with partial pivoting, in exact real arithmetic. */
module LeastSquares {
  import opened Options

  type Vector = seq<real>
  type Matrix = seq<seq<real>>

  /** Multiplication by name, so that a proof can treat products as atoms. */
  function Times(a: real, b: real): real { a * b }

  // ----- Sums -----

  function DotTo(u: Vector, v: Vector, k: nat): real
    requires k <= |u| && k <= |v|
  {
    if k == 0 then 0.0 else DotTo(u, v, k - 1) + Times(u[k - 1], v[k - 1])
  }

  function Dot(u: Vector, v: Vector): real
    requires |u| == |v|
  {
    DotTo(u, v, |u|)
  }

  /** The product is linear in its second vector. */
  lemma {:induction false} DotLinear(d: Vector, u: Vector, f: real, x: Vector, r: Vector, k: nat)
    requires |d| == |u| == |x| == |r| && k <= |d|
    requires forall a :: 0 <= a < |d| ==> r[a] == u[a] + Times(f, x[a])
    ensures DotTo(d, r, k) == DotTo(d, u, k) + Times(f, DotTo(d, x, k))
  {
    if k == 0 {
      assert Times(f, 0.0) == 0.0;
    } else {
      hide Times;
      DotLinear(d, u, f, x, r, k - 1);
      Distribute(d[k - 1], u[k - 1], f, x[k - 1], DotTo(d, x, k - 1));
    }
  }

  lemma Distribute(d: real, u: real, f: real, x: real, s: real)
    ensures Times(d, u + Times(f, x)) + Times(f, s) == Times(d, u) + Times(f, s + Times(d, x))
  {
  }

  lemma {:induction false} DotSwap(u: Vector, v: Vector, k: nat)
    requires k <= |u| && k <= |v|
    ensures DotTo(u, v, k) == DotTo(v, u, k)
  {
    if k > 0 { DotSwap(u, v, k - 1); }
  }

  /** A vector that is zero but for a one. */
  lemma {:induction false} DotUnit(u: Vector, row: Vector, r: nat, k: nat)
    requires k <= |u| && k <= |row|
    requires forall c :: 0 <= c < k ==> row[c] == if c == r then 1.0 else 0.0
    ensures DotTo(u, row, k) == if r < k then u[r] else 0.0
  {
    if k > 0 { DotUnit(u, row, r, k - 1); }
  }

  lemma {:induction false} DotZero(u: Vector, zero: Vector, k: nat)
    requires k <= |u| && k <= |zero| && forall c :: 0 <= c < k ==> zero[c] == 0.0
    ensures DotTo(u, zero, k) == 0.0
  {
    if k > 0 { DotZero(u, zero, k - 1); }
  }

  lemma {:induction false} DotPrefix(u: Vector, v: Vector, u': Vector, v': Vector, k: nat)
    requires k <= |u| && k <= |v| && k <= |u'| && k <= |v'|
    requires forall a :: 0 <= a < k ==> u[a] == u'[a] && v[a] == v'[a]
    ensures DotTo(u, v, k) == DotTo(u', v', k)
  {
    if k > 0 { DotPrefix(u, v, u', v', k - 1); }
  }

  // ----- The normal equations -----

  predicate Rows(xs: Matrix, n: nat) { forall i :: 0 <= i < |xs| ==> |xs[i]| == n }

  /** Entry (a, b) of the Gram matrix over the first k rows. */
  function Gram(xs: Matrix, n: nat, a: nat, b: nat, k: nat): real
    requires Rows(xs, n) && a < n && b < n && k <= |xs|
  {
    if k == 0 then 0.0 else Gram(xs, n, a, b, k - 1) + Times(xs[k - 1][a], xs[k - 1][b])
  }

  function Moment(xs: Matrix, ys: Vector, n: nat, a: nat, k: nat): real
    requires Rows(xs, n) && a < n && k <= |xs| && k <= |ys|
  {
    if k == 0 then 0.0 else Moment(xs, ys, n, a, k - 1) + Times(xs[k - 1][a], ys[k - 1])
  }

  /** How many rows `zip` pairs up. */
  function Pairs(xs: Matrix, ys: Vector): nat { if |xs| < |ys| then |xs| else |ys| }

  function GramRow(xs: Matrix, n: nat, a: nat, k: nat): Vector
    requires Rows(xs, n) && a < n && k <= |xs|
  {
    seq(n, b requires 0 <= b < n => Gram(xs, n, a, b, k))
  }

  /** The augmented system over the first k rows. */
  function Normal(xs: Matrix, ys: Vector, n: nat, k: nat): Matrix
    requires Rows(xs, n) && k <= |xs| && k <= |ys|
  {
    seq(n, a requires 0 <= a < n => GramRow(xs, n, a, k) + [Moment(xs, ys, n, a, k)])
  }

  /** The vector solves every normal equation. */
  predicate SolvesNormal(xs: Matrix, ys: Vector, n: nat, w: Vector)
    requires Rows(xs, n) && |w| == n
  {
    var k := Pairs(xs, ys);
    forall a :: 0 <= a < n ==> Dot(w, GramRow(xs, n, a, k)) == Moment(xs, ys, n, a, k)
  }

  // ----- Least squares -----

  lemma TimesPositive(a: real, b: real)
    requires a > 0.0 && b > 0.0
    ensures Times(a, b) > 0.0
  {
  }

  lemma TimesFlipped(a: real)
    ensures Times(-a, -a) == Times(a, a)
  {
  }

  lemma SquareSign(x: real)
    ensures x != 0.0 ==> Times(x, x) > 0.0
    ensures x == 0.0 ==> Times(x, x) == 0.0
  {
    hide Times;
    if x > 0.0 {
      TimesPositive(x, x);
    } else if x < 0.0 {
      TimesPositive(-x, -x);
      TimesFlipped(x);
    } else {
      TimesNothing(x);
    }
  }

  lemma TimesNothing(x: real)
    requires x == 0.0
    ensures Times(x, x) == 0.0
  {
  }

  function Square(x: real): (r: real)
    ensures r >= 0.0 && (r == 0.0 <==> x == 0.0)
  {
    SquareSign(x);
    Times(x, x)
  }

  function Residual(xs: Matrix, ys: Vector, n: nat, w: Vector, i: nat): real
    requires Rows(xs, n) && |w| == n && i < |xs| && i < |ys|
  {
    ys[i] - Dot(w, xs[i])
  }

  /** The sum of squared residuals over the first k rows. */
  function SquaresTo(xs: Matrix, ys: Vector, n: nat, w: Vector, k: nat): real
    requires Rows(xs, n) && |w| == n && k <= |xs| && k <= |ys|
  {
    if k == 0 then 0.0
    else SquaresTo(xs, ys, n, w, k - 1) + Square(Residual(xs, ys, n, w, k - 1))
  }

  function Squares(xs: Matrix, ys: Vector, n: nat, w: Vector): real
    requires Rows(xs, n) && |w| == n
  {
    SquaresTo(xs, ys, n, w, Pairs(xs, ys))
  }

  /** What the fitted values change by when the weights change by d, squared and summed. */
  function ChangeTo(xs: Matrix, n: nat, d: Vector, k: nat): (r: real)
    requires Rows(xs, n) && |d| == n && k <= |xs|
    ensures r >= 0.0
  {
    if k == 0 then 0.0 else ChangeTo(xs, n, d, k - 1) + Square(Dot(d, xs[k - 1]))
  }

  /** Component a of the sum of residuals times rows. */
  function Slope(xs: Matrix, ys: Vector, n: nat, w: Vector, a: nat, k: nat): real
    requires Rows(xs, n) && |w| == n && a < n && k <= |xs| && k <= |ys|
  {
    if k == 0 then 0.0 else Slope(xs, ys, n, w, a, k - 1) + Times(Residual(xs, ys, n, w, k - 1), xs[k - 1][a])
  }

  function Slopes(xs: Matrix, ys: Vector, n: nat, w: Vector, k: nat): Vector
    requires Rows(xs, n) && |w| == n && k <= |xs| && k <= |ys|
  {
    seq(n, a requires 0 <= a < n => Slope(xs, ys, n, w, a, k))
  }

  /** The slopes are what the normal equations leave over. */
  lemma {:induction false} SlopeIsLeftOver(xs: Matrix, ys: Vector, n: nat, w: Vector, a: nat, k: nat)
    requires Rows(xs, n) && |w| == n && a < n && k <= |xs| && k <= |ys|
    ensures Slope(xs, ys, n, w, a, k) == Moment(xs, ys, n, a, k) - Dot(w, GramRow(xs, n, a, k))
  {
    hide Times;
    if k == 0 {
      DotZero(w, GramRow(xs, n, a, 0), n);
    } else {
      SlopeIsLeftOver(xs, ys, n, w, a, k - 1);
      var x := xs[k - 1];
      DotLinear(w, GramRow(xs, n, a, k - 1), x[a], x, GramRow(xs, n, a, k), n);
      LeftOverStep(ys[k - 1], Dot(w, x), x[a]);
    }
  }

  lemma LeftOverStep(y: real, h: real, x: real)
    ensures Times(y - h, x) == Times(x, y) - Times(x, h)
  {
  }

  /** Summing squares of shifted residuals: the cross terms are the slopes. */
  lemma {:induction false} SquaresShift(xs: Matrix, ys: Vector, n: nat, w: Vector, d: Vector, v: Vector, k: nat)
    requires Rows(xs, n) && |w| == |d| == |v| == n && k <= |xs| && k <= |ys|
    requires forall a :: 0 <= a < n ==> v[a] == w[a] + d[a]
    ensures SquaresTo(xs, ys, n, v, k) ==
            SquaresTo(xs, ys, n, w, k) + ChangeTo(xs, n, d, k) - 2.0 * Dot(d, Slopes(xs, ys, n, w, k))
  {
    hide Times, Square;
    if k == 0 {
      DotZero(d, Slopes(xs, ys, n, w, 0), n);
    } else {
      SquaresShift(xs, ys, n, w, d, v, k - 1);
      var x, e := xs[k - 1], Residual(xs, ys, n, w, k - 1);
      DotLinear(d, Slopes(xs, ys, n, w, k - 1), e, x, Slopes(xs, ys, n, w, k), n);
      SumDot(w, d, v, x);
      SquareShift(e, Dot(d, x));
    }
  }

  lemma SumDot(w: Vector, d: Vector, v: Vector, x: Vector)
    requires |w| == |d| == |v| == |x| && forall a :: 0 <= a < |x| ==> v[a] == w[a] + d[a]
    ensures Dot(v, x) == Dot(w, x) + Dot(d, x)
  {
    DotSwap(v, x, |x|);
    DotSwap(w, x, |x|);
    DotSwap(d, x, |x|);
    DotLinear(x, w, 1.0, d, v, |x|);
  }

  lemma SquareShift(e: real, h: real)
    ensures Square(e - h) == Square(e) + Square(h) - 2.0 * Times(e, h)
  {
  }

  function Minus(v: Vector, w: Vector): (d: Vector)
    requires |v| == |w|
    ensures |d| == |v| && forall a :: 0 <= a < |v| ==> v[a] == w[a] + d[a]
  {
    seq(|v|, a requires 0 <= a < |v| => v[a] - w[a])
  }

  lemma NoSlope(xs: Matrix, ys: Vector, n: nat, w: Vector, d: Vector)
    requires Rows(xs, n) && |w| == |d| == n && SolvesNormal(xs, ys, n, w)
    ensures Dot(d, Slopes(xs, ys, n, w, Pairs(xs, ys))) == 0.0
  {
    var k := Pairs(xs, ys);
    forall a | 0 <= a < n ensures Slope(xs, ys, n, w, a, k) == 0.0 { SlopeIsLeftOver(xs, ys, n, w, a, k); }
    DotZero(d, Slopes(xs, ys, n, w, k), n);
  }

  /** Any other weights are worse by the squared change of the fitted values. */
  lemma SquaresFromBest(xs: Matrix, ys: Vector, n: nat, w: Vector, v: Vector)
    requires Rows(xs, n) && |w| == |v| == n && SolvesNormal(xs, ys, n, w)
    ensures Squares(xs, ys, n, v) == Squares(xs, ys, n, w) + ChangeTo(xs, n, Minus(v, w), Pairs(xs, ys))
  {
    NoSlope(xs, ys, n, w, Minus(v, w));
    SquaresShift(xs, ys, n, w, Minus(v, w), v, Pairs(xs, ys));
  }

  /** A solution of the normal equations is a least-squares fit. */
  lemma NormalIsLeast(xs: Matrix, ys: Vector, n: nat, w: Vector, v: Vector)
    requires Rows(xs, n) && |w| == |v| == n && SolvesNormal(xs, ys, n, w)
    ensures Squares(xs, ys, n, w) <= Squares(xs, ys, n, v)
  {
    SquaresFromBest(xs, ys, n, w, v);
  }

  lemma {:induction false} NoChange(xs: Matrix, ys: Vector, n: nat, w: Vector, v: Vector, a: nat, k: nat)
    requires Rows(xs, n) && |w| == |v| == n && a < n && k <= |xs| && k <= |ys|
    requires ChangeTo(xs, n, Minus(v, w), k) == 0.0
    ensures Slope(xs, ys, n, v, a, k) == Slope(xs, ys, n, w, a, k)
  {
    if k > 0 {
      var d, x := Minus(v, w), xs[k - 1];
      assert Square(Dot(d, x)) == 0.0;
      SumDot(w, d, v, x);
      NoChange(xs, ys, n, w, v, a, k - 1);
    }
  }

  /** Any fit as good solves the normal equations too. */
  lemma EquallyGoodSolves(xs: Matrix, ys: Vector, n: nat, w: Vector, v: Vector)
    requires Rows(xs, n) && |w| == |v| == n && SolvesNormal(xs, ys, n, w)
    requires Squares(xs, ys, n, v) <= Squares(xs, ys, n, w)
    ensures SolvesNormal(xs, ys, n, v)
  {
    var k := Pairs(xs, ys);
    SquaresFromBest(xs, ys, n, w, v);
    forall a | 0 <= a < n ensures Dot(v, GramRow(xs, n, a, k)) == Moment(xs, ys, n, a, k) {
      NoChange(xs, ys, n, w, v, a, k);
      SlopeIsLeftOver(xs, ys, n, w, a, k);
      SlopeIsLeftOver(xs, ys, n, v, a, k);
    }
  }

  // ----- Row operations keep the solutions -----

  predicate Shape(m: Matrix, n: nat) { |m| == n && Rows(m, n + 1) }

  /** Every row is orthogonal to u. */
  predicate Null(m: Matrix, n: nat, u: Vector)
    requires Shape(m, n) && |u| == n + 1
  {
    forall r :: 0 <= r < n ==> Dot(u, m[r]) == 0.0
  }

  ghost predicate Equivalent(m: Matrix, m': Matrix, n: nat)
    requires Shape(m, n) && Shape(m', n)
  {
    forall u: Vector :: |u| == n + 1 ==> (Null(m, n, u) <==> Null(m', n, u))
  }

  function Swapped(m: Matrix, i: nat, j: nat): Matrix
    requires i < |m| && j < |m|
  {
    m[i := m[j]][j := m[i]]
  }

  function Divided(row: Vector, p: real): Vector
    requires p != 0.0
  {
    seq(|row|, c requires 0 <= c < |row| => row[c] / p)
  }

  function Reduced(row: Vector, f: real, lead: Vector): Vector
    requires |row| == |lead|
  {
    seq(|row|, c requires 0 <= c < |row| => row[c] - f * lead[c])
  }

  lemma SwapKeeps(m: Matrix, n: nat, i: nat, j: nat)
    requires Shape(m, n) && i < n && j < n
    ensures Shape(Swapped(m, i, j), n) && Equivalent(m, Swapped(m, i, j), n)
  {
    hide Dot;
    var m' := Swapped(m, i, j);
    forall u: Vector | |u| == n + 1 ensures Null(m, n, u) <==> Null(m', n, u) {
      if Null(m', n, u) {
        forall r | 0 <= r < n ensures Dot(u, m[r]) == 0.0 {
          assert m[r] == m'[if r == i then j else if r == j then i else r];
        }
      }
    }
  }

  lemma DividedDot(u: Vector, row: Vector, p: real)
    requires |u| == |row| && p != 0.0
    ensures Dot(u, Divided(row, p)) == 0.0 <==> Dot(u, row) == 0.0
  {
    var zero := seq(|row|, _ => 0.0);
    var d := Divided(row, p);
    forall c | 0 <= c < |row| ensures row[c] == zero[c] + Times(p, d[c]) { TimesQuotient(p, row[c]); }
    hide Times;
    DotLinear(u, zero, p, d, row, |row|);
    DotZero(u, zero, |row|);
    TimesZero(p, Dot(u, d));
  }

  lemma TimesQuotient(p: real, x: real)
    requires p != 0.0
    ensures Times(p, x / p) == x
  {
  }

  lemma TimesZero(p: real, x: real)
    requires p != 0.0
    ensures Times(p, x) == 0.0 <==> x == 0.0
  {
    assert x == Times(p, x) / p;
  }

  lemma DivideKeeps(m: Matrix, n: nat, col: nat, p: real)
    requires Shape(m, n) && col < n && p != 0.0
    ensures var m' := m[col := Divided(m[col], p)]; Shape(m', n) && Equivalent(m, m', n)
  {
    hide Dot;
    var m' := m[col := Divided(m[col], p)];
    forall u: Vector | |u| == n + 1 ensures Null(m, n, u) <==> Null(m', n, u) {
      DividedDot(u, m[col], p);
      OneRowDiffers(m, m', n, col, u);
    }
  }

  lemma OneRowDiffers(m: Matrix, m': Matrix, n: nat, r: nat, u: Vector)
    requires Shape(m, n) && Shape(m', n) && r < n && m' == m[r := m'[r]] && |u| == n + 1
    requires (forall i :: 0 <= i < n && i != r ==> Dot(u, m[i]) == 0.0) ==> (Dot(u, m[r]) == 0.0 <==> Dot(u, m'[r]) == 0.0)
    ensures Null(m, n, u) <==> Null(m', n, u)
  {
    hide Dot;
    assert forall i :: 0 <= i < n && i != r ==> m'[i] == m[i];
  }

  lemma ReducedDot(u: Vector, row: Vector, f: real, lead: Vector)
    requires |u| == |row| == |lead| && Dot(u, lead) == 0.0
    ensures Dot(u, Reduced(row, f, lead)) == Dot(u, row)
  {
    var r := Reduced(row, f, lead);
    forall c | 0 <= c < |row| ensures r[c] == row[c] + Times(-f, lead[c]) { Negated(f, lead[c]); }
    DotLinear(u, row, -f, lead, r, |row|);
  }

  lemma Negated(f: real, x: real)
    ensures Times(-f, x) == -(f * x)
  {
  }

  lemma ReduceKeeps(m: Matrix, n: nat, r: nat, f: real, col: nat)
    requires Shape(m, n) && r < n && col < n && r != col
    ensures var m' := m[r := Reduced(m[r], f, m[col])]; Shape(m', n) && Equivalent(m, m', n)
  {
    hide Dot;
    var m' := m[r := Reduced(m[r], f, m[col])];
    forall u: Vector | |u| == n + 1 ensures Null(m, n, u) <==> Null(m', n, u) {
      if Dot(u, m[col]) == 0.0 {
        ReducedDot(u, m[r], f, m[col]);
        OneRowDiffers(m, m', n, r, u);
      } else {
        assert m'[col] == m[col];
      }
    }
  }

  lemma EquivalentItself(m: Matrix, n: nat)
    requires Shape(m, n)
    ensures Equivalent(m, m, n)
  {
  }

  lemma EquivalentTransitive(a: Matrix, b: Matrix, c: Matrix, n: nat)
    requires Shape(a, n) && Shape(b, n) && Shape(c, n) && Equivalent(a, b, n) && Equivalent(b, c, n)
    ensures Equivalent(a, c, n)
  {
    hide Null;
  }

  // ----- The method -----

  function Abs(x: real): real { if x < 0.0 then -x else x }

  /** The distance from zero: at most `y` exactly between `-y` and `y`. */
  lemma AbsMeans(x: real, y: real)
    ensures Abs(x) <= y <==> -y <= x <= y
  {
  }

  const TINY := 0.000000000000000001

  /** The first `col` columns are unit vectors. */
  predicate Units(m: Matrix, n: nat, col: nat)
    requires Shape(m, n)
  {
    forall r, c :: 0 <= r < n && 0 <= c < col && c < n ==> m[r][c] == if r == c then 1.0 else 0.0
  }

  /** A reduced form of the system in which the next column has no usable pivot. */
  ghost predicate Stuck(m0: Matrix, m: Matrix, n: nat, col: nat)
    requires Shape(m0, n)
  {
    && Shape(m, n) && col < n && Equivalent(m0, m, n) && Units(m, n, col)
    && forall r :: col <= r < n ==> -0.000000000000000001 < m[r][col] < 0.000000000000000001
  }

  /** Add one row of samples to the sums. */
  method AddRow(ata: Matrix, aty: Vector, n: nat, x: Vector, y: real) returns (ata': Matrix, aty': Vector)
    requires |ata| == n && Rows(ata, n) && |aty| == n && |x| == n
    ensures |ata'| == n && Rows(ata', n) && |aty'| == n
    ensures forall a :: 0 <= a < n ==> aty'[a] == aty[a] + Times(x[a], y)
    ensures forall a, b :: 0 <= a < n && 0 <= b < n ==> ata'[a][b] == ata[a][b] + Times(x[a], x[b])
  {
    hide Times;
    ata', aty' := ata, aty;
    for a := 0 to n
      invariant |ata'| == n && Rows(ata', n) && |aty'| == n
      invariant forall i :: 0 <= i < a ==> aty'[i] == aty[i] + Times(x[i], y)
      invariant forall i :: a <= i < n ==> aty'[i] == aty[i] && ata'[i] == ata[i]
      invariant forall i, j :: 0 <= i < a && 0 <= j < n ==> ata'[i][j] == ata[i][j] + Times(x[i], x[j])
    {
      aty' := aty'[a := aty'[a] + Times(x[a], y)];
      var row := ata'[a];
      for b := 0 to n
        invariant |row| == n
        invariant forall j :: 0 <= j < b ==> row[j] == ata[a][j] + Times(x[a], x[j])
        invariant forall j :: b <= j < n ==> row[j] == ata[a][j]
      {
        row := row[b := row[b] + Times(x[a], x[b])];
      }
      ata' := ata'[a := row];
    }
  }

  /** The augmented normal equations. */
  method BuildNormal(xs: Matrix, ys: Vector, n: nat) returns (m: Matrix)
    requires Rows(xs, n)
    ensures m == Normal(xs, ys, n, Pairs(xs, ys))
  {
    var ata, aty := seq(n, _ => seq(n, _ => 0.0)), seq(n, _ => 0.0);
    var k := Pairs(xs, ys);
    for i := 0 to k
      invariant |ata| == n && Rows(ata, n) && |aty| == n
      invariant forall a :: 0 <= a < n ==> aty[a] == Moment(xs, ys, n, a, i)
      invariant forall a, b :: 0 <= a < n && 0 <= b < n ==> ata[a][b] == Gram(xs, n, a, b, i)
    {
      hide Times;
      ata, aty := AddRow(ata, aty, n, xs[i], ys[i]);
    }
    m := seq(n, i requires 0 <= i < n => ata[i] + [aty[i]]);
    forall a | 0 <= a < n ensures m[a] == Normal(xs, ys, n, k)[a] {
      assert ata[a] == GramRow(xs, n, a, k);
    }
  }

  /** The first row of largest absolute value in the column. */
  method FindPivot(m: Matrix, n: nat, col: nat) returns (pivot: nat)
    requires Shape(m, n) && col < n
    ensures col <= pivot < n
    ensures forall r :: col <= r < n ==> Abs(m[r][col]) <= Abs(m[pivot][col])
    ensures forall r :: col <= r < pivot ==> Abs(m[r][col]) < Abs(m[pivot][col])
  {
    pivot := col;
    for r := col + 1 to n
      invariant col <= pivot < r
      invariant forall i :: col <= i < r ==> Abs(m[i][col]) <= Abs(m[pivot][col])
      invariant forall i :: col <= i < pivot ==> Abs(m[i][col]) < Abs(m[pivot][col])
    {
      if Abs(m[r][col]) > Abs(m[pivot][col]) { pivot := r; }
    }
  }

  /** Clear the column in every row but the pivot's own. */
  method Eliminate(m0: Matrix, n: nat, col: nat) returns (m: Matrix)
    requires Shape(m0, n) && col < n && Units(m0, n, col) && m0[col][col] == 1.0
    ensures Shape(m, n) && Equivalent(m0, m, n) && Units(m, n, col + 1)
  {
    hide Equivalent, Reduced;
    m := m0;
    EquivalentItself(m0, n);
    for r := 0 to n
      invariant Shape(m, n) && Equivalent(m0, m, n) && Units(m, n, col) && m[col] == m0[col]
      invariant forall i :: 0 <= i < r && i != col ==> m[i][col] == 0.0
    {
      if r != col && m[r][col] != 0.0 {
        var f := m[r][col];
        var next := m[r := Reduced(m[r], f, m[col])];
        ReduceKeeps(m, n, r, f, col);
        EquivalentTransitive(m0, m, next, n);
        ReduceUnits(m, n, r, col);
        m := next;
      }
    }
  }

  lemma ReduceUnits(m: Matrix, n: nat, r: nat, col: nat)
    requires Shape(m, n) && r < n && col < n && r != col && Units(m, n, col) && m[col][col] == 1.0
    ensures var m' := m[r := Reduced(m[r], m[r][col], m[col])];
      Shape(m', n) && Units(m', n, col) && m'[r][col] == 0.0 && forall i :: 0 <= i < n && i != r ==> m'[i] == m[i]
  {
  }

  lemma SwapUnits(m: Matrix, n: nat, col: nat, pivot: nat)
    requires Shape(m, n) && col <= pivot < n && Units(m, n, col)
    ensures Shape(Swapped(m, col, pivot), n) && Units(Swapped(m, col, pivot), n, col)
    ensures Swapped(m, col, pivot)[col] == m[pivot]
  {
  }

  lemma DivideUnits(m: Matrix, n: nat, col: nat)
    requires Shape(m, n) && col < n && Units(m, n, col) && m[col][col] != 0.0
    ensures var m' := m[col := Divided(m[col], m[col][col])]; Shape(m', n) && Units(m', n, col) && m'[col][col] == 1.0
  {
  }

  /** Bring the pivot up, make it one and clear its column. */
  method PivotStep(m0: Matrix, n: nat, col: nat, pivot: nat) returns (m: Matrix)
    requires Shape(m0, n) && col <= pivot < n && Units(m0, n, col) && m0[pivot][col] != 0.0
    ensures Shape(m, n) && Equivalent(m0, m, n) && Units(m, n, col + 1)
  {
    hide Equivalent, Units, Divided;
    var m1 := Swapped(m0, col, pivot);
    SwapKeeps(m0, n, col, pivot);
    SwapUnits(m0, n, col, pivot);
    var p := m1[col][col];
    var m2 := m1[col := Divided(m1[col], p)];
    DivideKeeps(m1, n, col, p);
    DivideUnits(m1, n, col);
    m := Eliminate(m2, n, col);
    EquivalentTransitive(m0, m1, m2, n);
    EquivalentTransitive(m0, m2, m, n);
  }

  /** The last entry stands for the right-hand side. */
  function Augmented(w: Vector): Vector { w + [-1.0] }

  /** The augmented form of the normal equations. */
  lemma NullIsNormal(xs: Matrix, ys: Vector, n: nat, w: Vector)
    requires Rows(xs, n) && |w| == n
    ensures var m := Normal(xs, ys, n, Pairs(xs, ys));
      Shape(m, n) && (Null(m, n, Augmented(w)) <==> SolvesNormal(xs, ys, n, w))
  {
    var k := Pairs(xs, ys);
    var m, u := Normal(xs, ys, n, k), Augmented(w);
    forall a | 0 <= a < n
      ensures Dot(u, m[a]) == Dot(w, GramRow(xs, n, a, k)) - Moment(xs, ys, n, a, k)
    {
      DotPrefix(u, m[a], w, GramRow(xs, n, a, k), n);
      Negate(Moment(xs, ys, n, a, k));
    }
  }

  lemma Negate(x: real)
    ensures Times(-1.0, x) == -x
  {
  }

  /** A fully reduced system is solved by its last column, and by nothing else. */
  lemma ReducedSolution(m: Matrix, n: nat, w: Vector)
    requires Shape(m, n) && Units(m, n, n) && |w| == n
    ensures Null(m, n, Augmented(w)) <==> forall r :: 0 <= r < n ==> w[r] == m[r][n]
  {
    var u := Augmented(w);
    forall r | 0 <= r < n ensures Dot(u, m[r]) == w[r] - m[r][n] {
      DotUnit(u, m[r], r, n);
      Negate(m[r][n]);
    }
  }

  /** Weights that solve the normal equations, the only ones, and strictly better than any other
      weights; or nothing, and then some reduced
      form of the system has a column whose pivots are all too small. */
  method SolveNormalEquations(xs: Matrix, ys: Vector, n: nat) returns (w: Option<Vector>)
    requires Rows(xs, n)
    ensures w.Some? ==> |w.value| == n && SolvesNormal(xs, ys, n, w.value)
    ensures w.Some? ==> forall v: Vector :: |v| == n && SolvesNormal(xs, ys, n, v) ==> v == w.value
    ensures w.Some? ==> forall v: Vector :: |v| == n && v != w.value ==> Squares(xs, ys, n, w.value) < Squares(xs, ys, n, v)
    ensures Shape(Normal(xs, ys, n, Pairs(xs, ys)), n)
    ensures w.None? ==> exists m, col :: Stuck(Normal(xs, ys, n, Pairs(xs, ys)), m, n, col)
  {
    hide Equivalent, Units, Normal, SolvesNormal, Null, Squares;
    var m0 := BuildNormal(xs, ys, n);
    NullIsNormal(xs, ys, n, seq(n, _ => 0.0));
    var m := m0;
    EquivalentItself(m, n);
    NoUnits(m, n);
    for col := 0 to n
      invariant Shape(m0, n) && Shape(m, n) && Equivalent(m0, m, n) && Units(m, n, col)
    {
      var pivot := FindPivot(m, n, col);
      if Abs(m[pivot][col]) < TINY {
        assert Stuck(m0, m, n, col);
        return None;
      }
      var next := PivotStep(m, n, col, pivot);
      EquivalentTransitive(m0, m, next, n);
      m := next;
    }
    var last := seq(n, i requires 0 <= i < n => m[i][n]);
    SolutionsCarry(xs, ys, n, m, last);
    UniqueIsLeast(xs, ys, n, last);
    w := Some(last);
  }

  lemma NoUnits(m: Matrix, n: nat)
    requires Shape(m, n)
    ensures Units(m, n, 0)
  {
  }

  lemma SolutionsCarry(xs: Matrix, ys: Vector, n: nat, m: Matrix, last: Vector)
    requires Rows(xs, n) && Shape(Normal(xs, ys, n, Pairs(xs, ys)), n) && Shape(m, n) && Units(m, n, n)
    requires Equivalent(Normal(xs, ys, n, Pairs(xs, ys)), m, n)
    requires |last| == n && forall r :: 0 <= r < n ==> last[r] == m[r][n]
    ensures SolvesNormal(xs, ys, n, last)
    ensures forall v: Vector :: |v| == n && SolvesNormal(xs, ys, n, v) ==> v == last
  {
    hide Null, SolvesNormal, Normal;
    NullIsNormal(xs, ys, n, last);
    ReducedSolution(m, n, last);
    assert |Augmented(last)| == n + 1;
    forall v: Vector | |v| == n && SolvesNormal(xs, ys, n, v) ensures v == last {
      NullIsNormal(xs, ys, n, v);
      ReducedSolution(m, n, v);
      assert |Augmented(v)| == n + 1;
    }
  }

  /** The only solution of the normal equations is the only least-squares fit. */
  lemma UniqueIsLeast(xs: Matrix, ys: Vector, n: nat, w: Vector)
    requires Rows(xs, n) && |w| == n && SolvesNormal(xs, ys, n, w)
    requires forall v: Vector :: |v| == n && SolvesNormal(xs, ys, n, v) ==> v == w
    ensures forall v: Vector :: |v| == n && v != w ==> Squares(xs, ys, n, w) < Squares(xs, ys, n, v)
  {
    hide Squares, SolvesNormal;
    forall v: Vector | |v| == n && v != w ensures Squares(xs, ys, n, w) < Squares(xs, ys, n, v) {
      if Squares(xs, ys, n, v) <= Squares(xs, ys, n, w) { EquallyGoodSolves(xs, ys, n, w, v); }
    }
  }

  /** A nonzero combination of kinds that is constant zero over the samples. */
  predicate InKernel(xs: Matrix, ys: Vector, n: nat, z: Vector)
    requires Rows(xs, n) && |z| == n
  {
    forall a :: 0 <= a < n ==> Dot(z, GramRow(xs, n, a, Pairs(xs, ys))) == 0.0
  }

  /** So a singular system is never given an answer. */
  lemma UniqueMeansRegular(xs: Matrix, ys: Vector, n: nat, w: Vector, z: Vector)
    requires Rows(xs, n) && |w| == |z| == n && SolvesNormal(xs, ys, n, w) && InKernel(xs, ys, n, z)
    requires forall v: Vector :: |v| == n && SolvesNormal(xs, ys, n, v) ==> v == w
    ensures forall a :: 0 <= a < n ==> z[a] == 0.0
  {
    var v := seq(n, a requires 0 <= a < n => w[a] + z[a]);
    forall a | 0 <= a < n ensures Dot(v, GramRow(xs, n, a, Pairs(xs, ys))) == Moment(xs, ys, n, a, Pairs(xs, ys)) {
      SumDot(w, z, v, GramRow(xs, n, a, Pairs(xs, ys)));
    }
    assert SolvesNormal(xs, ys, n, v);
    assert forall a :: 0 <= a < n ==> v[a] == w[a] + z[a];
  }

  lemma {:induction false} DotTail(u: Vector, v: Vector, j: nat, k: nat)
    requires j <= k <= |u| && k <= |v| && forall c :: j <= c < k ==> u[c] == 0.0
    ensures DotTo(u, v, k) == DotTo(u, v, j)
    decreases k
  {
    if j < k {
      DotTail(u, v, j, k - 1);
      assert Times(u[k - 1], v[k - 1]) == 0.0;
    }
  }

  /** The combination that a column without a pivot stands for. */
  function Dependence(m: Matrix, n: nat, col: nat): Vector
    requires Shape(m, n) && col < n
  {
    seq(n + 1, c requires 0 <= c < n + 1 => if c < col then -m[c][col] else if c == col then 1.0 else 0.0)
  }

  lemma DependenceShape(m: Matrix, n: nat, col: nat)
    requires Shape(m, n) && col < n
    ensures |Dependence(m, n, col)| == n + 1 && Dependence(m, n, col)[col] == 1.0 && Dependence(m, n, col)[n] == 0.0
  {
  }

  lemma DependenceIsNull(m: Matrix, n: nat, col: nat)
    requires Shape(m, n) && col < n && Units(m, n, col) && forall r :: col <= r < n ==> m[r][col] == 0.0
    ensures Null(m, n, Dependence(m, n, col))
  {
    var u := Dependence(m, n, col);
    forall r | 0 <= r < n ensures Dot(u, m[r]) == 0.0 {
      DotUnit(u, m[r], r, col);
      DotTail(u, m[r], col + 1, n + 1);
      assert Times(u[col], m[r][col]) == m[r][col];
    }
  }

  /** A column with no pivot at all means a singular system: some combination of the kinds, with
      weight one on this one, vanishes. Only a nonzero pivot below the threshold is refused without
      that reason. */
  lemma ZeroPivotsMeanSingular(xs: Matrix, ys: Vector, n: nat, m: Matrix, col: nat)
    requires Rows(xs, n) && Shape(Normal(xs, ys, n, Pairs(xs, ys)), n)
    requires Stuck(Normal(xs, ys, n, Pairs(xs, ys)), m, n, col) && forall r :: col <= r < n ==> m[r][col] == 0.0
    ensures exists z: Vector :: |z| == n && z[col] == 1.0 && InKernel(xs, ys, n, z)
  {
    hide Times, Units, Dependence, Normal, InKernel;
    var u, m0 := Dependence(m, n, col), Normal(xs, ys, n, Pairs(xs, ys));
    DependenceShape(m, n, col);
    DependenceIsNull(m, n, col);
    assert Null(m0, n, u);
    KernelOf(xs, ys, n, u);
    assert u[..n][col] == 1.0;
  }

  lemma KernelOf(xs: Matrix, ys: Vector, n: nat, u: Vector)
    requires Rows(xs, n) && |u| == n + 1 && u[n] == 0.0
    requires Shape(Normal(xs, ys, n, Pairs(xs, ys)), n) && Null(Normal(xs, ys, n, Pairs(xs, ys)), n, u)
    ensures InKernel(xs, ys, n, u[..n])
  {
    hide Times;
    var k := Pairs(xs, ys);
    var m0 := Normal(xs, ys, n, k);
    var z := u[..n];
    forall a | 0 <= a < n ensures Dot(z, GramRow(xs, n, a, k)) == 0.0 {
      DotPrefix(u, m0[a], z, GramRow(xs, n, a, k), n);
      DotTail(u, m0[a], n, n + 1);
      assert Dot(u, m0[a]) == 0.0;
    }
  }
}
