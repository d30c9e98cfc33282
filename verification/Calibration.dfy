/** Least-squares calibration of a touch screen, in exact arithmetic. */
module Calibration {

  /** Sum of the products of two columns over the first `n` points. */
  function Dot(u: seq<int>, v: seq<int>, n: nat): real
    requires n <= |u| && n <= |v|
  {
    if n == 0 then 0.0 else Dot(u, v, n - 1) + (u[n - 1] * v[n - 1]) as real
  }

  function Ones(n: nat): (r: seq<int>)
    ensures |r| == n && forall i :: 0 <= i < n ==> r[i] == 1
  {
    seq(n, i => 1)
  }

  lemma {:induction false} DotSymmetric(u: seq<int>, v: seq<int>, n: nat)
    requires n <= |u| && n <= |v|
    ensures Dot(u, v, n) == Dot(v, u, n)
  {
    if n > 0 {
      DotSymmetric(u, v, n - 1);
      assert u[n - 1] * v[n - 1] == v[n - 1] * u[n - 1];
    }
  }

  /** The sums over the measured points: the matrix of the normal equations. */
  datatype Sums = Sums(n: real, x: real, y: real, x2: real, y2: real, xy: real)

  function Det(s: Sums): real {
    s.n * (s.x2 * s.y2 - s.xy * s.xy) + s.x * (s.xy * s.y - s.x * s.y2) + s.y * (s.x * s.xy - s.y * s.x2)
  }

  /** An affine map of the two coordinates to one. */
  datatype Affine = Affine(c0: real, c1: real, c2: real)

  /** The rows of the adjugate. */
  function Row0(s: Sums, z: real, zx: real, zy: real): real {
    (s.x2 * s.y2 - s.xy * s.xy) * z + (s.xy * s.y - s.x * s.y2) * zx + (s.x * s.xy - s.y * s.x2) * zy
  }
  function Row1(s: Sums, z: real, zx: real, zy: real): real {
    (s.xy * s.y - s.x * s.y2) * z + (s.n * s.y2 - s.y * s.y) * zx + (s.x * s.y - s.n * s.xy) * zy
  }
  function Row2(s: Sums, z: real, zx: real, zy: real): real {
    (s.x * s.xy - s.y * s.x2) * z + (s.x * s.y - s.n * s.xy) * zx + (s.n * s.x2 - s.x * s.x) * zy
  }

  /** The coefficients, before they are scaled. */
  function Solved(s: Sums, z: real, zx: real, zy: real): Affine
    requires Det(s) != 0.0
  {
    Affine(Row0(s, z, zx, zy) / Det(s), Row1(s, z, zx, zy) / Det(s), Row2(s, z, zx, zy) / Det(s))
  }

  // ---------------------------------------------------------------------
  // The normal equations
  // ---------------------------------------------------------------------

  lemma {:induction false} RowsSolve(s: Sums, z: real, zx: real, zy: real)
    ensures s.n * Row0(s, z, zx, zy) + s.x * Row1(s, z, zx, zy) + s.y * Row2(s, z, zx, zy) == Det(s) * z
    ensures s.x * Row0(s, z, zx, zy) + s.x2 * Row1(s, z, zx, zy) + s.xy * Row2(s, z, zx, zy) == Det(s) * zx
    ensures s.y * Row0(s, z, zx, zy) + s.xy * Row1(s, z, zx, zy) + s.y2 * Row2(s, z, zx, zy) == Det(s) * zy
  {}

  lemma {:induction false} Quotients(p: real, q: real, r: real, u: real, v: real, w: real, d: real, t: real)
    requires d != 0.0 && p * u + q * v + r * w == d * t
    ensures p * (u / d) + q * (v / d) + r * (w / d) == t
  {
    assert p * (u / d) == (p * u) / d && q * (v / d) == (q * v) / d && r * (w / d) == (r * w) / d;
    assert (d * t) / d == t;
  }

  ghost predicate Normal(s: Sums, a: Affine, z: real, zx: real, zy: real) {
    s.n * a.c0 + s.x * a.c1 + s.y * a.c2 == z &&
    s.x * a.c0 + s.x2 * a.c1 + s.xy * a.c2 == zx &&
    s.y * a.c0 + s.xy * a.c1 + s.y2 * a.c2 == zy
  }

  lemma {:induction false} SolvesNormal(s: Sums, z: real, zx: real, zy: real)
    requires Det(s) != 0.0
    ensures Normal(s, Solved(s, z, zx, zy), z, zx, zy)
  {
    RowsSolve(s, z, zx, zy);
    NormalFromRows(s, Row0(s, z, zx, zy), Row1(s, z, zx, zy), Row2(s, z, zx, zy), Det(s), z, zx, zy);
  }

  lemma {:induction false} NormalFromRows(s: Sums, r0: real, r1: real, r2: real, d: real, z: real, zx: real, zy: real)
    requires d != 0.0 && s.n * r0 + s.x * r1 + s.y * r2 == d * z
    requires s.x * r0 + s.x2 * r1 + s.xy * r2 == d * zx && s.y * r0 + s.xy * r1 + s.y2 * r2 == d * zy
    ensures Normal(s, Affine(r0 / d, r1 / d, r2 / d), z, zx, zy)
  {
    Quotients(s.n, s.x, s.y, r0, r1, r2, d, z);
    Quotients(s.x, s.x2, s.xy, r0, r1, r2, d, zx);
    Quotients(s.y, s.xy, s.y2, r0, r1, r2, d, zy);
  }

  /** The equations have one solution. */
  lemma {:induction false} NormalUnique(s: Sums, a: Affine, z: real, zx: real, zy: real)
    requires Det(s) != 0.0 && Normal(s, a, z, zx, zy)
    ensures a == Solved(s, z, zx, zy)
  {
    RowsInvert(s, a);
    Undivided(a, Row0(s, z, zx, zy), Row1(s, z, zx, zy), Row2(s, z, zx, zy), Det(s));
  }

  lemma {:induction false} Undivided(a: Affine, p: real, q: real, r: real, d: real)
    requires d != 0.0 && p == d * a.c0 && q == d * a.c1 && r == d * a.c2
    ensures Affine(p / d, q / d, r / d) == a
  {
    assert (d * a.c0) / d == a.c0 && (d * a.c1) / d == a.c1 && (d * a.c2) / d == a.c2;
  }

  lemma {:induction false} RowsInvert(s: Sums, a: Affine)
    ensures var z := s.n * a.c0 + s.x * a.c1 + s.y * a.c2;
      var zx := s.x * a.c0 + s.x2 * a.c1 + s.xy * a.c2;
      var zy := s.y * a.c0 + s.xy * a.c1 + s.y2 * a.c2;
      && Row0(s, z, zx, zy) == Det(s) * a.c0 && Row1(s, z, zx, zy) == Det(s) * a.c1 && Row2(s, z, zx, zy) == Det(s) * a.c2
  {}

  // ---------------------------------------------------------------------
  // The least squares
  // ---------------------------------------------------------------------

  /** The difference between the map and the wanted value at point `j`. */
  function Residual(a: Affine, xs: seq<int>, ys: seq<int>, zs: seq<int>, j: nat): real
    requires j < |xs| && j < |ys| && j < |zs|
  {
    Value(a, xs, ys, j) - zs[j] as real
  }

  function Value(a: Affine, xs: seq<int>, ys: seq<int>, j: nat): real
    requires j < |xs| && j < |ys|
  {
    a.c0 + a.c1 * xs[j] as real + a.c2 * ys[j] as real
  }

  /** The sum of the squared differences over the first `n` points. */
  function SquaredError(a: Affine, xs: seq<int>, ys: seq<int>, zs: seq<int>, n: nat): real
    requires n <= |xs| && n <= |ys| && n <= |zs|
  {
    if n == 0 then 0.0
    else SquaredError(a, xs, ys, zs, n - 1) + Residual(a, xs, ys, zs, n - 1) * Residual(a, xs, ys, zs, n - 1)
  }

  /** The sum of the squared values of a map. */
  function Squares(d: Affine, xs: seq<int>, ys: seq<int>, n: nat): (r: real)
    requires n <= |xs| && n <= |ys|
    ensures r >= 0.0
  {
    if n == 0 then 0.0 else Squares(d, xs, ys, n - 1) + Value(d, xs, ys, n - 1) * Value(d, xs, ys, n - 1)
  }

  /** A weighted sum of the residuals. */
  function Weighted(a: Affine, xs: seq<int>, ys: seq<int>, zs: seq<int>, w: seq<int>, n: nat): real
    requires n <= |xs| && n <= |ys| && n <= |zs| && n <= |w|
  {
    if n == 0 then 0.0 else Weighted(a, xs, ys, zs, w, n - 1) + Residual(a, xs, ys, zs, n - 1) * w[n - 1] as real
  }

  function Minus(c: Affine, a: Affine): Affine { Affine(c.c0 - a.c0, c.c1 - a.c1, c.c2 - a.c2) }

  /** The error of another map, of this one, their distance, and the sums of this one's residuals. */
  datatype Split = Split(other: real, own: real, apart: real, w0: real, w1: real, w2: real)

  ghost predicate Splits(d: Affine, s: Split) {
    s.other == s.own + s.apart + 2.0 * (d.c0 * s.w0 + d.c1 * s.w1 + d.c2 * s.w2)
  }

  function SplitOf(a: Affine, c: Affine, xs: seq<int>, ys: seq<int>, zs: seq<int>, n: nat): Split
    requires n <= |xs| && n <= |ys| && n <= |zs|
  {
    Split(SquaredError(c, xs, ys, zs, n), SquaredError(a, xs, ys, zs, n), Squares(Minus(c, a), xs, ys, n),
          Weighted(a, xs, ys, zs, Ones(n), n), Weighted(a, xs, ys, zs, xs, n), Weighted(a, xs, ys, zs, ys, n))
  }

  /** One more point in each of the sums: `r` is its residual, `v` the difference of the maps. */
  ghost predicate Grows(s: Split, t: Split, r: real, v: real, x: real, y: real) {
    Adds(s.other, t.other, r + v, r + v) && Adds(s.own, t.own, r, r) && Adds(s.apart, t.apart, v, v) &&
    t.w0 == s.w0 + r && Adds(s.w1, t.w1, r, x) && Adds(s.w2, t.w2, r, y)
  }

  /** A sum has grown by a product. */
  ghost predicate Adds(s: real, t: real, x: real, y: real) { t == s + x * y }

  lemma {:induction false} SplitGrows(a: Affine, c: Affine, xs: seq<int>, ys: seq<int>, zs: seq<int>, n: nat)
    returns (r: real, v: real, x: real, y: real)
    requires 0 < n <= |xs| && n <= |ys| && n <= |zs|
    ensures Grows(SplitOf(a, c, xs, ys, zs, n - 1), SplitOf(a, c, xs, ys, zs, n), r, v, x, y)
    ensures var d := Minus(c, a); v == d.c0 + d.c1 * x + d.c2 * y
  {
    r, v := Residual(a, xs, ys, zs, n - 1), Value(Minus(c, a), xs, ys, n - 1);
    x, y := xs[n - 1] as real, ys[n - 1] as real;
    OnesPrefix(a, xs, ys, zs, n);
    OtherGrows(a, c, xs, ys, zs, n);
    OwnGrows(a, xs, ys, zs, n);
    WeightedGrows(a, xs, ys, zs, xs, n);
    WeightedGrows(a, xs, ys, zs, ys, n);
    assert Adds(Squares(Minus(c, a), xs, ys, n - 1), Squares(Minus(c, a), xs, ys, n), v, v);
  }

  lemma {:induction false} OtherGrows(a: Affine, c: Affine, xs: seq<int>, ys: seq<int>, zs: seq<int>, n: nat)
    requires 0 < n <= |xs| && n <= |ys| && n <= |zs|
    ensures var r := Residual(a, xs, ys, zs, n - 1) + Value(Minus(c, a), xs, ys, n - 1);
      Adds(SquaredError(c, xs, ys, zs, n - 1), SquaredError(c, xs, ys, zs, n), r, r)
  {
    ResidualSplits(a, c, xs, ys, zs, n - 1);
    OwnGrows(c, xs, ys, zs, n);
  }

  lemma {:induction false} OwnGrows(a: Affine, xs: seq<int>, ys: seq<int>, zs: seq<int>, n: nat)
    requires 0 < n <= |xs| && n <= |ys| && n <= |zs|
    ensures var r := Residual(a, xs, ys, zs, n - 1);
      Adds(SquaredError(a, xs, ys, zs, n - 1), SquaredError(a, xs, ys, zs, n), r, r)
  {}

  lemma {:induction false} WeightedGrows(a: Affine, xs: seq<int>, ys: seq<int>, zs: seq<int>, w: seq<int>, n: nat)
    requires 0 < n <= |xs| && n <= |ys| && n <= |zs| && n <= |w|
    ensures Adds(Weighted(a, xs, ys, zs, w, n - 1), Weighted(a, xs, ys, zs, w, n), Residual(a, xs, ys, zs, n - 1), w[n - 1] as real)
  {}

  lemma {:induction false} ResidualSplits(a: Affine, c: Affine, xs: seq<int>, ys: seq<int>, zs: seq<int>, j: nat)
    requires j < |xs| && j < |ys| && j < |zs|
    ensures Residual(c, xs, ys, zs, j) == Residual(a, xs, ys, zs, j) + Value(Minus(c, a), xs, ys, j)
  {}

  /** Any other map errs by its distance from this one more, up to the sums of
      the residuals. */
  lemma {:induction false} ErrorSplits(a: Affine, c: Affine, xs: seq<int>, ys: seq<int>, zs: seq<int>, n: nat)
    requires n <= |xs| && n <= |ys| && n <= |zs|
    ensures Splits(Minus(c, a), SplitOf(a, c, xs, ys, zs, n))
  {
    if n > 0 {
      ErrorSplits(a, c, xs, ys, zs, n - 1);
      ErrorStep(a, c, xs, ys, zs, n);
    }
  }

  lemma {:induction false} ErrorStep(a: Affine, c: Affine, xs: seq<int>, ys: seq<int>, zs: seq<int>, n: nat)
    requires 0 < n <= |xs| && n <= |ys| && n <= |zs| && Splits(Minus(c, a), SplitOf(a, c, xs, ys, zs, n - 1))
    ensures Splits(Minus(c, a), SplitOf(a, c, xs, ys, zs, n))
  {
    var r, v, x, y := SplitGrows(a, c, xs, ys, zs, n);
    SplitStep(Minus(c, a), SplitOf(a, c, xs, ys, zs, n - 1), SplitOf(a, c, xs, ys, zs, n), r, v, x, y);
  }

  /** One more point in the split, as an identity of numbers. */
  lemma {:induction false} SplitStep(d: Affine, s: Split, t: Split, r: real, v: real, x: real, y: real)
    requires Splits(d, s) && Grows(s, t, r, v, x, y) && v == d.c0 + d.c1 * x + d.c2 * y
    ensures Splits(d, t)
  {
    assert (r + v) * (r + v) == r * r + v * v + 2.0 * (r * v);
    assert r * v == d.c0 * r + d.c1 * (r * x) + d.c2 * (r * y);
  }

  lemma {:induction false} OnesPrefix(a: Affine, xs: seq<int>, ys: seq<int>, zs: seq<int>, n: nat)
    requires 0 < n <= |xs| && n <= |ys| && n <= |zs|
    ensures Weighted(a, xs, ys, zs, Ones(n), n) == Weighted(a, xs, ys, zs, Ones(n - 1), n - 1) + Residual(a, xs, ys, zs, n - 1)
  {
    SameWeights(a, xs, ys, zs, Ones(n), Ones(n - 1), n - 1);
  }

  lemma {:induction false} SameWeights(a: Affine, xs: seq<int>, ys: seq<int>, zs: seq<int>, u: seq<int>, v: seq<int>, n: nat)
    requires n <= |xs| && n <= |ys| && n <= |zs| && n <= |u| && n <= |v| && forall i :: 0 <= i < n ==> u[i] == v[i]
    ensures Weighted(a, xs, ys, zs, u, n) == Weighted(a, xs, ys, zs, v, n)
  {
    if n > 0 { SameWeights(a, xs, ys, zs, u, v, n - 1); }
  }

  /** A weighted sum of the residuals, by the sums of products. */
  lemma {:induction false} WeightedIs(a: Affine, xs: seq<int>, ys: seq<int>, zs: seq<int>, w: seq<int>, n: nat)
    requires n <= |xs| && n <= |ys| && n <= |zs| && n <= |w|
    ensures Weighted(a, xs, ys, zs, w, n) ==
      a.c0 * Dot(Ones(n), w, n) + a.c1 * Dot(xs, w, n) + a.c2 * Dot(ys, w, n) - Dot(zs, w, n)
  {
    if n > 0 {
      WeightedIs(a, xs, ys, zs, w, n - 1);
      var p, q, r, t := DotsGrow(a, xs, ys, zs, w, n);
      TermAdds(a, Dot(Ones(n - 1), w, n - 1), Dot(xs, w, n - 1), Dot(ys, w, n - 1), Dot(zs, w, n - 1), p, q, r, t);
    }
  }

  lemma {:induction false} DotsGrow(a: Affine, xs: seq<int>, ys: seq<int>, zs: seq<int>, w: seq<int>, n: nat)
    returns (p: real, q: real, r: real, t: real)
    requires 0 < n <= |xs| && n <= |ys| && n <= |zs| && n <= |w|
    ensures Dot(Ones(n), w, n) == Dot(Ones(n - 1), w, n - 1) + p && Dot(xs, w, n) == Dot(xs, w, n - 1) + q
    ensures Dot(ys, w, n) == Dot(ys, w, n - 1) + r && Dot(zs, w, n) == Dot(zs, w, n - 1) + t
    ensures Weighted(a, xs, ys, zs, w, n) == Weighted(a, xs, ys, zs, w, n - 1) + (a.c0 * p + a.c1 * q + a.c2 * r - t)
  {
    OnesDot(w, n);
    var x, y, z, k := xs[n - 1], ys[n - 1], zs[n - 1], w[n - 1];
    OneTerm(a, x, y, z, k);
    p, q, r, t := k as real, (x * k) as real, (y * k) as real, (z * k) as real;
  }

  lemma {:induction false} OneTerm(a: Affine, x: int, y: int, z: int, k: int)
    ensures (a.c0 + a.c1 * x as real + a.c2 * y as real - z as real) * k as real ==
            a.c0 * k as real + a.c1 * (x * k) as real + a.c2 * (y * k) as real - (z * k) as real
  {
    assert (x * k) as real == x as real * k as real && (y * k) as real == y as real * k as real;
    assert (z * k) as real == z as real * k as real;
    Expand(a, x as real, y as real, z as real, k as real);
  }

  lemma {:induction false} Expand(a: Affine, x: real, y: real, z: real, k: real)
    ensures (a.c0 + a.c1 * x + a.c2 * y - z) * k == a.c0 * k + a.c1 * (x * k) + a.c2 * (y * k) - z * k
  {}

  lemma {:induction false} TermAdds(a: Affine, p: real, q: real, r: real, s: real, u: real, v: real, w: real, t: real)
    ensures a.c0 * (p + u) + a.c1 * (q + v) + a.c2 * (r + w) - (s + t) ==
            (a.c0 * p + a.c1 * q + a.c2 * r - s) + (a.c0 * u + a.c1 * v + a.c2 * w - t)
  {}

  lemma {:induction false} OnesDot(w: seq<int>, n: nat)
    requires 0 < n <= |w|
    ensures Dot(Ones(n), w, n) == Dot(Ones(n - 1), w, n - 1) + w[n - 1] as real
  {
    SameDot(Ones(n), Ones(n - 1), w, n - 1);
  }

  lemma {:induction false} SameDot(u: seq<int>, v: seq<int>, w: seq<int>, n: nat)
    requires n <= |u| && n <= |v| && n <= |w| && forall i :: 0 <= i < n ==> u[i] == v[i]
    ensures Dot(u, w, n) == Dot(v, w, n)
  {
    if n > 0 { SameDot(u, v, w, n - 1); }
  }

  function SumsOf(xs: seq<int>, ys: seq<int>, n: nat): Sums
    requires n <= |xs| && n <= |ys|
  {
    Sums(Dot(Ones(n), Ones(n), n), Dot(xs, Ones(n), n), Dot(ys, Ones(n), n), Dot(xs, xs, n), Dot(ys, ys, n), Dot(xs, ys, n))
  }

  /** The calibration of one output coordinate. */
  function Calibrated(xs: seq<int>, ys: seq<int>, zs: seq<int>, n: nat): Affine
    requires n <= |xs| && n <= |ys| && n <= |zs| && Det(SumsOf(xs, ys, n)) != 0.0
  {
    Solved(SumsOf(xs, ys, n), Dot(zs, Ones(n), n), Dot(zs, xs, n), Dot(zs, ys, n))
  }

  lemma {:induction false} ResidualsBalance(xs: seq<int>, ys: seq<int>, zs: seq<int>, n: nat)
    requires n <= |xs| && n <= |ys| && n <= |zs| && Det(SumsOf(xs, ys, n)) != 0.0
    ensures var a := Calibrated(xs, ys, zs, n);
      && Weighted(a, xs, ys, zs, Ones(n), n) == 0.0 && Weighted(a, xs, ys, zs, xs, n) == 0.0
      && Weighted(a, xs, ys, zs, ys, n) == 0.0
  {
    var a := Calibrated(xs, ys, zs, n);
    SolvesNormal(SumsOf(xs, ys, n), Dot(zs, Ones(n), n), Dot(zs, xs, n), Dot(zs, ys, n));
    WeightedIs(a, xs, ys, zs, Ones(n), n);
    WeightedIs(a, xs, ys, zs, xs, n);
    WeightedIs(a, xs, ys, zs, ys, n);
    DotSymmetric(xs, ys, n);
    DotSymmetric(Ones(n), xs, n);
    DotSymmetric(Ones(n), ys, n);
  }

  /** No affine map has a smaller squared error over the points, and one with
      the same error takes the same value at every point. */
  lemma {:induction false} LeastSquares(xs: seq<int>, ys: seq<int>, zs: seq<int>, n: nat, c: Affine)
    requires n <= |xs| && n <= |ys| && n <= |zs| && Det(SumsOf(xs, ys, n)) != 0.0
    ensures var a := Calibrated(xs, ys, zs, n);
      && SquaredError(c, xs, ys, zs, n) == SquaredError(a, xs, ys, zs, n) + Squares(Minus(c, a), xs, ys, n)
      && SquaredError(a, xs, ys, zs, n) <= SquaredError(c, xs, ys, zs, n)
  {
    var a := Calibrated(xs, ys, zs, n);
    ResidualsBalance(xs, ys, zs, n);
    ErrorSplits(a, c, xs, ys, zs, n);
  }

  /** Values that an affine map gives exactly give that map back. */
  lemma {:induction false} ExactRecovered(xs: seq<int>, ys: seq<int>, zs: seq<int>, n: nat, c: Affine)
    requires n <= |xs| && n <= |ys| && n <= |zs| && Det(SumsOf(xs, ys, n)) != 0.0
    requires forall j :: 0 <= j < n ==> Residual(c, xs, ys, zs, j) == 0.0
    ensures Calibrated(xs, ys, zs, n) == c
  {
    ExactNormal(xs, ys, zs, n, c);
    NormalUnique(SumsOf(xs, ys, n), c, Dot(zs, Ones(n), n), Dot(zs, xs, n), Dot(zs, ys, n));
  }

  lemma {:induction false} ExactNormal(xs: seq<int>, ys: seq<int>, zs: seq<int>, n: nat, c: Affine)
    requires n <= |xs| && n <= |ys| && n <= |zs|
    requires forall j :: 0 <= j < n ==> Residual(c, xs, ys, zs, j) == 0.0
    ensures Normal(SumsOf(xs, ys, n), c, Dot(zs, Ones(n), n), Dot(zs, xs, n), Dot(zs, ys, n))
  {
    var s := SumsOf(xs, ys, n);
    DotSymmetric(xs, ys, n);
    DotSymmetric(Ones(n), xs, n);
    DotSymmetric(Ones(n), ys, n);
    ExactRow(xs, ys, zs, Ones(n), n, c, s.n, s.x, s.y);
    ExactRow(xs, ys, zs, xs, n, c, s.x, s.x2, s.xy);
    ExactRow(xs, ys, zs, ys, n, c, s.y, s.xy, s.y2);
    RowsNormal(s, c, Dot(zs, Ones(n), n), Dot(zs, xs, n), Dot(zs, ys, n));
  }

  ghost predicate Row(p: real, q: real, r: real, c: Affine, z: real) { p * c.c0 + q * c.c1 + r * c.c2 == z }

  lemma {:induction false} RowsNormal(s: Sums, c: Affine, z: real, zx: real, zy: real)
    requires Row(s.n, s.x, s.y, c, z) && Row(s.x, s.x2, s.xy, c, zx) && Row(s.y, s.xy, s.y2, c, zy)
    ensures Normal(s, c, z, zx, zy)
  {}

  lemma {:induction false} ExactRow(xs: seq<int>, ys: seq<int>, zs: seq<int>, w: seq<int>, n: nat, c: Affine, p: real, q: real, r: real)
    requires n <= |xs| && n <= |ys| && n <= |zs| && n <= |w|
    requires forall j :: 0 <= j < n ==> Residual(c, xs, ys, zs, j) == 0.0
    requires p == Dot(Ones(n), w, n) && q == Dot(xs, w, n) && r == Dot(ys, w, n)
    ensures Row(p, q, r, c, Dot(zs, w, n))
  {
    NoWeight(c, xs, ys, zs, w, n);
    WeightedIs(c, xs, ys, zs, w, n);
  }

  lemma {:induction false} NoWeight(c: Affine, xs: seq<int>, ys: seq<int>, zs: seq<int>, w: seq<int>, n: nat)
    requires n <= |xs| && n <= |ys| && n <= |zs| && n <= |w|
    requires forall j :: 0 <= j < n ==> Residual(c, xs, ys, zs, j) == 0.0
    ensures Weighted(c, xs, ys, zs, w, n) == 0.0
  {
    if n > 0 { NoWeight(c, xs, ys, zs, w, n - 1); }
  }

  // ---------------------------------------------------------------------
  // pdl_cal
  // ---------------------------------------------------------------------

  const SCALING := 65536.0

  /** The conversion of C: towards zero. */
  function Truncated(r: real): int { if r >= 0.0 then r.Floor else 0 - (0.0 - r).Floor }

  function Scaled(a: Affine): seq<int> {
    [Truncated(a.c0 * SCALING), Truncated(a.c1 * SCALING), Truncated(a.c2 * SCALING)]
  }

  /** The determinant of whole numbers is a whole number, so a small one is zero. */
  lemma {:induction false} SmallDetIsZero(xs: seq<int>, ys: seq<int>, n: nat)
    requires n <= |xs| && n <= |ys|
    ensures -0.1 < Det(SumsOf(xs, ys, n)) < 0.1 <==> Det(SumsOf(xs, ys, n)) == 0.0
  {
    var k := DetWhole(xs, ys, n);
    assert k >= 1 ==> k as real >= 1.0;
    assert k <= -1 ==> k as real <= -1.0;
  }

  lemma {:induction false} DotWhole(u: seq<int>, v: seq<int>, n: nat) returns (k: int)
    requires n <= |u| && n <= |v|
    ensures Dot(u, v, n) == k as real
  {
    if n == 0 {
      k := 0;
    } else {
      k := DotWhole(u, v, n - 1);
      k := k + u[n - 1] * v[n - 1];
    }
  }

  lemma {:induction false} DetWhole(xs: seq<int>, ys: seq<int>, n: nat) returns (k: int)
    requires n <= |xs| && n <= |ys|
    ensures Det(SumsOf(xs, ys, n)) == k as real
  {
    var m := DotWhole(Ones(n), Ones(n), n);
    var x := DotWhole(xs, Ones(n), n);
    var y := DotWhole(ys, Ones(n), n);
    var x2 := DotWhole(xs, xs, n);
    var y2 := DotWhole(ys, ys, n);
    var xy := DotWhole(xs, ys, n);
    k := m * (x2 * y2 - xy * xy) + x * (xy * y - x * y2) + y * (x * xy - y * x2);
    WholeDet(m, x, y, x2, y2, xy);
  }

  lemma {:induction false} WholeDet(m: int, x: int, y: int, x2: int, y2: int, xy: int)
    ensures Det(Sums(m as real, x as real, y as real, x2 as real, y2 as real, xy as real)) ==
      (m * (x2 * y2 - xy * xy) + x * (xy * y - x * y2) + y * (x * xy - y * x2)) as real
  {
    WholeTimes(x2, y2);
    WholeTimes(xy, xy);
    WholeTimes(xy, y);
    WholeTimes(x, y2);
    WholeTimes(x, xy);
    WholeTimes(y, x2);
    WholeTimes(m, x2 * y2 - xy * xy);
    WholeTimes(x, xy * y - x * y2);
    WholeTimes(y, x * xy - y * x2);
  }

  lemma {:induction false} WholeTimes(a: int, b: int)
    ensures a as real * b as real == (a * b) as real
  {}

  /** What pdl_cal fills in: six scaled coefficients and the scale. */
  class Calibrator {
    var a: seq<int>

    /** The sums of one output coordinate over the five points. */
    method Target(xs: seq<int>, ys: seq<int>, fb: seq<int>) returns (z: real, zx: real, zy: real)
      requires |xs| == 5 && |ys| == 5 && |fb| == 5
      ensures z == Dot(fb, Ones(5), 5) && zx == Dot(fb, xs, 5) && zy == Dot(fb, ys, 5)
    {
      z, zx, zy := 0.0, 0.0, 0.0;
      for j := 0 to 5
        invariant z == Dot(fb, Ones(5), j) && zx == Dot(fb, xs, j) && zy == Dot(fb, ys, j)
      {
        z := z + fb[j] as real;
        zx := zx + (fb[j] * xs[j]) as real;
        zy := zy + (fb[j] * ys[j]) as real;
      }
    }

    method Matrix(xs: seq<int>, ys: seq<int>) returns (s: Sums)
      requires |xs| == 5 && |ys| == 5
      ensures s == SumsOf(xs, ys, 5)
    {
      var n, x, y, x2, y2, xy := 0.0, 0.0, 0.0, 0.0, 0.0, 0.0;
      for j := 0 to 5
        invariant n == Dot(Ones(5), Ones(5), j) && x == Dot(xs, Ones(5), j) && y == Dot(ys, Ones(5), j)
        invariant x2 == Dot(xs, xs, j) && y2 == Dot(ys, ys, j) && xy == Dot(xs, ys, j)
      {
        n := n + 1.0;
        x := x + xs[j] as real;
        y := y + ys[j] as real;
        x2 := x2 + (xs[j] * xs[j]) as real;
        y2 := y2 + (ys[j] * ys[j]) as real;
        xy := xy + (xs[j] * ys[j]) as real;
      }
      s := Sums(n, x, y, x2, y2, xy);
    }

    /** Three coefficients, by the elements of the inverse matrix. */
    method Coefficients(s: Sums, z: real, zx: real, zy: real) returns (r: seq<int>)
      requires Det(s) != 0.0
      ensures r == Scaled(Solved(s, z, zx, zy))
    {
      var det := Det(s);
      var a := (s.x2 * s.y2 - s.xy * s.xy) / det;
      var b := (s.xy * s.y - s.x * s.y2) / det;
      var c := (s.x * s.xy - s.y * s.x2) / det;
      var e := (s.n * s.y2 - s.y * s.y) / det;
      var f := (s.x * s.y - s.n * s.xy) / det;
      var i := (s.n * s.x2 - s.x * s.x) / det;
      Inverse(s, z, zx, zy);
      var c0, c1, c2 := a * z + b * zx + c * zy, b * z + e * zx + f * zy, c * z + f * zx + i * zy;
      assert Solved(s, z, zx, zy) == Affine(c0, c1, c2);
      r := [Truncated(c0 * SCALING), Truncated(c1 * SCALING), Truncated(c2 * SCALING)];
    }

    /** pdl_cal */
    method Calibrate(xs: seq<int>, ys: seq<int>, xfb: seq<int>, yfb: seq<int>) returns (ret: int)
      requires |xs| == 5 && |ys| == 5 && |xfb| == 5 && |yfb| == 5
      modifies this
      ensures Det(SumsOf(xs, ys, 5)) == 0.0 ==> ret == -1 && a == old(a)
      ensures Det(SumsOf(xs, ys, 5)) != 0.0 ==>
        ret == 0 && a == Scaled(Calibrated(xs, ys, xfb, 5)) + Scaled(Calibrated(xs, ys, yfb, 5)) + [65536]
    {
      var s := Matrix(xs, ys);
      var det := Det(s);
      SmallDetIsZero(xs, ys, 5);
      if det < 0.1 && det > -0.1 { return -1; }
      var z, zx, zy := Target(xs, ys, xfb);
      var first := Coefficients(s, z, zx, zy);
      z, zx, zy := Target(xs, ys, yfb);
      var second := Coefficients(s, z, zx, zy);
      a := first + second + [Truncated(SCALING)];
      return 0;
    }
  }

  lemma {:induction false} Inverse(s: Sums, z: real, zx: real, zy: real)
    requires Det(s) != 0.0
    ensures var det := Det(s);
      var a := (s.x2 * s.y2 - s.xy * s.xy) / det; var b := (s.xy * s.y - s.x * s.y2) / det;
      var c := (s.x * s.xy - s.y * s.x2) / det; var e := (s.n * s.y2 - s.y * s.y) / det;
      var f := (s.x * s.y - s.n * s.xy) / det; var i := (s.n * s.x2 - s.x * s.x) / det;
      Solved(s, z, zx, zy) == Affine(a * z + b * zx + c * zy, b * z + e * zx + f * zy, c * z + f * zx + i * zy)
  {
    var d := Det(s);
    Share(s.x2 * s.y2 - s.xy * s.xy, s.xy * s.y - s.x * s.y2, s.x * s.xy - s.y * s.x2, z, zx, zy, d);
    Share(s.xy * s.y - s.x * s.y2, s.n * s.y2 - s.y * s.y, s.x * s.y - s.n * s.xy, z, zx, zy, d);
    Share(s.x * s.xy - s.y * s.x2, s.x * s.y - s.n * s.xy, s.n * s.x2 - s.x * s.x, z, zx, zy, d);
  }

  lemma {:induction false} Share(p: real, q: real, r: real, u: real, v: real, w: real, d: real)
    requires d != 0.0
    ensures (p * u + q * v + r * w) / d == (p / d) * u + (q / d) * v + (r / d) * w
  {
    assert (p / d) * u == (p * u) / d && (q / d) * v == (q * v) / d && (r / d) * w == (r * w) / d;
  }
}
