/** Projection of three utility weights onto the simplex, over real numbers. */
module Simplex {
  datatype Vec = Vec(a: real, b: real, c: real)

  function Sum(x: Vec): real { x.a + x.b + x.c }

  function Times(x: real, y: real): real { x * y }

  function Square(x: real): (r: real)
    ensures r >= 0.0
  {
    TimesSign(x, x);
    TimesSign(-x, -x);
    Times(x, x)
  }

  lemma TimesSign(x: real, y: real)
    ensures x > 0.0 && y > 0.0 ==> Times(x, y) > 0.0
    ensures x == 0.0 || y == 0.0 ==> Times(x, y) == 0.0
    ensures Times(-x, -y) == Times(x, y)
  {
  }

  function Dist2(x: Vec, y: Vec): (d: real)
    ensures d >= 0.0
  {
    Square(x.a - y.a) + Square(x.b - y.b) + Square(x.c - y.c)
  }

  /** Weights that sum to one and are at least `floor`. */
  predicate Weights(w: Vec, floor: real) { Sum(w) == 1.0 && w.a >= floor && w.b >= floor && w.c >= floor }

  /** Any other weights are further away, by at least their distance from `w`. */
  ghost predicate Nearest(x: Vec, w: Vec, floor: real) {
    Weights(w, floor) && forall y: Vec :: Weights(y, floor) ==> Dist2(x, y) >= Dist2(x, w) + Dist2(w, y)
  }

  /** There is only one such point. */
  lemma NearestOnce(x: Vec, w: Vec, y: Vec, floor: real)
    requires Nearest(x, w, floor) && Weights(y, floor) && Dist2(x, y) <= Dist2(x, w)
    ensures y == w
  {
    assert Dist2(w, y) <= 0.0;
    SquareZero(w.a - y.a);
    SquareZero(w.b - y.b);
    SquareZero(w.c - y.c);
  }

  lemma SquareZero(x: real)
    ensures Square(x) <= 0.0 <==> x == 0.0
  {
    TimesSign(x, x);
    TimesSign(-x, -x);
  }

  /** Weights that are already in place stay there. */
  lemma NearestToItself(x: Vec, w: Vec, floor: real)
    requires Nearest(x, w, floor) && Weights(x, floor)
    ensures w == x
  {
    assert Dist2(x, x) == 0.0;
    NearestOnce(x, w, x, floor);
  }

  // ----- the threshold -----

  function Cut(x: real, theta: real): (w: real)
    ensures w >= 0.0
  {
    if x - theta > 0.0 then x - theta else 0.0
  }

  function CutAll(x: Vec, theta: real): Vec { Vec(Cut(x.a, theta), Cut(x.b, theta), Cut(x.c, theta)) }

  /** One coordinate of the inner product of x - w and y - w. */
  lemma CutAngle(x: real, theta: real, w: real, y: real)
    requires y >= 0.0 && w == Cut(x, theta)
    ensures Square(x - y) >= Square(x - w) + Square(w - y) - 2.0 * Times(theta, y - w)
  {
    Expand(x - w, w - y);
    assert x - w + (w - y) == x - y;
    Split(x - w, theta, w - y);
    if x - theta <= 0.0 {
      TimesSign(theta - x, y);
    }
    TimesSign(x - w - theta, w - y);
    TimesSign(theta, w - y);
    Negate(theta, y - w);
  }

  lemma Negate(p: real, q: real)
    ensures Times(p, -q) == -Times(p, q)
  {
  }

  lemma Split(p: real, theta: real, q: real)
    ensures Times(p, q) == Times(p - theta, q) + Times(theta, q)
  {
  }

  lemma Expand(p: real, q: real)
    ensures Square(p + q) == Square(p) + Square(q) + 2.0 * Times(p, q)
  {
  }

  /** Cutting at any threshold that makes the weights sum to one gives the nearest weights. */
  lemma CutNearest(x: Vec, theta: real, w: Vec)
    requires w == CutAll(x, theta) && Sum(w) == 1.0
    ensures Nearest(x, w, 0.0)
  {
    forall y: Vec | Weights(y, 0.0)
      ensures Dist2(x, y) >= Dist2(x, w) + Dist2(w, y)
    {
      CutAngle(x.a, theta, w.a, y.a);
      CutAngle(x.b, theta, w.b, y.b);
      CutAngle(x.c, theta, w.c, y.c);
      Distribute(theta, y.a - w.a, y.b - w.b, y.c - w.c);
    }
  }

  lemma Distribute(theta: real, p: real, q: real, r: real)
    requires p + q + r == 0.0
    ensures Times(theta, p) + Times(theta, q) + Times(theta, r) == 0.0
  {
    assert Times(theta, p) + Times(theta, q) + Times(theta, r) == theta * (p + q + r);
  }

  // ----- the program -----

  predicate Descending(u: seq<real>) { |u| == 3 && u[0] >= u[1] >= u[2] }

  /** The same three values in some order. */
  predicate Permutes(u: seq<real>, x: Vec) {
    |u| == 3 &&
    if u[0] == x.a then SamePair(u[1], u[2], x.b, x.c)
    else if u[0] == x.b then SamePair(u[1], u[2], x.a, x.c)
    else u[0] == x.c && SamePair(u[1], u[2], x.a, x.b)
  }

  predicate SamePair(p: real, q: real, r: real, s: real) { (p == r && q == s) || (p == s && q == r) }

  /** The three values of x in descending order. */
  method SortDescending(x: Vec) returns (u: seq<real>)
    ensures Descending(u) && Permutes(u, x)
  {
    var p, q, r := x.a, x.b, x.c;
    if p < q {
      p, q := q, p;
    }
    if q < r {
      q, r := r, q;
    }
    if p < q {
      p, q := q, p;
    }
    u := [p, q, r];
  }

  /** Cutting does not depend on the order of the values. */
  lemma CutSorted(x: Vec, u: seq<real>, theta: real)
    requires Permutes(u, x)
    ensures Sum(CutAll(x, theta)) == Cut(u[0], theta) + Cut(u[1], theta) + Cut(u[2], theta)
  {
    assert SamePair(u[1], u[2], x.b, x.c) ==>
      Cut(u[1], theta) + Cut(u[2], theta) == Cut(x.b, theta) + Cut(x.c, theta);
  }

  /** The sum of the first n values, less one. */
  function Excess(u: seq<real>, n: nat): real
    requires n <= |u|
  {
    if n == 0 then -1.0 else Excess(u, n - 1) + u[n - 1]
  }

  predicate Positive(u: seq<real>, j: nat)
    requires j < |u|
  {
    u[j] - Excess(u, j + 1) / (j + 1) as real > 0.0
  }

  /** Cutting the sorted values at the threshold of the last positive index leaves exactly one. */
  lemma ThresholdExact(u: seq<real>, rho: nat)
    requires Descending(u) && 1 <= rho <= 3 && Positive(u, rho - 1)
    requires forall j: nat :: rho <= j < 3 ==> !Positive(u, j)
    ensures var theta := Excess(u, rho) / rho as real;
            Cut(u[0], theta) + Cut(u[1], theta) + Cut(u[2], theta) == 1.0
  {
    assert Excess(u, 1) == u[0] - 1.0;
    assert Excess(u, 2) == u[0] + u[1] - 1.0;
    assert Excess(u, 3) == u[0] + u[1] + u[2] - 1.0;
    if rho == 1 {
      assert !Positive(u, 1);
    } else if rho == 2 {
      assert !Positive(u, 2);
    }
  }

  method Threshold(u: seq<real>) returns (theta: real)
    requires Descending(u)
    ensures Cut(u[0], theta) + Cut(u[1], theta) + Cut(u[2], theta) == 1.0
  {
    var n := 3;
    var cssv := new real[n];
    var s := 0.0;
    for j := 0 to n
      invariant s == Excess(u, j) + 1.0
      invariant forall k: nat :: k < j ==> cssv[k] == Excess(u, k + 1)
    {
      s := s + u[j];
      cssv[j] := s - 1.0;
    }
    var rho := 0;
    for j := 0 to n
      invariant 0 <= rho <= j
      invariant j > 0 ==> rho > 0 && Positive(u, rho - 1)
      invariant forall k: nat :: rho <= k < j ==> !Positive(u, k)
      invariant forall k: nat :: k < n ==> cssv[k] == Excess(u, k + 1)
    {
      assert j == 0 ==> Excess(u, 1) == u[0] - 1.0;
      if u[j] - cssv[j] / (j + 1) as real > 0.0 {
        rho := j + 1;
      }
    }
    if rho < 1 {
      rho := 1;
    }
    theta := cssv[rho - 1] / rho as real;
    ThresholdExact(u, rho);
  }

  method ProjectUnitSimplex3(x: Vec) returns (w: Vec)
    ensures Nearest(x, w, 0.0)
  {
    var u := SortDescending(x);
    var theta := Threshold(u);
    w := CutAll(x, theta);
    CutSorted(x, u, theta);
    CutNearest(x, theta, w);
  }

  // ----- weights with a floor -----

  /** A floor outside [0, 1/3) is replaced. */
  function Usable(floor: real): (f: real)
    ensures 0.0 <= f < 1.0 / 3.0
    ensures 0.0 <= floor < 1.0 / 3.0 ==> f == floor
  {
    if floor < 0.0 || floor >= 1.0 / 3.0 then 0.05 else floor
  }

  function Up(p: Vec, scale: real, f: real): Vec {
    Vec(Times(p.a, scale) + f, Times(p.b, scale) + f, Times(p.c, scale) + f)
  }

  function Down(v: Vec, scale: real, f: real): Vec
    requires scale > 0.0
  {
    Vec(Over(v.a - f, scale), Over(v.b - f, scale), Over(v.c - f, scale))
  }

  function Over(x: real, scale: real): (q: real)
    requires scale > 0.0
    ensures Times(q, scale) == x
    ensures x >= 0.0 ==> q >= 0.0
  {
    assert Times(x / scale, scale) == x;
    assert -(x / scale) > 0.0 ==> Times(-(x / scale), scale) > 0.0 by { TimesSign(-(x / scale), scale); }
    x / scale
  }

  lemma Linear(scale: real, p: real, q: real, r: real)
    ensures Times(p, scale) + Times(q, scale) + Times(r, scale) == Times(p + q + r, scale)
  {
  }

  lemma UpWeights(p: Vec, scale: real, f: real)
    requires Weights(p, 0.0) && 0.0 <= f && scale == 1.0 - 3.0 * f > 0.0
    ensures Weights(Up(p, scale, f), f)
  {
    Linear(scale, p.a, p.b, p.c);
    TimesSign(p.a, scale);
    TimesSign(p.b, scale);
    TimesSign(p.c, scale);
    assert Times(1.0, scale) == scale;
  }

  lemma DownWeights(y: Vec, scale: real, f: real)
    requires Weights(y, f) && 0.0 <= f && scale == 1.0 - 3.0 * f > 0.0
    ensures Weights(Down(y, scale, f), 0.0)
  {
    var p := Down(y, scale, f);
    Linear(scale, p.a, p.b, p.c);
    Cancel(p.a + p.b + p.c, scale);
  }

  lemma Cancel(x: real, scale: real)
    requires scale > 0.0 && Times(x, scale) == scale
    ensures x == 1.0
  {
    assert Times(x - 1.0, scale) == 0.0;
    TimesSign(x - 1.0, scale);
    TimesSign(1.0 - x, scale);
  }

  lemma UpDistance(p: Vec, q: Vec, scale: real, f: real)
    ensures Dist2(Up(p, scale, f), Up(q, scale, f)) == Times(Dist2(p, q), Square(scale))
  {
    ScaleSquare(p.a, q.a, scale);
    ScaleSquare(p.b, q.b, scale);
    ScaleSquare(p.c, q.c, scale);
    Linear(Square(scale), Square(p.a - q.a), Square(p.b - q.b), Square(p.c - q.c));
  }

  lemma ScaleSquare(p: real, q: real, scale: real)
    ensures Square(Times(p, scale) - Times(q, scale)) == Times(Square(p - q), Square(scale))
  {
    var d := p - q;
    assert Times(p, scale) - Times(q, scale) == d * scale;
    assert (d * scale) * (d * scale) == (d * d) * (scale * scale);
  }

  /** Projecting onto the simplex and back to the weights with a floor projects onto those. */
  lemma UpNearest(v: Vec, p: Vec, scale: real, f: real)
    requires 0.0 <= f && scale == 1.0 - 3.0 * f > 0.0 && Nearest(Down(v, scale, f), p, 0.0)
    ensures Nearest(v, Up(p, scale, f), f)
  {
    UpWeights(p, scale, f);
    forall y: Vec | Weights(y, f)
      ensures Dist2(v, y) >= Dist2(v, Up(p, scale, f)) + Dist2(Up(p, scale, f), y)
    {
      DownWeights(y, scale, f);
      UpNearer(v, p, y, scale, f);
    }
  }

  lemma UpNearer(v: Vec, p: Vec, y: Vec, scale: real, f: real)
    requires scale > 0.0
    requires var x, q := Down(v, scale, f), Down(y, scale, f); Dist2(x, q) >= Dist2(x, p) + Dist2(p, q)
    ensures Dist2(v, y) >= Dist2(v, Up(p, scale, f)) + Dist2(Up(p, scale, f), y)
  {
    var x, q := Down(v, scale, f), Down(y, scale, f);
    assert v == Up(x, scale, f) && y == Up(q, scale, f);
    UpDistance(x, q, scale, f);
    UpDistance(x, p, scale, f);
    UpDistance(p, q, scale, f);
    ScaleSum(Dist2(x, q), Dist2(x, p), Dist2(p, q), Square(scale));
  }

  lemma ScaleSum(a: real, b: real, c: real, t: real)
    requires t >= 0.0 && a >= b + c
    ensures Times(a, t) >= Times(b, t) + Times(c, t)
  {
    TimesSign(a - b - c, t);
    assert Times(a - b - c, t) == Times(a, t) - Times(b, t) - Times(c, t);
  }

  method ProjectToBoundedSimplex3(v: Vec, floor: real) returns (w: Vec)
    ensures Nearest(v, w, Usable(floor))
  {
    var third := 1.0 / 3.0;
    var f := floor;
    if f < 0.0 || f >= third {
      f := 0.05;
    }
    var ssum := 1.0 - 3.0 * f;
    if ssum <= 0.0 {
      w := Vec(third, third, third);
    } else {
      var p := ProjectUnitSimplex3(Down(v, ssum, f));
      w := Up(p, ssum, f);
      UpNearest(v, p, ssum, f);
    }
  }
}
