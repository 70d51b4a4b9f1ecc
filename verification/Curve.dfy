/** The affine group operation of y^2 = x^3 + 7 that the Jacobian routines must compute. */
module Curve {
  import opened Congruence
  import opened Limbs
  import opened FieldPower

  datatype Point = Infinity | Affine(x: int, y: int)

  predicate OnCurve(p: Point)
  {
    p.Infinity? || FieldEq(p.y * p.y, p.x * p.x * p.x + 7)
  }

  /** The same point, whatever representatives its coordinates have. */
  predicate Same(p: Point, q: Point)
  {
    match (p, q)
    case (Infinity, Infinity) => true
    case (Affine(x1, y1), Affine(x2, y2)) => FieldEq(x1, x2) && FieldEq(y1, y2)
    case _ => false
  }

  function ThirdX(lam: int, x1: int, x2: int): int
  {
    lam * lam - x1 - x2
  }

  function ThirdY(lam: int, x1: int, x2: int, y1: int): int
  {
    lam * (x1 - ThirdX(lam, x1, x2)) - y1
  }

  function ChordSlope(x1: int, y1: int, x2: int, y2: int): int
  {
    (y2 - y1) * Inv(x2 - x1)
  }

  function TangentSlope(x: int, y: int): int
  {
    3 * (x * x) * Inv(2 * y)
  }

  function Double(p: Point): Point
  {
    match p
    case Infinity => Infinity
    case Affine(x, y) =>
      if FieldEq(y, 0) then Infinity
      else var lam := TangentSlope(x, y); Affine(ThirdX(lam, x, x), ThirdY(lam, x, x, y))
  }

  function Add(p: Point, q: Point): Point
  {
    match (p, q)
    case (Infinity, _) => q
    case (_, Infinity) => p
    case (Affine(x1, y1), Affine(x2, y2)) =>
      if FieldEq(x1, x2) then
        if FieldEq(y1, y2) then Double(p) else Infinity
      else
        var lam := ChordSlope(x1, y1, x2, y2);
        Affine(ThirdX(lam, x1, x2), ThirdY(lam, x1, x2, y1))
  }

  function Negate(p: Point): Point
  {
    match p
    case Infinity => Infinity
    case Affine(x, y) => Affine(x, -y)
  }

  /** A slope times its run is its rise. */
  lemma SlopeTimesRun(rise: int, run: int)
    requires Fermat() && !FieldEq(run, 0)
    ensures FieldEq((rise * Inv(run)) * run, rise)
  {
    InvertsNonzero(run);
    CongMul(PRIME, rise, rise, Inv(run) * run, 1);
    assert (rise * Inv(run)) * run == rise * (Inv(run) * run);
  }

  lemma DifferNonzero(a: int, b: int)
    ensures FieldEq(a, b) <==> FieldEq(b - a, 0)
  {
    if FieldEq(a, b) {
      CongAdd(PRIME, b, a, a, a);
    }
    if FieldEq(b - a, 0) {
      CongAdd(PRIME, b - a, 0, a, a);
    }
  }

  lemma TwoNonzero(y: int)
    requires Fermat() && !FieldEq(y, 0)
    ensures !FieldEq(2 * y, 0)
  {
    if FieldEq(2 * y, 0) {
      NoZeroDivisors(2, y);
      CongSmall(PRIME, 2, 0);
    }
  }

  // The cubic minus the square of the line through the point of abscissa x1 with slope lam.
  function LineGap(x: int, x1: int, y1: int, lam: int): int
  {
    x * x * x + 7 - (y1 + lam * (x - x1)) * (y1 + lam * (x - x1))
  }

  function GapSlope(x1: int, x2: int, y1: int, lam: int): int
  {
    var x3 := ThirdX(lam, x1, x2);
    -2 * lam * (y1 - lam * x1) - (x1 * x2 + x1 * x3 + x2 * x3)
  }

  function GapConst(x1: int, x2: int, y1: int, lam: int): int
  {
    7 - (y1 - lam * x1) * (y1 - lam * x1) + x1 * x2 * ThirdX(lam, x1, x2)
  }

  /** Because x1 + x2 + x3 is the square of the slope, the gap differs from
      (x - x1)(x - x2)(x - x3) by a linear term. */
  lemma GapIsLinear(x: int, x1: int, x2: int, y1: int, lam: int)
    ensures LineGap(x, x1, y1, lam)
         == (x - x1) * (x - x2) * (x - ThirdX(lam, x1, x2)) + GapSlope(x1, x2, y1, lam) * x + GapConst(x1, x2, y1, lam)
  {
    var x3 := ThirdX(lam, x1, x2);
    var c := y1 - lam * x1;
    assert y1 + lam * (x - x1) == c + lam * x;
    GapExpand(x, c, lam);
    CubicExpand(x, x1, x2, x3);
    assert (x1 + x2 + x3) * (x * x) == lam * lam * (x * x);
    assert GapSlope(x1, x2, y1, lam) * x == -2 * lam * c * x - (x1 * x2 + x1 * x3 + x2 * x3) * x;
  }

  lemma GapExpand(x: int, c: int, lam: int)
    ensures (c + lam * x) * (c + lam * x) == c * c + 2 * lam * c * x + lam * lam * (x * x)
  {
    assert (c + lam * x) * (c + lam * x) == c * c + 2 * (c * (lam * x)) + (lam * x) * (lam * x);
    assert c * (lam * x) == lam * c * x;
    assert (lam * x) * (lam * x) == lam * lam * (x * x);
  }

  lemma CubicExpand(x: int, a: int, b: int, c: int)
    ensures (x - a) * (x - b) * (x - c)
         == x * x * x - (a + b + c) * (x * x) + (a * b + a * c + b * c) * x - a * b * c
  {
    QuadraticExpand(x, a, b);
    QuadraticTimes(x, a + b, a * b, c);
    MiddleTerm(a, b, c);
  }

  lemma QuadraticExpand(x: int, a: int, b: int)
    ensures (x - a) * (x - b) == x * x - (a + b) * x + a * b
  {
  }

  lemma MiddleTerm(a: int, b: int, c: int)
    ensures a * b + (a + b) * c == a * b + a * c + b * c
  {
  }

  lemma QuadraticTimes(x: int, s: int, t: int, c: int)
    ensures (x * x - s * x + t) * (x - c) == x * x * x - (s + c) * (x * x) + (t + s * c) * x - t * c
  {
    Distribute(x * x, s * x, t, x, c);
    assert (s * x) * x == s * (x * x);
    assert (s * x) * c == (s * c) * x;
    assert (s + c) * (x * x) == s * (x * x) + (x * x) * c;
    assert (t + s * c) * x == t * x + (s * c) * x;
  }

  lemma Distribute(p: int, q: int, r: int, x: int, c: int)
    ensures (p - q + r) * (x - c) == p * x - q * x + r * x - p * c + q * c - r * c
  {
  }

  /** A linear term that vanishes at two different points, or that has slope zero and vanishes at
      one point, vanishes everywhere. */
  lemma LinearVanishes(u: int, v: int, a: int, x: int)
    requires FieldEq(u, 0) && FieldEq(u * a + v, 0)
    ensures FieldEq(u * x + v, 0)
  {
    CongMul(PRIME, u, 0, x - a, x - a);
    CongAdd(PRIME, u * (x - a), 0, u * a + v, 0);
    assert u * (x - a) + (u * a + v) == u * x + v;
  }

  lemma VanishingSlope(u: int, v: int, a: int, b: int)
    requires Fermat() && !FieldEq(a, b)
    requires FieldEq(u * a + v, 0) && FieldEq(u * b + v, 0)
    ensures FieldEq(u, 0)
  {
    CongAdd(PRIME, u * b + v, 0, u * a + v, 0);
    assert (u * b + v) - (u * a + v) == u * (b - a);
    NoZeroDivisors(u, b - a);
    DifferNonzero(a, b);
  }

  /** A vanishing gap at x3 puts the reflected third point on the curve. */
  lemma ThirdOnCurve(x1: int, x2: int, y1: int, lam: int)
    requires FieldEq(LineGap(ThirdX(lam, x1, x2), x1, y1, lam), 0)
    ensures OnCurve(Affine(ThirdX(lam, x1, x2), ThirdY(lam, x1, x2, y1)))
  {
    var x3, y3 := ThirdX(lam, x1, x2), ThirdY(lam, x1, x2, y1);
    assert y1 + lam * (x3 - x1) == -y3;
    assert (-y3) * (-y3) == y3 * y3;
    DifferNonzero(y3 * y3, x3 * x3 * x3 + 7);
  }

  lemma GapAtThird(x1: int, x2: int, y1: int, lam: int)
    requires FieldEq(GapSlope(x1, x2, y1, lam), 0)
    requires FieldEq(GapSlope(x1, x2, y1, lam) * x1 + GapConst(x1, x2, y1, lam), 0)
    ensures FieldEq(LineGap(ThirdX(lam, x1, x2), x1, y1, lam), 0)
  {
    var x3 := ThirdX(lam, x1, x2);
    GapIsLinear(x3, x1, x2, y1, lam);
    LinearVanishes(GapSlope(x1, x2, y1, lam), GapConst(x1, x2, y1, lam), x1, x3);
    assert (x3 - x1) * (x3 - x2) * (x3 - x3) == 0;
  }

  lemma GapAtFirst(x1: int, x2: int, y1: int, lam: int)
    requires OnCurve(Affine(x1, y1))
    ensures FieldEq(GapSlope(x1, x2, y1, lam) * x1 + GapConst(x1, x2, y1, lam), 0)
  {
    GapIsLinear(x1, x1, x2, y1, lam);
    assert (x1 - x1) * (x1 - x2) * (x1 - ThirdX(lam, x1, x2)) == 0;
    assert LineGap(x1, x1, y1, lam) == x1 * x1 * x1 + 7 - y1 * y1;
    DifferNonzero(y1 * y1, x1 * x1 * x1 + 7);
  }

  lemma GapAtSecond(x1: int, x2: int, y1: int, y2: int, lam: int)
    requires OnCurve(Affine(x2, y2)) && FieldEq(y1 + lam * (x2 - x1), y2)
    ensures FieldEq(GapSlope(x1, x2, y1, lam) * x2 + GapConst(x1, x2, y1, lam), 0)
  {
    GapIsLinear(x2, x1, x2, y1, lam);
    assert (x2 - x1) * (x2 - x2) * (x2 - ThirdX(lam, x1, x2)) == 0;
    var z := y1 + lam * (x2 - x1);
    CongMul(PRIME, z, y2, z, y2);
    DifferNonzero(z * z, x2 * x2 * x2 + 7);
  }

  /** The derivative of the gap at a point where the line is tangent. */
  lemma TangentGapSlope(x: int, y: int, lam: int)
    requires FieldEq(lam * (2 * y), 3 * (x * x))
    ensures FieldEq(GapSlope(x, x, y, lam), 0)
  {
    var x3 := ThirdX(lam, x, x);
    assert GapSlope(x, x, y, lam) == 3 * (x * x) - lam * (2 * y) by {
      assert x * x3 == x * (lam * lam) - 2 * (x * x);
      assert 2 * lam * (y - lam * x) == lam * (2 * y) - 2 * (x * (lam * lam));
    }
    DifferNonzero(lam * (2 * y), 3 * (x * x));
  }

  lemma ChordSlopeMeets(x1: int, y1: int, x2: int, y2: int)
    requires Fermat() && !FieldEq(x1, x2)
    ensures FieldEq(y1 + ChordSlope(x1, y1, x2, y2) * (x2 - x1), y2)
  {
    DifferNonzero(x1, x2);
    SlopeTimesRun(y2 - y1, x2 - x1);
    CongAdd(PRIME, y1, y1, ChordSlope(x1, y1, x2, y2) * (x2 - x1), y2 - y1);
  }

  lemma DoubleOnCurve(p: Point)
    requires Fermat() && OnCurve(p)
    ensures OnCurve(Double(p))
  {
    hide Inv;
    if p.Affine? && !FieldEq(p.y, 0) {
      var lam := TangentSlope(p.x, p.y);
      TwoNonzero(p.y);
      SlopeTimesRun(3 * (p.x * p.x), 2 * p.y);
      TangentGapSlope(p.x, p.y, lam);
      GapAtFirst(p.x, p.x, p.y, lam);
      GapAtThird(p.x, p.x, p.y, lam);
      ThirdOnCurve(p.x, p.x, p.y, lam);
    }
  }

  /** The curve is closed under chord and tangent. */
  lemma AddOnCurve(p: Point, q: Point)
    requires Fermat() && OnCurve(p) && OnCurve(q)
    ensures OnCurve(Add(p, q))
  {
    hide Inv;
    DoubleOnCurve(p);
    if p.Affine? && q.Affine? && !FieldEq(p.x, q.x) {
      var lam := ChordSlope(p.x, p.y, q.x, q.y);
      ChordSlopeMeets(p.x, p.y, q.x, q.y);
      GapAtFirst(p.x, q.x, p.y, lam);
      GapAtSecond(p.x, q.x, p.y, q.y, lam);
      VanishingSlope(GapSlope(p.x, q.x, p.y, lam), GapConst(p.x, q.x, p.y, lam), p.x, q.x);
      GapAtThird(p.x, q.x, p.y, lam);
      ThirdOnCurve(p.x, q.x, p.y, lam);
    }
  }

  /** Points of the curve with the same abscissa are equal or opposite, so the infinite result of
      `Add` is the right one. */
  lemma SameAbscissa(p: Point, q: Point)
    requires Fermat() && OnCurve(p) && OnCurve(q) && p.Affine? && q.Affine? && FieldEq(p.x, q.x)
    ensures Same(p, q) || Same(p, Negate(q))
  {
    CongMul(PRIME, p.x, q.x, p.x, q.x);
    CongMul(PRIME, p.x * p.x, q.x * q.x, p.x, q.x);
    CongAdd(PRIME, p.x * p.x * p.x, q.x * q.x * q.x, 7, 7);
    EqualSquares(p.y, q.y);
  }

  /** The origin is not on the curve. */
  lemma NotOrigin(p: Point)
    requires OnCurve(p) && p.Affine?
    ensures !(FieldEq(p.x, 0) && FieldEq(p.y, 0))
  {
    if FieldEq(p.x, 0) && FieldEq(p.y, 0) {
      CongMul(PRIME, p.y, 0, p.y, 0);
      CongMul(PRIME, p.x, 0, p.x, 0);
      CongMul(PRIME, p.x * p.x, 0, p.x, 0);
      CongAdd(PRIME, p.x * p.x * p.x, 0, 7, 7);
      CongSmall(PRIME, 0, 7);
    }
  }
}
