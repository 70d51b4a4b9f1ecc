/** The polynomials that the Jacobian routines evaluate, and why they represent the affine sum. */
module JacobianFormulas {
  import opened Congruence
  import opened Limbs
  import opened Field
  import opened Curve

  /** (x, y, z) stands for the affine point (x / z^2, y / z^3).  Infinity is a zero z, or zero x and y. */
  ghost predicate Represents(x: Limbs, y: Limbs, z: Limbs, p: Point)
  {
    match p
    case Infinity => IsZero(z) || (IsZero(x) && IsZero(y))
    case Affine(u, v) =>
      && !FieldEq(Val(z), 0)
      && FieldEq(Val(x), u * (Val(z) * Val(z)))
      && FieldEq(Val(y), v * (Val(z) * Val(z) * Val(z)))
  }

  /** A point of the curve in coordinates that are safe operands. */
  ghost predicate Jac(x: Limbs, y: Limbs, z: Limbs, p: Point)
  {
    Mag(x, 2) && Mag(y, 2) && Mag(z, 2) && OnCurve(p) && Represents(x, y, z, p)
  }

  // ---- doubling ----

  function DoubleD(x: int, y: int): int
  {
    2 * (-(x * x + (y * y) * (y * y)) + (y * y + x) * (y * y + x))
  }

  function DoubleX(x: int, y: int): int
  {
    -(2 * DoubleD(x, y)) + (3 * (x * x)) * (3 * (x * x))
  }

  function DoubleY(x: int, y: int): int
  {
    -(8 * ((y * y) * (y * y))) + (-DoubleX(x, y) + DoubleD(x, y)) * (3 * (x * x))
  }

  lemma DoubleDIs(x: int, y: int)
    ensures DoubleD(x, y) == 4 * (x * (y * y))
  {
    var b := y * y;
    assert (b + x) * (b + x) == b * b + 2 * (x * b) + x * x;
  }

  /** The doubling polynomials with the tangent slope put in for 3x^2. */
  lemma DoubleExact(u: int, v: int, z: int, lam: int, e: int, t: int)
    requires t == v * (z * z * z * z) && e == 2 * (lam * t)
    ensures e * e - 8 * (u * (t * t)) == ThirdX(lam, u, u) * ((2 * t) * (2 * t))
    ensures e * (4 * (u * (t * t)) - ThirdX(lam, u, u) * ((2 * t) * (2 * t))) - 8 * (v * (t * t * t))
         == ThirdY(lam, u, u, v) * ((2 * t) * (2 * t) * (2 * t))
  {
    var q, c, x3 := t * t, t * t * t, ThirdX(lam, u, u);
    SquareOfProduct(lam, t);
    TwiceSquared(lam * t);
    TwiceSquared(t);
    ThreeTerms(lam * lam, u, u, q);
    assert x3 * (4 * q) == 4 * (x3 * q);
    assert (u + u) * q == 2 * (u * q);
    assert 4 * (u * q) - 4 * (x3 * q) == 4 * ((u - x3) * q) by { TwoTerms(u, x3, q); }
    TangentProduct(lam, t, u - x3);
    TwoTerms(lam * (u - x3), v, c);
    assert (4 * q) * (2 * t) == 8 * c;
  }

  lemma TwoTerms(a: int, b: int, k: int)
    ensures (a - b) * k == a * k - b * k
  {
  }

  lemma SquareOfProduct(a: int, b: int)
    ensures (a * b) * (a * b) == (a * a) * (b * b)
  {
  }

  lemma TangentProduct(lam: int, t: int, d: int)
    ensures (2 * (lam * t)) * (4 * (d * (t * t))) == 8 * ((lam * d) * (t * t * t))
  {
    var s := t * t;
    assert (lam * t) * (d * s) == (lam * d) * (t * s);
    assert t * s == s * t;
  }

  /** Powers of z in the operands of a doubling. */
  lemma DoubleScaling(u: int, v: int, z: int, x: int, y: int, t: int)
    requires x == u * (z * z) && y == v * (z * z * z) && t == v * (z * z * z * z)
    ensures x * (y * y) == u * (t * t)
    ensures (y * y) * (y * y) == v * (t * t * t)
    ensures y * z == t
    ensures x * x == (u * u) * (z * z * z * z)
  {
    var s := z * z;
    assert z * z * z * z == s * s;
    assert z * z * z == s * z;
    SquareOfProduct(u, s);
    assert y * z == v * ((s * z) * z) == v * (s * s);
    assert y * y == (v * v) * (s * s * s) by {
      SquareOfProduct(v, s * z);
      assert (s * z) * (s * z) == (s * s) * (z * z);
    }
    assert t * t == (v * v) * (s * s * (s * s)) by { SquareOfProduct(v, s * s); }
    assert x * (y * y) == (u * s) * ((v * v) * (s * s * s));
    RegroupX(u, v * v, s);
    RegroupY(v, s);
  }

  lemma RegroupX(u: int, w: int, s: int)
    ensures (u * s) * (w * (s * s * s)) == u * (w * (s * s * (s * s)))
  {
    var c := s * s * s;
    assert (u * s) * (w * c) == u * (w * (s * c));
    assert s * c == s * s * (s * s);
  }

  lemma RegroupY(v: int, s: int)
    ensures ((v * v) * (s * s * s)) * ((v * v) * (s * s * s))
         == v * ((v * (s * s)) * (v * (s * s)) * (v * (s * s)))
  {
    var w, c, q := v * v, s * s * s, s * s;
    SquareOfProduct(w, c);
    SquareOfProduct(v, q);
    assert (v * q) * (v * q) * (v * q) == (w * (q * q)) * (v * q) == (w * v) * ((q * q) * q);
    assert c * c == (q * q) * q by {
      assert c == q * s;
      SquareOfProduct(q, s);
    }
    assert w * w == v * (w * v);
    assert v * ((w * v) * (c * c)) == (v * (w * v)) * (c * c);
  }

  /** The value of a doubling: its coordinates are those of the tangent point, scaled by
      powers of 2 * y * z. */
  lemma DoubleValue(u: int, v: int, z: int, lam: int, x: int, y: int)
    requires FieldEq(lam * (2 * v), 3 * (u * u))
    requires x == u * (z * z) && y == v * (z * z * z)
    ensures FieldEq(DoubleX(x, y), ThirdX(lam, u, u) * ((2 * (y * z)) * (2 * (y * z))))
    ensures FieldEq(DoubleY(x, y), ThirdY(lam, u, u, v) * ((2 * (y * z)) * (2 * (y * z)) * (2 * (y * z))))
  {
    hide FieldEq, ThirdX, ThirdY;
    var t := v * (z * z * z * z);
    var e, d := 2 * (lam * t), 4 * (u * (t * t));
    DoubleScaling(u, v, z, x, y, t);
    DoubleDIs(x, y);
    var raw := 3 * (x * x);
    assert FieldEq(raw, e) by {
      FieldRefl(z * z * z * z);
      FieldMul(lam * (2 * v), 3 * (u * u), z * z * z * z, z * z * z * z);
      TangentScaled(lam, v, u * u, z * z * z * z);
      FieldSym(e, raw);
    }
    FieldRefl(d);
    FieldRefl(2 * d);
    FieldMul(raw, e, raw, e);
    FieldSub(raw * raw, e * e, 2 * d, 2 * d);
    assert DoubleX(x, y) == raw * raw - 2 * d;
    DoubleExact(u, v, z, lam, e, t);
    var x3 := ThirdX(lam, u, u) * ((2 * t) * (2 * t));
    assert FieldEq(DoubleX(x, y), x3);
    FieldSub(d, d, DoubleX(x, y), x3);
    FieldMul(d - DoubleX(x, y), d - x3, raw, e);
    var c := v * (t * t * t);
    FieldRefl(8 * c);
    FieldSub((d - DoubleX(x, y)) * raw, (d - x3) * e, 8 * c, 8 * c);
    assert DoubleY(x, y) == (d - DoubleX(x, y)) * raw - 8 * c;
    assert (d - x3) * e == e * (d - x3);
  }

  lemma TangentScaled(lam: int, v: int, s: int, z4: int)
    ensures (lam * (2 * v)) * z4 == 2 * (lam * (v * z4))
    ensures (3 * s) * z4 == 3 * (s * z4)
  {
  }

  // Congruence in the field, with the modulus out of sight.

  lemma FieldMul(a: int, b: int, c: int, d: int)
    requires FieldEq(a, b) && FieldEq(c, d)
    ensures FieldEq(a * c, b * d)
  {
    CongMul(PRIME, a, b, c, d);
  }

  lemma FieldSub(a: int, b: int, c: int, d: int)
    requires FieldEq(a, b) && FieldEq(c, d)
    ensures FieldEq(a - c, b - d)
  {
    CongAdd(PRIME, a, b, c, d);
  }

  lemma FieldSym(a: int, b: int)
    ensures FieldEq(a, b) <==> FieldEq(b, a)
  {
  }

  lemma FieldTrans(a: int, b: int, c: int)
    requires FieldEq(a, b) && FieldEq(b, c)
    ensures FieldEq(a, c)
  {
  }

  lemma FieldRefl(a: int)
    ensures FieldEq(a, a)
  {
  }

  // ---- addition ----

  /** With both points over a common denominator w, and h, r as the routines compute them,
      r^2 - j - 2v and its companion are the chord point scaled by powers of 2 w h. */
  lemma ChordExact(x1: int, y1: int, x2: int, lam: int, w: int, u1: int, h: int, s1: int, r: int)
    requires u1 == x1 * (w * w) && h == (x2 - x1) * (w * w)
    requires s1 == y1 * (w * w * w) && r == 2 * (lam * (h * w))
    ensures r * r - (h * (4 * (h * h)) + 2 * (u1 * (4 * (h * h))))
         == ThirdX(lam, x1, x2) * ((2 * (w * h)) * (2 * (w * h)))
    ensures (u1 * (4 * (h * h)) - ThirdX(lam, x1, x2) * ((2 * (w * h)) * (2 * (w * h)))) * r
              - 2 * (s1 * (h * (4 * (h * h))))
         == ThirdY(lam, x1, x2, y1) * ((2 * (w * h)) * (2 * (w * h)) * (2 * (w * h)))
  {
    ChordX(x1, x2, lam, w, h);
    SquareOfProduct(w, h);
    TwiceSquared(w * h);
    ChordY(x1, ThirdX(lam, x1, x2), y1, lam, w, h);
  }

  lemma TwiceSquared(p: int)
    ensures (2 * p) * (2 * p) == 4 * (p * p)
  {
  }

  lemma ChordX(x1: int, x2: int, lam: int, w: int, h: int)
    requires h == (x2 - x1) * (w * w)
    ensures (2 * (lam * (h * w))) * (2 * (lam * (h * w))) - (h * (4 * (h * h)) + 2 * ((x1 * (w * w)) * (4 * (h * h))))
         == ThirdX(lam, x1, x2) * ((2 * (w * h)) * (2 * (w * h)))
  {
    var q, g, m := w * w, h * h, lam * lam;
    SquareOfProduct(w, h);
    SquareOfProduct(h, w);
    SquareOfProduct(lam, h * w);
    TwiceSquared(w * h);
    TwiceSquared(lam * (h * w));
    ChordXLinear(x1, x2, q, g, h);
    assert (m - x1 - x2) * (q * g) == m * (q * g) - (x1 + x2) * (q * g) by { ThreeTerms(m, x1, x2, q * g); }
    assert g * q == q * g;
  }

  lemma ThreeTerms(a: int, b: int, c: int, k: int)
    ensures (a - b - c) * k == a * k - (b + c) * k
  {
  }

  lemma ChordXLinear(x1: int, x2: int, q: int, g: int, h: int)
    requires h == (x2 - x1) * q
    ensures h * (4 * g) + 2 * ((x1 * q) * (4 * g)) == 4 * ((x1 + x2) * (q * g))
  {
    assert h + 2 * (x1 * q) == (x1 + x2) * q;
    assert (h + 2 * (x1 * q)) * g == h * g + 2 * ((x1 * q) * g);
    assert ((x1 + x2) * q) * g == (x1 + x2) * (q * g);
  }

  lemma ChordY(x1: int, x3: int, y1: int, lam: int, w: int, h: int)
    ensures ((x1 * (w * w)) * (4 * (h * h)) - x3 * (4 * ((w * w) * (h * h)))) * (2 * (lam * (h * w)))
              - 2 * ((y1 * (w * w * w)) * (h * (4 * (h * h))))
         == (lam * (x1 - x3) - y1) * ((2 * (w * h)) * (2 * (w * h)) * (2 * (w * h)))
  {
    var q, g, p := w * w, h * h, w * h;
    var c := p * p * p;
    assert p * p == q * g by { SquareOfProduct(w, h); }
    assert (2 * p) * (2 * p) * (2 * p) == 8 * c;
    assert (x1 * q) * (4 * g) - x3 * (4 * (q * g)) == 4 * ((x1 - x3) * (p * p)) by {
      assert (x1 * q) * g == x1 * (q * g);
      assert (x1 - x3) * (p * p) == x1 * (p * p) - x3 * (p * p);
    }
    assert h * w == p;
    TangentProduct(lam, p, x1 - x3);
    assert (y1 * (w * w * w)) * (h * (4 * g)) == 4 * (y1 * c) by { RegroupCubes(y1, w, h); }
    assert (lam * (x1 - x3) - y1) * c == (lam * (x1 - x3)) * c - y1 * c;
  }

  lemma RegroupCubes(y: int, w: int, h: int)
    ensures (y * (w * w * w)) * (h * (4 * (h * h))) == 4 * (y * ((w * h) * (w * h) * (w * h)))
  {
    var a, b := w * w * w, h * h * h;
    assert h * (4 * (h * h)) == 4 * b;
    assert (y * a) * (4 * b) == 4 * (y * (a * b));
    SquareOfProduct(w, h);
    assert (w * h) * (w * h) * (w * h) == ((w * w) * (h * h)) * (w * h) == a * b;
  }

  /** The same for the formulas of equal denominators, scaled by powers of w a. */
  lemma SameZExact(x1: int, y1: int, x2: int, lam: int, w: int, a: int, c: int)
    requires a == (x2 - x1) * (w * w) && c == lam * (a * w)
    ensures c * c - ((x1 * (w * w)) * (a * a) + (x2 * (w * w)) * (a * a))
         == ThirdX(lam, x1, x2) * ((w * a) * (w * a))
    ensures ((x1 * (w * w)) * (a * a) - ThirdX(lam, x1, x2) * ((w * a) * (w * a))) * c
              - (y1 * (w * w * w)) * ((x2 * (w * w)) * (a * a) - (x1 * (w * w)) * (a * a))
         == ThirdY(lam, x1, x2, y1) * ((w * a) * (w * a) * (w * a))
  {
    var q, g, p := w * w, a * a, w * a;
    var x3 := ThirdX(lam, x1, x2);
    SquareOfProduct(w, a);
    assert a * w == p;
    SquareOfProduct(lam, p);
    Associate(x1, q, g);
    Associate(x2, q, g);
    ThreeTerms(lam * lam, x1, x2, p * p);
    assert (x1 + x2) * (p * p) == x1 * (p * p) + x2 * (p * p);
    TwoTerms(x1, x3, p * p);
    LinearProduct(lam, p, x1 - x3);
    assert (x2 * q) * g - (x1 * q) * g == a * g by {
      TwoTerms(x2, x1, q * g);
      Associate(x2 - x1, q, g);
    }
    PlainCubes(y1, w, a);
    TwoTerms(lam * (x1 - x3), y1, p * p * p);
  }

  lemma Associate(a: int, b: int, c: int)
    ensures (a * b) * c == a * (b * c)
  {
  }

  lemma LinearProduct(lam: int, p: int, d: int)
    ensures (d * (p * p)) * (lam * p) == (lam * d) * (p * p * p)
  {
    var s := p * p;
    assert (d * s) * (lam * p) == (lam * d) * (s * p);
  }

  lemma PlainCubes(y: int, w: int, h: int)
    ensures (y * (w * w * w)) * (h * (h * h)) == y * ((w * h) * (w * h) * (w * h))
  {
    var a, b := w * w * w, h * h * h;
    assert h * (h * h) == b;
    assert (y * a) * b == y * (a * b);
    SquareOfProduct(w, h);
    assert (w * h) * (w * h) * (w * h) == ((w * w) * (h * h)) * (w * h) == a * b;
  }

  /** Coordinates over a common denominator. */
  lemma CommonDenominator(x: int, y: int, z1: int, z2: int)
    ensures (x * (z1 * z1)) * (z2 * z2) == x * ((z1 * z2) * (z1 * z2))
    ensures ((y * (z1 * z1 * z1)) * (z2 * z2)) * z2 == y * ((z1 * z2) * (z1 * z2) * (z1 * z2))
  {
    SquareOfProduct(z1, z2);
    Associate(x, z1 * z1, z2 * z2);
    FourFactors(y, z1 * z1, z1, z2 * z2, z2);
  }

  lemma FourFactors(y: int, a: int, z1: int, b: int, z2: int)
    ensures ((y * (a * z1)) * b) * z2 == y * ((a * b) * (z1 * z2))
  {
    assert (y * (a * z1)) * b == y * ((a * b) * z1);
    assert (y * ((a * b) * z1)) * z2 == y * ((a * b) * (z1 * z2));
  }
}
