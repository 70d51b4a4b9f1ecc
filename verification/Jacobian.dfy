/** Point addition and doubling in Jacobian coordinates, through pointers that may alias. */
module Jacobian {
  import opened Congruence
  import opened Limbs
  import opened Field
  import opened FieldPower
  import opened Curve
  import opened JacobianFormulas

  /** A field value behind a pointer.  Temporaries, whose address never escapes, are plain word
      vectors instead. */
  class FieldVal {
    var n: Limbs

    constructor (n: Limbs)
      ensures this.n == n
    {
      this.n := n;
    }
  }

  /** An operand that is not an output may be normalized, but keeps its residue. */
  ghost predicate Kept(after: Limbs, before: Limbs)
  {
    Mag(after, 2) && FieldEq(Val(after), Val(before)) && (IsZero(before) ==> IsZero(after))
  }

  /** Outputs may alias inputs, but only coordinate by coordinate. */
  predicate Roles(xs: set<FieldVal>, ys: set<FieldVal>, zs: set<FieldVal>)
  {
    xs !! ys !! zs
  }

  lemma RepSelf(a: Limbs, m: nat)
    requires Mag(a, m)
    ensures Rep(a, m, Val(a))
  {
  }

  lemma KeptSelf(a: Limbs)
    requires Mag(a, 2)
    ensures Kept(a, a)
  {
  }

  lemma KeptTrans(a: Limbs, b: Limbs, c: Limbs)
    requires Kept(b, a) && Kept(c, b)
    ensures Kept(c, a)
  {
  }

  lemma RepChange(a: Limbs, m: nat, v: int, w: int)
    requires Rep(a, m, v) && FieldEq(v, w)
    ensures Rep(a, m, w)
  {
  }

  /** Operands that were only normalized still represent the same point. */
  lemma KeptJac(x: Limbs, y: Limbs, z: Limbs, x': Limbs, y': Limbs, z': Limbs, p: Point)
    requires Jac(x, y, z, p) && Kept(x', x) && Kept(y', y) && Kept(z', z)
    ensures Jac(x', y', z', p)
  {
    if p.Affine? {
      var a, b := Val(z), Val(z');
      CongMul(PRIME, b, a, b, a);
      CongMul(PRIME, b * b, a * a, b, a);
      CongMul(PRIME, p.x, p.x, b * b, a * a);
      CongMul(PRIME, p.y, p.y, b * b * b, a * a * a);
    }
  }

  method Norm(n: Limbs, ghost m: nat, ghost v: int) returns (r: Limbs)
    requires m <= 63 && Rep(n, m, v)
    ensures Normal(r) && Rep(r, 1, v)
  {
    MagBudget(n, m);
    r := Normalize(n);
    NormalMag(r);
  }

  /** `Normalize` in place. */
  method NormalizeInPlace(f: FieldVal, ghost m: nat, ghost v: int)
    requires m <= 2 && Rep(f.n, m, v)
    modifies f
    ensures Normal(f.n) && Rep(f.n, 1, v) && Kept(f.n, old(f.n))
  {
    var r := Norm(f.n, m, v);
    MagMono(r, 1, 2);
    ZeroTest(r);
    f.n := r;
  }

  /** Coordinates with the right values represent the point. */
  lemma RepresentsBy(x: Limbs, y: Limbs, z: Limbs, p: Point, s: int)
    requires p.Affine? && OnCurve(p) && !FieldEq(s, 0)
    requires Rep(x, 1, p.x * (s * s)) && Rep(y, 1, p.y * (s * s * s)) && Rep(z, 1, s)
    ensures Jac(x, y, z, p)
  {
    var a := Val(z);
    CongMul(PRIME, a, s, a, s);
    CongMul(PRIME, a * a, s * s, a, s);
    CongMul(PRIME, p.x, p.x, a * a, s * s);
    CongMul(PRIME, p.y, p.y, a * a * a, s * s * s);
  }

  /** The tail of both doubling routines, after z3 has been computed. */
  method DoubleTail(x1: FieldVal, y1: FieldVal, x3: FieldVal, y3: FieldVal, ghost x: int, ghost y: int)
    requires Roles({x1, x3}, {y1, y3}, {})
    requires Rep(x1.n, 2, x) && Rep(y1.n, 2, y)
    modifies x3, y3
    ensures Rep(x3.n, 1, DoubleX(x, y)) && Rep(y3.n, 1, DoubleY(x, y))
  {
    hide Rep, Mag, Normal, FieldEq, Val;
    ghost var va, vb := x * x, y * y;
    ghost var vc := vb * vb;
    var a := SquareVal(x1.n, 2, x);
    var b := SquareVal(y1.n, 2, y);
    var c := SquareVal(b, 1, vb);
    b := Add2(b, x1.n, 1, 2, vb, x);
    b := SquareVal(b, 3, vb + x);
    var d := Add2(a, c, 1, 1, va, vc);
    d := NegateVal(d, 2, va + vc);
    d := Add2(d, b, 3, 1, -(va + vc), (vb + x) * (vb + x));
    d := MulInt(d, 2, 4, -(va + vc) + (vb + x) * (vb + x));
    ghost var vd := DoubleD(x, y);
    var e := MulInt(a, 3, 1, va);
    var f := SquareVal(e, 3, 3 * va);
    var t := MulInt(d, 2, 8, vd);
    t := NegateVal(t, 16, 2 * vd);
    t := Add2(t, f, 17, 1, -(2 * vd), (3 * va) * (3 * va));
    x3.n := t;
    f := NegateVal(x3.n, 18, DoubleX(x, y));
    f := Add2(f, d, 19, 8, -DoubleX(x, y), vd);
    f := Norm(f, 27, -DoubleX(x, y) + vd);
    t := MulInt(c, 8, 1, vc);
    t := NegateVal(t, 8, 8 * vc);
    f := Mul2(f, e, 1, 3, -DoubleX(x, y) + vd, 3 * va);
    y3.n := Add2(t, f, 9, 1, -(8 * vc), (-DoubleX(x, y) + vd) * (3 * va));
    x3.n := Norm(x3.n, 18, DoubleX(x, y));
    y3.n := Norm(y3.n, 10, DoubleY(x, y));
  }

  method DoubleZ1EqualsOne(x1: FieldVal, y1: FieldVal, x3: FieldVal, y3: FieldVal, z3: FieldVal, ghost x: int,
      ghost y: int)
    requires Roles({x1, x3}, {y1, y3}, {z3})
    requires Rep(x1.n, 2, x) && Rep(y1.n, 2, y)
    modifies x3, y3, z3
    ensures Rep(x3.n, 1, DoubleX(x, y)) && Rep(y3.n, 1, DoubleY(x, y))
    ensures Rep(z3.n, 1, 2 * y) && Normal(z3.n)
  {
    hide Rep, Mag, Normal, FieldEq, Val;
    var t := MulInt(y1.n, 2, 2, y);
    z3.n := t;
    DoubleTail(x1, y1, x3, y3, x, y);
    z3.n := Norm(z3.n, 4, 2 * y);
  }

  method DoubleGeneric(x1: FieldVal, y1: FieldVal, z1: FieldVal, x3: FieldVal, y3: FieldVal, z3: FieldVal,
                       ghost x: int, ghost y: int, ghost z: int)
    requires Roles({x1, x3}, {y1, y3}, {z1, z3})
    requires Rep(x1.n, 2, x) && Rep(y1.n, 2, y) && Rep(z1.n, 1, z)
    modifies x3, y3, z3
    ensures Rep(x3.n, 1, DoubleX(x, y)) && Rep(y3.n, 1, DoubleY(x, y))
    ensures Rep(z3.n, 1, 2 * (y * z)) && Normal(z3.n)
  {
    hide Rep, Mag, Normal, FieldEq, Val;
    var t := Mul2(y1.n, z1.n, 2, 1, y, z);
    z3.n := MulInt(t, 2, 1, y * z);
    DoubleTail(x1, y1, x3, y3, x, y);
    z3.n := Norm(z3.n, 2, 2 * (y * z));
  }

  /** What the doubled coordinates represent. */
  lemma DoubledRepresents(x: Limbs, y: Limbs, z: Limbs, p: Point, s: int, vx: int, vy: int)
    requires Fermat() && OnCurve(p) && p.Affine? && !FieldEq(s, 0)
    requires vx == p.x * (s * s) && vy == p.y * (s * s * s)
    requires Rep(x, 1, DoubleX(vx, vy)) && Rep(y, 1, DoubleY(vx, vy))
    requires Rep(z, 1, 2 * (vy * s)) && Normal(z)
    ensures Jac(x, y, z, Double(p))
  {
    hide Inv, Normal, Rep, Mag, Val, Fermat, DoubleX, DoubleY, Jac, OnCurve, FieldEq;
    if FieldEq(p.y, 0) {
      InfiniteDouble(x, y, z, p.y, s, vy, DoubleX(vx, vy), DoubleY(vx, vy));
    } else {
      var lam := TangentSlope(p.x, p.y);
      TwoNonzero(p.y);
      SlopeTimesRun(3 * (p.x * p.x), 2 * p.y);
      DoubleValue(p.x, p.y, s, lam, vx, vy);
      DoubleOnCurve(p);
      var t := 2 * (vy * s);
      assert !FieldEq(t, 0) by { ScaleNonzero(p.y, s, vy); }
      RepChange(x, 1, DoubleX(vx, vy), ThirdX(lam, p.x, p.x) * (t * t));
      RepChange(y, 1, DoubleY(vx, vy), ThirdY(lam, p.x, p.x, p.y) * (t * t * t));
      RepresentsBy(x, y, z, Double(p), t);
    }
  }

  lemma InfiniteDouble(x: Limbs, y: Limbs, z: Limbs, v: int, s: int, vy: int, a: int, b: int)
    requires vy == v * (s * s * s) && FieldEq(v, 0)
    requires Rep(x, 1, a) && Rep(y, 1, b) && Rep(z, 1, 2 * (vy * s)) && Normal(z)
    ensures Jac(x, y, z, Infinity)
  {
    hide Val, Mag, Normal;
    MagMono(x, 1, 2);
    MagMono(y, 1, 2);
    MagMono(z, 1, 2);
    var c := s * s * s;
    CongMul(PRIME, v, 0, c, c);
    CongMul(PRIME, vy, 0, s, s);
    CongMul(PRIME, 2, 2, vy * s, 0);
    ZeroTest(z);
  }

  lemma ScaleNonzero(v: int, s: int, vy: int)
    requires Fermat() && !FieldEq(v, 0) && !FieldEq(s, 0) && vy == v * (s * s * s)
    ensures !FieldEq(2 * (vy * s), 0)
  {
    hide FieldEq, Fermat;
    if FieldEq(2 * (vy * s), 0) {
      TwoNonzero2(vy * s);
      NoZeroDivisors(vy, s);
      NoZeroDivisors(v, s * s * s);
      NoZeroDivisors(s * s, s);
      NoZeroDivisors(s, s);
    }
  }

  lemma TwoNonzero2(y: int)
    requires Fermat() && FieldEq(2 * y, 0)
    ensures FieldEq(y, 0)
  {
    if !FieldEq(y, 0) {
      TwoNonzero(y);
    }
  }

  lemma OneVal()
    ensures Val(SetInt(1)) == 1 && Normal(SetInt(1)) && Mag(SetInt(1), 1)
  {
  }

  /** What the coordinates of a represented point are. */
  lemma JacMeans(x: Limbs, y: Limbs, z: Limbs, p: Point)
    requires Fermat() && Jac(x, y, z, p)
    ensures Mag(x, 2) && Mag(y, 2) && Mag(z, 2) && OnCurve(p)
    ensures p.Affine? ==> !FieldEq(Val(z), 0)
    ensures p.Affine? ==> Rep(x, 2, p.x * (Val(z) * Val(z)))
    ensures p.Affine? ==> Rep(y, 2, p.y * (Val(z) * Val(z) * Val(z)))
    ensures p.Infinity? <==> IsZero(z) || (IsZero(x) && IsZero(y))
  {
    hide Val, Mag, FieldEq, Fermat, OnCurve, IsZero;
    if p.Affine? {
      FieldRefl(0);
      IsZeroVal(x);
      IsZeroVal(y);
      IsZeroVal(z);
      if IsZero(x) && IsZero(y) {
        ScaledZero(p.x, p.y, Val(z));
        NotOrigin(p);
      }
    }
  }

  /** A point with both scaled coordinates zero would be the origin. */
  lemma ScaledZero(u: int, v: int, s: int)
    requires Fermat() && !FieldEq(s, 0)
    ensures FieldEq(0, u * (s * s)) ==> FieldEq(u, 0)
    ensures FieldEq(0, v * (s * s * s)) ==> FieldEq(v, 0)
  {
    hide FieldEq, Fermat;
    FieldSym(0, u * (s * s));
    FieldSym(0, v * (s * s * s));
    if FieldEq(s * s, 0) {
      NoZeroDivisors(s, s);
    }
    if FieldEq(s * s * s, 0) {
      NoZeroDivisors(s * s, s);
    }
    if FieldEq(0, u * (s * s)) {
      NoZeroDivisors(u, s * s);
    }
    if FieldEq(0, v * (s * s * s)) {
      NoZeroDivisors(v, s * s * s);
    }
  }

  lemma ZeroCoordinate(x: Limbs, y: Limbs, z: Limbs, p: Point)
    requires Fermat() && Jac(x, y, z, p) && (IsZero(y) || IsZero(z))
    ensures Double(p) == Infinity
  {
    JacMeans(x, y, z, p);
    if p.Affine? {
      IsZeroVal(y);
      ScaledZero(p.x, p.y, Val(z));
    }
  }

  lemma ZeroJac()
    ensures Jac(SetInt(0), SetInt(0), SetInt(0), Infinity)
  {
  }

  lemma OneScale(z: Limbs, before: Limbs, vy: int)
    requires z == SetInt(1) && Kept(z, before)
    ensures FieldEq(2 * vy, 2 * (vy * Val(before)))
  {
    OneVal();
    hide Val;
    CongMul(PRIME, 2 * vy, 2 * vy, Val(z), Val(before));
    assert (2 * vy) * Val(before) == 2 * (vy * Val(before));
  }

  /** The doubling of a point with any z: `doubleJacobian`. */
  method DoubleJacobian(x1: FieldVal, y1: FieldVal, z1: FieldVal, x3: FieldVal, y3: FieldVal, z3: FieldVal,
      ghost p: Point)
    requires Roles({x1, x3}, {y1, y3}, {z1, z3})
    requires Fermat() && Jac(x1.n, y1.n, z1.n, p)
    modifies z1, x3, y3, z3
    ensures Jac(x3.n, y3.n, z3.n, Double(p))
    ensures z1 != z3 ==> Kept(z1.n, old(z1.n))
  {
    hide Rep, Mag, Normal, FieldEq, Val, Jac, Kept, Fermat, OnCurve, Double, DoubleX, DoubleY, IsZero, SetInt;
    JacMeans(x1.n, y1.n, z1.n, p);
    KeptSelf(z1.n);
    if IsZero(y1.n) || IsZero(z1.n) {
      ZeroCoordinate(x1.n, y1.n, z1.n, p);
      x3.n := SetInt(0);
      y3.n := SetInt(0);
      z3.n := SetInt(0);
      ZeroJac();
      return;
    }
    ghost var s := Val(z1.n);
    RepSelf(z1.n, 2);
    NormalizeInPlace(z1, 2, s);
    ghost var vx, vy := p.x * (s * s), p.y * (s * s * s);
    if z1.n == SetInt(1) {
      OneScale(z1.n, old(z1.n), vy);
      DoubleZ1EqualsOne(x1, y1, x3, y3, z3, vx, vy);
      RepChange(z3.n, 1, 2 * vy, 2 * (vy * s));
    } else {
      DoubleGeneric(x1, y1, z1, x3, y3, z3, vx, vy, s);
    }
    DoubledRepresents(x3.n, y3.n, z3.n, p, s, vx, vy);
  }
}
