/** The four addition routines and their dispatcher. */
module JacobianAdd {
  import opened Congruence
  import opened Limbs
  import opened Field
  import opened FieldPower
  import opened Curve
  import opened JacobianFormulas
  import opened Jacobian

  /** Comparing normalized words compares residues. */
  lemma WordsDecide(a: Limbs, b: Limbs, u: int, v: int)
    requires Normal(a) && Normal(b) && Rep(a, 1, u) && Rep(b, 1, v)
    ensures a == b <==> FieldEq(u, v)
  {
    hide Val, Mag, Normal;
    NormalUnique(a, b);
  }

  /** A nonzero common factor does not change whether two residues are equal. */
  lemma ScaledEqual(u: int, v: int, s: int)
    requires Fermat() && !FieldEq(s, 0)
    ensures FieldEq(u * s, v * s) <==> FieldEq(u, v)
  {
    hide Fermat;
    if FieldEq(u, v) {
      CongMul(PRIME, u, v, s, s);
    }
    if FieldEq(u * s, v * s) {
      DifferNonzero(u * s, v * s);
      assert v * s - u * s == (v - u) * s;
      NoZeroDivisors(v - u, s);
      DifferNonzero(u, v);
    }
  }

  lemma ProductNonzero(a: int, b: int)
    requires Fermat() && !FieldEq(a, 0) && !FieldEq(b, 0)
    ensures !FieldEq(a * b, 0)
  {
    if FieldEq(a * b, 0) {
      NoZeroDivisors(a, b);
    }
  }

  lemma PowersNonzero(s: int)
    requires Fermat() && !FieldEq(s, 0)
    ensures !FieldEq(s * s, 0) && !FieldEq(s * s * s, 0)
  {
    ProductNonzero(s, s);
    ProductNonzero(s * s, s);
  }

  /** The ordinate of the second point, written with the slope of the chord. */
  lemma OnChord(y: Limbs, p: Point, q: Point, m: nat, s: int)
    requires Fermat() && p.Affine? && q.Affine? && !FieldEq(p.x, q.x)
    requires Rep(y, m, q.y * s)
    ensures Rep(y, m, (p.y + ChordSlope(p.x, p.y, q.x, q.y) * (q.x - p.x)) * s)
  {
    hide Rep, Fermat, FieldEq, ChordSlope;
    var c := p.y + ChordSlope(p.x, p.y, q.x, q.y) * (q.x - p.x);
    ChordSlopeMeets(p.x, p.y, q.x, q.y);
    FieldRefl(s);
    FieldMul(c, q.y, s, s);
    FieldSym(c * s, q.y * s);
    RepChange(y, m, q.y * s, c * s);
  }

  /** The sum of points with different abscissas is the chord point, and it is on the curve. */
  lemma AddIsChord(p: Point, q: Point)
    requires Fermat() && OnCurve(p) && OnCurve(q) && p.Affine? && q.Affine? && !FieldEq(p.x, q.x)
    ensures var lam := ChordSlope(p.x, p.y, q.x, q.y);
            Add(p, q) == Affine(ThirdX(lam, p.x, q.x), ThirdY(lam, p.x, q.x, p.y)) && OnCurve(Add(p, q))
  {
    hide Fermat, OnCurve, ChordSlope, ThirdX, ThirdY, FieldEq;
    AddOnCurve(p, q);
  }

  /** Equal abscissas: the routines double or return infinity, as `Add` does. */
  method SetInfinity(x3: FieldVal, y3: FieldVal, z3: FieldVal)
    requires Roles({x3}, {y3}, {z3})
    modifies x3, y3, z3
    ensures Jac(x3.n, y3.n, z3.n, Infinity)
  {
    x3.n := SetInt(0);
    y3.n := SetInt(0);
    z3.n := SetInt(0);
    ZeroJac();
  }

  lemma OneDenominator(x: Limbs, y: Limbs, p: Point)
    requires Fermat() && Jac(x, y, SetInt(1), p) && p.Affine?
    ensures Rep(x, 2, p.x) && Rep(y, 2, p.y) && OnCurve(p)
  {
    JacMeans(x, y, SetInt(1), p);
    OneVal();
  }

  lemma ChordOfOnesValue(x1: int, y1: int, x2: int, lam: int, h: int, r: int)
    requires h == -x1 + x2 && r == 2 * (-y1 + (y1 + lam * (x2 - x1)) * 1)
    ensures OnesX(x1, h, r) == ThirdX(lam, x1, x2) * ((2 * h) * (2 * h))
    ensures OnesY(x1, y1, h, r) == ThirdY(lam, x1, x2, y1) * ((2 * h) * (2 * h) * (2 * h))
  {
    hide ThirdX, ThirdY;
    ChordExact(x1, y1, x2, lam, 1, x1, h, y1, r);
    var j := h * (4 * (h * h));
    assert j * y1 == y1 * j;
  }

  /** Both points have z = 1: `addZ1AndZ2EqualsOne`. */
  method AddZ1AndZ2EqualsOne(x1: FieldVal, y1: FieldVal, z1: FieldVal, x2: FieldVal, y2: FieldVal,
                             x3: FieldVal, y3: FieldVal, z3: FieldVal, ghost p: Point, ghost q: Point)
    requires Roles({x1, x2, x3}, {y1, y2, y3}, {z1, z3})
    requires Fermat() && p.Affine? && q.Affine? && z1.n == SetInt(1)
    requires Jac(x1.n, y1.n, SetInt(1), p) && Jac(x2.n, y2.n, SetInt(1), q)
    modifies x1, y1, z1, x2, y2, x3, y3, z3
    ensures Jac(x3.n, y3.n, z3.n, Add(p, q))
    ensures x1 != x3 ==> Kept(x1.n, old(x1.n))
    ensures y1 != y3 ==> Kept(y1.n, old(y1.n))
    ensures z1 != z3 ==> Kept(z1.n, old(z1.n))
    ensures x2 != x3 ==> Kept(x2.n, old(x2.n))
    ensures y2 != y3 ==> Kept(y2.n, old(y2.n))
  {
    hide Rep, Mag, Normal, FieldEq, Val, Jac, Kept, Fermat, OnCurve, Add, Double, ChordSlope, ThirdX, ThirdY, OnesX,
        OnesY, SameZX, SameZY, IsZero, SetInt;
    OneDenominator(x1.n, y1.n, p);
    OneDenominator(x2.n, y2.n, q);
    OneVal();
    NormalizeFour(x1, y1, x2, y2, 2, p.x, p.y, q.x, q.y);
    MagMono(z1.n, 1, 2);
    KeptSelf(z1.n);
    WordsDecide(x1.n, x2.n, p.x, q.x);
    WordsDecide(y1.n, y2.n, p.y, q.y);
    SumCases(p, q);
    if x1.n == x2.n {
      if y1.n == y2.n {
        KeptJacOne(x1.n, y1.n, z1.n, p);
        DoubleJacobian(x1, y1, z1, x3, y3, z3, p);
        return;
      }
      SetInfinity(x3, y3, z3);
      return;
    }
    ghost var lam := ChordSlope(p.x, p.y, q.x, q.y);
    assert q.y * 1 == q.y;
    OnChord(y2.n, p, q, 1, 1);
    ghost var vh, vr := ChordOfOnes(x1, y1, x2, y2, x3, y3, z3, p.x, p.y, q.x, (p.y + lam * (q.x - p.x)) * 1);
    ChordOfOnesValue(p.x, p.y, q.x, lam, vh, vr);
    DifferNonzero(p.x, q.x);
    TwoNonzero(vh);
    AddIsChord(p, q);
    RepresentsBy(x3.n, y3.n, z3.n, Add(p, q), 2 * vh);
  }

  function OnesX(x1: int, h: int, r: int): int
  {
    r * r + -(h * (4 * (h * h))) + -(2 * (x1 * (4 * (h * h))))
  }

  function OnesY(x1: int, y1: int, h: int, r: int): int
  {
    (x1 * (4 * (h * h)) + -OnesX(x1, h, r)) * r + -(2 * ((h * (4 * (h * h))) * y1))
  }

  /** The formulas of `addZ1AndZ2EqualsOne` on normalized operands. */
  method ChordOfOnes(x1: FieldVal, y1: FieldVal, x2: FieldVal, y2: FieldVal, x3: FieldVal, y3: FieldVal, z3: FieldVal,
                     ghost vx1: int, ghost vy1: int, ghost vx2: int, ghost vy2: int)
    returns (ghost vh: int, ghost vr: int)
    requires Roles({x1, x2, x3}, {y1, y2, y3}, {z3})
    requires Rep(x1.n, 1, vx1) && Rep(y1.n, 1, vy1) && Rep(x2.n, 1, vx2) && Rep(y2.n, 1, vy2)
    modifies x3, y3, z3
    ensures vh == -vx1 + vx2 && vr == 2 * (-vy1 + vy2)
    ensures Rep(x3.n, 1, OnesX(vx1, vh, vr)) && Rep(y3.n, 1, OnesY(vx1, vy1, vh, vr)) && Rep(z3.n, 1, 2 * vh)
  {
    hide Rep, Mag, Normal, FieldEq, Val;
    vh, vr := -vx1 + vx2, 2 * (-vy1 + vy2);
    ghost var vi := 4 * (vh * vh);
    ghost var vj, vv := vh * vi, vx1 * vi;
    var h := NegateVal(x1.n, 1, vx1);
    h := Add2(h, x2.n, 2, 1, -vx1, vx2);
    var i := SquareVal(h, 3, vh);
    i := MulInt(i, 4, 1, vh * vh);
    var j := Mul2(h, i, 3, 4, vh, vi);
    var r := NegateVal(y1.n, 1, vy1);
    r := Add2(r, y2.n, 2, 1, -vy1, vy2);
    r := MulInt(r, 2, 3, -vy1 + vy2);
    var v := Mul2(x1.n, i, 1, 4, vx1, vi);
    var negJ := NegateVal(j, 1, vj);
    var neg2V := MulInt(v, 2, 1, vv);
    neg2V := NegateVal(neg2V, 2, 2 * vv);
    ghost var vx := OnesX(vx1, vh, vr);
    var t := SquareVal(r, 6, vr);
    t := Add2(t, negJ, 1, 2, vr * vr, -vj);
    x3.n := Add2(t, neg2V, 3, 3, vr * vr + -vj, -(2 * vv));
    var negX3 := NegateVal(x3.n, 6, vx);
    j := Mul2(j, y1.n, 1, 1, vj, vy1);
    j := MulInt(j, 2, 1, vj * vy1);
    j := NegateVal(j, 2, 2 * (vj * vy1));
    t := Add2(v, negX3, 1, 7, vv, -vx);
    t := Mul2(t, r, 8, 6, vv + -vx, vr);
    y3.n := Add2(t, j, 1, 3, (vv + -vx) * vr, -(2 * (vj * vy1)));
    z3.n := MulInt(h, 2, 3, vh);
    x3.n := Norm(x3.n, 6, vx);
    y3.n := Norm(y3.n, 4, OnesY(vx1, vy1, vh, vr));
    z3.n := Norm(z3.n, 6, 2 * vh);
  }

  lemma SumCases(p: Point, q: Point)
    requires p.Affine? && q.Affine?
    ensures FieldEq(p.x, q.x) && FieldEq(p.y, q.y) ==> Add(p, q) == Double(p)
    ensures FieldEq(p.x, q.x) && !FieldEq(p.y, q.y) ==> Add(p, q) == Infinity
  {
  }

  /** The four normalizations that two of the routines start with. */
  method NormalizeFour(x1: FieldVal, y1: FieldVal, x2: FieldVal, y2: FieldVal, ghost m: nat,
                       ghost a: int, ghost b: int, ghost c: int, ghost d: int)
    requires {x1, x2} !! {y1, y2}
    requires m == 2 && Rep(x1.n, m, a) && Rep(y1.n, m, b) && Rep(x2.n, m, c) && Rep(y2.n, m, d)
    modifies x1, y1, x2, y2
    ensures Normal(x1.n) && Normal(y1.n) && Normal(x2.n) && Normal(y2.n)
    ensures Rep(x1.n, 1, a) && Rep(y1.n, 1, b) && Rep(x2.n, 1, c) && Rep(y2.n, 1, d)
    ensures Kept(x1.n, old(x1.n)) && Kept(y1.n, old(y1.n)) && Kept(x2.n, old(x2.n)) && Kept(y2.n, old(y2.n))
  {
    hide *;
    RepMag(x1.n, m, a);
    RepMag(x2.n, m, c);
    RepMag(y1.n, m, b);
    RepMag(y2.n, m, d);
    KeptSelf(x2.n);
    KeptSelf(y2.n);
    NormalizeInPlace(x1, 2, a);
    ghost var x := x1.n;
    NormalizeInPlace(y1, 2, b);
    ghost var y := y1.n;
    RepStill(x2.n, old(x2.n), m, c);
    ghost var u := x2.n;
    NormalizeInPlace(x2, 2, c);
    KeptTrans(old(x2.n), u, x2.n);
    if x1 == x2 {
      KeptTrans(old(x1.n), x, x1.n);
    }
    RepStill(y2.n, old(y2.n), m, d);
    ghost var v := y2.n;
    NormalizeInPlace(y2, 2, d);
    KeptTrans(old(y2.n), v, y2.n);
    if y1 == y2 {
      KeptTrans(old(y1.n), y, y1.n);
    }
    NormalRep(x1.n, old(x1.n), m, a);
    NormalRep(y1.n, old(y1.n), m, b);
  }

  lemma RepMag(a: Limbs, m: nat, v: int)
    requires Rep(a, m, v)
    ensures Mag(a, m)
  {
  }

  lemma RepStill(a: Limbs, before: Limbs, m: nat, v: int)
    requires m == 2 && Rep(before, m, v) && Kept(a, before)
    ensures Rep(a, m, v)
  {
  }

  lemma NormalRep(a: Limbs, before: Limbs, m: nat, v: int)
    requires Normal(a) && Kept(a, before) && Rep(before, m, v)
    ensures Rep(a, 1, v)
  {
    NormalMag(a);
  }

  lemma KeptJacOne(x: Limbs, y: Limbs, z: Limbs, p: Point)
    requires p.Affine? && OnCurve(p)
    requires Rep(x, 1, p.x) && Rep(y, 1, p.y) && z == SetInt(1)
    ensures Jac(x, y, z, p)
  {
    OneVal();
    CongSmall(PRIME, 1, 0);
    RepresentsBy(x, y, z, p, 1);
  }

  // ---- equal z ----

  lemma ChordOfSameZValue(x1: int, y1: int, x2: int, lam: int, w: int, vx1: int, vy1: int, vx2: int, vy2: int, a: int,
      c: int)
    requires vx1 == x1 * (w * w) && vx2 == x2 * (w * w)
    requires vy1 == y1 * (w * w * w) && vy2 == (y1 + lam * (x2 - x1)) * (w * w * w)
    requires a == -vx1 + vx2 && c == -vy1 + vy2
    ensures SameZX(vx1, vx2, a, c) == ThirdX(lam, x1, x2) * ((w * a) * (w * a))
    ensures SameZY(vx1, vy1, vx2, a, c) == ThirdY(lam, x1, x2, y1) * ((w * a) * (w * a) * (w * a))
  {
    hide ThirdX, ThirdY;
    TwoTerms(x2, x1, w * w);
    var k := w * w * w;
    assert vy2 == vy1 + (lam * (x2 - x1)) * k;
    assert (lam * (x2 - x1)) * k == lam * (a * w) by { SlopeScaled(lam, x2 - x1, w); }
    SameZExact(x1, y1, x2, lam, w, a, c);
  }

  lemma SlopeScaled(lam: int, d: int, w: int)
    ensures (lam * d) * (w * w * w) == lam * ((d * (w * w)) * w)
  {
    var q := w * w;
    assert (lam * d) * (q * w) == lam * ((d * q) * w);
  }

  /** Both points have the same z: `addZ1EqualsZ2`. */
  method AddZ1EqualsZ2(x1: FieldVal, y1: FieldVal, z1: FieldVal, x2: FieldVal, y2: FieldVal,
                       x3: FieldVal, y3: FieldVal, z3: FieldVal, ghost p: Point, ghost q: Point)
    requires Roles({x1, x2, x3}, {y1, y2, y3}, {z1, z3})
    requires Fermat() && p.Affine? && q.Affine? && Mag(z1.n, 1)
    requires Jac(x1.n, y1.n, z1.n, p) && Jac(x2.n, y2.n, z1.n, q)
    modifies x1, y1, z1, x2, y2, x3, y3, z3
    ensures Jac(x3.n, y3.n, z3.n, Add(p, q))
    ensures x1 != x3 ==> Kept(x1.n, old(x1.n))
    ensures y1 != y3 ==> Kept(y1.n, old(y1.n))
    ensures z1 != z3 ==> Kept(z1.n, old(z1.n))
    ensures x2 != x3 ==> Kept(x2.n, old(x2.n))
    ensures y2 != y3 ==> Kept(y2.n, old(y2.n))
  {
    hide Rep, Mag, Normal, FieldEq, Val, Jac, Kept, Fermat, OnCurve, Add, Double, ChordSlope, ThirdX, ThirdY, OnesX,
        OnesY, SameZX, SameZY, IsZero, SetInt;
    JacMeans(x1.n, y1.n, z1.n, p);
    JacMeans(x2.n, y2.n, z1.n, q);
    ghost var s := Val(z1.n);
    ghost var vx1, vy1, vx2 := p.x * (s * s), p.y * (s * s * s), q.x * (s * s);
    NormalizeFour(x1, y1, x2, y2, 2, vx1, vy1, vx2, q.y * (s * s * s));
    KeptSelf(z1.n);
    RepSelf(z1.n, 1);
    WordsDecide(x1.n, x2.n, vx1, vx2);
    WordsDecide(y1.n, y2.n, vy1, q.y * (s * s * s));
    PowersNonzero(s);
    ScaledEqual(p.x, q.x, s * s);
    ScaledEqual(p.y, q.y, s * s * s);
    SumCases(p, q);
    if x1.n == x2.n {
      if y1.n == y2.n {
        RepresentsBy(x1.n, y1.n, z1.n, p, s);
        DoubleJacobian(x1, y1, z1, x3, y3, z3, p);
        return;
      }
      SetInfinity(x3, y3, z3);
      return;
    }
    ghost var lam := ChordSlope(p.x, p.y, q.x, q.y);
    OnChord(y2.n, p, q, 1, s * s * s);
    ghost var vy2 := (p.y + lam * (q.x - p.x)) * (s * s * s);
    ghost var va, vc := ChordOfSameZ(x1, y1, z1, x2, y2, x3, y3, z3, vx1, vy1, vx2, vy2, s);
    ChordOfSameZValue(p.x, p.y, q.x, lam, s, vx1, vy1, vx2, vy2, va, vc);
    DifferNonzero(vx1, vx2);
    ProductNonzero(s, va);
    AddIsChord(p, q);
    RepresentsBy(x3.n, y3.n, z3.n, Add(p, q), s * va);
  }

  function SameZX(x1: int, x2: int, a: int, c: int): int
  {
    -(x1 * (a * a) + x2 * (a * a)) + c * c
  }

  function SameZY(x1: int, y1: int, x2: int, a: int, c: int): int
  {
    -(y1 * (x2 * (a * a) + -(x1 * (a * a)))) + (x1 * (a * a) + -SameZX(x1, x2, a, c)) * c
  }

  /** The formulas of `addZ1EqualsZ2` on normalized operands. */
  method ChordOfSameZ(x1: FieldVal, y1: FieldVal, z1: FieldVal, x2: FieldVal, y2: FieldVal,
                      x3: FieldVal, y3: FieldVal, z3: FieldVal,
                      ghost vx1: int, ghost vy1: int, ghost vx2: int, ghost vy2: int, ghost s: int)
    returns (ghost va: int, ghost vc: int)
    requires Roles({x1, x2, x3}, {y1, y2, y3}, {z1, z3})
    requires Rep(x1.n, 1, vx1) && Rep(y1.n, 1, vy1) && Rep(x2.n, 1, vx2) && Rep(y2.n, 1, vy2) && Rep(z1.n, 1, s)
    modifies x3, y3, z3
    ensures va == -vx1 + vx2 && vc == -vy1 + vy2
    ensures Rep(x3.n, 1, SameZX(vx1, vx2, va, vc)) && Rep(y3.n, 1, SameZY(vx1, vy1, vx2, va, vc)) &&
        Rep(z3.n, 1, s * va)
  {
    hide Rep, Mag, Normal, FieldEq, Val;
    va, vc := -vx1 + vx2, -vy1 + vy2;
    ghost var vb := va * va;
    ghost var ve, vf := vx1 * vb, vx2 * vb;
    var negX1 := NegateVal(x1.n, 1, vx1);
    var negY1 := NegateVal(y1.n, 1, vy1);
    var a := Add2(negX1, x2.n, 2, 1, -vx1, vx2);
    var b := SquareVal(a, 3, va);
    var c := Add2(negY1, y2.n, 2, 1, -vy1, vy2);
    var d := SquareVal(c, 3, vc);
    var e := Mul2(x1.n, b, 1, 1, vx1, vb);
    var negE := NegateVal(e, 1, ve);
    var f := Mul2(x2.n, b, 1, 1, vx2, vb);
    ghost var vx := SameZX(vx1, vx2, va, vc);
    var t := Add2(e, f, 1, 1, ve, vf);
    RepWiden(t, 2, 3, ve + vf);
    t := NegateVal(t, 3, ve + vf);
    x3.n := Add2(t, d, 4, 1, -(ve + vf), vc * vc);
    var negX3 := NegateVal(x3.n, 5, vx);
    negX3 := Norm(negX3, 6, -vx);
    f := Add2(f, negE, 1, 2, vf, -ve);
    t := Mul2(y1.n, f, 1, 3, vy1, vf + -ve);
    RepWiden(t, 1, 3, vy1 * (vf + -ve));
    y3.n := NegateVal(t, 3, vy1 * (vf + -ve));
    e := Add2(e, negX3, 1, 1, ve, -vx);
    e := Mul2(e, c, 2, 3, ve + -vx, vc);
    y3.n := Add2(y3.n, e, 4, 1, -(vy1 * (vf + -ve)), (ve + -vx) * vc);
    z3.n := Mul2(z1.n, a, 1, 3, s, va);
    x3.n := Norm(x3.n, 5, vx);
    y3.n := Norm(y3.n, 5, SameZY(vx1, vy1, vx2, va, vc));
  }

  lemma RepWiden(a: Limbs, m: nat, k: nat, v: int)
    requires Rep(a, m, v) && m <= k
    ensures Rep(a, k, v)
  {
    MagMono(a, m, k);
  }

  // ---- different z ----

  function MixedX(u1: int, h: int, r: int): int
  {
    -(2 * (u1 * (4 * (h * h))) + h * (4 * (h * h))) + r * r
  }

  function MixedY(u1: int, s1: int, h: int, r: int): int
  {
    -(2 * (s1 * (h * (4 * (h * h))))) + (u1 * (4 * (h * h)) + -MixedX(u1, h, r)) * r
  }

  lemma MixedValue(x1: int, y1: int, x2: int, lam: int, w: int, u1: int, u2: int, s1: int, s2: int, h: int, r: int)
    requires u1 == x1 * (w * w) && u2 == x2 * (w * w)
    requires s1 == y1 * (w * w * w) && s2 == (y1 + lam * (x2 - x1)) * (w * w * w)
    requires h == u2 + -u1 && r == 2 * (s2 + -s1)
    ensures MixedX(u1, h, r) == ThirdX(lam, x1, x2) * ((2 * (w * h)) * (2 * (w * h)))
    ensures MixedY(u1, s1, h, r) == ThirdY(lam, x1, x2, y1) * ((2 * (w * h)) * (2 * (w * h)) * (2 * (w * h)))
  {
    hide ThirdX, ThirdY;
    TwoTerms(x2, x1, w * w);
    var k := w * w * w;
    assert s2 == s1 + (lam * (x2 - x1)) * k;
    SlopeScaled(lam, x2 - x1, w);
    ChordExact(x1, y1, x2, lam, w, u1, h, s1, r);
  }

  /** The part that `addZ2EqualsOne` and `addGeneric` share, from h and i to x3 and y3. */
  method ChordTail(u1: Limbs, s1: Limbs, s2: Limbs, h: Limbs, i: Limbs, x3: FieldVal, y3: FieldVal,
                   ghost vu1: int, ghost vs1: int, ghost vs2: int, ghost vh: int) returns (ghost vr: int)
    requires x3 != y3
    requires Rep(u1, 1, vu1) && Rep(s1, 1, vs1) && Rep(s2, 1, vs2) && Rep(h, 3, vh) && Rep(i, 4, 4 * (vh * vh))
    modifies x3, y3
    ensures vr == 2 * (vs2 + -vs1)
    ensures Rep(x3.n, 1, MixedX(vu1, vh, vr)) && Rep(y3.n, 1, MixedY(vu1, vs1, vh, vr))
  {
    hide Rep, Mag, Normal, FieldEq, Val;
    vr := 2 * (vs2 + -vs1);
    ghost var vi := 4 * (vh * vh);
    ghost var vj, vv := vh * vi, vu1 * vi;
    var j := Mul2(h, i, 3, 4, vh, vi);
    var negS1 := NegateVal(s1, 1, vs1);
    var r := Add2(s2, negS1, 1, 2, vs2, -vs1);
    r := MulInt(r, 2, 3, vs2 + -vs1);
    var rr := SquareVal(r, 6, vr);
    var v := Mul2(u1, i, 1, 4, vu1, vi);
    x3.n := MulInt(v, 2, 1, vv);
    x3.n := Add2(x3.n, j, 2, 1, 2 * vv, vj);
    x3.n := NegateVal(x3.n, 3, 2 * vv + vj);
    x3.n := Add2(x3.n, rr, 4, 1, -(2 * vv + vj), vr * vr);
    ghost var vx := MixedX(vu1, vh, vr);
    var negX3 := NegateVal(x3.n, 5, vx);
    y3.n := Mul2(s1, j, 1, 1, vs1, vj);
    y3.n := MulInt(y3.n, 2, 1, vs1 * vj);
    y3.n := NegateVal(y3.n, 2, 2 * (vs1 * vj));
    v := Add2(v, negX3, 1, 6, vv, -vx);
    v := Mul2(v, r, 7, 6, vv + -vx, vr);
    y3.n := Add2(y3.n, v, 3, 1, -(2 * (vs1 * vj)), (vv + -vx) * vr);
    x3.n := Norm(x3.n, 5, vx);
    y3.n := Norm(y3.n, 4, MixedY(vu1, vs1, vh, vr));
  }

  /** The point with z = 1 over the denominator of the other. */
  method LiftOne(x2: Limbs, y2: Limbs, z1: Limbs, z1z1: Limbs, ghost x: int, ghost y: int, ghost s: int)
    returns (u2: Limbs, s2: Limbs)
    requires Rep(x2, 2, x) && Rep(y2, 2, y) && Rep(z1, 1, s) && Rep(z1z1, 1, s * s)
    ensures Normal(u2) && Normal(s2) && Rep(u2, 1, x * (s * s)) && Rep(s2, 1, y * (s * s * s))
  {
    hide Rep, Mag, Normal, FieldEq, Val;
    u2 := Mul2(x2, z1z1, 2, 1, x, s * s);
    u2 := Norm(u2, 1, x * (s * s));
    s2 := Mul2(y2, z1z1, 2, 1, y, s * s);
    s2 := Mul2(s2, z1, 1, 1, y * (s * s), s);
    s2 := Norm(s2, 1, (y * (s * s)) * s);
    Associate(y, s * s, s);
  }

  /** The second point has z = 1: `addZ2EqualsOne`. */
  method AddZ2EqualsOne(x1: FieldVal, y1: FieldVal, z1: FieldVal, x2: FieldVal, y2: FieldVal,
                        x3: FieldVal, y3: FieldVal, z3: FieldVal, ghost p: Point, ghost q: Point)
    requires Roles({x1, x2, x3}, {y1, y2, y3}, {z1, z3})
    requires Fermat() && p.Affine? && q.Affine? && Mag(z1.n, 1)
    requires Jac(x1.n, y1.n, z1.n, p) && Jac(x2.n, y2.n, SetInt(1), q)
    modifies x1, y1, z1, x3, y3, z3
    ensures Jac(x3.n, y3.n, z3.n, Add(p, q))
    ensures x1 != x3 ==> Kept(x1.n, old(x1.n))
    ensures y1 != y3 ==> Kept(y1.n, old(y1.n))
    ensures z1 != z3 ==> Kept(z1.n, old(z1.n))
    ensures x2 != x3 ==> Kept(x2.n, old(x2.n))
    ensures y2 != y3 ==> Kept(y2.n, old(y2.n))
  {
    hide Rep, Mag, Normal, FieldEq, Val, Jac, Kept, Fermat, OnCurve, Add, Double, ChordSlope, ThirdX, ThirdY, MixedX,
        MixedY, IsZero, SetInt;
    JacMeans(x1.n, y1.n, z1.n, p);
    JacMeans(x2.n, y2.n, SetInt(1), q);
    OneDenominator(x2.n, y2.n, q);
    ghost var s := Val(z1.n);
    ghost var vx1, vy1, vx2, vy2 := p.x * (s * s), p.y * (s * s * s), q.x * (s * s), q.y * (s * s * s);
    KeptSelf(z1.n);
    KeptSelf(x2.n);
    KeptSelf(y2.n);
    NormalizeInPlace(x1, 2, vx1);
    NormalizeInPlace(y1, 2, vy1);
    RepSelf(z1.n, 1);
    RepStill(x2.n, old(x2.n), 2, q.x);
    RepStill(y2.n, old(y2.n), 2, q.y);
    var z1z1 := SquareVal(z1.n, 1, s);
    var u2, s2 := LiftOne(x2.n, y2.n, z1.n, z1z1, q.x, q.y, s);
    WordsDecide(x1.n, u2, vx1, vx2);
    WordsDecide(y1.n, s2, vy1, vy2);
    PowersNonzero(s);
    ScaledEqual(p.x, q.x, s * s);
    ScaledEqual(p.y, q.y, s * s * s);
    SumCases(p, q);
    if x1.n == u2 {
      if y1.n == s2 {
        RepresentsBy(x1.n, y1.n, z1.n, p, s);
        DoubleJacobian(x1, y1, z1, x3, y3, z3, p);
        return;
      }
      SetInfinity(x3, y3, z3);
      return;
    }
    ghost var lam := ChordSlope(p.x, p.y, q.x, q.y);
    OnChord(s2, p, q, 1, s * s * s);
    vy2 := (p.y + lam * (q.x - p.x)) * (s * s * s);
    ghost var vh, vr := ChordOfMixed(x1, y1, z1, u2, s2, z1z1, x3, y3, z3, vx1, vy1, vx2, vy2, s);
    MixedValue(p.x, p.y, q.x, lam, s, vx1, vx2, vy1, vy2, vh, vr);
    DifferNonzero(vx1, vx2);
    ProductNonzero(s, vh);
    TwoNonzero(s * vh);
    AddIsChord(p, q);
    RepresentsBy(x3.n, y3.n, z3.n, Add(p, q), 2 * (s * vh));
  }

  lemma CrossTerm(a: int, b: int)
    ensures (a + b) * (a + b) + -(a * a + b * b) == 2 * (a * b)
  {
  }

  /** The formulas of `addZ2EqualsOne`. */
  method ChordOfMixed(x1: FieldVal, y1: FieldVal, z1: FieldVal, u2: Limbs, s2: Limbs, z1z1: Limbs,
                      x3: FieldVal, y3: FieldVal, z3: FieldVal,
                      ghost vx1: int, ghost vy1: int, ghost vu2: int, ghost vs2: int, ghost s: int)
    returns (ghost vh: int, ghost vr: int)
    requires Roles({x1, x3}, {y1, y3}, {z1, z3})
    requires Rep(x1.n, 1, vx1) && Rep(y1.n, 1, vy1) && Rep(u2, 1, vu2) && Rep(s2, 1, vs2)
    requires Rep(z1.n, 1, s) && Rep(z1z1, 1, s * s)
    modifies x3, y3, z3
    ensures vh == vu2 + -vx1 && vr == 2 * (vs2 + -vy1)
    ensures Rep(x3.n, 1, MixedX(vx1, vh, vr)) && Rep(y3.n, 1, MixedY(vx1, vy1, vh, vr)) && Rep(z3.n, 1, 2 * (s * vh))
  {
    hide Rep, Mag, Normal, FieldEq, Val, MixedX, MixedY;
    vh := vu2 + -vx1;
    var negX1 := NegateVal(x1.n, 1, vx1);
    var h := Add2(u2, negX1, 1, 2, vu2, -vx1);
    var hh := SquareVal(h, 3, vh);
    var i := MulInt(hh, 4, 1, vh * vh);
    vr := ChordTail(x1.n, y1.n, s2, h, i, x3, y3, vx1, vy1, vs2, vh);
    z3.n := Add2(z1.n, h, 1, 3, s, vh);
    z3.n := SquareVal(z3.n, 4, s + vh);
    var t := Add2(z1z1, hh, 1, 1, s * s, vh * vh);
    t := NegateVal(t, 2, s * s + vh * vh);
    z3.n := Add2(z3.n, t, 1, 3, (s + vh) * (s + vh), -(s * s + vh * vh));
    CrossTerm(s, vh);
    z3.n := Norm(z3.n, 4, 2 * (s * vh));
  }

  /** No assumption on the z values: `addGeneric`. */
  method AddGeneric(x1: FieldVal, y1: FieldVal, z1: FieldVal, x2: FieldVal, y2: FieldVal, z2: FieldVal,
                    x3: FieldVal, y3: FieldVal, z3: FieldVal, ghost p: Point, ghost q: Point)
    requires Roles({x1, x2, x3}, {y1, y2, y3}, {z1, z2, z3})
    requires Fermat() && p.Affine? && q.Affine? && Mag(z1.n, 1) && Mag(z2.n, 1)
    requires Jac(x1.n, y1.n, z1.n, p) && Jac(x2.n, y2.n, z2.n, q)
    modifies z1, x3, y3, z3
    ensures Jac(x3.n, y3.n, z3.n, Add(p, q))
    ensures z1 != z3 ==> Kept(z1.n, old(z1.n))
    ensures z2 != z3 ==> Kept(z2.n, old(z2.n))
  {
    hide Rep, Mag, Normal, FieldEq, Val, Jac, Kept, Fermat, OnCurve, Add, Double, ChordSlope, ThirdX, ThirdY, MixedX,
        MixedY, IsZero, SetInt;
    JacMeans(x1.n, y1.n, z1.n, p);
    JacMeans(x2.n, y2.n, z2.n, q);
    ghost var a, b := Val(z1.n), Val(z2.n);
    KeptSelf(z1.n);
    KeptSelf(z2.n);
    RepSelf(z1.n, 1);
    RepSelf(z2.n, 1);
    var z1z1 := SquareVal(z1.n, 1, a);
    var z2z2 := SquareVal(z2.n, 1, b);
    var u1, s1 := LiftBoth(x1.n, y1.n, z2.n, z2z2, p.x, p.y, a, b);
    var u2, s2 := LiftBoth(x2.n, y2.n, z1.n, z1z1, q.x, q.y, b, a);
    assert b * a == a * b;
    ghost var w := a * b;
    ghost var vu1, vu2, vs1, vs2 := p.x * (w * w), q.x * (w * w), p.y * (w * w * w), q.y * (w * w * w);
    WordsDecide(u1, u2, vu1, vu2);
    WordsDecide(s1, s2, vs1, vs2);
    ProductNonzero(a, b);
    PowersNonzero(w);
    ScaledEqual(p.x, q.x, w * w);
    ScaledEqual(p.y, q.y, w * w * w);
    SumCases(p, q);
    if u1 == u2 {
      if s1 == s2 {
        DoubleJacobian(x1, y1, z1, x3, y3, z3, p);
        return;
      }
      SetInfinity(x3, y3, z3);
      return;
    }
    ghost var lam := ChordSlope(p.x, p.y, q.x, q.y);
    OnChord(s2, p, q, 1, w * w * w);
    vs2 := (p.y + lam * (q.x - p.x)) * (w * w * w);
    ghost var vh, vr := ChordOfGeneric(u1, s1, u2, s2, z1, z2, z1z1, z2z2, x3, y3, z3, vu1, vs1, vu2, vs2, a, b);
    MixedValue(p.x, p.y, q.x, lam, w, vu1, vu2, vs1, vs2, vh, vr);
    DifferNonzero(vu1, vu2);
    ProductNonzero(w, vh);
    TwoNonzero(w * vh);
    AddIsChord(p, q);
    RepresentsBy(x3.n, y3.n, z3.n, Add(p, q), 2 * (w * vh));
  }

  /** The coordinates of a point over the product of both denominators. */
  method LiftBoth(x: Limbs, y: Limbs, z: Limbs, zz: Limbs, ghost u: int, ghost v: int, ghost a: int, ghost b: int)
    returns (r: Limbs, s: Limbs)
    requires Rep(x, 2, u * (a * a)) && Rep(y, 2, v * (a * a * a)) && Rep(z, 1, b) && Rep(zz, 1, b * b)
    ensures Normal(r) && Normal(s)
    ensures Rep(r, 1, u * ((a * b) * (a * b))) && Rep(s, 1, v * ((a * b) * (a * b) * (a * b)))
  {
    hide Rep, Mag, Normal, FieldEq, Val;
    r := Mul2(x, zz, 2, 1, u * (a * a), b * b);
    r := Norm(r, 1, (u * (a * a)) * (b * b));
    s := Mul2(y, zz, 2, 1, v * (a * a * a), b * b);
    s := Mul2(s, z, 1, 1, (v * (a * a * a)) * (b * b), b);
    s := Norm(s, 1, ((v * (a * a * a)) * (b * b)) * b);
    CommonDenominator(u, v, a, b);
  }

  /** The formulas of `addGeneric`. */
  method ChordOfGeneric(u1: Limbs, s1: Limbs, u2: Limbs, s2: Limbs, z1: FieldVal, z2: FieldVal, z1z1: Limbs,
      z2z2: Limbs,
                        x3: FieldVal, y3: FieldVal, z3: FieldVal,
                        ghost vu1: int, ghost vs1: int, ghost vu2: int, ghost vs2: int, ghost a: int, ghost b: int)
    returns (ghost vh: int, ghost vr: int)
    requires Roles({x3}, {y3}, {z1, z2, z3})
    requires Rep(u1, 1, vu1) && Rep(s1, 1, vs1) && Rep(u2, 1, vu2) && Rep(s2, 1, vs2)
    requires Rep(z1.n, 1, a) && Rep(z2.n, 1, b) && Rep(z1z1, 1, a * a) && Rep(z2z2, 1, b * b)
    modifies x3, y3, z3
    ensures vh == vu2 + -vu1 && vr == 2 * (vs2 + -vs1)
    ensures Rep(x3.n, 1, MixedX(vu1, vh, vr)) && Rep(y3.n, 1, MixedY(vu1, vs1, vh, vr)) &&
        Rep(z3.n, 1, 2 * ((a * b) * vh))
  {
    hide Rep, Mag, Normal, FieldEq, Val, MixedX, MixedY;
    vh := vu2 + -vu1;
    var negU1 := NegateVal(u1, 1, vu1);
    var h := Add2(u2, negU1, 1, 2, vu2, -vu1);
    var i := MulInt(h, 2, 3, vh);
    i := SquareVal(i, 6, 2 * vh);
    TwiceSquared(vh);
    RepWiden(i, 1, 4, 4 * (vh * vh));
    vr := ChordTail(u1, s1, s2, h, i, x3, y3, vu1, vs1, vs2, vh);
    z3.n := Add2(z1.n, z2.n, 1, 1, a, b);
    z3.n := SquareVal(z3.n, 2, a + b);
    var t := Add2(z1z1, z2z2, 1, 1, a * a, b * b);
    t := NegateVal(t, 2, a * a + b * b);
    z3.n := Add2(z3.n, t, 1, 3, (a + b) * (a + b), -(a * a + b * b));
    CrossTerm(a, b);
    z3.n := Mul2(z3.n, h, 4, 3, 2 * (a * b), vh);
    Associate(2, a * b, vh);
  }

  /** `addJacobian`: the sum of two points of the curve in any Jacobian coordinates, with outputs
      that may alias inputs.  An operand that is not overwritten keeps its residue. */
  method AddJacobian(x1: FieldVal, y1: FieldVal, z1: FieldVal, x2: FieldVal, y2: FieldVal, z2: FieldVal,
                     x3: FieldVal, y3: FieldVal, z3: FieldVal, ghost p: Point, ghost q: Point)
    requires Roles({x1, x2, x3}, {y1, y2, y3}, {z1, z2, z3})
    requires Fermat() && Jac(x1.n, y1.n, z1.n, p) && Jac(x2.n, y2.n, z2.n, q)
    modifies x1, y1, z1, x2, y2, z2, x3, y3, z3
    ensures Jac(x3.n, y3.n, z3.n, Add(p, q))
    ensures x1 != x3 ==> Kept(x1.n, old(x1.n))
    ensures y1 != y3 ==> Kept(y1.n, old(y1.n))
    ensures z1 != z3 ==> Kept(z1.n, old(z1.n))
    ensures x2 != x3 ==> Kept(x2.n, old(x2.n))
    ensures y2 != y3 ==> Kept(y2.n, old(y2.n))
    ensures z2 != z3 ==> Kept(z2.n, old(z2.n))
  {
    hide Rep, Mag, Normal, FieldEq, Val, Jac, Kept, Fermat, OnCurve, Double, IsZero;
    JacMeans(x1.n, y1.n, z1.n, p);
    JacMeans(x2.n, y2.n, z2.n, q);
    KeptSelf(x1.n);
    KeptSelf(y1.n);
    KeptSelf(z1.n);
    KeptSelf(x2.n);
    KeptSelf(y2.n);
    KeptSelf(z2.n);
    if (IsZero(x1.n) && IsZero(y1.n)) || IsZero(z1.n) {
      x3.n := x2.n;
      y3.n := y2.n;
      z3.n := z2.n;
      return;
    }
    if (IsZero(x2.n) && IsZero(y2.n)) || IsZero(z2.n) {
      x3.n := x1.n;
      y3.n := y1.n;
      z3.n := z1.n;
      return;
    }
    AddAffine(x1, y1, z1, x2, y2, z2, x3, y3, z3, p, q);
  }

  /** The rest of `addJacobian`, which picks a routine by the z values. */
  method AddAffine(x1: FieldVal, y1: FieldVal, z1: FieldVal, x2: FieldVal, y2: FieldVal, z2: FieldVal,
                   x3: FieldVal, y3: FieldVal, z3: FieldVal, ghost p: Point, ghost q: Point)
    requires Roles({x1, x2, x3}, {y1, y2, y3}, {z1, z2, z3})
    requires Fermat() && Jac(x1.n, y1.n, z1.n, p) && Jac(x2.n, y2.n, z2.n, q) && p.Affine? && q.Affine?
    modifies x1, y1, z1, x2, y2, z2, x3, y3, z3
    ensures Jac(x3.n, y3.n, z3.n, Add(p, q))
    ensures x1 != x3 ==> Kept(x1.n, old(x1.n))
    ensures y1 != y3 ==> Kept(y1.n, old(y1.n))
    ensures z1 != z3 ==> Kept(z1.n, old(z1.n))
    ensures x2 != x3 ==> Kept(x2.n, old(x2.n))
    ensures y2 != y3 ==> Kept(y2.n, old(y2.n))
    ensures z2 != z3 ==> Kept(z2.n, old(z2.n))
  {
    hide Rep, Mag, Normal, FieldEq, Val, Jac, Kept, Fermat, OnCurve, Add, Double, IsZero, SetInt;
    JacMeans(x1.n, y1.n, z1.n, p);
    JacMeans(x2.n, y2.n, z2.n, q);
    NormalizeZs(x1, y1, z1, x2, y2, z2, p, q);
    JacMeans(x1.n, y1.n, z1.n, p);
    JacMeans(x2.n, y2.n, z2.n, q);
    KeptSelf(x1.n);
    KeptSelf(y1.n);
    KeptSelf(z1.n);
    KeptSelf(x2.n);
    KeptSelf(y2.n);
    KeptSelf(z2.n);
    ghost var c1, c2 := z1.n, z2.n;
    var isZ1One := z1.n == SetInt(1);
    var isZ2One := z2.n == SetInt(1);
    if isZ1One && isZ2One {
      AddZ1AndZ2EqualsOne(x1, y1, z1, x2, y2, x3, y3, z3, p, q);
    } else if z1.n == z2.n {
      AddZ1EqualsZ2(x1, y1, z1, x2, y2, x3, y3, z3, p, q);
    } else if isZ2One {
      AddZ2EqualsOne(x1, y1, z1, x2, y2, x3, y3, z3, p, q);
    } else {
      AddGeneric(x1, y1, z1, x2, y2, z2, x3, y3, z3, p, q);
    }
    if z1 != z3 {
      KeptTrans(old(z1.n), c1, z1.n);
    }
    if z2 != z3 {
      KeptTrans(old(z2.n), c2, z2.n);
    }
  }

  /** Normalizes both z values, which may be one object. */
  method NormalizeZs(x1: FieldVal, y1: FieldVal, z1: FieldVal, x2: FieldVal, y2: FieldVal, z2: FieldVal,
      ghost p: Point, ghost q: Point)
    requires Roles({x1, x2}, {y1, y2}, {z1, z2})
    requires Fermat() && Jac(x1.n, y1.n, z1.n, p) && Jac(x2.n, y2.n, z2.n, q)
    modifies z1, z2
    ensures Jac(x1.n, y1.n, z1.n, p) && Jac(x2.n, y2.n, z2.n, q) && Mag(z1.n, 1) && Mag(z2.n, 1)
    ensures Kept(z1.n, old(z1.n)) && Kept(z2.n, old(z2.n))
  {
    hide Rep, Mag, Normal, FieldEq, Val, Jac, Kept, Fermat, OnCurve, IsZero, SetInt;
    JacMeans(x1.n, y1.n, z1.n, p);
    JacMeans(x2.n, y2.n, z2.n, q);
    KeptSelf(x1.n);
    KeptSelf(y1.n);
    KeptSelf(x2.n);
    KeptSelf(y2.n);
    KeptSelf(z2.n);
    RepSelf(z1.n, 2);
    RepSelf(z2.n, 2);
    NormalizeInPlace(z1, 2, Val(z1.n));
    RepMag(z1.n, 1, Val(old(z1.n)));
    ghost var a, b := z1.n, z2.n;
    RepStill(z2.n, old(z2.n), 2, Val(old(z2.n)));
    NormalizeInPlace(z2, 2, Val(old(z2.n)));
    RepMag(z2.n, 1, Val(old(z2.n)));
    KeptTrans(old(z2.n), b, z2.n);
    if z1 == z2 {
      KeptTrans(old(z1.n), a, z1.n);
    }
    KeptJac(x1.n, y1.n, old(z1.n), x1.n, y1.n, z1.n, p);
    KeptJac(x2.n, y2.n, old(z2.n), x2.n, y2.n, z2.n, q);
  }
}
