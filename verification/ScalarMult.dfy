/** `ScalarMult` and `ScalarBaseMult` return the multiple of the point by the scalar. */
module ScalarMult {
  import opened Congruence
  import opened MachineTypes
  import opened Limbs
  import opened BigEndian
  import opened Field
  import opened FieldPower
  import opened Curve
  import opened JacobianFormulas
  import opened Jacobian
  import opened JacobianAdd
  import opened CurveGroup
  import opened Naf
  import opened FieldBytes
  import opened Scalar

  /** Everything that is known about the curve beyond the code. */
  ghost predicate Hypotheses()
  {
    Fermat() && Associative() && CurveFacts()
  }

  /** Coordinates do not depend on the representatives of the affine point. */
  lemma JacSame(x: Limbs, y: Limbs, z: Limbs, p: Point, q: Point)
    requires Jac(x, y, z, p) && Same(p, q) && OnCurve(q)
    ensures Jac(x, y, z, q)
  {
    hide Val, Mag, OnCurve, FieldEq;
    if p.Affine? {
      var s := Val(z);
      FieldRefl(s * s);
      FieldRefl(s * s * s);
      FieldMul(p.x, q.x, s * s, s * s);
      FieldMul(p.y, q.y, s * s * s, s * s * s);
      FieldTrans(Val(x), p.x * (s * s), q.x * (s * s));
      FieldTrans(Val(y), p.y * (s * s * s), q.y * (s * s * s));
    }
  }

  lemma NegateSame(p: Point, q: Point)
    requires Same(p, q)
    ensures Same(Negate(p), Negate(q))
  {
    if p.Affine? {
      FieldNeg(p.y, q.y);
    }
  }

  /** The opposite of a multiple is the opposite multiple. */
  lemma TimesNegate(u: int, p: Point)
    requires Fermat() && Associative() && OnCurve(p)
    ensures Same(Negate(Times(u, p)), Times(-u, p))
  {
    hide Fermat, Associative, OnCurve, Add, Same, Times, Negate;
    var t := Times(u, p);
    TimesOnCurve(u, p);
    TimesOnCurve(-u, p);
    NegateOnCurve(t);
    AddInverse(t);
    AddCommutes(Negate(t), t);
    SameTrans(Add(Negate(t), t), Add(t, Negate(t)), Infinity);
    TimesSum(u, -u, p);
    TimesZero(p);
    SameSym(Times(0, p), Add(t, Times(-u, p)));
    AddBack(Negate(t), t, Times(-u, p));
    LeftInfinity(Add(Negate(t), t), Times(-u, p));
    SameSym(Times(-u, p), Negate(t));
  }

  lemma TimesZero(p: Point)
    ensures Times(0, p) == Infinity
  {
  }

  lemma LeftInfinity(p: Point, q: Point)
    requires Same(p, Infinity)
    ensures Add(p, q) == q
  {
  }

  /** A point, its opposite, and coordinates for both with x and z in common. */
  ghost predicate Pair(x: Limbs, y: Limbs, yNeg: Limbs, z: Limbs, p: Point)
  {
    Jac(x, y, z, p) && Jac(x, yNeg, z, Negate(p))
  }

  /** One signed digit of one scalar: adds the point, its opposite, or nothing. */
  method AddDigit(qx: FieldVal, qy: FieldVal, qz: FieldVal, px: FieldVal, py: FieldVal, pyNeg: FieldVal, pz: FieldVal,
                  isPos: bool, isNeg: bool, ghost p: Point, ghost u: int, ghost base: Point, ghost c: int,
                      ghost digit: int)
    requires Roles({qx, px}, {qy, py, pyNeg}, {qz, pz}) && qx != px && qy != py && qy != pyNeg && py != pyNeg &&
        qz != pz
    requires Fermat() && Associative() && OnCurve(base) && Same(p, Times(u, base))
    requires Jac(qx.n, qy.n, qz.n, Times(c, base)) && Pair(px.n, py.n, pyNeg.n, pz.n, p)
    requires digit == (if isPos then 1 else if isNeg then -1 else 0)
    modifies qx, qy, qz, px, py, pyNeg, pz
    ensures Jac(qx.n, qy.n, qz.n, Times(c + digit * u, base)) && Pair(px.n, py.n, pyNeg.n, pz.n, p)
  {
    hide Jac, Kept, Fermat, Associative, OnCurve, Same, Add, Double, Times, Val, Mag;
    ghost var neg := Negate(p);
    ghost var a, b, bNeg, d := px.n, py.n, pyNeg.n, pz.n;
    JacMeans(a, b, d, p);
    JacMeans(a, bNeg, d, neg);
    KeptSelf(b);
    KeptSelf(bNeg);
    if isPos {
      AddJacobian(qx, qy, qz, px, py, pz, qx, qy, qz, Times(c, base), p);
      AddedMultiple(qx.n, qy.n, qz.n, c, u, p, base);
      KeptJac(a, b, d, px.n, py.n, pz.n, p);
      KeptJac(a, bNeg, d, px.n, pyNeg.n, pz.n, neg);
    } else if isNeg {
      AddJacobian(qx, qy, qz, px, pyNeg, pz, qx, qy, qz, Times(c, base), neg);
      NegateSame(p, Times(u, base));
      TimesNegate(u, base);
      SameTrans(neg, Negate(Times(u, base)), Times(-u, base));
      AddedMultiple(qx.n, qy.n, qz.n, c, -u, neg, base);
      KeptJac(a, b, d, px.n, py.n, pz.n, p);
      KeptJac(a, bNeg, d, px.n, pyNeg.n, pz.n, neg);
    }
  }

  lemma AddedMultiple(x: Limbs, y: Limbs, z: Limbs, c: int, u: int, p: Point, base: Point)
    requires Fermat() && Associative() && OnCurve(base) && Same(p, Times(u, base))
    requires Jac(x, y, z, Add(Times(c, base), p))
    ensures Jac(x, y, z, Times(c + u, base))
  {
    hide Jac, Fermat, Associative, OnCurve, Same, Add, Times;
    SameRefl(Times(c, base));
    AddSame(Times(c, base), p, Times(c, base), Times(u, base));
    TimesSum(c, u, base);
    SameSym(Times(c + u, base), Add(Times(c, base), Times(u, base)));
    SameTrans(Add(Times(c, base), p), Add(Times(c, base), Times(u, base)), Times(c + u, base));
    TimesOnCurve(c + u, base);
    JacSame(x, y, z, Add(Times(c, base), p), Times(c + u, base));
  }

  lemma DoubledMultiple(x: Limbs, y: Limbs, z: Limbs, c: int, base: Point)
    requires Fermat() && Associative() && OnCurve(base)
    requires Jac(x, y, z, Double(Times(c, base)))
    ensures Jac(x, y, z, Times(2 * c, base))
  {
    hide Jac, Fermat, Associative, OnCurve, Same, Add, Times, Double;
    DoubleIsTwice(Times(c, base));
    TimesSum(c, c, base);
    assert c + c == 2 * c;
    SameSym(Times(2 * c, base), Add(Times(c, base), Times(c, base)));
    TimesOnCurve(2 * c, base);
    JacSame(x, y, z, Double(Times(c, base)), Times(2 * c, base));
  }

  // ---- one byte of both scalars ----

  /** What is left of a byte of digit bits after its top bits were shifted out. */
  ghost predicate Shifted(b: byte, e: seq<int>, s: int, m: nat)
  {
    |e| == 8 && m <= 8 && b == Mask(e[..m], s) * Pow2(8 - m)
  }

  /** A byte shifted left by one. */
  function ShiftLeft(b: byte): byte
  {
    (b as int) * 2 % 256
  }

  /** The test of bit 7 finds the next digit, and shifting keeps the rest. */
  lemma TopBit(b: byte, e: seq<int>, s: int, m: nat)
    requires 1 <= m && Shifted(b, e, s, m)
    ensures b >= 128 <==> e[m - 1] == s
    ensures Shifted(ShiftLeft(b), e, s, m - 1)
  {
    assert e[..m] == e[..m - 1] + [e[m - 1]];
    MaskSnoc(e[..m - 1], e[m - 1], s);
    MaskBound(e[..m - 1], s);
    Pow2Sum(m - 1, 8 - m);
    assert Pow2(3) == 8 && Pow2(7) == 128;
    assert Pow2(9 - m) == 2 * Pow2(8 - m);
    hide Mask, Pow2;
    ShiftOut(Mask(e[..m - 1], s), Pow2(m - 1), Pow2(8 - m), b, e[m - 1] == s);
  }

  lemma ShiftOut(low: nat, p: nat, q: nat, b: nat, isSet: bool)
    requires p * q == 128 && low <= p - 1 && q >= 1 && b == (low + if isSet then p else 0) * q
    ensures b >= 128 <==> isSet
    ensures b * 2 % 256 == low * (2 * q)
  {
    assert low * q <= (p - 1) * q == p * q - q;
    assert (low + p) * q == low * q + p * q;
    assert low * (2 * q) == 2 * (low * q);
  }

  lemma WholeByte(b: byte, e: seq<int>, s: int)
    requires |e| == 8 && b == Mask(e, s)
    ensures Shifted(b, e, s, 8)
  {
    assert e[..8] == e;
    assert Pow2(0) == 1;
  }

  lemma TopDigits(e: seq<int>, m: nat)
    requires 1 <= m <= |e|
    ensures Value(e[m - 1..]) == e[m - 1] + 2 * Value(e[m..])
    ensures Value(e[|e|..]) == 0
  {
    assert e[m - 1..][1..] == e[m..];
  }

  /** The scalar reached when the digits from `j` up have been read. */
  ghost predicate ReadFrom(at: int, j: nat, c: int, e1: seq<int>, u1: int, e2: seq<int>, u2: int)
  {
    && |e1| == |e2| == 8 && j <= 8
    && at == Pow2(8 - j) * c + Value(e1[j..]) * u1 + Value(e2[j..]) * u2
  }

  lemma ReadNone(c: int, e1: seq<int>, u1: int, e2: seq<int>, u2: int)
    requires |e1| == |e2| == 8
    ensures ReadFrom(c, 8, c, e1, u1, e2, u2)
  {
    TopDigits(e1, 8);
    TopDigits(e2, 8);
    assert Pow2(0) == 1;
  }

  lemma ReadNext(at: int, j: nat, c: int, e1: seq<int>, u1: int, e2: seq<int>, u2: int)
    requires j < 8 && ReadFrom(at, j + 1, c, e1, u1, e2, u2)
    ensures ReadFrom(2 * at + e1[j] * u1 + e2[j] * u2, j, c, e1, u1, e2, u2)
  {
    TopDigits(e1, j + 1);
    TopDigits(e2, j + 1);
    NextShift(at, 7 - j, c, Value(e1[j + 1..]), e1[j], u1, Value(e2[j + 1..]), e2[j], u2);
  }

  lemma ReadAll(at: int, c: int, e1: seq<int>, u1: int, e2: seq<int>, u2: int)
    requires ReadFrom(at, 0, c, e1, u1, e2, u2)
    ensures at == 256 * c + Value(e1) * u1 + Value(e2) * u2
  {
    assert e1[0..] == e1 && e2[0..] == e2;
    assert Pow2(4) == 16 && Pow2(8) == 256;
  }

  /** The body of the inner loop: a doubling and a digit of either scalar. */
  method DigitStep(qx: FieldVal, qy: FieldVal, qz: FieldVal,
                   p1x: FieldVal, p1y: FieldVal, p1yNeg: FieldVal, p1z: FieldVal,
                   p2x: FieldVal, p2y: FieldVal, p2yNeg: FieldVal, p2z: FieldVal,
                   pos1: bool, neg1: bool, pos2: bool, neg2: bool, ghost x1: int, ghost x2: int,
                   ghost p1: Point, ghost p2: Point, ghost u1: int, ghost u2: int, ghost base: Point, ghost at: int)
    requires Apart(qx, qy, qz, p1x, p1y, p1yNeg, p1z, p2x, p2y, p2yNeg, p2z)
    requires Fermat() && Associative() && OnCurve(base) && Same(p1, Times(u1, base)) && Same(p2, Times(u2, base))
    requires Jac(qx.n, qy.n, qz.n, Times(at, base))
    requires Pair(p1x.n, p1y.n, p1yNeg.n, p1z.n, p1) && Pair(p2x.n, p2y.n, p2yNeg.n, p2z.n, p2)
    requires x1 == (if pos1 then 1 else if neg1 then -1 else 0) && x2 == (if pos2 then 1 else if neg2 then -1 else 0)
    modifies qx, qy, qz, p1x, p1y, p1yNeg, p1z, p2x, p2y, p2yNeg, p2z
    ensures Jac(qx.n, qy.n, qz.n, Times(2 * at + x1 * u1 + x2 * u2, base))
    ensures Pair(p1x.n, p1y.n, p1yNeg.n, p1z.n, p1) && Pair(p2x.n, p2y.n, p2yNeg.n, p2z.n, p2)
  {
    hide Jac, Pair, Kept, Fermat, Associative, OnCurve, Same, Add, Double, Times;
    DoubleJacobian(qx, qy, qz, qx, qy, qz, Times(at, base));
    DoubledMultiple(qx.n, qy.n, qz.n, at, base);
    AddDigit(qx, qy, qz, p1x, p1y, p1yNeg, p1z, pos1, neg1, p1, u1, base, 2 * at, x1);
    AddDigit(qx, qy, qz, p2x, p2y, p2yNeg, p2z, pos2, neg2, p2, u2, base, 2 * at + x1 * u1, x2);
  }

  /** The accumulator and the two operand points are different objects. */
  predicate Apart(qx: FieldVal, qy: FieldVal, qz: FieldVal,
                  p1x: FieldVal, p1y: FieldVal, p1yNeg: FieldVal, p1z: FieldVal,
                  p2x: FieldVal, p2y: FieldVal, p2yNeg: FieldVal, p2z: FieldVal)
  {
    && Roles({qx, p1x, p2x}, {qy, p1y, p1yNeg, p2y, p2yNeg}, {qz, p1z, p2z})
    && qx != p1x && qx != p2x && p1x != p2x && qz != p1z && qz != p2z && p1z != p2z
    && qy != p1y && qy != p1yNeg && qy != p2y && qy != p2yNeg && p1y != p1yNeg && p2y != p2yNeg
    && {p1y, p1yNeg} !! {p2y, p2yNeg}
  }

  lemma DigitsSigned(e1: seq<int>, e2: seq<int>)
    requires Signed(e1) && Signed(e2)
    ensures forall j :: 0 <= j < |e1| ==> -1 <= e1[j] <= 1
    ensures forall j :: 0 <= j < |e2| ==> -1 <= e2[j] <= 1
  {
  }

  /** The inner loop of `ScalarMult`, over the bits of one byte of either scalar. */
  method ByteLoop(qx: FieldVal, qy: FieldVal, qz: FieldVal,
                  p1x: FieldVal, p1y: FieldVal, p1yNeg: FieldVal, p1z: FieldVal,
                  p2x: FieldVal, p2y: FieldVal, p2yNeg: FieldVal, p2z: FieldVal,
                  k1Pos: byte, k1Neg: byte, k2Pos: byte, k2Neg: byte,
                  ghost e1: seq<int>, ghost e2: seq<int>,
                  ghost p1: Point, ghost p2: Point, ghost u1: int, ghost u2: int, ghost base: Point, ghost c: int)
    requires Apart(qx, qy, qz, p1x, p1y, p1yNeg, p1z, p2x, p2y, p2yNeg, p2z)
    requires Fermat() && Associative() && OnCurve(base) && Same(p1, Times(u1, base)) && Same(p2, Times(u2, base))
    requires Jac(qx.n, qy.n, qz.n, Times(c, base))
    requires Pair(p1x.n, p1y.n, p1yNeg.n, p1z.n, p1) && Pair(p2x.n, p2y.n, p2yNeg.n, p2z.n, p2)
    requires |e1| == |e2| == 8 && Signed(e1) && Signed(e2)
    requires k1Pos == Mask(e1, 1) && k1Neg == Mask(e1, -1) && k2Pos == Mask(e2, 1) && k2Neg == Mask(e2, -1)
    modifies qx, qy, qz, p1x, p1y, p1yNeg, p1z, p2x, p2y, p2yNeg, p2z
    ensures Jac(qx.n, qy.n, qz.n, Times(256 * c + Value(e1) * u1 + Value(e2) * u2, base))
    ensures Pair(p1x.n, p1y.n, p1yNeg.n, p1z.n, p1) && Pair(p2x.n, p2y.n, p2yNeg.n, p2z.n, p2)
  {
    hide Jac, Pair, Fermat, Associative, OnCurve, Same, Times, Mask, Value, Shifted, ReadFrom, Apart, ShiftLeft, Signed;
    DigitsSigned(e1, e2);
    var a, b, d, f := k1Pos, k1Neg, k2Pos, k2Neg;
    WholeByte(a, e1, 1);
    WholeByte(b, e1, -1);
    WholeByte(d, e2, 1);
    WholeByte(f, e2, -1);
    ghost var at := c;
    ReadNone(c, e1, u1, e2, u2);
    for j := 8 downto 0
      invariant Shifted(a, e1, 1, j) && Shifted(b, e1, -1, j) && Shifted(d, e2, 1, j) && Shifted(f, e2, -1, j)
      invariant Jac(qx.n, qy.n, qz.n, Times(at, base))
      invariant ReadFrom(at, j, c, e1, u1, e2, u2)
      invariant Pair(p1x.n, p1y.n, p1yNeg.n, p1z.n, p1) && Pair(p2x.n, p2y.n, p2yNeg.n, p2z.n, p2)
    {
      TopBit(a, e1, 1, j + 1);
      TopBit(b, e1, -1, j + 1);
      TopBit(d, e2, 1, j + 1);
      TopBit(f, e2, -1, j + 1);
      DigitStep(qx, qy, qz, p1x, p1y, p1yNeg, p1z, p2x, p2y, p2yNeg, p2z,
                a >= 128, b >= 128, d >= 128, f >= 128, e1[j], e2[j], p1, p2, u1, u2, base, at);
      a, b, d, f := ShiftLeft(a), ShiftLeft(b), ShiftLeft(d), ShiftLeft(f);
      ReadNext(at, j, c, e1, u1, e2, u2);
      at := 2 * at + e1[j] * u1 + e2[j] * u2;
    }
    ReadAll(at, c, e1, u1, e2, u2);
  }

  lemma NextShift(at: int, n: nat, c: int, v1: int, x1: int, u1: int, v2: int, x2: int, u2: int)
    requires at == Pow2(n) * c + v1 * u1 + v2 * u2
    ensures 2 * at + x1 * u1 + x2 * u2 == Pow2(n + 1) * c + (x1 + 2 * v1) * u1 + (x2 + 2 * v2) * u2
  {
    assert (x1 + 2 * v1) * u1 == x1 * u1 + 2 * (v1 * u1);
    assert (x2 + 2 * v2) * u2 == x2 * u2 + 2 * (v2 * u2);
    assert Pow2(n + 1) * c == 2 * (Pow2(n) * c);
  }

  // ---- conversions ----

  /** `SetByteSlice`: pads at the front to 32 bytes. */
  method SetByteSlice(b: seq<byte>) returns (f: Limbs)
    requires |b| <= 32
    ensures Compact(f) && Val(f) == FromBytes(b)
  {
    hide FromBytes, Compact, Val;
    var b32 := new byte[32](_ => 0);
    for i := 0 to |b|
      invariant forall t :: 0 <= t < 32 ==> b32[t] == if 32 - |b| <= t < 32 - |b| + i then b[t - (32 - |b|)] else 0
    {
      b32[i + (32 - |b|)] := b[i];
    }
    ghost var z := Zeros(32 - |b|);
    ZerosAre(32 - |b|);
    assert b32[..] == z + b;
    Split(z, b);
    f := SetBytes(b32[..]);
  }

  lemma {:induction false} ZerosAre(k: nat)
    ensures forall t :: 0 <= t < k ==> Zeros(k)[t] == 0
  {
    if k != 0 {
      ZerosAre(k - 1);
      assert Zeros(k) == Zeros(k - 1) + [0];
    }
  }

  /** The two inverse powers of z cancel. */
  lemma CancelScale(u: int, v: int, s: int)
    requires Fermat() && !FieldEq(s, 0)
    ensures FieldEq((u * (s * s)) * (Inv(s) * Inv(s)), u)
    ensures FieldEq((v * (s * s * s)) * ((Inv(s) * Inv(s)) * Inv(s)), v)
  {
    hide FieldEq, Inv, Fermat;
    var i := Inv(s);
    InvertsNonzero(s);
    var e := s * i;
    FieldMul(e, 1, e, 1);
    FieldMul(e * e, 1, e, 1);
    FieldRefl(u);
    FieldRefl(v);
    FieldMul(u, u, e * e, 1);
    FieldMul(v, v, e * e * e, 1);
    CancelGroups(u, v, s, i);
  }

  lemma CancelGroups(u: int, v: int, s: int, i: int)
    ensures (u * (s * s)) * (i * i) == u * ((s * i) * (s * i))
    ensures (v * (s * s * s)) * ((i * i) * i) == v * ((s * i) * (s * i) * (s * i))
  {
    SquareOfProduct(s, i);
    Associate(u, s * s, i * i);
    CubeOfProduct(s, i);
    Associate(v, s * s * s, i * i * i);
  }

  lemma ZeroInverse(x: Limbs, y: Limbs, z: Limbs)
    requires IsZero(z) || (IsZero(x) && IsZero(y))
    ensures Val(x) * (Inv(Val(z)) * Inv(Val(z))) == 0
    ensures Val(y) * ((Inv(Val(z)) * Inv(Val(z))) * Inv(Val(z))) == 0
  {
    hide Val;
    IsZeroVal(x);
    IsZeroVal(y);
    IsZeroVal(z);
    if IsZero(z) {
      PowerOfZero(PRIME - 2);
    }
  }

  lemma PowerOfZero(e: nat)
    requires e > 0
    ensures Power(0, e) == 0
  {
  }

  /** The big integers of a normalized coordinate pair. */
  lemma AffineResult(x: Limbs, y: Limbs, p: Point, a: int, b: int)
    requires Normal(x) && Normal(y) && Rep(x, 1, a) && Rep(y, 1, b)
    requires p.Affine? ==> FieldEq(a, p.x) && FieldEq(b, p.y)
    requires p.Infinity? ==> a == 0 && b == 0
    ensures BigAffine(Val(x), Val(y), p)
  {
    hide Val, Mag, Compact;
    NormalRange(x);
    NormalRange(y);
    if p.Affine? {
      ResidueOf(Val(x), a, p.x);
      ResidueOf(Val(y), b, p.y);
    } else {
      ResidueOf(Val(x), a, 0);
      ResidueOf(Val(y), b, 0);
    }
  }

  lemma NormalRange(x: Limbs)
    requires Normal(x)
    ensures 0 <= Val(x) < PRIME
  {
    ValIs(x);
  }

  lemma ResidueOf(u: int, a: int, v: int)
    requires 0 <= u < PRIME && FieldEq(u, a) && FieldEq(a, v)
    ensures u == v % PRIME
  {
    CongMod(PRIME, u, v);
  }

  /** `fieldJacobianToBigAffine`. */
  method FieldJacobianToBigAffine(x: FieldVal, y: FieldVal, z: FieldVal, ghost p: Point) returns (x3: nat, y3: nat)
    requires Roles({x}, {y}, {z})
    requires Fermat() && Jac(x.n, y.n, z.n, p)
    modifies x, y, z
    ensures BigAffine(x3, y3, p)
  {
    hide Rep, Mag, FieldEq, Val, Jac, Fermat, OnCurve, Normal, IsZero, Inv, BigAffine, FromBytes;
    JacMeans(x.n, y.n, z.n, p);
    ghost var s := Val(z.n);
    ghost var vx := if p.Affine? then p.x * (s * s) else Val(x.n);
    ghost var vy := if p.Affine? then p.y * (s * s * s) else Val(y.n);
    ghost var i := Inv(s);
    if p.Infinity? {
      ZeroInverse(x.n, y.n, z.n);
      RepSelf(x.n, 2);
      RepSelf(y.n, 2);
    } else {
      CancelScale(p.x, p.y, s);
    }
    RepSelf(z.n, 2);
    var zInv := Inverse(z.n, 2, s);
    var tempZ := SquareVal(zInv, 1, i);
    x.n := Mul2(x.n, tempZ, 2, 1, vx, i * i);
    tempZ := Mul2(tempZ, zInv, 1, 1, i * i, i);
    y.n := Mul2(y.n, tempZ, 2, 1, vy, (i * i) * i);
    z.n := SetInt(1);
    x.n := Norm(x.n, 1, vx * (i * i));
    y.n := Norm(y.n, 1, vy * ((i * i) * i));
    AffineResult(x.n, y.n, p, vx * (i * i), vy * ((i * i) * i));
    NormalCompact(x.n);
    NormalCompact(y.n);
    var bx := PutBytes(x.n);
    var by' := PutBytes(y.n);
    x3, y3 := FromBytes(bx), FromBytes(by');
  }

  lemma NormalCompact(a: Limbs)
    requires Normal(a)
    ensures Compact(a)
  {
  }

  // ---- the main loop ----

  /** The digits above position n. */
  function Rest(d: seq<int>, n: nat): seq<int>
  {
    if n <= |d| then d[n..] else []
  }

  /** The eight digits of byte `b`, zeros beyond the end. */
  function ByteDigits(d: seq<int>, b: nat): (e: seq<int>)
    ensures |e| == 8
  {
    if 8 * b + 8 <= |d| then d[8 * b..8 * b + 8] else [0, 0, 0, 0, 0, 0, 0, 0]
  }

  lemma NextDigits(d: seq<int>, b: nat)
    requires |d| % 8 == 0
    ensures Value(Rest(d, 8 * b)) == Value(ByteDigits(d, b)) + 256 * Value(Rest(d, 8 * b + 8))
  {
    assert Pow2(4) == 16 && Pow2(8) == 256;
    if 8 * b + 8 <= |d| {
      assert d[8 * b..] == d[8 * b..8 * b + 8] + d[8 * b + 8..];
      ValueConcat(d[8 * b..8 * b + 8], d[8 * b + 8..]);
    } else {
      ZeroDigits([0, 0, 0, 0, 0, 0, 0, 0]);
      assert Rest(d, 8 * b) == [];
    }
  }

  /** The bytes read from one scalar in one round, and the digits they hold. */
  method ScalarByte(pos: seq<byte>, neg: seq<byte>, ghost d: seq<int>, b: nat) returns (p: byte, n: byte)
    requires Encodes(pos, neg, d)
    ensures p == Mask(ByteDigits(d, b), 1) && n == Mask(ByteDigits(d, b), -1)
  {
    if b >= |pos| {
      p, n := 0, 0;
      ZeroDigits([0, 0, 0, 0, 0, 0, 0, 0]);
    } else {
      p, n := pos[|pos| - 1 - b], neg[|pos| - 1 - b];
      assert d[8 * b..8 * b + 8] == ByteDigits(d, b);
    }
  }

  lemma ByteSigned(d: seq<int>, b: nat)
    requires Signed(d)
    ensures Signed(ByteDigits(d, b))
  {
  }

  lemma NextScalar(d1: seq<int>, d2: seq<int>, b: nat, u1: int, u2: int)
    requires |d1| % 8 == 0 && |d2| % 8 == 0
    ensures Value(Rest(d1, 8 * b)) * u1 + Value(Rest(d2, 8 * b)) * u2
         == 256 * (Value(Rest(d1, 8 * (b + 1))) * u1 + Value(Rest(d2, 8 * (b + 1))) * u2)
            + Value(ByteDigits(d1, b)) * u1 + Value(ByteDigits(d2, b)) * u2
  {
    hide Value, Rest, ByteDigits;
    assert 8 * (b + 1) == 8 * b + 8;
    NextDigits(d1, b);
    NextDigits(d2, b);
    ScaledSum(Value(Rest(d1, 8 * (b + 1))), Value(ByteDigits(d1, b)), u1);
    ScaledSum(Value(Rest(d2, 8 * (b + 1))), Value(ByteDigits(d2, b)), u2);
  }

  lemma ScaledSum(r: int, e: int, u: int)
    ensures (e + 256 * r) * u == e * u + 256 * (r * u)
  {
  }

  lemma NothingRead(d: seq<int>, m: nat)
    requires |d| <= 8 * m
    ensures Value(Rest(d, 8 * m)) == 0
  {
    assert Rest(d, 8 * m) == [];
  }

  lemma AllRead(d: seq<int>)
    ensures Rest(d, 8 * 0) == d
  {
  }

  /** Coordinates with z = 1 of a point and of its opposite. */
  method PointPair(x: Limbs, y: Limbs, ghost p: Point) returns (yNeg: Limbs)
    requires Fermat() && p.Affine? && OnCurve(p) && Rep(x, 1, p.x) && Rep(y, 1, p.y)
    ensures Pair(x, y, yNeg, SetInt(1), p)
  {
    hide Mag, FieldEq, Val, Fermat, OnCurve, Rep, Jac;
    yNeg := NegateVal(y, 1, p.y);
    NegateOnCurve(p);
    KeptJacOne(x, y, SetInt(1), p);
    OneJac(x, yNeg, Negate(p));
  }

  lemma OneJac(x: Limbs, y: Limbs, p: Point)
    requires p.Affine? && OnCurve(p) && Rep(x, 1, p.x) && Rep(y, 2, p.y)
    ensures Jac(x, y, SetInt(1), p)
  {
    OneVal();
    CongSmall(PRIME, 1, 0);
    MagMono(x, 1, 2);
    hide Val;
  }

  lemma CompactRep(a: Limbs, v: int)
    requires Compact(a) && Val(a) == v
    ensures Rep(a, 1, v)
  {
  }

  /** The outer loop of `ScalarMult` (algorithm 3.77 of the Guide to Elliptic Curve Cryptography):
      from infinity, it accumulates both signed-digit scalars at once. */
  method Interleave(qx: FieldVal, qy: FieldVal, qz: FieldVal,
                    p1x: FieldVal, p1y: FieldVal, p1yNeg: FieldVal, p1z: FieldVal,
                    p2x: FieldVal, p2y: FieldVal, p2yNeg: FieldVal, p2z: FieldVal,
                    k1Pos: seq<byte>, k1Neg: seq<byte>, k2Pos: seq<byte>, k2Neg: seq<byte>,
                    ghost d1: seq<int>, ghost d2: seq<int>,
                    ghost p1: Point, ghost p2: Point, ghost u1: int, ghost u2: int, ghost base: Point)
    requires Apart(qx, qy, qz, p1x, p1y, p1yNeg, p1z, p2x, p2y, p2yNeg, p2z)
    requires Fermat() && Associative() && OnCurve(base) && Same(p1, Times(u1, base)) && Same(p2, Times(u2, base))
    requires Jac(qx.n, qy.n, qz.n, Times(0, base))
    requires Pair(p1x.n, p1y.n, p1yNeg.n, p1z.n, p1) && Pair(p2x.n, p2y.n, p2yNeg.n, p2z.n, p2)
    requires Encodes(k1Pos, k1Neg, d1) && Signed(d1) && Encodes(k2Pos, k2Neg, d2) && Signed(d2)
    modifies qx, qy, qz, p1x, p1y, p1yNeg, p1z, p2x, p2y, p2yNeg, p2z
    ensures Jac(qx.n, qy.n, qz.n, Times(Value(d1) * u1 + Value(d2) * u2, base))
  {
    hide Jac, Pair, Fermat, Associative, OnCurve, Same, Times, Mask, Value, Encodes, Signed, Rest, ByteDigits, Apart;
    var m := if |k1Pos| < |k2Pos| then |k2Pos| else |k1Pos|;
    ghost var at := 0;
    EncodedLength(k1Pos, k1Neg, d1);
    EncodedLength(k2Pos, k2Neg, d2);
    NothingRead(d1, m);
    NothingRead(d2, m);
    for i := 0 to m
      invariant Jac(qx.n, qy.n, qz.n, Times(at, base))
      invariant at == Value(Rest(d1, 8 * (m - i))) * u1 + Value(Rest(d2, 8 * (m - i))) * u2
      invariant Pair(p1x.n, p1y.n, p1yNeg.n, p1z.n, p1) && Pair(p2x.n, p2y.n, p2yNeg.n, p2z.n, p2)
    {
      ghost var b := m - i - 1;
      var k1BytePos, k1ByteNeg := ScalarByte(k1Pos, k1Neg, d1, m - i - 1);
      var k2BytePos, k2ByteNeg := ScalarByte(k2Pos, k2Neg, d2, m - i - 1);
      ByteSigned(d1, b);
      ByteSigned(d2, b);
      ByteLoop(qx, qy, qz, p1x, p1y, p1yNeg, p1z, p2x, p2y, p2yNeg, p2z, k1BytePos, k1ByteNeg, k2BytePos, k2ByteNeg,
               ByteDigits(d1, b), ByteDigits(d2, b), p1, p2, u1, u2, base, at);
      NextScalar(d1, d2, b, u1, u2);
      at := 256 * at + Value(ByteDigits(d1, b)) * u1 + Value(ByteDigits(d2, b)) * u2;
    }
    AllRead(d1);
    AllRead(d2);
  }

  /** `ScalarMult`: k times a point of the curve, for a scalar of any length and coordinates of 256 bits,
      reduced or not. */
  method ScalarMult(bx: nat, by': nat, k: seq<byte>) returns (x: nat, y: nat)
    requires bx < 0x10000000000000000000000000000000000000000000000000000000000000000 &&
        by' < 0x10000000000000000000000000000000000000000000000000000000000000000
    requires OnCurve(Affine(bx, by'))
    requires Hypotheses()
    ensures BigAffine(x, y, Times(FromBytes(k), Affine(bx, by')))
  {
    hide Jac, Pair, Fermat, Associative, OnCurve, Same, Times, Mask, Value, Rep, Val, Mag, FieldEq, FromBytes,
         Encodes, Signed, NonAdjacent, Rest, ByteDigits, CurveFacts, BigAffine, Compact, Cong, Apart, AllDifferent;
    ghost var p := Affine(bx, by');
    var k1, k2, sign1, sign2 := SplitK(ModuloReduce(k));
    var p1x, p1y, p1yNeg, p1z, p2x, p2y, p2yNeg, p2z := OperandPoints(bx, by', p);
    var qx := new FieldVal(SetInt(0));
    var qy := new FieldVal(SetInt(0));
    var qz := new FieldVal(SetInt(0));
    assert Apart(qx, qy, qz, p1x, p1y, p1yNeg, p1z, p2x, p2y, p2yNeg, p2z) by {
      NewAccumulator(qx, qy, qz, p1x, p1y, p1yNeg, p1z, p2x, p2y, p2yNeg, p2z);
    }
    ApartSwaps(qx, qy, qz, p1x, p1y, p1yNeg, p1z, p2x, p2y, p2yNeg, p2z);
    ghost var s1, s2 := if sign1 == -1 then -1 else 1, if sign2 == -1 then -1 else 1;
    ghost var q1 := if sign1 == -1 then Negate(p) else p;
    ghost var q2 := if sign2 == -1 then Negate(Endo(p)) else Endo(p);
    SwapPair(p1x.n, p1y.n, p1yNeg.n, p1z.n, p);
    SwapPair(p2x.n, p2y.n, p2yNeg.n, p2z.n, Endo(p));
    OperandMultiples(p, s1, s2, q1, q2);
    // A negative part is the opposite point times the magnitude.
    if sign1 == -1 {
      p1y, p1yNeg := p1yNeg, p1y;
    }
    if sign2 == -1 {
      p2y, p2yNeg := p2yNeg, p2y;
    }
    ghost var d1, d2;
    var k1Pos, k1Neg, k2Pos, k2Neg;
    k1Pos, k1Neg, d1 := NAF(k1);
    k2Pos, k2Neg, d2 := NAF(k2);
    ZeroJac();
    TimesZero(p);
    ghost var at := Value(d1) * s1 + Value(d2) * (s2 * LAMBDA);
    Interleave(qx, qy, qz, p1x, p1y, p1yNeg, p1z, p2x, p2y, p2yNeg, p2z, k1Pos, k1Neg, k2Pos, k2Neg,
               d1, d2, q1, q2, s1, s2 * LAMBDA, p);
    FinalScalar(k, k1, k2, sign1, sign2, s1, s2, at, p);
    JacSame(qx.n, qy.n, qz.n, Times(at, p), Times(FromBytes(k), p));
    x, y := FieldJacobianToBigAffine(qx, qy, qz, Times(FromBytes(k), p));
  }

  lemma EncodedLength(pos: seq<byte>, neg: seq<byte>, d: seq<int>)
    requires Encodes(pos, neg, d)
    ensures |d| == 8 * |pos| && |pos| == |neg|
  {
  }

  predicate AllDifferent(p1x: FieldVal, p1y: FieldVal, p1yNeg: FieldVal, p1z: FieldVal,
                         p2x: FieldVal, p2y: FieldVal, p2yNeg: FieldVal, p2z: FieldVal)
  {
    && p1x !in {p1y, p1yNeg, p1z, p2x, p2y, p2yNeg, p2z}
    && p1y !in {p1yNeg, p1z, p2x, p2y, p2yNeg, p2z}
    && p1yNeg !in {p1z, p2x, p2y, p2yNeg, p2z}
    && p1z !in {p2x, p2y, p2yNeg, p2z}
    && p2x !in {p2y, p2yNeg, p2z} && p2y !in {p2yNeg, p2z} && p2yNeg != p2z
  }

  lemma NewAccumulator(qx: FieldVal, qy: FieldVal, qz: FieldVal,
                       p1x: FieldVal, p1y: FieldVal, p1yNeg: FieldVal, p1z: FieldVal,
                       p2x: FieldVal, p2y: FieldVal, p2yNeg: FieldVal, p2z: FieldVal)
    requires AllDifferent(p1x, p1y, p1yNeg, p1z, p2x, p2y, p2yNeg, p2z)
    requires qx != qy && qx != qz && qy != qz
    requires {qx, qy, qz} !! {p1x, p1y, p1yNeg, p1z, p2x, p2y, p2yNeg, p2z}
    ensures Apart(qx, qy, qz, p1x, p1y, p1yNeg, p1z, p2x, p2y, p2yNeg, p2z)
  {
  }

  lemma ApartSwaps(qx: FieldVal, qy: FieldVal, qz: FieldVal,
                   p1x: FieldVal, p1y: FieldVal, p1yNeg: FieldVal, p1z: FieldVal,
                   p2x: FieldVal, p2y: FieldVal, p2yNeg: FieldVal, p2z: FieldVal)
    requires Apart(qx, qy, qz, p1x, p1y, p1yNeg, p1z, p2x, p2y, p2yNeg, p2z)
    ensures Apart(qx, qy, qz, p1x, p1yNeg, p1y, p1z, p2x, p2y, p2yNeg, p2z)
    ensures Apart(qx, qy, qz, p1x, p1y, p1yNeg, p1z, p2x, p2yNeg, p2y, p2z)
    ensures Apart(qx, qy, qz, p1x, p1yNeg, p1y, p1z, p2x, p2yNeg, p2y, p2z)
  {
  }

  lemma SwapPair(x: Limbs, y: Limbs, yNeg: Limbs, z: Limbs, p: Point)
    requires p.Affine?
    ensures Pair(x, yNeg, y, z, p) <==> Pair(x, y, yNeg, z, Negate(p))
    ensures Pair(x, y, yNeg, z, p) <==> Pair(x, yNeg, y, z, Negate(p))
  {
    hide Jac;
    assert Negate(Negate(p)) == p;
  }

  /** The points p and phi(p), each with its opposite. */
  method OperandPoints(bx: nat, by': nat, ghost p: Point)
    returns (p1x: FieldVal, p1y: FieldVal, p1yNeg: FieldVal, p1z: FieldVal,
             p2x: FieldVal, p2y: FieldVal, p2yNeg: FieldVal, p2z: FieldVal)
    requires bx < 0x10000000000000000000000000000000000000000000000000000000000000000 &&
        by' < 0x10000000000000000000000000000000000000000000000000000000000000000
    requires p == Affine(bx, by') && OnCurve(p)
    requires Fermat()
    ensures fresh({p1x, p1y, p1yNeg, p1z, p2x, p2y, p2yNeg, p2z})
    ensures AllDifferent(p1x, p1y, p1yNeg, p1z, p2x, p2y, p2yNeg, p2z)
    ensures Pair(p1x.n, p1y.n, p1yNeg.n, p1z.n, p) && Pair(p2x.n, p2y.n, p2yNeg.n, p2z.n, Endo(p))
  {
    hide Jac, Pair, OnCurve, Rep, Val, Mag, FieldEq, Compact, Fermat, FromBytes;
    SmallBytes(bx);
    SmallBytes(by');
    SmallBytes(BETA);
    var x := SetByteSlice(ToBytes(bx));
    var y := SetByteSlice(ToBytes(by'));
    var beta := SetByteSlice(ToBytes(BETA));
    CompactRep(x, bx);
    CompactRep(y, by');
    CompactRep(beta, BETA);
    var yNeg := PointPair(x, y, p);
    var x2 := Mul2(x, beta, 1, 1, bx, BETA);
    EndoOnCurve(p);
    var y2Neg := PointPair(x2, y, Endo(p));
    p1x := new FieldVal(x);
    p1y := new FieldVal(y);
    p1yNeg := new FieldVal(yNeg);
    p1z := new FieldVal(SetInt(1));
    p2x := new FieldVal(x2);
    p2y := new FieldVal(y);
    p2yNeg := new FieldVal(y2Neg);
    p2z := new FieldVal(SetInt(1));
  }

  lemma SmallBytes(n: nat)
    requires n < 0x10000000000000000000000000000000000000000000000000000000000000000
    ensures |ToBytes(n)| <= 32
  {
    PowThirteen();
    assert Pow256(30) == 0x1000000000000000000000000000000000000000000000000000000000000;
    assert Pow256(32) == 0x10000000000000000000000000000000000000000000000000000000000000000;
    ToBytesFits(n, 32);
  }

  /** The operands are multiples of p by plus or minus one and lambda. */
  lemma OperandMultiples(p: Point, s1: int, s2: int, q1: Point, q2: Point)
    requires Hypotheses() && OnCurve(p) && p.Affine? && s1 in {-1, 1} && s2 in {-1, 1}
    requires q1 == (if s1 == -1 then Negate(p) else p) && q2 == (if s2 == -1 then Negate(Endo(p)) else Endo(p))
    ensures Same(q1, Times(s1, p)) && Same(q2, Times(s2 * LAMBDA, p))
  {
    hide Fermat, Associative, OnCurve, Same, Add;
    TimesOne(p);
    assert Same(Endo(p), Times(LAMBDA, p));
    NegateSame(p, Times(1, p));
    TimesNegate(1, p);
    SameTrans(Negate(p), Negate(Times(1, p)), Times(-1, p));
    NegateSame(Endo(p), Times(LAMBDA, p));
    TimesNegate(LAMBDA, p);
    SameTrans(Negate(Endo(p)), Negate(Times(LAMBDA, p)), Times(-LAMBDA, p));
  }

  lemma TimesOne(p: Point)
    ensures Same(p, Times(1, p))
  {
    assert Times(1, p) == Add(Times(0, p), p) == p;
    SameRefl(p);
  }

  lemma SignedParts(a: nat, b: nat, sign1: int, sign2: int, s1: int, s2: int, l: int)
    requires sign1 in {-1, 0, 1} && sign2 in {-1, 0, 1}
    requires (sign1 == 0 ==> a == 0) && (sign2 == 0 ==> b == 0)
    requires s1 == (if sign1 == -1 then -1 else 1) && s2 == (if sign2 == -1 then -1 else 1)
    ensures a * s1 + b * (s2 * l) == sign1 * a + sign2 * b * l
  {
  }

  /** The scalar that was read is congruent to k. */
  lemma FinalScalar(k: seq<byte>, k1: seq<byte>, k2: seq<byte>, sign1: int, sign2: int, s1: int, s2: int, at: int,
      p: Point)
    requires Hypotheses() && OnCurve(p) && sign1 in {-1, 0, 1} && sign2 in {-1, 0, 1}
    requires Cong(N, sign1 * FromBytes(k1) + sign2 * FromBytes(k2) * LAMBDA, FromBytes(ModuloReduce(k)))
    requires sign1 == 0 ==> FromBytes(k1) == 0
    requires sign2 == 0 ==> FromBytes(k2) == 0
    requires s1 == (if sign1 == -1 then -1 else 1) && s2 == (if sign2 == -1 then -1 else 1)
    requires at == FromBytes(k1) * s1 + FromBytes(k2) * (s2 * LAMBDA)
    ensures Same(Times(at, p), Times(FromBytes(k), p)) && OnCurve(Times(FromBytes(k), p))
  {
    hide Fermat, Associative, OnCurve, Same, Times, FromBytes, ModuloReduce;
    SignedParts(FromBytes(k1), FromBytes(k2), sign1, sign2, s1, s2, LAMBDA);
    assert Cong(N, at, FromBytes(k));
    assert Same(Times(N, p), Infinity);
    TimesCong(N, at, FromBytes(k), p);
    TimesOnCurve(FromBytes(k), p);
  }

  // ---- the base point ----

  datatype Coordinates = Coordinates(x: Limbs, y: Limbs, z: Limbs)

  /** The window table: row `w`, column `b` holds b * 256^(31 - w) times the base point. */
  ghost predicate WindowTable(t: seq<seq<Coordinates>>, g: Point)
  {
    && |t| == 32
    && (forall w :: 0 <= w < 32 ==> |t[w]| == 256)
    && forall w, b :: 0 <= w < 32 && 0 <= b < 256 ==>
         Jac(t[w][b].x, t[w][b].y, t[w][b].z, Times(b * Pow256(31 - w), g))
  }

  lemma TableEntry(t: seq<seq<Coordinates>>, g: Point, w: nat, b: nat)
    requires WindowTable(t, g) && w < 32 && b < 256
    ensures |t| == 32 && |t[w]| == 256 && Jac(t[w][b].x, t[w][b].y, t[w][b].z, Times(b * Pow256(31 - w), g))
  {
  }

  /** The value of the digits read so far, at their places. */
  function Placed(k: seq<byte>, i: nat): nat
    requires i <= |k|
  {
    FromBytes(k[..i]) * Pow256(|k| - i)
  }

  lemma PlaceNext(k: seq<byte>, i: nat)
    requires i < |k|
    ensures Placed(k, i + 1) == Placed(k, i) + k[i] * Pow256(|k| - i - 1)
  {
    Snoc(k, i);
    hide FromBytes;
    var f, p := FromBytes(k[..i]), Pow256(|k| - i - 1);
    assert Pow256(|k| - i) == 256 * p;
    assert (f * 256 + k[i]) * p == f * (256 * p) + k[i] * p;
  }

  lemma PlaceEnds(k: seq<byte>)
    ensures Placed(k, 0) == 0 && Placed(k, |k|) == FromBytes(k)
  {
    assert k[..|k|] == k && k[..0] == [];
  }

  lemma ReducedLength(k: seq<byte>)
    ensures |ModuloReduce(k)| <= 32
  {
    if |k| > 32 {
      SmallBytes(FromBytes(k) % N);
    }
  }

  /** `ScalarBaseMult`: k times the base point, one table entry per byte of the scalar. */
  method ScalarBaseMult(bytePoints: seq<seq<Coordinates>>, k: seq<byte>, ghost g: Point) returns (x: nat, y: nat)
    requires Hypotheses() && OnCurve(g) && WindowTable(bytePoints, g)
    ensures BigAffine(x, y, Times(FromBytes(k), g))
  {
    hide Jac, Fermat, Associative, OnCurve, Same, Times, FromBytes, WindowTable, CurveFacts, BigAffine, Placed, Cong,
        ModuloReduce;
    var newK := ModuloReduce(k);
    ReducedLength(k);
    var diff := 32 - |newK|;
    var qx := new FieldVal(SetInt(0));
    var qy := new FieldVal(SetInt(0));
    var qz := new FieldVal(SetInt(0));
    ZeroJac();
    TimesZero(g);
    PlaceEnds(newK);
    for i := 0 to |newK|
      invariant Jac(qx.n, qy.n, qz.n, Times(Placed(newK, i), g))
    {
      TableEntry(bytePoints, g, diff + i, newK[i]);
      ghost var u := newK[i] * Pow256(|newK| - i - 1);
      var p := bytePoints[diff + i][newK[i]];
      var px := new FieldVal(p.x);
      var py := new FieldVal(p.y);
      var pz := new FieldVal(p.z);
      AddJacobian(qx, qy, qz, px, py, pz, qx, qy, qz, Times(Placed(newK, i), g), Times(u, g));
      SameRefl(Times(u, g));
      AddedMultiple(qx.n, qy.n, qz.n, Placed(newK, i), u, Times(u, g), g);
      PlaceNext(newK, i);
    }
    BaseScalar(newK, k, g);
    JacSame(qx.n, qy.n, qz.n, Times(FromBytes(newK), g), Times(FromBytes(k), g));
    x, y := FieldJacobianToBigAffine(qx, qy, qz, Times(FromBytes(k), g));
  }

  lemma BaseScalar(r: seq<byte>, k: seq<byte>, g: Point)
    requires Hypotheses() && OnCurve(g) && r == ModuloReduce(k)
    ensures Same(Times(FromBytes(r), g), Times(FromBytes(k), g)) && OnCurve(Times(FromBytes(k), g))
  {
    hide Fermat, Associative, OnCurve, Same, Times, FromBytes;
    assert Same(Times(N, g), Infinity);
    TimesCong(N, FromBytes(r), FromBytes(k), g);
    TimesOnCurve(FromBytes(k), g);
  }
}
