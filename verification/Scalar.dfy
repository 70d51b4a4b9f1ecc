/** Scalar multiplication: the endomorphism split, signed digits and the interleaved loop. */
module Scalar {
  import opened Congruence
  import opened MachineTypes
  import opened Limbs
  import opened BigEndian
  import opened Curve
  import opened JacobianFormulas
  import opened CurveGroup

  const N: int := 0xFFFFFFFF_FFFFFFFF_FFFFFFFF_FFFFFFFE_BAAEDCE6_AF48A03B_BFD25E8C_D0364141
  const LAMBDA: int := 0x5363AD4C_C05C30E0_A5261C02_8812645A_122E22EA_20816678_DF02967C_1B23BD72
  const BETA: int := 0x7AE96A2B_657C0710_6E64479E_AC3434E9_9CF04975_12F58995_C1396C28_719501EE
  const A1: int := 0x3086D221_A7D46BCD_E86C90E4_9284EB15
  const B1: int := -0xE4437ED6_010E8828_6F547FA9_0ABFE4C3
  const A2: int := 0x1_14CA50F7_A8E2F3F6_57C1108D_9D44CFD8
  const B2: int := 0x3086D221_A7D46BCD_E86C90E4_9284EB15

  /** The two lattice vectors vanish under (a, b) -> a + b * lambda, and they span the whole kernel. */
  lemma VectorsInKernel()
    ensures Cong(N, A1 + B1 * LAMBDA, 0) && Cong(N, A2 + B2 * LAMBDA, 0)
    ensures A1 * B2 - A2 * B1 == N
    ensures 0 < A1 == B2 < A2 == B2 - B1 < 0x2_00000000_00000000_00000000_00000000
  {
    hide Cong;
    CongMod(N, A1 + B1 * LAMBDA, 0);
    CongMod(N, A2 + B2 * LAMBDA, 0);
  }

  function Sign(n: int): int
  {
    if n > 0 then 1 else if n < 0 then -1 else 0
  }

  function Magnitude(n: int): nat
  {
    if n >= 0 then n else -n
  }

  /** `splitK`: a scalar of any size as k1 + k2 * lambda with two short parts, returned as
      magnitudes and signs. */
  method SplitK(k: seq<byte>) returns (b1: seq<byte>, b2: seq<byte>, sign1: int, sign2: int)
    ensures sign1 in {-1, 0, 1} && sign2 in {-1, 0, 1}
    ensures Cong(N, sign1 * FromBytes(b1) + sign2 * FromBytes(b2) * LAMBDA, FromBytes(k))
    ensures FromBytes(b1) < A2 && FromBytes(b2) < A2
    ensures (sign1 == 0 ==> FromBytes(b1) == 0) && (sign2 == 0 ==> FromBytes(b2) == 0)
  {
    var bigIntK := FromBytes(k);
    var c1 := B2 * bigIntK;
    c1 := c1 / N;
    var c2 := B1 * bigIntK;
    c2 := c2 / N;
    var tmp1 := c1 * A1;
    var tmp2 := c2 * A2;
    var k1 := bigIntK - tmp1;
    k1 := k1 + tmp2;
    tmp1 := c1 * B1;
    tmp2 := c2 * B2;
    var k2 := tmp2 - tmp1;
    SplitBound(bigIntK, c1, c2, k1, k2);
    SplitCong(bigIntK, c1, c2, k1, k2);
    b1, b2, sign1, sign2 := ToBytes(Magnitude(k1)), ToBytes(Magnitude(k2)), Sign(k1), Sign(k2);
    assert sign1 * FromBytes(b1) == k1 && sign2 * FromBytes(b2) == k2;
  }

  /** Flooring the two quotients instead of rounding still keeps both parts below a2. */
  lemma SplitBound(k: nat, c1: int, c2: int, k1: int, k2: int)
    requires c1 == (B2 * k) / N && c2 == (B1 * k) / N
    requires k1 == k - c1 * A1 + c2 * A2 && k2 == c2 * B2 - c1 * B1
    ensures -A2 < k1 < A1 && B1 - B2 < k2 <= 0
  {
    var r1, r2 := (B2 * k) % N, (B1 * k) % N;
    assert N * c1 == B2 * k - r1 && N * c2 == B1 * k - r2;
    assert N * k1 == r1 * A1 - r2 * A2;
    assert N * k2 == r1 * B1 - r2 * B2;
  }

  /** The congruence holds whatever c1 and c2 are. */
  lemma SplitCong(k: int, c1: int, c2: int, k1: int, k2: int)
    requires k1 == k - c1 * A1 + c2 * A2 && k2 == c2 * B2 - c1 * B1
    ensures Cong(N, k1 + k2 * LAMBDA, k)
  {
    VectorsInKernel();
    var u := CongWitness(N, A1 + B1 * LAMBDA, 0);
    var v := CongWitness(N, A2 + B2 * LAMBDA, 0);
    assert k1 + k2 * LAMBDA == k - c1 * (u * N) + c2 * (v * N);
    assert (c2 * v - c1 * u) * N == c2 * (v * N) - c1 * (u * N);
    CongByMultiple(N, k1 + k2 * LAMBDA, k, c2 * v - c1 * u);
  }

  /** `moduloReduce`. */
  function ModuloReduce(k: seq<byte>): (r: seq<byte>)
    ensures Cong(N, FromBytes(r), FromBytes(k))
  {
    if |k| > 32 then
      CongMod(N, FromBytes(k) % N, FromBytes(k));
      ToBytes(FromBytes(k) % N)
    else k
  }

  /** The map (x, y) -> (beta * x, y). */
  function Endo(p: Point): Point
  {
    match p
    case Infinity => Infinity
    case Affine(x, y) => Affine(x * BETA, y)
  }

  lemma EndoOnCurve(p: Point)
    requires OnCurve(p)
    ensures OnCurve(Endo(p))
  {
    if p.Affine? {
      var c := p.x * p.x * p.x;
      CongMod(PRIME, BETA * BETA * BETA, 1);
      CongMul(PRIME, c, c, BETA * BETA * BETA, 1);
      assert (p.x * BETA) * (p.x * BETA) * (p.x * BETA) == c * (BETA * BETA * BETA) by { CubeOfProduct(p.x, BETA); }
      CongAdd(PRIME, c * (BETA * BETA * BETA), c, 7, 7);
    }
  }

  lemma CubeOfProduct(a: int, b: int)
    ensures (a * b) * (a * b) * (a * b) == (a * a * a) * (b * b * b)
  {
    SquareOfProduct(a, b);
    assert ((a * a) * (b * b)) * (a * b) == ((a * a) * a) * ((b * b) * b);
  }

  /** The number-theoretic facts about secp256k1 that the split relies on: every point has order
      dividing N, and the endomorphism multiplies by lambda. */
  ghost predicate CurveFacts()
  {
    forall p: Point :: OnCurve(p) ==> Same(Times(N, p), Infinity) && Same(Endo(p), Times(LAMBDA, p))
  }

  /** The big integers that stand for a point: (0, 0) is infinity. */
  predicate BigAffine(x: int, y: int, p: Point)
  {
    match p
    case Infinity => x == 0 && y == 0
    case Affine(u, v) => x == u % PRIME && y == v % PRIME
  }
}
