/** The window table of multiples of the base point that `ScalarBaseMult` reads. */
module BasePoints {
  import opened Congruence
  import opened MachineTypes
  import opened Limbs
  import opened BigEndian
  import opened Field
  import opened FieldPower
  import opened Curve
  import opened JacobianFormulas
  import opened Jacobian
  import opened JacobianAdd
  import opened CurveGroup
  import opened Naf
  import opened Scalar
  import opened ScalarMult

  const GX: nat := 0x79BE667E_F9DCBBAC_55A06295_CE870B07_029BFCDB_2DCE28D9_59F2815B_16F81798
  const GY: nat := 0x483ADA77_26A3C465_5DA4FBFC_0E1108A8_FD17B448_A6855419_9C47D08F_FB10D4B8

  /** The base point is on the curve. */
  lemma BaseOnCurve()
    ensures OnCurve(Affine(GX, GY))
  {
    CongMod(PRIME, GY * GY, GX * GX * GX + 7);
  }

  /** The coordinates stand for this multiple of the point. */
  ghost predicate Stands(c: Coordinates, k: int, g: Point)
  {
    Jac(c.x, c.y, c.z, Times(k, g))
  }

  /** The first points are the doublings of the base point. */
  ghost predicate Doublings(ps: seq<Coordinates>, g: Point)
  {
    forall i :: 0 <= i < |ps| ==> Stands(ps[i], Pow2(i), g)
  }

  /** `getDoublingPoints`: the base point times 2^i, for i below 256. */
  method GetDoublingPoints(ghost g: Point) returns (ps: seq<Coordinates>)
    requires Fermat() && Associative() && g == Affine(GX, GY)
    ensures |ps| == 256 && Doublings(ps, g)
  {
    hide Jac, Fermat, Associative, OnCurve, Same, Times, Rep, Val, Mag, FieldEq, Compact, FromBytes, ToBytes, Double,
        Pow2;
    BaseOnCurve();
    SmallBytes(GX);
    SmallBytes(GY);
    var x := SetByteSlice(ToBytes(GX));
    var y := SetByteSlice(ToBytes(GY));
    var px := new FieldVal(x);
    var py := new FieldVal(y);
    var pz := new FieldVal(SetInt(1));
    BaseStands(x, y, g);
    ps := [];
    for i := 0 to 256
      invariant |ps| == i && Doublings(ps, g)
      invariant Jac(px.n, py.n, pz.n, Times(Pow2(i), g))
    {
      ps := ps + [Coordinates(px.n, py.n, pz.n)];
      DoubleJacobian(px, py, pz, px, py, pz, Times(Pow2(i), g));
      DoubledMultiple(px.n, py.n, pz.n, Pow2(i), g);
      Pow2Next(i);
    }
  }

  lemma BaseStands(x: Limbs, y: Limbs, g: Point)
    requires g == Affine(GX, GY) && Compact(x) && Val(x) == GX && Compact(y) && Val(y) == GY
    ensures Jac(x, y, SetInt(1), Times(Pow2(0), g))
  {
    hide Jac, OnCurve, Rep, Val, FieldEq, Mag, Compact;
    BaseOnCurve();
    CompactRep(x, GX);
    CompactRep(y, GY);
    RepWiden(y, 1, 2, GY);
    OneJac(x, y, g);
    OneTimes(g);
  }

  lemma OneTimes(g: Point)
    ensures Times(Pow2(0), g) == g
  {
    assert Times(1, g) == Add(Times(0, g), g) == g;
  }

  lemma Pow2Next(i: nat)
    ensures Pow2(i + 1) == 2 * Pow2(i)
  {
  }

  /** The bits of `i` below `j` have been added. */
  lemma NextBit(i: nat, j: nat, start: nat)
    requires j < 8
    ensures var bit := i / Pow2(j) % 2;
            && i % Pow2(j + 1) == i % Pow2(j) + bit * Pow2(j)
            && (i % Pow2(j + 1)) * Pow2(start) == (i % Pow2(j)) * Pow2(start) + bit * Pow2(start + j)
  {
    Pow2Next(j);
    Pow2Sum(start, j);
    hide Pow2;
    BitSplit(i, Pow2(j));
    Distributed(i % Pow2(j), i / Pow2(j) % 2, Pow2(j), Pow2(start));
  }

  lemma Distributed(r: int, bit: int, p: int, s: int)
    ensures (r + bit * p) * s == r * s + bit * (s * p)
  {
    assert (bit * p) * s == bit * (s * p);
  }

  lemma BitSplit(i: nat, p: nat)
    requires p > 0
    ensures i % (2 * p) == i % p + i / p % 2 * p
  {
    var q := i / p;
    assert i == p * q + i % p;
    var h, bit := q / 2, q % 2;
    assert p * q == (2 * p) * h + bit * p by {
      assert q == 2 * h + bit;
      assert p * (2 * h + bit) == (2 * p) * h + bit * p;
    }
    var r := bit * p + i % p;
    assert 0 <= r < 2 * p;
    ModUnique(i, 2 * p, h, r);
  }

  lemma ModUnique(i: int, m: int, h: int, r: int)
    requires m > 0 && i == m * h + r && 0 <= r < m
    ensures i % m == r
  {
    var k := i / m;
    assert i == m * k + i % m;
    assert m * (h - k) == m * h - m * k;
    FarMultiple(m, h - k);
  }

  /** One entry of the table: the sum of the doublings at the bits of `i`. The doublings that were added
      may come back normalized. */
  method WindowPoint(ps: seq<Coordinates>, start: nat, i: nat, ghost g: Point)
    returns (c: Coordinates, ps': seq<Coordinates>)
    requires Fermat() && Associative() && OnCurve(g) && i < 256 && start + 8 <= |ps| && Doublings(ps, g)
    ensures Stands(c, i * Pow2(start), g)
    ensures |ps'| == |ps| && Doublings(ps', g)
  {
    hide Jac, Fermat, Associative, OnCurve, Same, Times, Pow2, Kept;
    ps' := ps;
    var px := new FieldVal(SetInt(0));
    var py := new FieldVal(SetInt(0));
    var pz := new FieldVal(SetInt(0));
    ZeroJac();
    TimesZero(g);
    NoBits(i, start);
    for j := 0 to 8
      invariant |ps'| == |ps| && Doublings(ps', g)
      invariant Jac(px.n, py.n, pz.n, Times((i % Pow2(j)) * Pow2(start), g))
    {
      NextBit(i, j, start);
      if i / Pow2(j) % 2 == 1 {
        var d := ps'[start + j];
        ghost var c, u := (i % Pow2(j)) * Pow2(start), Pow2(start + j);
        assert Stands(d, u, g);
        var dx := new FieldVal(d.x);
        var dy := new FieldVal(d.y);
        var dz := new FieldVal(d.z);
        AddJacobian(px, py, pz, dx, dy, dz, px, py, pz, Times(c, g), Times(u, g));
        SameRefl(Times(u, g));
        AddedMultiple(px.n, py.n, pz.n, c, u, Times(u, g), g);
        KeptJac(d.x, d.y, d.z, dx.n, dy.n, dz.n, Times(u, g));
        ps' := ps'[start + j := Coordinates(dx.n, dy.n, dz.n)];
      }
    }
    AllBits(i);
    c := Coordinates(px.n, py.n, pz.n);
  }

  lemma NoBits(i: nat, start: nat)
    ensures (i % Pow2(0)) * Pow2(start) == 0
  {
  }

  lemma AllBits(i: nat)
    requires i < 256
    ensures i % Pow2(8) == i
  {
    assert Pow2(4) == 16 && Pow2(8) == 256;
  }

  /** `SerializedBytePoints`, without the byte form: the table holds the multiples of the base point that
      `ScalarBaseMult` takes it to hold. */
  method BytePoints(ghost g: Point) returns (t: seq<seq<Coordinates>>)
    requires Fermat() && Associative() && g == Affine(GX, GY)
    ensures WindowTable(t, g)
  {
    hide Fermat, Associative, OnCurve, Pow2, Pow256, Stands, Doublings;
    BaseOnCurve();
    var ps := GetDoublingPoints(g);
    t := [];
    for byteNum := 0 to 32
      invariant |t| == byteNum && |ps| == 256 && Doublings(ps, g)
      invariant forall w :: 0 <= w < byteNum ==> Row(t[w], Pow256(31 - w), g)
    {
      var start := 8 * (31 - byteNum);
      var row := [];
      Pow2Bytes(31 - byteNum);
      for i := 0 to 256
        invariant |row| == i && |ps| == 256 && Doublings(ps, g)
        invariant forall b :: 0 <= b < i ==> Stands(row[b], b * Pow256(31 - byteNum), g)
      {
        var c;
        c, ps := WindowPoint(ps, start, i, g);
        row := row + [c];
      }
      t := t + [row];
    }
    TableOf(t, g);
  }

  ghost predicate Row(row: seq<Coordinates>, unit: nat, g: Point)
  {
    |row| == 256 && forall b :: 0 <= b < 256 ==> Stands(row[b], b * unit, g)
  }

  lemma TableOf(t: seq<seq<Coordinates>>, g: Point)
    requires |t| == 32 && forall w :: 0 <= w < 32 ==> Row(t[w], Pow256(31 - w), g)
    ensures WindowTable(t, g)
  {
    hide Jac, Times, Pow256;
    forall w, b | 0 <= w < 32 && 0 <= b < 256
      ensures |t[w]| == 256 && Jac(t[w][b].x, t[w][b].y, t[w][b].z, Times(b * Pow256(31 - w), g))
    {
      assert Stands(t[w][b], b * Pow256(31 - w), g);
    }
  }

  /** `ScalarBaseMult` with the table that is built for it: k times the base point. */
  method BaseMult(k: seq<byte>) returns (x: nat, y: nat)
    requires Hypotheses()
    ensures BigAffine(x, y, Times(FromBytes(k), Affine(GX, GY)))
  {
    hide Fermat, Associative, CurveFacts, WindowTable, OnCurve;
    ghost var g := Affine(GX, GY);
    BaseOnCurve();
    var t := BytePoints(g);
    x, y := ScalarBaseMult(t, k, g);
  }
}
