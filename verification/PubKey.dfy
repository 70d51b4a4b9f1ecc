/** Serialized public keys: point compression (sections 2.3.3 and 2.3.4 of SEC 1) and parsing. */
module PubKey {
  import opened Congruence
  import opened MachineTypes
  import opened Limbs
  import opened BigEndian
  import opened Field
  import opened FieldBytes
  import opened FieldPower
  import opened Jacobian
  import opened JacobianAdd
  import opened ScalarMult
  import opened Wrappers

  /** The right-hand side of the curve equation. */
  function Cubic(x: int): int
  {
    (x * x) * x + 7
  }

  predicate IsRoot(x: int, y: int)
  {
    0 <= y < PRIME && FieldEq(y * y, Cubic(x))
  }

  predicate OddInt(y: int)
  {
    y % 2 == 1
  }

  /** Two roots of the same parity are equal: the prime is odd. */
  lemma ParityDecides(y: int, v: int)
    requires 0 <= y < PRIME && 0 <= v < PRIME && OddInt(y) == OddInt(v)
    requires FieldEq(y, v) || FieldEq(y, -v)
    ensures y == v
  {
    if FieldEq(y, v) {
      CongSmall(PRIME, y, v);
    } else {
      CongByMultiple(PRIME, PRIME - v, -v, 1);
      if v == 0 {
        CongSmall(PRIME, y, 0);
      } else {
        CongSmall(PRIME, y, PRIME - v);
      }
    }
  }

  lemma RootsAgree(x: int, y: int, v: int)
    requires Fermat() && IsRoot(x, y) && IsRoot(x, v) && OddInt(y) == OddInt(v)
    ensures y == v
  {
    EqualSquares(y, v);
    ParityDecides(y, v);
  }

  /** The candidate that `decompressPoint` tries: one of the two computed roots, of the wanted
      parity if either has it. */
  lemma CandidateFinds(x: int, ybit: bool, v: int, r: int, s: int, y: int)
    requires Fermat() && IsRoot(x, v) && OddInt(v) == ybit
    requires 0 <= r < PRIME && FieldEq(r, Power(Cubic(x), Q))
    requires 0 <= s < PRIME && FieldEq(s, -r)
    requires y == if ybit != OddInt(r) then s else r
    ensures y == v
  {
    hide Power, Fermat, IsRoot, FieldEq;
    CandidateIsRoot(x, v, r);
    RootOrOpposite(r, s, v);
    if ybit == OddInt(r) {
      ParityDecides(r, v);
    } else {
      WrongParity(r, s, v);
    }
  }

  lemma CandidateIsRoot(x: int, v: int, r: int)
    requires Fermat() && IsRoot(x, v) && FieldEq(r, Power(Cubic(x), Q))
    ensures 0 <= v < PRIME && (FieldEq(r, v) || FieldEq(r, -v))
  {
    hide Power, Fermat;
    SqrtOfSquare(Cubic(x), v);
  }

  lemma RootOrOpposite(r: int, s: int, v: int)
    requires FieldEq(r, v) || FieldEq(r, -v)
    requires FieldEq(s, -r)
    ensures FieldEq(r, v) ==> FieldEq(s, -v)
    ensures FieldEq(r, -v) ==> FieldEq(s, v)
  {
    if FieldEq(r, v) {
      CongAdd(PRIME, 0, 0, r, v);
    }
    if FieldEq(r, -v) {
      CongAdd(PRIME, 0, 0, r, -v);
    }
  }

  lemma WrongParity(r: int, s: int, v: int)
    requires 0 <= r < PRIME && 0 <= s < PRIME && 0 <= v < PRIME && OddInt(r) != OddInt(v)
    requires FieldEq(r, v) ==> FieldEq(s, -v)
    requires FieldEq(r, -v) ==> FieldEq(s, v)
    requires FieldEq(r, v) || FieldEq(r, -v)
    ensures s == v
  {
    if FieldEq(r, v) {
      CongSmall(PRIME, r, v);
    } else {
      CongSmall(PRIME, s, v);
    }
  }

  /** The coordinates of y on the curve over x, as words. */
  method CurveSide(x: Limbs, ghost v: int) returns (c: Limbs)
    requires Rep(x, 1, v)
    ensures Normal(c) && Rep(c, 1, Cubic(v))
  {
    hide Rep, Mag, Normal, FieldEq, Val;
    c := SquareVal(x, 1, v);
    c := Mul2(c, x, 1, 1, v * v, v);
    c := AddInt(c, 7, 1, (v * v) * v);
    c := Norm(c, 2, Cubic(v));
  }

  lemma ValueOf(a: Limbs, v: int)
    requires Normal(a) && Rep(a, 1, v)
    ensures 0 <= Val(a) < PRIME && FieldEq(Val(a), v) && Compact(a) && Mag(a, 1)
    ensures IsOdd(a) <==> OddInt(Val(a))
  {
    ValIs(a);
    OddVal(a);
  }

  /** `decompressPoint`: the root of the wanted parity, if x has one. */
  method DecompressPoint(bigX: nat, ybit: bool) returns (r: Option<nat>)
    requires bigX < 0x10000000000000000000000000000000000000000000000000000000000000000
    ensures r.Some? ==> IsRoot(bigX, r.value) && OddInt(r.value) == ybit
    ensures Fermat() ==> forall v :: IsRoot(bigX, v) && OddInt(v) == ybit ==> r == Some(v)
  {
    hide Rep, Mag, Normal, FieldEq, Val, Power, Fermat, IsRoot, Cubic, FromBytes, Compact, IsOdd, OddInt;
    SmallBytes(bigX);
    var x := SetByteSlice(ToBytes(bigX));
    CompactRep(x, bigX);
    var x3 := CurveSide(x, bigX);
    var y := SqrtVal(x3, 1, Cubic(bigX));
    y := Norm(y, 1, Power(Cubic(bigX), Q));
    ghost var first := y;
    ValueOf(y, Power(Cubic(bigX), Q));
    RepSelf(y, 1);
    var opposite := NegateVal(y, 1, Val(y));
    opposite := Norm(opposite, 2, -Val(y));
    ValueOf(opposite, -Val(y));
    if ybit != IsOdd(y) {
      y := opposite;
    }
    forall v | Fermat() && IsRoot(bigX, v) && OddInt(v) == ybit
      ensures Val(y) == v
    {
      CandidateFinds(bigX, ybit, v, Val(first), Val(opposite), Val(y));
    }
    RepSelf(y, 1);
    var y2 := SquareVal(y, 1, Val(y));
    y2 := Norm(y2, 1, Val(y) * Val(y));
    WordsDecide(y2, x3, Val(y) * Val(y), Cubic(bigX));
    RootMeans(bigX, Val(y));
    if y2 != x3 {
      return None;
    }
    if ybit != IsOdd(y) {
      return None;
    }
    var b := PutBytes(y);
    r := Some(FromBytes(b));
  }

  lemma RootMeans(x: int, y: int)
    requires 0 <= y < PRIME
    ensures IsRoot(x, y) <==> FieldEq(y * y, Cubic(x))
  {
  }

  lemma Pow32()
    ensures Pow256(32) == 0x10000000000000000000000000000000000000000000000000000000000000000
  {
    PowThirteen();
    assert Pow256(30) == 0x1000000000000000000000000000000000000000000000000000000000000;
  }

  /** `IsOnCurve` decides the curve equation, for coordinates of 256 bits. */
  method IsOnCurve(x: nat, y: nat) returns (b: bool)
    requires x < 0x10000000000000000000000000000000000000000000000000000000000000000 &&
        y < 0x10000000000000000000000000000000000000000000000000000000000000000
    ensures b <==> FieldEq(y * y, Cubic(x))
  {
    hide Rep, Mag, Normal, FieldEq, Val, Cubic, FromBytes, Compact;
    SmallBytes(x);
    SmallBytes(y);
    var fx := SetByteSlice(ToBytes(x));
    var fy := SetByteSlice(ToBytes(y));
    CompactRep(fx, x);
    CompactRep(fy, y);
    var y2 := SquareVal(fy, 1, y);
    y2 := Norm(y2, 1, y * y);
    var result := CurveSide(fx, x);
    WordsDecide(y2, result, y * y, Cubic(x));
    b := y2 == result;
  }

  /** What `ParsePubKey` accepts, and as which point. */
  ghost predicate Accepts(s: seq<byte>, x: int, y: int)
  {
    || (&& |s| == 65 && (s[0] / 2 == 2 || s[0] / 2 == 3)
        && x == FromBytes(s[1..33]) && y == FromBytes(s[33..])
        && (s[0] / 2 == 3 ==> OddInt(y) == OddInt(s[0]))
        && x < PRIME && IsRoot(x, y))
    || (&& |s| == 33 && s[0] / 2 == 1
        && x == FromBytes(s[1..33]) && IsRoot(x, y) && OddInt(y) == OddInt(s[0]))
  }

  lemma Bounded32(b: seq<byte>)
    requires |b| == 32
    ensures FromBytes(b) < 0x10000000000000000000000000000000000000000000000000000000000000000
  {
    Bounded(b);
    Pow32();
  }

  /** `ParsePubKey` returns a key exactly for the accepted strings. */
  method ParsePubKey(s: seq<byte>) returns (r: Option<(nat, nat)>)
    ensures r.Some? ==> Accepts(s, r.value.0, r.value.1)
    ensures Fermat() ==> forall x, y :: Accepts(s, x, y) ==> r == Some((x, y))
  {
    hide FromBytes, IsRoot, Fermat, OddInt;
    if |s| == 0 {
      return None;
    }
    var format := s[0] / 2;
    var ybit := OddInt(s[0]);
    if |s| == 65 {
      if format != 2 && format != 3 {
        return None;
      }
      var x, y := FromBytes(s[1..33]), FromBytes(s[33..]);
      if format == 3 && ybit != OddInt(y) {
        return None;
      }
      RootRange(x, y);
      if x >= PRIME || y >= PRIME {
        return None;
      }
      RootMeans(x, y);
      var on := IsOnCurve(x, y);
      if !on {
        return None;
      }
      return Some((x, y));
    } else if |s| == 33 {
      if format != 1 {
        return None;
      }
      var x := FromBytes(s[1..33]);
      Bounded32(s[1..33]);
      var y := DecompressPoint(x, ybit);
      if y == None {
        return None;
      }
      return Some((x, y.value));
    }
    return None;
  }

  lemma RootRange(x: int, y: int)
    ensures IsRoot(x, y) ==> 0 <= y < PRIME
  {
  }

  predicate ValidKey(x: int, y: int)
  {
    0 <= x < PRIME && IsRoot(x, y)
  }

  lemma Fits32(n: nat)
    requires n < PRIME
    ensures n < Pow256(32)
  {
    Pow32();
  }

  function SerializeCompressed(x: nat, y: nat): seq<byte>
    requires x < PRIME && y < PRIME
  {
    Fits32(x);
    [if OddInt(y) then 3 else 2] + Padded(32, x)
  }

  function SerializeUncompressed(x: nat, y: nat): seq<byte>
    requires x < PRIME && y < PRIME
  {
    Fits32(x);
    Fits32(y);
    [4] + Padded(32, x) + Padded(32, y)
  }

  function SerializeHybrid(x: nat, y: nat): seq<byte>
    requires x < PRIME && y < PRIME
  {
    Fits32(x);
    Fits32(y);
    [if OddInt(y) then 7 else 6] + Padded(32, x) + Padded(32, y)
  }

  /** Every serialization of a key is accepted as that key and as no other. */
  lemma CompressedRoundTrip(x: nat, y: nat, x': int, y': int)
    requires Fermat() && ValidKey(x, y)
    ensures Accepts(SerializeCompressed(x, y), x', y') <==> x' == x && y' == y
    ensures |SerializeCompressed(x, y)| == 33 && SerializeCompressed(x, y)[0] == 2 + y % 2
  {
    hide FromBytes, IsRoot, Fermat;
    RootRange(x, y);
    var s := SerializeCompressed(x, y);
    Fits32(x);
    assert s[1..33] == Padded(32, x);
    if x' == x && IsRoot(x, y') && OddInt(y') == OddInt(y) {
      RootsAgree(x, y, y');
    }
  }

  lemma LongRoundTrip(x: nat, y: nat, x': int, y': int)
    requires ValidKey(x, y)
    ensures Accepts(SerializeUncompressed(x, y), x', y') <==> x' == x && y' == y
    ensures Accepts(SerializeHybrid(x, y), x', y') <==> x' == x && y' == y
    ensures |SerializeUncompressed(x, y)| == 65 && SerializeUncompressed(x, y)[0] == 4
    ensures |SerializeHybrid(x, y)| == 65 && SerializeHybrid(x, y)[0] == 6 + y % 2
  {
    hide FromBytes, IsRoot;
    RootRange(x, y);
    Fits32(x);
    Fits32(y);
    var u, h := SerializeUncompressed(x, y), SerializeHybrid(x, y);
    assert u[1..33] == Padded(32, x) && u[33..] == Padded(32, y);
    assert h[1..33] == Padded(32, x) && h[33..] == Padded(32, y);
  }

  /** The compressed form is not checked for x < p: the string of p + 1 is accepted too, as a point
      with an unreduced abscissa, while no long form with such an abscissa is. */
  lemma UnreducedAbscissa(s: seq<byte>)
    requires |s| == 33 && s[0] == 2 && FromBytes(s[1..33]) == PRIME + 1
    ensures Accepts(s, PRIME + 1, 0x4218f20ae6c646b363db68605822fb14264ca8d2587fdd6fbc750d587e76a7ee)
  {
    var y := 0x4218f20ae6c646b363db68605822fb14264ca8d2587fdd6fbc750d587e76a7ee;
    var x := PRIME + 1;
    assert FieldEq(x, 1);
    CongMul(PRIME, x, 1, x, 1);
    CongMul(PRIME, x * x, 1, x, 1);
    CongAdd(PRIME, (x * x) * x, 1, 7, 7);
    CongMod(PRIME, y * y, 8);
  }

  /** A compressed string is accepted with an abscissa that a long form could carry exactly when the
      number in it is below the prime. */
  lemma ReducedAbscissa(s: seq<byte>, x: int, y: int)
    requires Accepts(s, x, y)
    ensures ValidKey(x, y) <==> FromBytes(s[1..33]) < PRIME
  {
  }
}
