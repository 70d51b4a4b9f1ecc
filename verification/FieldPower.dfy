/** Inversion and square roots by exponentiation. */
module FieldPower {
  import opened Congruence
  import opened MachineTypes
  import opened Limbs
  import opened BigEndian
  import opened Field

  function Power(a: int, e: nat): int
  {
    if e == 0 then 1 else a * Power(a, e - 1)
  }

  lemma {:induction false} PowerSum(a: int, e: nat, f: nat)
    ensures Power(a, e + f) == Power(a, e) * Power(a, f)
  {
    if e != 0 {
      PowerSum(a, e - 1, f);
      assert a * (Power(a, e - 1) * Power(a, f)) == (a * Power(a, e - 1)) * Power(a, f);
    }
  }

  lemma {:induction false} PowerSquare(a: int, e: nat)
    ensures Power(a * a, e) == Power(a, 2 * e)
  {
    if e != 0 {
      PowerSquare(a, e - 1);
      assert Power(a, 2 * e) == a * Power(a, 2 * e - 1) == a * (a * Power(a, 2 * (e - 1)));
      assert (a * a) * Power(a, 2 * (e - 1)) == a * (a * Power(a, 2 * (e - 1)));
    }
  }

  lemma {:induction false} PowerCong(m: int, a: int, b: int, e: nat)
    requires m > 0 && Cong(m, a, b)
    ensures Cong(m, Power(a, e), Power(b, e))
  {
    if e != 0 {
      PowerCong(m, a, b, e - 1);
      CongMul(m, a, b, Power(a, e - 1), Power(b, e - 1));
    }
  }

  /** Fermat's little theorem for the secp256k1 prime, the mathematical fact that both
      exponentiations rely on.  It is a hypothesis of the results that need it. */
  ghost predicate Fermat()
  {
    forall a: int :: !FieldEq(a, 0) ==> FieldEq(Power(a, PRIME - 2) * a, 1)
  }

  /** The modular inverse. */
  function Inv(a: int): int
  {
    Power(a, PRIME - 2)
  }

  lemma InvertsNonzero(a: int)
    requires Fermat() && !FieldEq(a, 0)
    ensures FieldEq(Inv(a) * a, 1) && FieldEq(a * Inv(a), 1)
  {
    assert Inv(a) * a == a * Inv(a);
  }

  /** The field has no zero divisors. */
  lemma NoZeroDivisors(a: int, b: int)
    requires Fermat() && FieldEq(a * b, 0)
    ensures FieldEq(a, 0) || FieldEq(b, 0)
  {
    if !FieldEq(a, 0) {
      InvertsNonzero(a);
      CongMul(PRIME, Inv(a), Inv(a), a * b, 0);
      CongMul(PRIME, Inv(a) * a, 1, b, b);
      assert Inv(a) * (a * b) == (Inv(a) * a) * b;
    }
  }

  /** `f` holds `a` raised to `e`. */
  ghost predicate Holds(f: Limbs, a: int, e: nat)
  {
    Rep(f, 1, Power(a, e))
  }

  method Square(f: Limbs, ghost a: int, ghost e: nat) returns (r: Limbs)
    requires Holds(f, a, e)
    ensures Holds(r, a, 2 * e)
  {
    r := SquareVal(f, 1, Power(a, e));
    PowerSum(a, e, e);
    assert 2 * e == e + e;
  }

  method Mul(f: Limbs, g: Limbs, ghost a: int, ghost d: nat, ghost e: nat) returns (r: Limbs)
    requires Holds(f, a, d) && Holds(g, a, e)
    ensures Holds(r, a, d + e)
  {
    r := Mul2(f, g, 1, 1, Power(a, d), Power(a, e));
    PowerSum(a, d, e);
  }

  /** Ten squarings, a line pair of `Inverse`. */
  method SquareTen(f: Limbs, ghost a: int, ghost e: nat) returns (r: Limbs)
    requires Holds(f, a, e)
    ensures Holds(r, a, 1024 * e)
  {
    hide *;
    r := Square(f, a, e);
    r := Square(r, a, 2 * e);
    r := Square(r, a, 4 * e);
    r := Square(r, a, 8 * e);
    r := Square(r, a, 16 * e);
    r := Square(r, a, 32 * e);
    r := Square(r, a, 64 * e);
    r := Square(r, a, 128 * e);
    r := Square(r, a, 256 * e);
    r := Square(r, a, 512 * e);
  }

  /** The addition chain of `Inverse` computes exactly the power p - 2. */
  method Inverse(f: Limbs, ghost m: nat, ghost a: int) returns (r: Limbs)
    requires m <= 8
    requires Rep(f, m, a)
    ensures Rep(r, 1, Inv(a))
  {
    hide Rep, Mag, FieldEq, Val, Cong, Weigh;
    assert Power(a, 2) == a * (a * Power(a, 0)) == a * a;
    var a2 := SquareVal(f, m, a);
    var a3 := Mul2(a2, f, 1, m, a * a, a);
    assert Power(a, 3) == a * Power(a, 2) == (a * a) * a;
    var a4 := Square(a2, a, 2);
    var a10 := Square(a4, a, 4);
    a10 := Mul(a10, a2, a, 8, 2);
    var a11 := Mul2(a10, f, 1, m, Power(a, 10), a);
    assert Power(a, 11) == a * Power(a, 10) == Power(a, 10) * a;
    var a21 := Mul(a10, a11, a, 10, 11);
    var a42 := Square(a21, a, 21);
    var a45 := Mul(a42, a3, a, 42, 3);
    var a63 := Mul(a42, a21, a, 42, 21);
    var a1019 := Square(a63, a, 63);
    a1019 := Square(a1019, a, 126);
    a1019 := Square(a1019, a, 252);
    a1019 := Square(a1019, a, 504);
    a1019 := Mul(a1019, a11, a, 1008, 11);
    var a1023 := Mul(a1019, a4, a, 1019, 4);
    r := a63;
    r := SquareTen(r, a, 0x3f);
    r := Mul(r, a1023, a, 0xfc00, 1023);
    r := SquareTen(r, a, 0xffff);
    r := Mul(r, a1023, a, 0x3fffc00, 1023);
    r := SquareTen(r, a, 0x3ffffff);
    r := Mul(r, a1023, a, 0xffffffc00, 1023);
    r := SquareTen(r, a, 0xfffffffff);
    r := Mul(r, a1023, a, 0x3ffffffffc00, 1023);
    r := SquareTen(r, a, 0x3fffffffffff);
    r := Mul(r, a1023, a, 0xfffffffffffc00, 1023);
    r := SquareTen(r, a, 0xffffffffffffff);
    r := Mul(r, a1023, a, 0x3fffffffffffffc00, 1023);
    r := SquareTen(r, a, 0x3ffffffffffffffff);
    r := Mul(r, a1023, a, 0xffffffffffffffffc00, 1023);
    r := SquareTen(r, a, 0xfffffffffffffffffff);
    r := Mul(r, a1023, a, 0x3ffffffffffffffffffc00, 1023);
    r := SquareTen(r, a, 0x3fffffffffffffffffffff);
    r := Mul(r, a1023, a, 0xfffffffffffffffffffffc00, 1023);
    r := SquareTen(r, a, 0xffffffffffffffffffffffff);
    r := Mul(r, a1023, a, 0x3fffffffffffffffffffffffc00, 1023);
    r := SquareTen(r, a, 0x3ffffffffffffffffffffffffff);
    r := Mul(r, a1023, a, 0xffffffffffffffffffffffffffc00, 1023);
    r := SquareTen(r, a, 0xfffffffffffffffffffffffffffff);
    r := Mul(r, a1023, a, 0x3ffffffffffffffffffffffffffffc00, 1023);
    r := SquareTen(r, a, 0x3fffffffffffffffffffffffffffffff);
    r := Mul(r, a1023, a, 0xfffffffffffffffffffffffffffffffc00, 1023);
    r := SquareTen(r, a, 0xffffffffffffffffffffffffffffffffff);
    r := Mul(r, a1023, a, 0x3fffffffffffffffffffffffffffffffffc00, 1023);
    r := SquareTen(r, a, 0x3ffffffffffffffffffffffffffffffffffff);
    r := Mul(r, a1023, a, 0xffffffffffffffffffffffffffffffffffffc00, 1023);
    r := SquareTen(r, a, 0xfffffffffffffffffffffffffffffffffffffff);
    r := Mul(r, a1023, a, 0x3ffffffffffffffffffffffffffffffffffffffc00, 1023);
    r := SquareTen(r, a, 0x3fffffffffffffffffffffffffffffffffffffffff);
    r := Mul(r, a1023, a, 0xfffffffffffffffffffffffffffffffffffffffffc00, 1023);
    r := SquareTen(r, a, 0xffffffffffffffffffffffffffffffffffffffffffff);
    r := Mul(r, a1023, a, 0x3fffffffffffffffffffffffffffffffffffffffffffc00, 1023);
    r := SquareTen(r, a, 0x3ffffffffffffffffffffffffffffffffffffffffffffff);
    r := Mul(r, a1023, a, 0xffffffffffffffffffffffffffffffffffffffffffffffc00, 1023);
    r := SquareTen(r, a, 0xfffffffffffffffffffffffffffffffffffffffffffffffff);
    r := Mul(r, a1023, a, 0x3ffffffffffffffffffffffffffffffffffffffffffffffffc00, 1023);
    r := SquareTen(r, a, 0x3fffffffffffffffffffffffffffffffffffffffffffffffffff);
    r := Mul(r, a1023, a, 0xfffffffffffffffffffffffffffffffffffffffffffffffffffc00, 1023);
    r := SquareTen(r, a, 0xffffffffffffffffffffffffffffffffffffffffffffffffffffff);
    r := Mul(r, a1019, a, 0x3fffffffffffffffffffffffffffffffffffffffffffffffffffffc00, 1019);
    r := SquareTen(r, a, 0x3fffffffffffffffffffffffffffffffffffffffffffffffffffffffb);
    r := Mul(r, a1023, a, 0xfffffffffffffffffffffffffffffffffffffffffffffffffffffffec00, 1023);
    r := SquareTen(r, a, 0xfffffffffffffffffffffffffffffffffffffffffffffffffffffffefff);
    r := Mul(r, a1023, a, 0x3fffffffffffffffffffffffffffffffffffffffffffffffffffffffbffc00, 1023);
    r := SquareTen(r, a, 0x3fffffffffffffffffffffffffffffffffffffffffffffffffffffffbfffff);
    r := Mul(r, a45, a, 0xfffffffffffffffffffffffffffffffffffffffffffffffffffffffefffffc00, 45);
  }

  /** The bytes of (p + 1) / 4. */
  function QBytes(): seq<byte>
  {
    [
      0x3f, 0xff, 0xff, 0xff, 0xff, 0xff, 0xff, 0xff,
      0xff, 0xff, 0xff, 0xff, 0xff, 0xff, 0xff, 0xff,
      0xff, 0xff, 0xff, 0xff, 0xff, 0xff, 0xff, 0xff,
      0xff, 0xff, 0xff, 0xff, 0xbf, 0xff, 0xff, 0x0c
    ]
  }

  lemma QBytesCases()
    ensures |QBytes()| == 32
    ensures forall i :: 0 <= i < 32 ==> QBytes()[i] in {0xff, 0x3f, 0xbf, 0x0c} && (QBytes()[i] == 0x3f ==> i == 0)
  {
  }

  const Q: nat := (PRIME + 1) / 4

  method SquareMul(f: Limbs, x: Limbs, ghost m: nat, ghost a: int, ghost e: nat) returns (r: Limbs)
    requires m <= 8
    requires Holds(f, a, e) && Rep(x, m, a)
    ensures Holds(r, a, 2 * e + 1)
  {
    r := Square(f, a, e);
    r := Mul2(r, x, 1, m, Power(a, 2 * e), a);
    assert Power(a, 2 * e + 1) == a * Power(a, 2 * e) == Power(a, 2 * e) * a;
  }

  method MulFirst(f: Limbs, x: Limbs, ghost m: nat, ghost a: int) returns (r: Limbs)
    requires m <= 8
    requires Holds(f, a, 0) && Rep(x, m, a)
    ensures Holds(r, a, 1)
  {
    r := Mul2(f, x, 1, m, Power(a, 0), a);
    assert Power(a, 1) == a * Power(a, 0) == Power(a, 0) * a;
  }

  /** One byte of the exponent, by the jump table of `SqrtVal`. */
  method SqrtByte(f: Limbs, x: Limbs, b: byte, ghost m: nat, ghost a: int, ghost e: nat) returns (r: Limbs)
    requires m <= 8
    requires Holds(f, a, e) && Rep(x, m, a)
    requires b in {0xff, 0x3f, 0xbf, 0x0c}
    requires b == 0x3f ==> e == 0
    ensures Holds(r, a, 256 * e + b)
  {
    hide Holds, Rep, Mag, FieldEq, Val, Cong, Weigh, Power;
    match b
    case 0xff =>
      r := SquareMul(f, x, m, a, 1 * e + 0);
      r := SquareMul(r, x, m, a, 2 * e + 1);
      r := SquareMul(r, x, m, a, 4 * e + 3);
      r := SquareMul(r, x, m, a, 8 * e + 7);
      r := SquareMul(r, x, m, a, 16 * e + 15);
      r := SquareMul(r, x, m, a, 32 * e + 31);
      r := SquareMul(r, x, m, a, 64 * e + 63);
      r := SquareMul(r, x, m, a, 128 * e + 127);
    case 0x3f =>
      r := MulFirst(f, x, m, a);
      r := SquareMul(r, x, m, a, 1);
      r := SquareMul(r, x, m, a, 3);
      r := SquareMul(r, x, m, a, 7);
      r := SquareMul(r, x, m, a, 15);
      r := SquareMul(r, x, m, a, 31);
    case 0xbf =>
      r := SquareMul(f, x, m, a, 1 * e + 0);
      r := Square(r, a, 2 * e + 1);
      r := SquareMul(r, x, m, a, 4 * e + 2);
      r := SquareMul(r, x, m, a, 8 * e + 5);
      r := SquareMul(r, x, m, a, 16 * e + 11);
      r := SquareMul(r, x, m, a, 32 * e + 23);
      r := SquareMul(r, x, m, a, 64 * e + 47);
      r := SquareMul(r, x, m, a, 128 * e + 95);
    case _ =>
      r := Square(f, a, 1 * e + 0);
      r := Square(r, a, 2 * e + 0);
      r := Square(r, a, 4 * e + 0);
      r := Square(r, a, 8 * e + 0);
      r := SquareMul(r, x, m, a, 16 * e + 0);
      r := SquareMul(r, x, m, a, 32 * e + 1);
      r := Square(r, a, 64 * e + 3);
      r := Square(r, a, 128 * e + 6);
  }

  /** `SqrtVal` computes exactly the power (p + 1) / 4. */
  method SqrtVal(x: Limbs, ghost m: nat, ghost a: int) returns (f: Limbs)
    requires m <= 8
    requires Rep(x, m, a)
    ensures Rep(f, 1, Power(a, Q))
  {
    hide *;
    f := SetInt(1);
    OneHolds(a);
    QBytesCases();
    for i := 0 to |QBytes()|
      invariant Holds(f, a, FromBytes(QBytes()[..i]))
    {
      Snoc(QBytes(), i);
      f := SqrtByte(f, x, QBytes()[i], m, a, FromBytes(QBytes()[..i]));
    }
    assert QBytes()[..|QBytes()|] == QBytes();
    QBytesValue();
    HoldsMeans(f, a, Q);
  }

  lemma OneHolds(a: int)
    ensures FromBytes(QBytes()[..0]) == 0
    ensures Holds(SetInt(1), a, 0)
  {
  }

  lemma HoldsMeans(f: Limbs, a: int, e: nat)
    ensures Holds(f, a, e) <==> Rep(f, 1, Power(a, e))
  {
  }

  lemma Snoc(s: seq<byte>, i: nat)
    requires i < |s|
    ensures FromBytes(s[..i + 1]) == FromBytes(s[..i]) * 256 + s[i]
  {
    assert s[..i + 1][..i] == s[..i];
  }

  lemma AllOnes(s: seq<byte>, i: nat)
    requires i + 3 <= |s|
    requires s[i] == s[i + 1] == s[i + 2] == 0xff
    ensures FromBytes(s[..i + 3]) == FromBytes(s[..i]) * 0x1000000 + 0xffffff
  {
    Snoc(s, i);
    Snoc(s, i + 1);
    Snoc(s, i + 2);
  }

  lemma QPrefix(s: seq<byte>)
    requires |s| == 32 && s[0] == 0x3f
    requires forall i :: 1 <= i < 28 ==> s[i] == 0xff
    ensures FromBytes(s[..28]) == 0x3fffffffffffffffffffffffffffffffffffffffffffffffffffffff
  {
    assert FromBytes(s[..0]) == 0;
    hide *;
    Snoc(s, 0);
    AllOnes(s, 1);
    assert FromBytes(s[..4]) == 0x3fffffff;
    AllOnes(s, 4);
    assert FromBytes(s[..7]) == 0x3fffffffffffff;
    AllOnes(s, 7);
    assert FromBytes(s[..10]) == 0x3fffffffffffffffffff;
    AllOnes(s, 10);
    assert FromBytes(s[..13]) == 0x3fffffffffffffffffffffffff;
    AllOnes(s, 13);
    assert FromBytes(s[..16]) == 0x3fffffffffffffffffffffffffffffff;
    AllOnes(s, 16);
    assert FromBytes(s[..19]) == 0x3fffffffffffffffffffffffffffffffffffff;
    AllOnes(s, 19);
    assert FromBytes(s[..22]) == 0x3fffffffffffffffffffffffffffffffffffffffffff;
    AllOnes(s, 22);
    assert FromBytes(s[..25]) == 0x3fffffffffffffffffffffffffffffffffffffffffffffffff;
    AllOnes(s, 25);
    assert FromBytes(s[..28]) == 0x3fffffffffffffffffffffffffffffffffffffffffffffffffffffff;
  }

  lemma QBytesValue()
    ensures FromBytes(QBytes()) == Q
  {
    hide FromBytes;
    QPrefix(QBytes());
    Snoc(QBytes(), 28);
    Snoc(QBytes(), 29);
    Snoc(QBytes(), 30);
    Snoc(QBytes(), 31);
    assert QBytes()[..32] == QBytes();
  }

  lemma RootPower(y: int)
    ensures Power(y * y, Q) * Power(y * y, Q) == (Inv(y) * y) * (y * y)
  {
    PowerSquare(y, Q);
    PowerSum(y, 2 * Q, 2 * Q);
    PowerSum(y, PRIME - 2, 3);
    assert Power(y, 3) == y * Power(y, 2) == y * (y * Power(y, 1)) == y * (y * (y * Power(y, 0)));
    assert 2 * Q + 2 * Q == (PRIME - 2) + 3;
    Reassociate(Inv(y), y);
  }

  lemma Reassociate(i: int, y: int)
    ensures i * (y * (y * (y * 1))) == (i * y) * (y * y)
  {
  }

  lemma RootSquares(a: int, y: int)
    requires Fermat() && FieldEq(a, y * y)
    ensures FieldEq(Power(a, Q) * Power(a, Q), y * y)
  {
    hide Power;
    PowerCong(PRIME, a, y * y, Q);
    CongMul(PRIME, Power(a, Q), Power(y * y, Q), Power(a, Q), Power(y * y, Q));
    RootPower(y);
    if FieldEq(y, 0) {
      CongMul(PRIME, y, 0, y, 0);
      CongMul(PRIME, Inv(y) * y, Inv(y) * y, y * y, 0);
    } else {
      InvertsNonzero(y);
      CongMul(PRIME, Inv(y) * y, 1, y * y, y * y);
    }
  }

  lemma EqualSquares(r: int, y: int)
    requires Fermat() && FieldEq(r * r, y * y)
    ensures FieldEq(r, y) || FieldEq(r, -y)
  {
    CongAdd(PRIME, r * r, y * y, y * y, y * y);
    assert (r - y) * (r + y) == r * r - y * y;
    NoZeroDivisors(r - y, r + y);
    if FieldEq(r - y, 0) {
      CongAdd(PRIME, r - y, 0, y, y);
    } else {
      CongAdd(PRIME, r + y, 0, y, y);
    }
  }

  /** The computed power of a square is one of its two roots. */
  lemma SqrtOfSquare(a: int, y: int)
    requires Fermat() && FieldEq(a, y * y)
    ensures FieldEq(Power(a, Q) * Power(a, Q), y * y)
    ensures FieldEq(Power(a, Q), y) || FieldEq(Power(a, Q), -y)
  {
    RootSquares(a, y);
    EqualSquares(Power(a, Q), y);
  }
}
