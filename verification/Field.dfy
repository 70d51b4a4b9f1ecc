/** Arithmetic in the field of 2^256 - 4294968273 elements on word vectors with lazy carries. */
module Field {
  import opened Congruence
  import opened MachineTypes
  import opened Limbs
  import opened LimbProduct

  /** `a` stands for the residue of `v` and its words are within `m` times the normal range. */
  ghost predicate Rep(a: Limbs, m: nat, v: int)
  {
    Mag(a, m) && FieldEq(Val(a), v)
  }

  /** How far a vector may have overflowed before it has to be normalized. */
  predicate Budget(a: Limbs)
  {
    && a.n0 <= 0xFFF00000 && a.n1 <= 0xFFF00000 && a.n2 <= 0xFFF00000
    && a.n3 <= 0xFFF00000 && a.n4 <= 0xFFF00000 && a.n5 <= 0xFFF00000
    && a.n6 <= 0xFFF00000 && a.n7 <= 0xFFF00000 && a.n8 <= 0xFFF00000
  }

  lemma MagBudget(a: Limbs, m: nat)
    requires m <= 63 && Mag(a, m)
    ensures Budget(a)
  {
  }

  lemma NormalMag(a: Limbs)
    requires Normal(a)
    ensures Mag(a, 1)
  {
  }

  lemma MagMono(a: Limbs, m: nat, k: nat)
    requires Mag(a, m) && m <= k
    ensures Mag(a, k)
  {
  }

  /** First pass of `Normalize`: folds the bits above 2^256 and propagates every carry. */
  method CarryPass(n: Limbs) returns (t: Limbs)
    requires Budget(n)
    ensures t.n0 <= 0x3FFFFFF && t.n1 <= 0x3FFFFFF && t.n2 <= 0x3FFFFFF && t.n3 <= 0x3FFFFFF && t.n4 <= 0x3FFFFFF
    ensures t.n5 <= 0x3FFFFFF && t.n6 <= 0x3FFFFFF && t.n7 <= 0x3FFFFFF && t.n8 <= 0x3FFFFFF && t.n9 <= 0x40003F
    ensures Val(t) == Val(n) - (n.n9 / 0x400000) * 0xFFFFFFFFFFFFFFFFFFFFFFFFFFFFFFFFFFFFFFFFFFFFFFFFFFFFFFFEFFFFFC2F
  {
    var t9 := n.n9;
    var m := t9 / 0x400000;
    t9 := t9 % 0x400000;
    var t0: uint32 := n.n0 + m * 977;
    var t1: uint32 := t0 / 0x4000000 + n.n1 + m * 64;
    t0 := t0 % 0x4000000;
    var t2: uint32 := t1 / 0x4000000 + n.n2;
    t1 := t1 % 0x4000000;
    var t3: uint32 := t2 / 0x4000000 + n.n3;
    t2 := t2 % 0x4000000;
    var t4: uint32 := t3 / 0x4000000 + n.n4;
    t3 := t3 % 0x4000000;
    var t5: uint32 := t4 / 0x4000000 + n.n5;
    t4 := t4 % 0x4000000;
    var t6: uint32 := t5 / 0x4000000 + n.n6;
    t5 := t5 % 0x4000000;
    var t7: uint32 := t6 / 0x4000000 + n.n7;
    t6 := t6 % 0x4000000;
    var t8: uint32 := t7 / 0x4000000 + n.n8;
    t7 := t7 % 0x4000000;
    t9 := t8 / 0x4000000 + t9;
    t8 := t8 % 0x4000000;
    t := Limbs(t0, t1, t2, t3, t4, t5, t6, t7, t8, t9);
    ValIs(n);
    ValIs(t);
  }

  /** Adds 4294968273 to a vector and drops a multiple of 2^256 that this may produce. */
  method AddComplement(t: Limbs, m: uint32) returns (r: Limbs, ghost dropped: int)
    requires m <= 1
    requires t.n0 <= 0x3FFFFFF && t.n1 <= 0x3FFFFFF && t.n2 <= 0x3FFFFFF && t.n3 <= 0x3FFFFFF && t.n4 <= 0x3FFFFFF
    requires t.n5 <= 0x3FFFFFF && t.n6 <= 0x3FFFFFF && t.n7 <= 0x3FFFFFF && t.n8 <= 0x3FFFFFF && t.n9 <= 0x40003F
    ensures Compact(r)
    ensures Val(r) == Val(t) +
        m * 4294968273 - dropped * 0x10000000000000000000000000000000000000000000000000000000000000000
  {
    var t0: uint32 := t.n0 + m * 977;
    var t1: uint32 := t0 / 0x4000000 + t.n1 + m * 64;
    t0 := t0 % 0x4000000;
    var t2: uint32 := t1 / 0x4000000 + t.n2;
    t1 := t1 % 0x4000000;
    var t3: uint32 := t2 / 0x4000000 + t.n3;
    t2 := t2 % 0x4000000;
    var t4: uint32 := t3 / 0x4000000 + t.n4;
    t3 := t3 % 0x4000000;
    var t5: uint32 := t4 / 0x4000000 + t.n5;
    t4 := t4 % 0x4000000;
    var t6: uint32 := t5 / 0x4000000 + t.n6;
    t5 := t5 % 0x4000000;
    var t7: uint32 := t6 / 0x4000000 + t.n7;
    t6 := t6 % 0x4000000;
    var t8: uint32 := t7 / 0x4000000 + t.n8;
    t7 := t7 % 0x4000000;
    var t9: uint32 := t8 / 0x4000000 + t.n9;
    t8 := t8 % 0x4000000;
    dropped := t9 / 0x400000;
    t9 := t9 % 0x400000;
    r := Limbs(t0, t1, t2, t3, t4, t5, t6, t7, t8, t9);
    ValIs(t);
    ValIs(r);
  }

  /** The test of `Normalize` for a value of at least the prime, on carried words. */
  predicate AtLeastPrime(t: Limbs)
  {
    || (&& t.n9 == 0x3FFFFF
        && t.n2 == 0x3FFFFFF && t.n3 == 0x3FFFFFF && t.n4 == 0x3FFFFFF && t.n5 == 0x3FFFFFF
        && t.n6 == 0x3FFFFFF && t.n7 == 0x3FFFFFF && t.n8 == 0x3FFFFFF
        && (t.n0 + 977) / 0x4000000 + t.n1 + 64 > 0x3FFFFFF)
    || t.n9 / 0x400000 != 0
  }

  lemma MiddleWords(t: Limbs)
    requires t.n2 <= 0x3FFFFFF && t.n3 <= 0x3FFFFFF && t.n4 <= 0x3FFFFFF && t.n5 <= 0x3FFFFFF
    requires t.n6 <= 0x3FFFFFF && t.n7 <= 0x3FFFFFF && t.n8 <= 0x3FFFFFF && t.n9 <= 0x3FFFFF
    ensures (t.n9 == 0x3FFFFF && t.n2 == 0x3FFFFFF && t.n3 == 0x3FFFFFF && t.n4 == 0x3FFFFFF
             && t.n5 == 0x3FFFFFF && t.n6 == 0x3FFFFFF && t.n7 == 0x3FFFFFF && t.n8 == 0x3FFFFFF)
      <==> Weigh(0, 0, t.n2, t.n3, t.n4, t.n5, t.n6, t.n7, t.n8,
          t.n9) >= 0xFFFFFFFFFFFFFFFFFFFFFFFFFFFFFFFFFFFFFFFFFFFFFFFFFFF0000000000000
  {
  }

  lemma AtLeastPrimeMeans(t: Limbs)
    requires t.n0 <= 0x3FFFFFF && t.n1 <= 0x3FFFFFF && t.n2 <= 0x3FFFFFF && t.n3 <= 0x3FFFFFF && t.n4 <= 0x3FFFFFF
    requires t.n5 <= 0x3FFFFFF && t.n6 <= 0x3FFFFFF && t.n7 <= 0x3FFFFFF && t.n8 <= 0x3FFFFFF && t.n9 <= 0x40003F
    ensures AtLeastPrime(t) <==> Val(t) >= PRIME
  {
    ValIs(t);
    hide Number;
    var mid := Weigh(0, 0, t.n2, t.n3, t.n4, t.n5, t.n6, t.n7, t.n8, t.n9);
    assert Val(t) == t.n0 + 0x4000000 * t.n1 + mid;
    if t.n9 <= 0x3FFFFF {
      MiddleWords(t);
      assert t.n9 / 0x400000 == 0;
      assert (t.n0 + 977) / 0x4000000 + t.n1 + 64 > 0x3FFFFFF
        <==> t.n0 + 0x4000000 * t.n1 >= 0xFFFFEFFFFFC2F;
      assert mid % 0x10000000000000 == 0;
    } else {
      assert t.n9 / 0x400000 == 1;
    }
  }

  /** Returns the unique representation of the residue. */
  method Normalize(n: Limbs) returns (r: Limbs)
    requires Budget(n)
    ensures Normal(r)
    ensures Val(r) == Val(n) % PRIME
    ensures FieldEq(Val(r), Val(n))
  {
    var t := CarryPass(n);
    AtLeastPrimeMeans(t);
    var m := if AtLeastPrime(t) then 1 else 0;
    ghost var dropped;
    r, dropped := AddComplement(t, m);
    ValIs(t);
    ValIs(r);
    NormalizedValue(Val(n), n.n9 / 0x400000, Val(t), m, dropped, Val(r));
  }

  /** The arithmetic of `Normalize` on the values of its word vectors. */
  lemma NormalizedValue(n: int, q: int, t: int, m: int, dropped: int, r: int)
    requires t == n - q * 0xFFFFFFFFFFFFFFFFFFFFFFFFFFFFFFFFFFFFFFFFFFFFFFFFFFFFFFFEFFFFFC2F
    requires 0 <= t < 2 * 0xFFFFFFFFFFFFFFFFFFFFFFFFFFFFFFFFFFFFFFFFFFFFFFFFFFFFFFFEFFFFFC2F
    requires m == if t >= PRIME then 1 else 0
    requires r == t + m * 4294968273 - dropped * 0x10000000000000000000000000000000000000000000000000000000000000000
    requires 0 <= r < 0x10000000000000000000000000000000000000000000000000000000000000000
    ensures r < PRIME && FieldEq(r, n) && r == n % PRIME
  {
    assert dropped == m;
    FieldEqBy(r, n, -q - m);
    CongMod(PRIME, r, n);
  }

  /** Negation, given a bound on the magnitude of the operand. */
  method NegateVal(val: Limbs, magnitude: uint32, ghost v: int) returns (r: Limbs)
    requires 1 <= magnitude <= 62
    requires Rep(val, magnitude, v)
    ensures Rep(r, magnitude + 1, -v)
  {
    r := Limbs((magnitude + 1) * 0x3FFFC2F - val.n0,
               (magnitude + 1) * 0x3FFFFBF - val.n1,
               (magnitude + 1) * 0x3FFFFFF - val.n2,
               (magnitude + 1) * 0x3FFFFFF - val.n3,
               (magnitude + 1) * 0x3FFFFFF - val.n4,
               (magnitude + 1) * 0x3FFFFFF - val.n5,
               (magnitude + 1) * 0x3FFFFFF - val.n6,
               (magnitude + 1) * 0x3FFFFFF - val.n7,
               (magnitude + 1) * 0x3FFFFFF - val.n8,
               (magnitude + 1) * 0x3FFFFF - val.n9);
    ValIs(val);
    ValIs(r);
    assert Val(r) == (magnitude +
        1) * 0xFFFFFFFF_FFFFFFFF_FFFFFFFF_FFFFFFFF_FFFFFFFF_FFFFFFFF_FFFFFFFE_FFFFFC2F - Val(val);
    FieldEqBy(Val(r), -Val(val), magnitude + 1);
    CongAdd(PRIME, 0, 0, Val(val), v);
  }

  method Add2(a: Limbs, b: Limbs, ghost m: nat, ghost k: nat, ghost u: int, ghost v: int) returns (r: Limbs)
    requires m + k <= 63
    requires Rep(a, m, u) && Rep(b, k, v)
    ensures Rep(r, m + k, u + v)
  {
    r := Limbs(a.n0 + b.n0, a.n1 + b.n1, a.n2 + b.n2, a.n3 + b.n3, a.n4 + b.n4, a.n5 + b.n5, a.n6 + b.n6, a.n7 + b.n7,
        a.n8 + b.n8, a.n9 + b.n9);
    SumVal(a, b, r);
    SumRep(Val(a), u, Val(b), v, Val(r));
  }

  lemma SumVal(a: Limbs, b: Limbs, r: Limbs)
    requires r.n0 == a.n0 + b.n0 && r.n1 == a.n1 + b.n1 && r.n2 == a.n2 + b.n2 && r.n3 == a.n3 + b.n3
    requires r.n4 == a.n4 + b.n4 && r.n5 == a.n5 + b.n5 && r.n6 == a.n6 + b.n6 && r.n7 == a.n7 + b.n7
    requires r.n8 == a.n8 + b.n8 && r.n9 == a.n9 + b.n9
    ensures Val(r) == Val(a) + Val(b)
  {
    ValIs(a);
    ValIs(b);
    ValIs(r);
    hide Number;
  }

  lemma SumRep(a: int, u: int, b: int, v: int, r: int)
    requires FieldEq(a, u) && FieldEq(b, v) && r == a + b
    ensures FieldEq(r, u + v)
  {
    CongAdd(PRIME, a, u, b, v);
  }

  /** Adds a small integer to word 0. */
  method AddInt(a: Limbs, ui: uint32, ghost m: nat, ghost u: int) returns (r: Limbs)
    requires m <= 62 && ui <= 0x3FFFFFF
    requires Rep(a, m, u)
    ensures Rep(r, m + 1, u + ui)
  {
    r := a.(n0 := a.n0 + ui);
    ValIs(a);
    ValIs(r);
    SumRep(Val(a), u, ui, ui, Val(r));
  }

  method MulInt(a: Limbs, ui: uint32, ghost m: nat, ghost u: int) returns (r: Limbs)
    requires m * ui <= 63
    requires Rep(a, m, u)
    ensures Rep(r, m * ui, ui * u)
  {
    MulIntFits(a, ui, m);
    r := Limbs(a.n0 * ui, a.n1 * ui, a.n2 * ui, a.n3 * ui, a.n4 * ui, a.n5 * ui, a.n6 * ui, a.n7 * ui, a.n8 * ui,
        a.n9 * ui);
    ScaleVal(a, r, ui);
    CongMul(PRIME, ui, ui, Val(a), u);
  }

  lemma ScaleVal(a: Limbs, r: Limbs, ui: uint32)
    requires r.n0 == a.n0 * ui && r.n1 == a.n1 * ui && r.n2 == a.n2 * ui && r.n3 == a.n3 * ui && r.n4 == a.n4 * ui
    requires r.n5 == a.n5 * ui && r.n6 == a.n6 * ui && r.n7 == a.n7 * ui && r.n8 == a.n8 * ui && r.n9 == a.n9 * ui
    ensures Val(r) == ui * Val(a)
  {
    ValIs(r);
    hide Number;
    Scale(ui, a);
    assert RowVal(ui, a) == Val(r);
  }

  lemma WordTimes(x: nat, ui: nat, m: nat, w: nat)
    requires x <= m * w
    ensures 0 <= x * ui <= (m * ui) * w
  {
    assert x * ui <= (m * w) * ui == (m * ui) * w;
  }

  lemma MulIntFits(a: Limbs, ui: uint32, m: nat)
    requires Mag(a, m) && m * ui <= 63
    ensures 0 <= a.n0 * ui <= (m * ui) * 0x3FFFFFF <= 0xFFFFFFFF
    ensures 0 <= a.n1 * ui <= (m * ui) * 0x3FFFFFF <= 0xFFFFFFFF
    ensures 0 <= a.n2 * ui <= (m * ui) * (0x3FFFFFF + 0x50000) <= 0xFFFFFFFF
    ensures 0 <= a.n3 * ui <= (m * ui) * 0x3FFFFFF <= 0xFFFFFFFF
    ensures 0 <= a.n4 * ui <= (m * ui) * 0x3FFFFFF <= 0xFFFFFFFF
    ensures 0 <= a.n5 * ui <= (m * ui) * 0x3FFFFFF <= 0xFFFFFFFF
    ensures 0 <= a.n6 * ui <= (m * ui) * 0x3FFFFFF <= 0xFFFFFFFF
    ensures 0 <= a.n7 * ui <= (m * ui) * 0x3FFFFFF <= 0xFFFFFFFF
    ensures 0 <= a.n8 * ui <= (m * ui) * 0x3FFFFFF <= 0xFFFFFFFF
    ensures 0 <= a.n9 * ui <= (m * ui) * 0x3FFFFF <= 0xFFFFFFFF
  {
    WordTimes(a.n0, ui, m, 0x3FFFFFF);
    WordTimes(a.n1, ui, m, 0x3FFFFFF);
    WordTimes(a.n2, ui, m, 0x404FFFF);
    WordTimes(a.n3, ui, m, 0x3FFFFFF);
    WordTimes(a.n4, ui, m, 0x3FFFFFF);
    WordTimes(a.n5, ui, m, 0x3FFFFFF);
    WordTimes(a.n6, ui, m, 0x3FFFFFF);
    WordTimes(a.n7, ui, m, 0x3FFFFFF);
    WordTimes(a.n8, ui, m, 0x3FFFFFF);
    WordTimes(a.n9, ui, m, 0x3FFFFF);
  }

  /** `Mul2`: the product of two factors of magnitude at most 8 has magnitude 1. */
  method Mul2(a: Limbs, b: Limbs, ghost m: nat, ghost k: nat, ghost u: int, ghost v: int) returns (r: Limbs)
    requires m <= 8 && k <= 8
    requires Rep(a, m, u) && Rep(b, k, v)
    ensures Rep(r, 1, u * v)
  {
    MagFactor(a, m);
    MagFactor(b, k);
    r := ReduceColumns(MulColumns(a, b));
    CongMul(PRIME, Val(a), u, Val(b), v);
  }

  /** `SquareVal`: the columns are those of `Mul2` of the value by itself, and so is the tail. */
  method SquareVal(a: Limbs, ghost m: nat, ghost u: int) returns (r: Limbs)
    requires m <= 8
    requires Rep(a, m, u)
    ensures Rep(r, 1, u * u)
  {
    MagFactor(a, m);
    r := ReduceColumns(SquareColumns(a));
    CongMul(PRIME, Val(a), u, Val(a), u);
  }

  /** `SetInt`. */
  function SetInt(ui: uint32): Limbs
  {
    Limbs(ui, 0, 0, 0, 0, 0, 0, 0, 0, 0)
  }

  /** `IsZero` tests the words, `Equals` compares them, `IsOdd` looks at the lowest bit. */
  predicate IsZero(a: Limbs)
  {
    a == SetInt(0)
  }

  predicate IsOdd(a: Limbs)
  {
    a.n0 % 2 == 1
  }

  lemma IsZeroVal(a: Limbs)
    ensures IsZero(a) <==> Val(a) == 0
  {
    ValIs(a);
    hide Number;
  }

  /** On normal vectors the word tests decide field facts. */
  lemma NormalTests(a: Limbs, b: Limbs)
    requires Normal(a) && Normal(b)
    ensures a == b <==> FieldEq(Val(a), Val(b))
    ensures IsZero(a) <==> FieldEq(Val(a), 0)
    ensures IsOdd(a) <==> Val(a) % 2 == 1
  {
    NormalUnique(a, b);
    ZeroTest(a);
    OddVal(a);
  }

  lemma ZeroTest(a: Limbs)
    requires Normal(a)
    ensures IsZero(a) <==> FieldEq(Val(a), 0)
  {
    ValIs(a);
    CongSmall(PRIME, Val(a), 0);
    IsZeroVal(a);
  }

  lemma OddVal(a: Limbs)
    ensures IsOdd(a) <==> Val(a) % 2 == 1
  {
    ValIs(a);
    hide Number;
    var rest := a.n1 * 0x2000000 + a.n2 * 0x8000000000000 + a.n3 * 0x20000000000000000000 +
        a.n4 * 0x80000000000000000000000000 + a.n5 * 0x200000000000000000000000000000000 +
        a.n6 * 0x800000000000000000000000000000000000000 + a.n7 * 0x2000000000000000000000000000000000000000000000 +
        a.n8 * 0x8000000000000000000000000000000000000000000000000000 +
        a.n9 * 0x20000000000000000000000000000000000000000000000000000000000;
    assert Val(a) == a.n0 + 2 * rest;
  }
}
