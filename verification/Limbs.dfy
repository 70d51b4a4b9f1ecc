/** The ten-word representation of field elements: each word has 26 bits of value (22 in
    the top word) and the rest of the 32 bits as room for carries that are not propagated. */
module Limbs {
  import opened MachineTypes
  import opened Congruence

  /** The secp256k1 prime, 2^256 - 4294968273. */
  const PRIME: int := 0xFFFFFFFF_FFFFFFFF_FFFFFFFF_FFFFFFFF_FFFFFFFF_FFFFFFFF_FFFFFFFE_FFFFFC2F

  datatype Limbs = Limbs(
    n0: uint32, n1: uint32, n2: uint32, n3: uint32, n4: uint32,
    n5: uint32, n6: uint32, n7: uint32, n8: uint32, n9: uint32)

  /** The sum of ten numbers, the i-th weighted by 2^(26*i). */
  function Weigh(c0: int, c1: int, c2: int, c3: int, c4: int, c5: int, c6: int, c7: int, c8: int, c9: int): int
  {
    c0 +
    c1 * 0x4000000 +
    c2 * 0x10000000000000 +
    c3 * 0x40000000000000000000 +
    c4 * 0x100000000000000000000000000 +
    c5 * 0x400000000000000000000000000000000 +
    c6 * 0x1000000000000000000000000000000000000000 +
    c7 * 0x4000000000000000000000000000000000000000000000 +
    c8 * 0x10000000000000000000000000000000000000000000000000000 +
    c9 * 0x40000000000000000000000000000000000000000000000000000000000
  }

  /** The number with these digits in base 2^26, the lowest first. */
  function Number(digits: seq<int>): int
  {
    if digits == [] then 0 else digits[0] + 0x4000000 * Number(digits[1..])
  }

  /** The integer a word vector stands for. */
  function Val(a: Limbs): int
  {
    Number([a.n0, a.n1, a.n2, a.n3, a.n4, a.n5, a.n6, a.n7, a.n8, a.n9])
  }

  lemma NumberStep(digit: int, rest: seq<int>)
    ensures Number([digit] + rest) == digit + 0x4000000 * Number(rest)
  {
    assert ([digit] + rest)[1..] == rest;
  }

  /** The words, weighted. */
  lemma ValIs(a: Limbs)
    ensures Val(a) == Weigh(a.n0, a.n1, a.n2, a.n3, a.n4, a.n5, a.n6, a.n7, a.n8, a.n9)
  {
    hide Number;
    NoDigits();
    assert [a.n9] + [] == [a.n9];
    NumberStep(a.n9, []);
    assert [a.n8] + [a.n9] == [a.n8, a.n9];
    NumberStep(a.n8, [a.n9]);
    assert [a.n7] + [a.n8, a.n9] == [a.n7, a.n8, a.n9];
    NumberStep(a.n7, [a.n8, a.n9]);
    assert [a.n6] + [a.n7, a.n8, a.n9] == [a.n6, a.n7, a.n8, a.n9];
    NumberStep(a.n6, [a.n7, a.n8, a.n9]);
    assert [a.n5] + [a.n6, a.n7, a.n8, a.n9] == [a.n5, a.n6, a.n7, a.n8, a.n9];
    NumberStep(a.n5, [a.n6, a.n7, a.n8, a.n9]);
    assert [a.n4] + [a.n5, a.n6, a.n7, a.n8, a.n9] == [a.n4, a.n5, a.n6, a.n7, a.n8, a.n9];
    NumberStep(a.n4, [a.n5, a.n6, a.n7, a.n8, a.n9]);
    assert [a.n3] + [a.n4, a.n5, a.n6, a.n7, a.n8, a.n9] == [a.n3, a.n4, a.n5, a.n6, a.n7, a.n8, a.n9];
    NumberStep(a.n3, [a.n4, a.n5, a.n6, a.n7, a.n8, a.n9]);
    assert [a.n2] + [a.n3, a.n4, a.n5, a.n6, a.n7, a.n8, a.n9] == [a.n2, a.n3, a.n4, a.n5, a.n6, a.n7, a.n8, a.n9];
    NumberStep(a.n2, [a.n3, a.n4, a.n5, a.n6, a.n7, a.n8, a.n9]);
    assert [a.n1] + [a.n2, a.n3, a.n4, a.n5, a.n6, a.n7, a.n8, a.n9] == [a.n1, a.n2, a.n3, a.n4, a.n5, a.n6, a.n7,
        a.n8, a.n9];
    NumberStep(a.n1, [a.n2, a.n3, a.n4, a.n5, a.n6, a.n7, a.n8, a.n9]);
    assert [a.n0] + [a.n1, a.n2, a.n3, a.n4, a.n5, a.n6, a.n7, a.n8, a.n9] == [a.n0, a.n1, a.n2, a.n3, a.n4, a.n5,
        a.n6, a.n7, a.n8, a.n9];
    NumberStep(a.n0, [a.n1, a.n2, a.n3, a.n4, a.n5, a.n6, a.n7, a.n8, a.n9]);
  }

  lemma NoDigits()
    ensures Number([]) == 0
  {
  }

  /** Equality of residues in the field. */
  predicate FieldEq(a: int, b: int)
  {
    Cong(PRIME, a, b)
  }

  /** Every word is at most `m` times its normalized maximum.  Word 2 has slack, because a
      multiplication leaves a carry of up to 19 bits in it. */
  predicate Mag(a: Limbs, m: nat)
  {
    && a.n0 <= m * 0x3FFFFFF && a.n1 <= m * 0x3FFFFFF && a.n2 <= m * (0x3FFFFFF + 0x50000)
    && a.n3 <= m * 0x3FFFFFF && a.n4 <= m * 0x3FFFFFF && a.n5 <= m * 0x3FFFFFF
    && a.n6 <= m * 0x3FFFFFF && a.n7 <= m * 0x3FFFFFF && a.n8 <= m * 0x3FFFFFF
    && a.n9 <= m * 0x3FFFFF
  }

  /** The carries are all propagated. */
  predicate Compact(a: Limbs)
  {
    && a.n0 <= 0x3FFFFFF && a.n1 <= 0x3FFFFFF && a.n2 <= 0x3FFFFFF && a.n3 <= 0x3FFFFFF
    && a.n4 <= 0x3FFFFFF && a.n5 <= 0x3FFFFFF && a.n6 <= 0x3FFFFFF && a.n7 <= 0x3FFFFFF
    && a.n8 <= 0x3FFFFFF && a.n9 <= 0x3FFFFF
  }

  /** The unique representation of a residue. */
  predicate Normal(a: Limbs)
  {
    Compact(a) && Val(a) < PRIME
  }

  lemma FieldEqBy(a: int, b: int, k: int)
    requires a == b + k * 0xFFFFFFFF_FFFFFFFF_FFFFFFFF_FFFFFFFF_FFFFFFFF_FFFFFFFF_FFFFFFFE_FFFFFC2F
    ensures FieldEq(a, b)
  {
    CongByMultiple(PRIME, a, b, k);
  }

  lemma DigitUnique(x: int, y: int, u: int, v: int)
    requires 0 <= x < 0x4000000 && 0 <= y < 0x4000000
    requires x + 0x4000000 * u == y + 0x4000000 * v
    ensures x == y && u == v
  {
  }

  /** Two compact word vectors with the same value are the same vector. */
  lemma CompactUnique(a: Limbs, b: Limbs)
    requires Compact(a) && Compact(b)
    ensures Val(a) == Val(b) <==> a == b
  {
    ValIs(a);
    ValIs(b);
    var a8, b8 := a.n8 + 0x4000000 * a.n9, b.n8 + 0x4000000 * b.n9;
    var a7, b7 := a.n7 + 0x4000000 * a8, b.n7 + 0x4000000 * b8;
    var a6, b6 := a.n6 + 0x4000000 * a7, b.n6 + 0x4000000 * b7;
    var a5, b5 := a.n5 + 0x4000000 * a6, b.n5 + 0x4000000 * b6;
    var a4, b4 := a.n4 + 0x4000000 * a5, b.n4 + 0x4000000 * b5;
    var a3, b3 := a.n3 + 0x4000000 * a4, b.n3 + 0x4000000 * b4;
    var a2, b2 := a.n2 + 0x4000000 * a3, b.n2 + 0x4000000 * b3;
    var a1, b1 := a.n1 + 0x4000000 * a2, b.n1 + 0x4000000 * b2;
    assert Val(a) == a.n0 + 0x4000000 * a1 && Val(b) == b.n0 + 0x4000000 * b1;
    if Val(a) == Val(b) {
      DigitUnique(a.n0, b.n0, a1, b1);
      DigitUnique(a.n1, b.n1, a2, b2);
      DigitUnique(a.n2, b.n2, a3, b3);
      DigitUnique(a.n3, b.n3, a4, b4);
      DigitUnique(a.n4, b.n4, a5, b5);
      DigitUnique(a.n5, b.n5, a6, b6);
      DigitUnique(a.n6, b.n6, a7, b7);
      DigitUnique(a.n7, b.n7, a8, b8);
      DigitUnique(a.n8, b.n8, a.n9, b.n9);
    }
  }

  /** Normal vectors decide field equality word by word. */
  lemma NormalUnique(a: Limbs, b: Limbs)
    requires Normal(a) && Normal(b)
    ensures FieldEq(Val(a), Val(b)) <==> a == b
  {
    ValIs(a);
    ValIs(b);
    CongSmall(PRIME, Val(a), Val(b));
    CompactUnique(a, b);
  }
}
