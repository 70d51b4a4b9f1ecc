/** Multiplication of word vectors: the schoolbook columns, the carry chain over them, and
    the reduction by the special form of the prime (HAC section 14.3.4). */
module LimbProduct {
  import opened MachineTypes
  import opened Limbs

  /** Column `k` collects the word products of weight 2^(26*k). */
  datatype Columns = Columns(
    c0: uint64, c1: uint64, c2: uint64, c3: uint64, c4: uint64, c5: uint64, c6: uint64,
    c7: uint64, c8: uint64, c9: uint64, c10: uint64, c11: uint64, c12: uint64, c13: uint64,
    c14: uint64, c15: uint64, c16: uint64, c17: uint64, c18: uint64)

  function ColumnsVal(c: Columns): int
  {
    Weigh(c.c0, c.c1, c.c2, c.c3, c.c4, c.c5, c.c6, c.c7, c.c8, c.c9) +
    Weigh(c.c10, c.c11, c.c12, c.c13, c.c14, c.c15, c.c16, c.c17, c.c18,
        0) * 0x100000000000000000000000000000000000000000000000000000000000000000
  }

  /** The columns leave room for the carries, so that no 64-bit sum wraps. */
  predicate ColumnsFit(c: Columns)
  {
    && c.c0 <= 0x4000000000000000
    && c.c1 <= 0x4000000000000000
    && c.c2 <= 0x4000000000000000
    && c.c3 <= 0x4000000000000000
    && c.c4 <= 0x4000000000000000
    && c.c5 <= 0x4000000000000000
    && c.c6 <= 0x4000000000000000
    && c.c7 <= 0x4000000000000000
    && c.c8 <= 0x4000000000000000
    && c.c9 <= 0x4000000000000000
    && c.c10 <= 0x4000000000000000
    && c.c11 <= 0x4000000000000000
    && c.c12 <= 0x4000000000000000
    && c.c13 <= 0x4000000000000000
    && c.c14 <= 0x4000000000000000
    && c.c15 <= 0x4000000000000000
    && c.c16 <= 0x800000000000000 && c.c17 <= 0x84000000000000 && c.c18 <= 0x4000000000000
  }

  /** The words of a factor that may be multiplied: magnitude at most 8. */
  predicate Factor(a: Limbs)
  {
    a.n0 <= 0x20280000 && a.n1 <= 0x20280000 && a.n2 <= 0x20280000
    && a.n3 <= 0x20280000 && a.n4 <= 0x20280000 && a.n5 <= 0x20280000
    && a.n6 <= 0x20280000 && a.n7 <= 0x20280000 && a.n8 <= 0x20280000 && a.n9 <= 0x2000000
  }

  lemma MagFactor(a: Limbs, m: nat)
    requires m <= 8 && Mag(a, m)
    ensures Factor(a)
  {
  }

  lemma ProductBound(x: nat, y: nat, xMax: nat, yMax: nat)
    requires x <= xMax && y <= yMax
    ensures 0 <= x * y <= xMax * yMax
  {
    assert x * y <= xMax * y <= xMax * yMax;
  }

  /** The products of one row are small. */
  lemma Row(x: uint32, b: Limbs)
    requires x <= 0x20280000 && Factor(b)
    ensures 0 <= x * b.n0 <= 0x40A064000000000
    ensures 0 <= x * b.n1 <= 0x40A064000000000
    ensures 0 <= x * b.n2 <= 0x40A064000000000
    ensures 0 <= x * b.n3 <= 0x40A064000000000
    ensures 0 <= x * b.n4 <= 0x40A064000000000
    ensures 0 <= x * b.n5 <= 0x40A064000000000
    ensures 0 <= x * b.n6 <= 0x40A064000000000
    ensures 0 <= x * b.n7 <= 0x40A064000000000
    ensures 0 <= x * b.n8 <= 0x40A064000000000
    ensures 0 <= x * b.n9 <= 0x40500000000000
  {
    ProductBound(x, b.n0, 0x20280000, 0x20280000);
    ProductBound(x, b.n1, 0x20280000, 0x20280000);
    ProductBound(x, b.n2, 0x20280000, 0x20280000);
    ProductBound(x, b.n3, 0x20280000, 0x20280000);
    ProductBound(x, b.n4, 0x20280000, 0x20280000);
    ProductBound(x, b.n5, 0x20280000, 0x20280000);
    ProductBound(x, b.n6, 0x20280000, 0x20280000);
    ProductBound(x, b.n7, 0x20280000, 0x20280000);
    ProductBound(x, b.n8, 0x20280000, 0x20280000);
    ProductBound(x, b.n9, 0x20280000, 0x2000000);
  }

  lemma TopRow(x: uint32, b: Limbs)
    requires x <= 0x2000000 && Factor(b)
    ensures 0 <= x * b.n0 <= 0x40500000000000
    ensures 0 <= x * b.n1 <= 0x40500000000000
    ensures 0 <= x * b.n2 <= 0x40500000000000
    ensures 0 <= x * b.n3 <= 0x40500000000000
    ensures 0 <= x * b.n4 <= 0x40500000000000
    ensures 0 <= x * b.n5 <= 0x40500000000000
    ensures 0 <= x * b.n6 <= 0x40500000000000
    ensures 0 <= x * b.n7 <= 0x40500000000000
    ensures 0 <= x * b.n8 <= 0x40500000000000
    ensures 0 <= x * b.n9 <= 0x4000000000000
  {
    ProductBound(x, b.n0, 0x2000000, 0x20280000);
    ProductBound(x, b.n1, 0x2000000, 0x20280000);
    ProductBound(x, b.n2, 0x2000000, 0x20280000);
    ProductBound(x, b.n3, 0x2000000, 0x20280000);
    ProductBound(x, b.n4, 0x2000000, 0x20280000);
    ProductBound(x, b.n5, 0x2000000, 0x20280000);
    ProductBound(x, b.n6, 0x2000000, 0x20280000);
    ProductBound(x, b.n7, 0x2000000, 0x20280000);
    ProductBound(x, b.n8, 0x2000000, 0x20280000);
    ProductBound(x, b.n9, 0x2000000, 0x2000000);
  }

  function RowVal(x: int, b: Limbs): int
  {
    Weigh(x * b.n0, x * b.n1, x * b.n2, x * b.n3, x * b.n4, x * b.n5, x * b.n6, x * b.n7, x * b.n8, x * b.n9)
  }

  lemma Scale(x: int, b: Limbs)
    ensures x * Val(b) == RowVal(x, b)
  {
    ValIs(b);
    hide Number;
  }

  lemma RowsOf(a: Limbs, b: Limbs)
    ensures Val(a) * Val(b) == Weigh(
      RowVal(a.n0, b), RowVal(a.n1, b), RowVal(a.n2, b), RowVal(a.n3, b), RowVal(a.n4, b), RowVal(a.n5, b),
          RowVal(a.n6, b), RowVal(a.n7, b), RowVal(a.n8, b), RowVal(a.n9, b))
  {
    Scale(a.n0, b);
    Scale(a.n1, b);
    Scale(a.n2, b);
    Scale(a.n3, b);
    Scale(a.n4, b);
    Scale(a.n5, b);
    Scale(a.n6, b);
    Scale(a.n7, b);
    Scale(a.n8, b);
    Scale(a.n9, b);
    Scale(Val(b), a);
    ValIs(a);
    hide Number;
  }

  lemma MulColumnsFit(a: Limbs, b: Limbs)
    requires Factor(a) && Factor(b)
    ensures 0 <= a.n0 * b.n0 <= 0x4000000000000000
    ensures 0 <= a.n0 * b.n1 + a.n1 * b.n0 <= 0x4000000000000000
    ensures 0 <= a.n0 * b.n2 + a.n1 * b.n1 + a.n2 * b.n0 <= 0x4000000000000000
    ensures 0 <= a.n0 * b.n3 + a.n1 * b.n2 + a.n2 * b.n1 + a.n3 * b.n0 <= 0x4000000000000000
    ensures 0 <= a.n0 * b.n4 + a.n1 * b.n3 + a.n2 * b.n2 + a.n3 * b.n1 + a.n4 * b.n0 <= 0x4000000000000000
    ensures 0 <= a.n0 * b.n5 + a.n1 * b.n4 + a.n2 * b.n3 + a.n3 * b.n2 + a.n4 * b.n1 + a.n5 * b.n0 <= 0x4000000000000000
    ensures 0 <= a.n0 * b.n6 + a.n1 * b.n5 + a.n2 * b.n4 + a.n3 * b.n3 + a.n4 * b.n2 + a.n5 * b.n1 +
        a.n6 * b.n0 <= 0x4000000000000000
    ensures 0 <= a.n0 * b.n7 + a.n1 * b.n6 + a.n2 * b.n5 + a.n3 * b.n4 + a.n4 * b.n3 + a.n5 * b.n2 + a.n6 * b.n1 +
        a.n7 * b.n0 <= 0x4000000000000000
    ensures 0 <= a.n0 * b.n8 + a.n1 * b.n7 + a.n2 * b.n6 + a.n3 * b.n5 + a.n4 * b.n4 + a.n5 * b.n3 + a.n6 * b.n2 +
        a.n7 * b.n1 + a.n8 * b.n0 <= 0x4000000000000000
    ensures 0 <= a.n0 * b.n9 + a.n1 * b.n8 + a.n2 * b.n7 + a.n3 * b.n6 + a.n4 * b.n5 + a.n5 * b.n4 + a.n6 * b.n3 +
        a.n7 * b.n2 + a.n8 * b.n1 + a.n9 * b.n0 <= 0x4000000000000000
    ensures 0 <= a.n1 * b.n9 + a.n2 * b.n8 + a.n3 * b.n7 + a.n4 * b.n6 + a.n5 * b.n5 + a.n6 * b.n4 + a.n7 * b.n3 +
        a.n8 * b.n2 + a.n9 * b.n1 <= 0x4000000000000000
    ensures 0 <= a.n2 * b.n9 + a.n3 * b.n8 + a.n4 * b.n7 + a.n5 * b.n6 + a.n6 * b.n5 + a.n7 * b.n4 + a.n8 * b.n3 +
        a.n9 * b.n2 <= 0x4000000000000000
    ensures 0 <= a.n3 * b.n9 + a.n4 * b.n8 + a.n5 * b.n7 + a.n6 * b.n6 + a.n7 * b.n5 + a.n8 * b.n4 +
        a.n9 * b.n3 <= 0x4000000000000000
    ensures 0 <= a.n4 * b.n9 + a.n5 * b.n8 + a.n6 * b.n7 + a.n7 * b.n6 + a.n8 * b.n5 + a.n9 * b.n4 <= 0x4000000000000000
    ensures 0 <= a.n5 * b.n9 + a.n6 * b.n8 + a.n7 * b.n7 + a.n8 * b.n6 + a.n9 * b.n5 <= 0x4000000000000000
    ensures 0 <= a.n6 * b.n9 + a.n7 * b.n8 + a.n8 * b.n7 + a.n9 * b.n6 <= 0x4000000000000000
    ensures 0 <= a.n7 * b.n9 + a.n8 * b.n8 + a.n9 * b.n7 <= 0x800000000000000
    ensures 0 <= a.n8 * b.n9 + a.n9 * b.n8 <= 0x84000000000000
    ensures 0 <= a.n9 * b.n9 <= 0x4000000000000
  {
    Row(a.n0, b);
    Row(a.n1, b);
    Row(a.n2, b);
    Row(a.n3, b);
    Row(a.n4, b);
    Row(a.n5, b);
    Row(a.n6, b);
    Row(a.n7, b);
    Row(a.n8, b);
    TopRow(a.n9, b);
  }

  /** The columns of `Mul2`. */
  function MulColumns(a: Limbs, b: Limbs): (c: Columns)
    requires Factor(a) && Factor(b)
    ensures ColumnsFit(c)
    ensures ColumnsVal(c) == Val(a) * Val(b)
  {
    MulColumnsFit(a, b);
    RowsOf(a, b);
    Columns(
      a.n0 * b.n0,
      a.n0 * b.n1 + a.n1 * b.n0,
      a.n0 * b.n2 + a.n1 * b.n1 + a.n2 * b.n0,
      a.n0 * b.n3 + a.n1 * b.n2 + a.n2 * b.n1 + a.n3 * b.n0,
      a.n0 * b.n4 + a.n1 * b.n3 + a.n2 * b.n2 + a.n3 * b.n1 + a.n4 * b.n0,
      a.n0 * b.n5 + a.n1 * b.n4 + a.n2 * b.n3 + a.n3 * b.n2 + a.n4 * b.n1 + a.n5 * b.n0,
      a.n0 * b.n6 + a.n1 * b.n5 + a.n2 * b.n4 + a.n3 * b.n3 + a.n4 * b.n2 + a.n5 * b.n1 + a.n6 * b.n0,
      a.n0 * b.n7 + a.n1 * b.n6 + a.n2 * b.n5 + a.n3 * b.n4 + a.n4 * b.n3 + a.n5 * b.n2 + a.n6 * b.n1 + a.n7 * b.n0,
      a.n0 * b.n8 + a.n1 * b.n7 + a.n2 * b.n6 + a.n3 * b.n5 + a.n4 * b.n4 + a.n5 * b.n3 + a.n6 * b.n2 + a.n7 * b.n1 +
          a.n8 * b.n0,
      a.n0 * b.n9 + a.n1 * b.n8 + a.n2 * b.n7 + a.n3 * b.n6 + a.n4 * b.n5 + a.n5 * b.n4 + a.n6 * b.n3 + a.n7 * b.n2 +
          a.n8 * b.n1 + a.n9 * b.n0,
      a.n1 * b.n9 + a.n2 * b.n8 + a.n3 * b.n7 + a.n4 * b.n6 + a.n5 * b.n5 + a.n6 * b.n4 + a.n7 * b.n3 + a.n8 * b.n2 +
          a.n9 * b.n1,
      a.n2 * b.n9 + a.n3 * b.n8 + a.n4 * b.n7 + a.n5 * b.n6 + a.n6 * b.n5 + a.n7 * b.n4 + a.n8 * b.n3 + a.n9 * b.n2,
      a.n3 * b.n9 + a.n4 * b.n8 + a.n5 * b.n7 + a.n6 * b.n6 + a.n7 * b.n5 + a.n8 * b.n4 + a.n9 * b.n3,
      a.n4 * b.n9 + a.n5 * b.n8 + a.n6 * b.n7 + a.n7 * b.n6 + a.n8 * b.n5 + a.n9 * b.n4,
      a.n5 * b.n9 + a.n6 * b.n8 + a.n7 * b.n7 + a.n8 * b.n6 + a.n9 * b.n5,
      a.n6 * b.n9 + a.n7 * b.n8 + a.n8 * b.n7 + a.n9 * b.n6,
      a.n7 * b.n9 + a.n8 * b.n8 + a.n9 * b.n7,
      a.n8 * b.n9 + a.n9 * b.n8,
      a.n9 * b.n9)
  }

  lemma SquareColumnsLow(a: Limbs)
    ensures 2 * a.n0 * a.n1 == a.n0 * a.n1 + a.n1 * a.n0
    ensures 2 * a.n0 * a.n2 + a.n1 * a.n1 == a.n0 * a.n2 + a.n1 * a.n1 + a.n2 * a.n0
    ensures 2 * a.n0 * a.n3 + 2 * a.n1 * a.n2 == a.n0 * a.n3 + a.n1 * a.n2 + a.n2 * a.n1 + a.n3 * a.n0
    ensures 2 * a.n0 * a.n4 + 2 * a.n1 * a.n3 + a.n2 * a.n2 == a.n0 * a.n4 + a.n1 * a.n3 + a.n2 * a.n2 + a.n3 * a.n1 +
        a.n4 * a.n0
    ensures 2 * a.n0 * a.n5 + 2 * a.n1 * a.n4 + 2 * a.n2 * a.n3 == a.n0 * a.n5 + a.n1 * a.n4 + a.n2 * a.n3 +
        a.n3 * a.n2 + a.n4 * a.n1 + a.n5 * a.n0
    ensures 2 * a.n0 * a.n6 + 2 * a.n1 * a.n5 + 2 * a.n2 * a.n4 + a.n3 * a.n3 == a.n0 * a.n6 + a.n1 * a.n5 +
        a.n2 * a.n4 + a.n3 * a.n3 + a.n4 * a.n2 + a.n5 * a.n1 + a.n6 * a.n0
    ensures 2 * a.n0 * a.n7 + 2 * a.n1 * a.n6 + 2 * a.n2 * a.n5 + 2 * a.n3 * a.n4 == a.n0 * a.n7 + a.n1 * a.n6 +
        a.n2 * a.n5 + a.n3 * a.n4 + a.n4 * a.n3 + a.n5 * a.n2 + a.n6 * a.n1 + a.n7 * a.n0
    ensures 2 * a.n0 * a.n8 + 2 * a.n1 * a.n7 + 2 * a.n2 * a.n6 + 2 * a.n3 * a.n5 + a.n4 * a.n4 == a.n0 * a.n8 +
        a.n1 * a.n7 + a.n2 * a.n6 + a.n3 * a.n5 + a.n4 * a.n4 + a.n5 * a.n3 + a.n6 * a.n2 + a.n7 * a.n1 + a.n8 * a.n0
    ensures 2 * a.n0 * a.n9 + 2 * a.n1 * a.n8 + 2 * a.n2 * a.n7 + 2 * a.n3 * a.n6 + 2 * a.n4 * a.n5 == a.n0 * a.n9 +
        a.n1 * a.n8 + a.n2 * a.n7 + a.n3 * a.n6 + a.n4 * a.n5 + a.n5 * a.n4 + a.n6 * a.n3 + a.n7 * a.n2 + a.n8 * a.n1 +
        a.n9 * a.n0
  {
  }

  lemma SquareColumnsHigh(a: Limbs)
    ensures 2 * a.n1 * a.n9 + 2 * a.n2 * a.n8 + 2 * a.n3 * a.n7 + 2 * a.n4 * a.n6 + a.n5 * a.n5 == a.n1 * a.n9 +
        a.n2 * a.n8 + a.n3 * a.n7 + a.n4 * a.n6 + a.n5 * a.n5 + a.n6 * a.n4 + a.n7 * a.n3 + a.n8 * a.n2 + a.n9 * a.n1
    ensures 2 * a.n2 * a.n9 + 2 * a.n3 * a.n8 + 2 * a.n4 * a.n7 + 2 * a.n5 * a.n6 == a.n2 * a.n9 + a.n3 * a.n8 +
        a.n4 * a.n7 + a.n5 * a.n6 + a.n6 * a.n5 + a.n7 * a.n4 + a.n8 * a.n3 + a.n9 * a.n2
    ensures 2 * a.n3 * a.n9 + 2 * a.n4 * a.n8 + 2 * a.n5 * a.n7 + a.n6 * a.n6 == a.n3 * a.n9 + a.n4 * a.n8 +
        a.n5 * a.n7 + a.n6 * a.n6 + a.n7 * a.n5 + a.n8 * a.n4 + a.n9 * a.n3
    ensures 2 * a.n4 * a.n9 + 2 * a.n5 * a.n8 + 2 * a.n6 * a.n7 == a.n4 * a.n9 + a.n5 * a.n8 + a.n6 * a.n7 +
        a.n7 * a.n6 + a.n8 * a.n5 + a.n9 * a.n4
    ensures 2 * a.n5 * a.n9 + 2 * a.n6 * a.n8 + a.n7 * a.n7 == a.n5 * a.n9 + a.n6 * a.n8 + a.n7 * a.n7 + a.n8 * a.n6 +
        a.n9 * a.n5
    ensures 2 * a.n6 * a.n9 + 2 * a.n7 * a.n8 == a.n6 * a.n9 + a.n7 * a.n8 + a.n8 * a.n7 + a.n9 * a.n6
    ensures 2 * a.n7 * a.n9 + a.n8 * a.n8 == a.n7 * a.n9 + a.n8 * a.n8 + a.n9 * a.n7
    ensures 2 * a.n8 * a.n9 == a.n8 * a.n9 + a.n9 * a.n8
  {
  }

  /** The columns of `SquareVal`, where the two equal products of a pair are one doubled
      product. */
  function SquareColumns(a: Limbs): (c: Columns)
    requires Factor(a)
    ensures c == MulColumns(a, a)
  {
    MulColumnsFit(a, a);
    SquareColumnsLow(a);
    SquareColumnsHigh(a);
    Columns(
      a.n0 * a.n0,
      2 * a.n0 * a.n1,
      2 * a.n0 * a.n2 + a.n1 * a.n1,
      2 * a.n0 * a.n3 + 2 * a.n1 * a.n2,
      2 * a.n0 * a.n4 + 2 * a.n1 * a.n3 + a.n2 * a.n2,
      2 * a.n0 * a.n5 + 2 * a.n1 * a.n4 + 2 * a.n2 * a.n3,
      2 * a.n0 * a.n6 + 2 * a.n1 * a.n5 + 2 * a.n2 * a.n4 + a.n3 * a.n3,
      2 * a.n0 * a.n7 + 2 * a.n1 * a.n6 + 2 * a.n2 * a.n5 + 2 * a.n3 * a.n4,
      2 * a.n0 * a.n8 + 2 * a.n1 * a.n7 + 2 * a.n2 * a.n6 + 2 * a.n3 * a.n5 + a.n4 * a.n4,
      2 * a.n0 * a.n9 + 2 * a.n1 * a.n8 + 2 * a.n2 * a.n7 + 2 * a.n3 * a.n6 + 2 * a.n4 * a.n5,
      2 * a.n1 * a.n9 + 2 * a.n2 * a.n8 + 2 * a.n3 * a.n7 + 2 * a.n4 * a.n6 + a.n5 * a.n5,
      2 * a.n2 * a.n9 + 2 * a.n3 * a.n8 + 2 * a.n4 * a.n7 + 2 * a.n5 * a.n6,
      2 * a.n3 * a.n9 + 2 * a.n4 * a.n8 + 2 * a.n5 * a.n7 + a.n6 * a.n6,
      2 * a.n4 * a.n9 + 2 * a.n5 * a.n8 + 2 * a.n6 * a.n7,
      2 * a.n5 * a.n9 + 2 * a.n6 * a.n8 + a.n7 * a.n7,
      2 * a.n6 * a.n9 + 2 * a.n7 * a.n8,
      2 * a.n7 * a.n9 + a.n8 * a.n8,
      2 * a.n8 * a.n9,
      a.n9 * a.n9)
  }

  /** A product after the carry chain: every digit but the last is below 2^26. */
  datatype Digits = Digits(
    t0: uint64, t1: uint64, t2: uint64, t3: uint64, t4: uint64, t5: uint64, t6: uint64, t7: uint64, t8: uint64,
        t9: uint64,
    t10: uint64, t11: uint64, t12: uint64, t13: uint64, t14: uint64, t15: uint64, t16: uint64, t17: uint64,
        t18: uint64, t19: uint64)

  function LowVal(t: Digits): int
  {
    Weigh(t.t0, t.t1, t.t2, t.t3, t.t4, t.t5, t.t6, t.t7, t.t8, t.t9)
  }

  function HighVal(t: Digits): int
  {
    Weigh(t.t10, t.t11, t.t12, t.t13, t.t14, t.t15, t.t16, t.t17, t.t18, t.t19)
  }

  predicate DigitsFit(t: Digits)
  {
    && t.t0 <= 0x3FFFFFF
    && t.t1 <= 0x3FFFFFF
    && t.t2 <= 0x3FFFFFF
    && t.t3 <= 0x3FFFFFF
    && t.t4 <= 0x3FFFFFF
    && t.t5 <= 0x3FFFFFF
    && t.t6 <= 0x3FFFFFF
    && t.t7 <= 0x3FFFFFF
    && t.t8 <= 0x3FFFFFF
    && t.t9 <= 0x3FFFFFF
    && t.t10 <= 0x3FFFFFF
    && t.t11 <= 0x3FFFFFF
    && t.t12 <= 0x3FFFFFF
    && t.t13 <= 0x3FFFFFF
    && t.t14 <= 0x3FFFFFF
    && t.t15 <= 0x3FFFFFF
    && t.t16 <= 0x3FFFFFF
    && t.t17 <= 0x3FFFFFF
    && t.t18 <= 0x3FFFFFF
    && t.t19 <= 0x1000100
  }

  method CarryColumns(c: Columns) returns (t: Digits)
    requires ColumnsFit(c)
    ensures DigitsFit(t)
    ensures LowVal(t) + HighVal(t) * 0x100000000000000000000000000000000000000000000000000000000000000000 ==
            ColumnsVal(c)
  {
    var m: uint64 := c.c0;
    var t0 := m % 0x4000000;
    m := m / 0x4000000 + c.c1;
    var t1 := m % 0x4000000;
    m := m / 0x4000000 + c.c2;
    var t2 := m % 0x4000000;
    m := m / 0x4000000 + c.c3;
    var t3 := m % 0x4000000;
    m := m / 0x4000000 + c.c4;
    var t4 := m % 0x4000000;
    m := m / 0x4000000 + c.c5;
    var t5 := m % 0x4000000;
    m := m / 0x4000000 + c.c6;
    var t6 := m % 0x4000000;
    m := m / 0x4000000 + c.c7;
    var t7 := m % 0x4000000;
    m := m / 0x4000000 + c.c8;
    var t8 := m % 0x4000000;
    m := m / 0x4000000 + c.c9;
    var t9 := m % 0x4000000;
    m := m / 0x4000000 + c.c10;
    var t10 := m % 0x4000000;
    m := m / 0x4000000 + c.c11;
    var t11 := m % 0x4000000;
    m := m / 0x4000000 + c.c12;
    var t12 := m % 0x4000000;
    m := m / 0x4000000 + c.c13;
    var t13 := m % 0x4000000;
    m := m / 0x4000000 + c.c14;
    var t14 := m % 0x4000000;
    m := m / 0x4000000 + c.c15;
    var t15 := m % 0x4000000;
    m := m / 0x4000000 + c.c16;
    var t16 := m % 0x4000000;
    m := m / 0x4000000 + c.c17;
    var t17 := m % 0x4000000;
    m := m / 0x4000000 + c.c18;
    var t18 := m % 0x4000000;
    var t19 := m / 0x4000000;
    t := Digits(t0, t1, t2, t3, t4, t5, t6, t7, t8, t9,
                t10, t11, t12, t13, t14, t15, t16, t17, t18, t19);
  }

  /** Folds the digits of weight 2^260 and up into the low ten, using that 2^260 is congruent
      to 68719492368 = 1024 * 2^26 + 15632, and returns what is left above 2^256. */
  method FoldHigh(t: Digits) returns (low: Limbs, m: uint64)
    requires DigitsFit(t)
    ensures Compact(low) && m <= 0x4000500000
    ensures Val(low) + m * 0x10000000000000000000000000000000000000000000000000000000000000000 ==
            LowVal(t) + 68719492368 * HighVal(t)
  {
    m := t.t0 + t.t10 * 15632;
    var t0 := m % 0x4000000;
    m := m / 0x4000000 + t.t1 + t.t10 * 1024 + t.t11 * 15632;
    var t1 := m % 0x4000000;
    m := m / 0x4000000 + t.t2 + t.t11 * 1024 + t.t12 * 15632;
    var t2 := m % 0x4000000;
    m := m / 0x4000000 + t.t3 + t.t12 * 1024 + t.t13 * 15632;
    var t3 := m % 0x4000000;
    m := m / 0x4000000 + t.t4 + t.t13 * 1024 + t.t14 * 15632;
    var t4 := m % 0x4000000;
    m := m / 0x4000000 + t.t5 + t.t14 * 1024 + t.t15 * 15632;
    var t5 := m % 0x4000000;
    m := m / 0x4000000 + t.t6 + t.t15 * 1024 + t.t16 * 15632;
    var t6 := m % 0x4000000;
    m := m / 0x4000000 + t.t7 + t.t16 * 1024 + t.t17 * 15632;
    var t7 := m % 0x4000000;
    m := m / 0x4000000 + t.t8 + t.t17 * 1024 + t.t18 * 15632;
    var t8 := m % 0x4000000;
    m := m / 0x4000000 + t.t9 + t.t18 * 1024 + t.t19 * 68719492368;
    assert m <= 68719492368 * 0x1000100 + 0x2000000000;
    var t9 := m % 0x400000;
    m := m / 0x400000;
    low := Limbs(t0, t1, t2, t3, t4, t5, t6, t7, t8, t9);
    ValIs(low);
  }

  /** Folds the excess over 2^256 once more.  The last carry stays in word 2. */
  method FoldOverflow(t: Limbs, m: uint64) returns (r: Limbs)
    requires Compact(t) && m <= 0x4000500000
    ensures Mag(r, 1)
    ensures Val(r) == Val(t) + m * 4294968273
  {
    var d: uint64 := t.n0 + m * 977;
    var r0 := d % 0x4000000;
    d := d / 0x4000000 + t.n1 + m * 64;
    var r1 := d % 0x4000000;
    r := Limbs(r0, r1, d / 0x4000000 + t.n2, t.n3, t.n4, t.n5, t.n6, t.n7, t.n8, t.n9);
    ValIs(t);
    ValIs(r);
  }

  /** The two folds together change the value by a multiple of the prime. */
  lemma FoldsAreCongruent(r: int, c: int, low: int, m: int, t: int, high: int)
    requires low + m * 0x10000000000000000000000000000000000000000000000000000000000000000 == t + 68719492368 * high
    requires r == low + m * 4294968273
    requires c == t + high * 0x100000000000000000000000000000000000000000000000000000000000000000
    ensures FieldEq(r, c)
  {
    FieldEqBy(r, c, -m - 16 * high);
  }

  /** The tail that `Mul2` and `SquareVal` share. */
  method ReduceColumns(c: Columns) returns (r: Limbs)
    requires ColumnsFit(c)
    ensures Mag(r, 1)
    ensures FieldEq(Val(r), ColumnsVal(c))
  {
    var t := CarryColumns(c);
    var low, m := FoldHigh(t);
    r := FoldOverflow(low, m);
    FoldsAreCongruent(Val(r), ColumnsVal(c), Val(low), m, LowVal(t), HighVal(t));
  }
}
