/** The non-adjacent form of a scalar (algorithm 3.30 of the Guide to Elliptic Curve Cryptography). */
module Naf {
  import opened MachineTypes
  import opened BigEndian

  function Pow2(n: nat): (p: nat)
    ensures p > 0
  {
    if n == 0 then 1 else 2 * Pow2(n - 1)
  }

  /** The number that a string of signed digits stands for, lowest digit first. */
  function Value(d: seq<int>): int
  {
    if d == [] then 0 else d[0] + 2 * Value(d[1..])
  }

  /** The number with a one bit wherever `d` has the digit `s`. */
  function Mask(d: seq<int>, s: int): nat
  {
    if d == [] then 0 else (if d[0] == s then 1 else 0) + 2 * Mask(d[1..], s)
  }

  predicate Signed(d: seq<int>)
  {
    forall t :: 0 <= t < |d| ==> -1 <= d[t] <= 1
  }

  /** No two neighbouring digits are non-zero. */
  predicate NonAdjacent(d: seq<int>)
  {
    forall t :: 0 < t < |d| ==> d[t - 1] == 0 || d[t] == 0
  }

  lemma {:induction false} ValueConcat(d: seq<int>, e: seq<int>)
    ensures Value(d + e) == Value(d) + Pow2(|d|) * Value(e)
  {
    if d == [] {
      assert d + e == e;
    } else {
      assert (d + e)[1..] == d[1..] + e;
      ValueConcat(d[1..], e);
      assert 2 * (Pow2(|d| - 1) * Value(e)) == Pow2(|d|) * Value(e);
    }
  }

  lemma {:induction false} MaskSnoc(d: seq<int>, x: int, s: int)
    ensures Mask(d + [x], s) == Mask(d, s) + (if x == s then Pow2(|d|) else 0)
  {
    if d == [] {
      assert d + [x] == [x] && [x][1..] == [];
    } else {
      assert (d + [x])[1..] == d[1..] + [x];
      MaskSnoc(d[1..], x, s);
    }
  }

  lemma {:induction false} MaskBound(d: seq<int>, s: int)
    ensures Mask(d, s) < Pow2(|d|)
  {
    if d != [] {
      MaskBound(d[1..], s);
    }
  }

  lemma ValueSnoc(d: seq<int>, x: int)
    ensures Value(d + [x]) == Value(d) + Pow2(|d|) * x
  {
    assert [x][1..] == [];
    assert Value([x]) == x;
    hide Value, Pow2;
    ValueConcat(d, [x]);
  }

  lemma {:induction false} Pow2Sum(a: nat, b: nat)
    ensures Pow2(a + b) == Pow2(a) * Pow2(b)
  {
    if a != 0 {
      Pow2Sum(a - 1, b);
      assert 2 * (Pow2(a - 1) * Pow2(b)) == Pow2(a) * Pow2(b);
    }
  }

  lemma {:induction false} Pow2Bytes(k: nat)
    ensures Pow2(8 * k) == Pow256(k)
  {
    if k != 0 {
      Pow2Bytes(k - 1);
      Pow2Sum(8, 8 * (k - 1));
      assert Pow2(4) == 16;
      assert Pow2(8) == 256;
    }
  }

  /** Byte strings of the positive and of the negative digits of `d`. */
  predicate Encodes(pos: seq<byte>, neg: seq<byte>, d: seq<int>)
  {
    && |pos| == |neg| && |d| == 8 * |pos|
    && (forall b {:trigger d[8 * b..8 * b + 8]} :: 0 <= b < |pos| ==>
          pos[|pos| - 1 - b] == Mask(d[8 * b..8 * b + 8], 1) && neg[|pos| - 1 - b] == Mask(d[8 * b..8 * b + 8], -1))
  }

  /** Whether the digit before the current bit was non-zero: then the current one must come out zero. */
  predicate Quiet(d: seq<int>, carry: bool, cur: bool)
  {
    d != [] && d[|d| - 1] != 0 ==> carry == cur
  }

  /** One bit of the form: the digit and the carry to the next bit. */
  function NafStep(carry: bool, cur: bool, next: bool): (r: (int, bool))
    ensures r.0 + (if r.1 then 2 else 0) == (if cur then 1 else 0) + (if carry then 1 else 0)
    ensures carry == cur ==> r.0 == 0
    ensures r.0 != 0 ==> r.1 == next
  {
    if carry then
      if cur then (0, true)
      else if next then (-1, true)
      else (1, false)
    else if cur then
      if next then (-1, true) else (1, false)
    else (0, false)
  }

  lemma StepArithmetic(v: int, p: nat, c: int, c': int, x: int, bit: int, cur: int, k: int, c0: int)
    requires v + c * p == k - cur * p + c0
    requires x + 2 * c' == bit + c
    ensures (v + p * x) + c' * (2 * p) == k - ((cur - bit) / 2) * (2 * p) + c0 || (cur - bit) % 2 != 0
  {
    if (cur - bit) % 2 == 0 {
      var h := (cur - bit) / 2;
      assert cur == 2 * h + bit;
      assert cur * p == h * (2 * p) + bit * p;
      assert p * x + c' * (2 * p) == (x + 2 * c') * p == (bit + c) * p == bit * p + c * p;
    }
  }

  function AsInt(b: bool): int
  {
    if b then 1 else 0
  }

  /** The bits below `j` of byte `k` have become the digits `e`; `cur` holds the others. */
  ghost predicate BitsDone(k: byte, carry0: bool, j: nat, e: seq<int>, pos: int, neg: int, carry: bool, cur: nat)
  {
    && |e| == j && pos == Mask(e, 1) && neg == Mask(e, -1)
    && Value(e) + AsInt(carry) * Pow2(j) == k - cur * Pow2(j) + AsInt(carry0)
    && 0 <= cur * Pow2(j) <= k
  }

  lemma BitStep(k: byte, carry0: bool, j: nat, e: seq<int>, pos: int, neg: int, carry: bool, cur: nat, x: int,
      carry': bool)
    requires j < 8 && BitsDone(k, carry0, j, e, pos, neg, carry, cur)
    requires x + 2 * AsInt(carry') == cur % 2 + AsInt(carry)
    ensures pos + Pow2(j) < 256 && neg + Pow2(j) < 256
    ensures BitsDone(k, carry0, j + 1, e + [x],
                     if x == 1 then pos + Pow2(j) else pos, if x == -1 then neg + Pow2(j) else neg, carry', cur / 2)
  {
    MaskSnoc(e, x, 1);
    MaskSnoc(e, x, -1);
    ValueSnoc(e, x);
    BitFits(e, x, j);
    assert Pow2(j + 1) == 2 * Pow2(j);
    hide Pow2, Mask, Value;
    StepArithmetic(Value(e), Pow2(j), AsInt(carry), AsInt(carry'), x, cur % 2, cur, k, AsInt(carry0));
    ShiftByte(cur, Pow2(j));
  }

  lemma BitsEnds(k: byte, carry0: bool, e: seq<int>, pos: int, neg: int, carry: bool, cur: nat)
    ensures BitsDone(k, carry0, 0, [], 0, 0, carry0, k)
    ensures BitsDone(k, carry0, 8, e, pos, neg, carry, cur) ==>
              |e| == 8 && pos == Mask(e, 1) && neg == Mask(e, -1) && Value(e) + 256 * AsInt(carry) == k + AsInt(carry0)
  {
    assert Pow2(4) == 16 && Pow2(8) == 256;
  }

  lemma AppendDigit(d: seq<int>, x: int, carry: bool, cur: bool)
    requires Signed(d) && NonAdjacent(d) && Quiet(d, carry, cur)
    requires -1 <= x <= 1 && (carry == cur ==> x == 0)
    ensures Signed(d + [x]) && NonAdjacent(d + [x])
  {
  }

  /** The inner loop: the eight bits of one byte, given the lowest bit of the byte above it. */
  method NafByte(k: byte, above: bool, carry0: bool, ghost before: seq<int>)
    returns (pos: byte, neg: byte, carry: bool, ghost e: seq<int>)
    requires Quiet(before, carry0, k % 2 == 1)
    requires Signed(before) && NonAdjacent(before)
    ensures |e| == 8 && Signed(before + e) && NonAdjacent(before + e)
    ensures pos == Mask(e, 1) && neg == Mask(e, -1)
    ensures Value(e) + 256 * AsInt(carry) == k + AsInt(carry0)
    ensures Quiet(before + e, carry, above)
  {
    hide BitsDone, Value, Mask, Pow2, Signed, NonAdjacent;
    pos, neg, carry, e := 0, 0, carry0, [];
    var curByte: nat := k;
    assert before + e == before;
    BitsEnds(k, carry0, e, pos, neg, carry, curByte);
    for j := 0 to 8
      invariant BitsDone(k, carry0, j, e, pos, neg, carry, curByte)
      invariant Signed(before + e) && NonAdjacent(before + e)
      invariant Quiet(before + e, carry, if j == 8 then above else curByte % 2 == 1)
    {
      var curIsOne := curByte % 2 == 1;
      var nextIsOne := if j == 7 then above else curByte / 2 % 2 == 1;
      var step := NafStep(carry, curIsOne, nextIsOne);
      BitStep(k, carry0, j, e, pos, neg, carry, curByte, step.0, step.1);
      AppendDigit(before + e, step.0, carry, curIsOne);
      assert before + (e + [step.0]) == (before + e) + [step.0];
      if step.0 == 1 {
        pos := pos + Pow2(j);
      } else if step.0 == -1 {
        neg := neg + Pow2(j);
      }
      carry := step.1;
      e := e + [step.0];
      curByte := curByte / 2;
    }
    BitsEnds(k, carry0, e, pos, neg, carry, curByte);
  }

  lemma ShiftByte(c: nat, p: nat)
    ensures 0 <= (c / 2) * (2 * p) <= c * p
    ensures (c - c % 2) / 2 == c / 2
  {
    assert (c / 2) * (2 * p) == (c - c % 2) * p;
  }

  lemma BitFits(e: seq<int>, x: int, j: nat)
    requires |e| == j < 8
    ensures Mask(e, 1) + Pow2(j) < 256 && Mask(e, -1) + Pow2(j) < 256
  {
    MaskBound(e, 1);
    MaskBound(e, -1);
    Pow2Small(j);
  }

  lemma Pow2Small(j: nat)
    requires j < 8
    ensures 2 * Pow2(j) <= 256
  {
    assert Pow2(0) == 1 && Pow2(1) == 2 && Pow2(2) == 4 && Pow2(3) == 8;
    assert Pow2(4) == 16 && Pow2(5) == 32 && Pow2(6) == 64 && Pow2(7) == 128;
  }

  /** `NAF`: signed digits that are never adjacent and stand for the number `k`. */
  method NAF(k: seq<byte>) returns (pos: seq<byte>, neg: seq<byte>, ghost d: seq<int>)
    ensures Encodes(pos, neg, d)
    ensures Signed(d) && NonAdjacent(d)
    ensures Value(d) == FromBytes(k)
  {
    hide Value, Mask, Pow2, FromBytes, Signed, NonAdjacent;
    var n := |k|;
    var retPos := new byte[n + 1](_ => 0);
    var retNeg := new byte[n + 1](_ => 0);
    var carry := false;
    d := [];
    NoDigits(k);
    for i := n downto 0
      invariant |d| == 8 * (n - i) && Signed(d) && NonAdjacent(d)
      invariant Quiet(d, carry, i > 0 && k[i - 1] % 2 == 1)
      invariant Value(d) + AsInt(carry) * Pow2(|d|) == FromBytes(k[i..])
      invariant retPos[0] == 0 && retNeg[0] == 0
      invariant forall b {:trigger d[8 * b..8 * b + 8]} :: 0 <= b < n - i ==>
                  retPos[n - b] == Mask(d[8 * b..8 * b + 8], 1) && retNeg[n - b] == Mask(d[8 * b..8 * b + 8], -1)
    {
      var p, m, c;
      ghost var e;
      p, m, c, e := NafByte(k[i], i > 0 && k[i - 1] % 2 == 1, carry, d);
      retPos[i + 1], retNeg[i + 1] := p, m;
      NextByte(k, i, d, e, AsInt(carry), AsInt(c));
      forall b | 0 <= b < n - i
        ensures retPos[n - b] == Mask((d + e)[8 * b..8 * b + 8], 1) &&
            retNeg[n - b] == Mask((d + e)[8 * b..8 * b + 8], -1)
      {
        ByteOf(d, e, b);
      }
      carry, d := c, d + e;
    }
    assert k[0..] == k;
    if carry {
      retPos[0] := 1;
      pos, neg := retPos[..], retNeg[..];
      ghost var last := [1, 0, 0, 0, 0, 0, 0, 0];
      CarryByte(d, last, pos, neg, n);
      d := d + last;
    } else {
      pos, neg := retPos[1..], retNeg[1..];
    }
  }

  lemma NoDigits(k: seq<byte>)
    ensures Signed([]) && NonAdjacent([]) && Value([]) == 0 == FromBytes(k[|k|..])
  {
  }

  lemma ByteOf(d: seq<int>, e: seq<int>, b: nat)
    requires |d| % 8 == 0 && |e| == 8 && 8 * b <= |d|
    ensures 8 * b + 8 <= |d| + 8
    ensures (d + e)[8 * b..8 * b + 8] == if 8 * b == |d| then e else d[8 * b..8 * b + 8]
  {
  }

  lemma NextByte(k: seq<byte>, i: nat, d: seq<int>, e: seq<int>, carry: int, c: int)
    requires i < |k| && |d| == 8 * (|k| - i - 1) && |e| == 8
    requires Value(d) + carry * Pow2(|d|) == FromBytes(k[i + 1..])
    requires Value(e) + 256 * c == k[i] + carry
    ensures Value(d + e) + c * Pow2(|d + e|) == FromBytes(k[i..])
  {
    ValueConcat(d, e);
    var p := Pow2(|d|);
    Pow2Bytes(|k| - i - 1);
    Pow2Bytes(|k| - i);
    assert k[i..] == [k[i]] + k[i + 1..];
    Split([k[i]], k[i + 1..]);
    assert [k[i]][..0] == [];
    assert FromBytes([k[i]]) == k[i];
    Regroup(p, Value(e), c, k[i], carry);
  }

  lemma Regroup(p: int, v: int, c: int, k: int, carry: int)
    requires v + 256 * c == k + carry
    ensures p * v + c * (256 * p) == k * p + carry * p
  {
    assert p * v + c * (256 * p) == p * (v + 256 * c) == p * (k + carry);
  }

  lemma CarryByte(d: seq<int>, last: seq<int>, pos: seq<byte>, neg: seq<byte>, n: nat)
    requires last == [1, 0, 0, 0, 0, 0, 0, 0]
    requires |d| == 8 * n && |pos| == |neg| == n + 1 && pos[0] == 1 && neg[0] == 0
    requires Signed(d) && NonAdjacent(d) && Quiet(d, true, false)
    requires forall b {:trigger d[8 * b..8 * b + 8]} :: 0 <= b < n ==>
               pos[n - b] == Mask(d[8 * b..8 * b + 8], 1) && neg[n - b] == Mask(d[8 * b..8 * b + 8], -1)
    ensures Encodes(pos, neg, d + last) && Signed(d + last) && NonAdjacent(d + last)
    ensures Value(d + last) == Value(d) + Pow2(|d|)
  {
    ValueConcat(d, last);
    Ones(last);
    forall b | 0 <= b < n + 1
      ensures pos[n - b] == Mask((d + last)[8 * b..8 * b + 8], 1) &&
          neg[n - b] == Mask((d + last)[8 * b..8 * b + 8], -1)
    {
      ByteOf(d, last, b);
    }
  }

  lemma Ones(last: seq<int>)
    requires last == [1, 0, 0, 0, 0, 0, 0, 0]
    ensures Value(last) == 1 && Mask(last, 1) == 1 && Mask(last, -1) == 0
  {
    var z := [0, 0, 0, 0, 0, 0, 0];
    assert last[1..] == z;
    ZeroDigits(z);
  }

  lemma {:induction false} ZeroDigits(z: seq<int>)
    requires forall t :: 0 <= t < |z| ==> z[t] == 0
    ensures Value(z) == 0 && Mask(z, 1) == 0 && Mask(z, -1) == 0
  {
    if z != [] {
      ZeroDigits(z[1..]);
    }
  }
}
