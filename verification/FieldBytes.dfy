/** Packing a field element from 32 big-endian bytes and unpacking it again. */
module FieldBytes {
  import opened MachineTypes
  import opened Limbs
  import opened BigEndian

  type Bytes32 = b: seq<byte> | |b| == 32 witness Zeros(32)

  /** `SetBytes` cuts the 256 bits into words of 26 bits. */
  method SetBytes(b: Bytes32) returns (f: Limbs)
    ensures Compact(f)
    ensures Val(f) == FromBytes(b)
  {
    ghost var low, mid, top := b[19..], b[6..19], b[..6];
    var n0: uint32 := (b[31] as uint32) + (b[30] as uint32) * 0x100 + (b[29] as uint32) * 0x10000 +
        ((b[28] as uint32) % 4) * 0x1000000;
    var n1: uint32 := (b[28] as uint32) / 4 + (b[27] as uint32) * 0x40 + (b[26] as uint32) * 0x4000 +
        ((b[25] as uint32) % 16) * 0x400000;
    var n2: uint32 := (b[25] as uint32) / 16 + (b[24] as uint32) * 0x10 + (b[23] as uint32) * 0x1000 +
        ((b[22] as uint32) % 64) * 0x100000;
    var n3: uint32 := (b[22] as uint32) / 64 + (b[21] as uint32) * 4 + (b[20] as uint32) * 0x400 +
        (b[19] as uint32) * 0x40000;
    var n4: uint32 := (b[18] as uint32) + (b[17] as uint32) * 0x100 + (b[16] as uint32) * 0x10000 +
        ((b[15] as uint32) % 4) * 0x1000000;
    var n5: uint32 := (b[15] as uint32) / 4 + (b[14] as uint32) * 0x40 + (b[13] as uint32) * 0x4000 +
        ((b[12] as uint32) % 16) * 0x400000;
    var n6: uint32 := (b[12] as uint32) / 16 + (b[11] as uint32) * 0x10 + (b[10] as uint32) * 0x1000 +
        ((b[9] as uint32) % 64) * 0x100000;
    var n7: uint32 := (b[9] as uint32) / 64 + (b[8] as uint32) * 4 + (b[7] as uint32) * 0x400 +
        (b[6] as uint32) * 0x40000;
    var n8: uint32 := (b[5] as uint32) + (b[4] as uint32) * 0x100 + (b[3] as uint32) * 0x10000 +
        ((b[2] as uint32) % 4) * 0x1000000;
    var n9: uint32 := (b[2] as uint32) / 4 + (b[1] as uint32) * 0x40 + (b[0] as uint32) * 0x4000;
    f := Limbs(n0, n1, n2, n3, n4, n5, n6, n7, n8, n9);
    Thirteen(low);
    Thirteen(mid);
    Six(top);
    assert FromBytes(low) == n0 + n1 * 0x4000000 + n2 * 0x10000000000000 + n3 * 0x40000000000000000000;
    assert FromBytes(mid) == n4 + n5 * 0x4000000 + n6 * 0x10000000000000 + n7 * 0x40000000000000000000;
    assert FromBytes(top) == n8 + n9 * 0x4000000;
    Chunks(b);
    ValIs(f);
  }

  /** The 13 bytes that hold four words. */
  method PutFourWords(p: uint32, q: uint32, r: uint32, s: uint32) returns (c: seq<byte>)
    requires p < 0x4000000 && q < 0x4000000 && r < 0x4000000 && s < 0x4000000
    ensures |c| == 13
    ensures FromBytes(c) == p + q * 0x4000000 + r * 0x10000000000000 + s * 0x40000000000000000000
  {
    c := [
      s / 0x40000 % 256,
      s / 0x400 % 256,
      s / 4 % 256,
      r / 0x100000 % 64 + s % 4 * 64,
      r / 0x1000 % 256,
      r / 0x10 % 256,
      q / 0x400000 % 16 + r % 16 * 16,
      q / 0x4000 % 256,
      q / 0x40 % 256,
      p / 0x1000000 % 4 + q % 64 * 4,
      p / 0x10000 % 256,
      p / 0x100 % 256,
      p % 256];
    Thirteen(c);
    FourWords(p, q, r, s, c);
  }

  /** The 6 bytes that hold the top two words. */
  method PutTopWords(p: uint32, q: uint32) returns (c: seq<byte>)
    requires p < 0x4000000 && q < 0x400000
    ensures |c| == 6
    ensures FromBytes(c) == p + q * 0x4000000
  {
    c := [
      q / 0x4000 % 256,
      q / 0x40 % 256,
      p / 0x1000000 % 4 + q % 64 * 4,
      p / 0x10000 % 256,
      p / 0x100 % 256,
      p % 256];
    WordBytes(p);
    WordBytes1(q);
    Six(c);
  }

  /** `PutBytes` is the inverse on normal values. */
  method PutBytes(f: Limbs) returns (b: Bytes32)
    requires Compact(f)
    ensures FromBytes(b) == Val(f)
  {
    var low := PutFourWords(f.n0, f.n1, f.n2, f.n3);
    var mid := PutFourWords(f.n4, f.n5, f.n6, f.n7);
    var top := PutTopWords(f.n8, f.n9);
    b := top + mid + low;
    assert b[19..] == low && b[6..19] == mid && b[..6] == top;
    Chunks(b);
    ValIs(f);
  }

  lemma WordBytes(p: uint32)
    requires p < 0x4000000
    ensures p == p % 256 + p / 0x100 % 256 * 0x100 + p / 0x10000 % 256 * 0x10000 + p / 0x1000000 % 4 * 0x1000000
  {
    assert p / 0x10000 == p / 0x100 / 0x100;
    assert p / 0x1000000 == p / 0x10000 / 0x100;
  }

  lemma WordBytes1(q: uint32)
    requires q < 0x4000000
    ensures q == q % 64 + q / 0x40 % 256 * 0x40 + q / 0x4000 % 256 * 0x4000 + q / 0x400000 % 16 * 0x400000
  {
    assert q / 0x4000 == q / 0x40 / 0x100;
    assert q / 0x400000 == q / 0x4000 / 0x100;
  }

  lemma WordBytes2(r: uint32)
    requires r < 0x4000000
    ensures r == r % 16 + r / 0x10 % 256 * 0x10 + r / 0x1000 % 256 * 0x1000 + r / 0x100000 % 64 * 0x100000
  {
    assert r / 0x1000 == r / 0x10 / 0x100;
    assert r / 0x100000 == r / 0x1000 / 0x100;
  }

  lemma WordBytes3(s: uint32)
    requires s < 0x4000000
    ensures s == s % 4 + s / 4 % 256 * 4 + s / 0x400 % 256 * 0x400 + s / 0x40000 % 256 * 0x40000
  {
    assert s / 0x400 == s / 4 / 0x100;
    assert s / 0x40000 == s / 0x400 / 0x100;
  }

  lemma FourWords(p: uint32, q: uint32, r: uint32, s: uint32, c: seq<byte>)
    requires p < 0x4000000 && q < 0x4000000 && r < 0x4000000 && s < 0x4000000
    requires |c| == 13
    requires c[0] == s / 0x40000 % 256
    requires c[1] == s / 0x400 % 256
    requires c[2] == s / 4 % 256
    requires c[3] == r / 0x100000 % 64 + s % 4 * 64
    requires c[4] == r / 0x1000 % 256
    requires c[5] == r / 0x10 % 256
    requires c[6] == q / 0x400000 % 16 + r % 16 * 16
    requires c[7] == q / 0x4000 % 256
    requires c[8] == q / 0x40 % 256
    requires c[9] == p / 0x1000000 % 4 + q % 64 * 4
    requires c[10] == p / 0x10000 % 256
    requires c[11] == p / 0x100 % 256
    requires c[12] == p % 256
    ensures (c[0] as int) * 0x1000000000000000000000000 + (c[1] as int) * 0x10000000000000000000000 +
        (c[2] as int) * 0x100000000000000000000 + (c[3] as int) * 0x1000000000000000000 +
        (c[4] as int) * 0x10000000000000000 + (c[5] as int) * 0x100000000000000 + (c[6] as int) * 0x1000000000000 +
        (c[7] as int) * 0x10000000000 + (c[8] as int) * 0x100000000 + (c[9] as int) * 0x1000000 +
        (c[10] as int) * 0x10000 + (c[11] as int) * 0x100 + c[12] as int
      == p + q * 0x4000000 + r * 0x10000000000000 + s * 0x40000000000000000000
  {
    WordBytes(p);
    WordBytes1(q);
    WordBytes2(r);
    WordBytes3(s);
  }

  lemma Thirteen(c: seq<byte>)
    requires |c| == 13
    ensures FromBytes(c) == (c[0] as int) * 0x1000000000000000000000000 + (c[1] as int) * 0x10000000000000000000000 +
        (c[2] as int) * 0x100000000000000000000 + (c[3] as int) * 0x1000000000000000000 +
        (c[4] as int) * 0x10000000000000000 + (c[5] as int) * 0x100000000000000 + (c[6] as int) * 0x1000000000000 +
        (c[7] as int) * 0x10000000000 + (c[8] as int) * 0x100000000 + (c[9] as int) * 0x1000000 +
        (c[10] as int) * 0x10000 + (c[11] as int) * 0x100 + c[12] as int
  {
    Six(c[..6]);
    assert c[..6] + c[6..] == c;
    Split(c[..6], c[6..]);
    var d := c[6..];
    assert d[..6] + [d[6]] == d;
    Six(d[..6]);
    assert Pow256(7) == 0x100000000000000 by {
      assert Pow256(4) == 0x100000000;
    }
    assert FromBytes(d) == FromBytes(d[..6]) * 256 + d[6];
  }

  lemma Six(c: seq<byte>)
    requires |c| == 6
    ensures FromBytes(c) == (c[0] as int) * 0x10000000000 + (c[1] as int) * 0x100000000 + (c[2] as int) * 0x1000000 +
        (c[3] as int) * 0x10000 + (c[4] as int) * 0x100 + c[5] as int
  {
    assert c[..5][..4] == c[..4] && c[..4][..3] == c[..3] && c[..3][..2] == c[..2] && c[..2][..1] == c[..1];
    assert c[..1][..0] == [];
    assert FromBytes(c[..1]) == c[0];
    assert FromBytes(c[..2]) == FromBytes(c[..1]) * 256 + c[1];
    assert FromBytes(c[..3]) == FromBytes(c[..2]) * 256 + c[2];
    assert FromBytes(c[..4]) == FromBytes(c[..3]) * 256 + c[3];
    assert FromBytes(c[..5]) == FromBytes(c[..4]) * 256 + c[4];
    assert FromBytes(c) == FromBytes(c[..5]) * 256 + c[5];
  }

  lemma Chunks(b: Bytes32)
    ensures FromBytes(b) == FromBytes(b[19..]) + FromBytes(b[6..19]) * 0x100000000000000000000000000 +
        FromBytes(b[..6]) * 0x10000000000000000000000000000000000000000000000000000
  {
    assert b == b[..6] + (b[6..19] + b[19..]);
    Split(b[..6], b[6..19] + b[19..]);
    Split(b[6..19], b[19..]);
    PowThirteen();
  }

  lemma PowThirteen()
    ensures Pow256(13) == 0x100000000000000000000000000 &&
        Pow256(26) == 0x10000000000000000000000000000000000000000000000000000
  {
    assert Pow256(5) == 0x10000000000;
    assert Pow256(9) == 0x1000000000000000000;
    assert Pow256(13) == 0x100000000000000000000000000;
    assert Pow256(17) == 0x10000000000000000000000000000000000;
    assert Pow256(21) == 0x1000000000000000000000000000000000000000000;
    assert Pow256(25) == 0x100000000000000000000000000000000000000000000000000;
  }

  /** Unpacking and packing again gives the same words. */
  lemma PutThenSet(f: Limbs, b: Bytes32, g: Limbs)
    requires Compact(f) && FromBytes(b) == Val(f)
    requires Compact(g) && Val(g) == FromBytes(b)
    ensures g == f
  {
    CompactUnique(f, g);
  }
}
