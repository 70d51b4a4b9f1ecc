/** Big-endian byte strings as numbers, as `big.Int` reads and writes them. */
module BigEndian {
  import opened MachineTypes

  /** `SetBytes` of `big.Int`. */
  function FromBytes(b: seq<byte>): nat
  {
    if b == [] then 0 else FromBytes(b[..|b| - 1]) * 256 + b[|b| - 1]
  }

  /** `Bytes` of `big.Int`: no leading zero byte, and nothing at all for zero. */
  function ToBytes(n: nat): (b: seq<byte>)
    ensures FromBytes(b) == n
    ensures b != [] ==> b[0] != 0
  {
    if n == 0 then []
    else
      var r := ToBytes(n / 256);
      var b := r + [n % 256];
      assert b[..|b| - 1] == r;
      b
  }

  function Pow256(k: nat): nat
  {
    if k == 0 then 1 else 256 * Pow256(k - 1)
  }

  lemma {:induction false} Split(a: seq<byte>, b: seq<byte>)
    ensures FromBytes(a + b) == FromBytes(a) * Pow256(|b|) + FromBytes(b)
  {
    if b == [] {
      assert a + b == a;
    } else {
      var c := b[..|b| - 1];
      assert (a + b)[..|a + b| - 1] == a + c;
      Split(a, c);
      assert FromBytes(a + b) == FromBytes(a + c) * 256 + b[|b| - 1];
      Shift(FromBytes(a), Pow256(|c|), FromBytes(c), b[|b| - 1]);
    }
  }

  lemma Shift(a: int, p: int, c: int, x: int)
    ensures (a * p + c) * 256 + x == a * (256 * p) + (c * 256 + x)
  {
  }

  lemma {:induction false} Bounded(b: seq<byte>)
    ensures FromBytes(b) < Pow256(|b|)
  {
    if b != [] {
      Bounded(b[..|b| - 1]);
    }
  }

  /** Strings of one length are determined by their number. */
  lemma {:induction false} Injective(a: seq<byte>, b: seq<byte>)
    requires |a| == |b| && FromBytes(a) == FromBytes(b)
    ensures a == b
  {
    if a != [] {
      var x, y := a[|a| - 1], b[|b| - 1];
      Injective(a[..|a| - 1], b[..|b| - 1]);
      assert a == a[..|a| - 1] + [x] && b == b[..|b| - 1] + [y];
    }
  }

  function Zeros(k: nat): (z: seq<byte>)
    ensures |z| == k && FromBytes(z) == 0
  {
    if k == 0 then [] else
      var z := Zeros(k - 1) + [0];
      assert z[..|z| - 1] == Zeros(k - 1);
      z
  }

  /** The minimal string of a number below 256^k fits `k` bytes. */
  lemma {:induction false} ToBytesFits(n: nat, k: nat)
    requires n < Pow256(k)
    ensures |ToBytes(n)| <= k
  {
    if n != 0 {
      assert k != 0;
      assert n / 256 < Pow256(k - 1);
      ToBytesFits(n / 256, k - 1);
    }
  }

  /** `paddedAppend(k, nil, n.Bytes())`, and what `SetByteSlice` does to its argument. */
  function Padded(k: nat, n: nat): (b: seq<byte>)
    requires n < Pow256(k)
    ensures |b| == k && FromBytes(b) == n
  {
    ToBytesFits(n, k);
    Split(Zeros(k - |ToBytes(n)|), ToBytes(n));
    Zeros(k - |ToBytes(n)|) + ToBytes(n)
  }
}
