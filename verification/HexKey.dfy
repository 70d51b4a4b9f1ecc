/** The three spellings of a trie key: bytes, one nibble per byte with an optional terminator 16,
    and the compact form that is stored (hex-prefix encoding, Appendix C of the Ethereum Yellow Paper). */
module HexKey {
  import opened MachineTypes

  const TERM: byte := 16

  predicate HasTerm(s: seq<byte>)
  {
    |s| > 0 && s[|s| - 1] == 16
  }

  predicate Nibbles(s: seq<byte>)
  {
    forall i :: 0 <= i < |s| ==> s[i] < 16
  }

  /** A key in hex form: nibbles, and a terminator at the end or nowhere. */
  predicate Hex(s: seq<byte>)
  {
    Nibbles(s) || (HasTerm(s) && Nibbles(s[..|s| - 1]))
  }

  function Pack(s: seq<byte>): seq<byte>
    requires Nibbles(s) && |s| % 2 == 0
  {
    if s == [] then [] else [s[0] as int * 16 + s[1]] + Pack(s[2..])
  }

  function Unpack(b: seq<byte>): (s: seq<byte>)
    ensures |s| == 2 * |b| && Nibbles(s)
  {
    if b == [] then [] else [b[0] / 16, b[0] % 16] + Unpack(b[1..])
  }

  /** The key without its terminator. */
  function Body(hex: seq<byte>): seq<byte>
  {
    if HasTerm(hex) then hex[..|hex| - 1] else hex
  }

  /** The compact form of a key body, given whether a terminator follows it. */
  function CompactOf(body: seq<byte>, term: bool): seq<byte>
    requires Nibbles(body)
  {
    var flag := if term then 32 else 0;
    if |body| % 2 == 1 then [flag + 16 + body[0]] + Pack(body[1..]) else [flag] + Pack(body)
  }

  function Join(body: seq<byte>, term: bool): seq<byte>
  {
    if term then body + [TERM] else body
  }

  lemma JoinBody(hex: seq<byte>)
    requires Hex(hex)
    ensures Nibbles(Body(hex)) && hex == Join(Body(hex), HasTerm(hex))
  {
  }

  lemma BodyJoin(body: seq<byte>, term: bool)
    requires Nibbles(body)
    ensures Hex(Join(body, term)) && Body(Join(body, term)) == body && HasTerm(Join(body, term)) == term
  {
    assert (body + [TERM])[..|body|] == body;
  }

  /** The compact form of a hex key. */
  function HexPrefix(hex: seq<byte>): seq<byte>
    requires Hex(hex)
  {
    JoinBody(hex);
    CompactOf(Body(hex), HasTerm(hex))
  }

  /** The hex form of key bytes, always terminated. */
  function Spread(b: seq<byte>): (s: seq<byte>)
    ensures Hex(s) && HasTerm(s) && |s| == 2 * |b| + 1
  {
    var s := Unpack(b) + [TERM];
    assert s[..|s| - 1] == Unpack(b);
    s
  }

  /** The hex form of a compact key. */
  function Expand(compact: seq<byte>): seq<byte>
  {
    if compact == [] then compact
    else
      var base := Spread(compact);
      var kept := if base[0] < 2 then base[..|base| - 1] else base;
      kept[2 - base[0] % 2..]
  }

  lemma {:induction false} PackLength(s: seq<byte>)
    requires Nibbles(s) && |s| % 2 == 0
    ensures |Pack(s)| == |s| / 2
  {
    if s != [] {
      PackLength(s[2..]);
    }
  }

  lemma {:induction false} PackAt(s: seq<byte>, k: nat)
    requires Nibbles(s) && |s| % 2 == 0 && k < |s| / 2
    ensures |Pack(s)| == |s| / 2 && Pack(s)[k] == s[2 * k] as int * 16 + s[2 * k + 1]
  {
    PackLength(s);
    if k > 0 {
      PackAt(s[2..], k - 1);
    }
  }

  lemma {:induction false} UnpackAt(b: seq<byte>, k: nat)
    requires k < |b|
    ensures Unpack(b)[2 * k] == b[k] / 16 && Unpack(b)[2 * k + 1] == b[k] % 16
  {
    if k > 0 {
      UnpackAt(b[1..], k - 1);
    }
  }

  lemma {:induction false} UnpackPack(s: seq<byte>)
    requires Nibbles(s) && |s| % 2 == 0
    ensures Unpack(Pack(s)) == s
  {
    if s != [] {
      UnpackPack(s[2..]);
      assert s == [s[0], s[1]] + s[2..];
      assert Pack(s)[1..] == Pack(s[2..]);
    }
  }

  lemma {:induction false} PackUnpack(b: seq<byte>)
    ensures Pack(Unpack(b)) == b
  {
    if b != [] {
      PackUnpack(b[1..]);
      assert Unpack(b)[2..] == Unpack(b[1..]);
    }
  }

  /** The nibbles that a compact key holds. */
  function ExpandBody(c: seq<byte>): (s: seq<byte>)
    requires c != []
    ensures Nibbles(s)
  {
    (if c[0] / 16 % 2 == 1 then [c[0] % 16] else []) + Unpack(c[1..])
  }

  lemma UnpackFirst(c: seq<byte>)
    requires c != []
    ensures Unpack(c) == [c[0] / 16, c[0] % 16] + Unpack(c[1..])
  {
  }

  lemma DropTwo(a: byte, b: byte, s: seq<byte>)
    ensures ([a, b] + s)[1..] == [b] + s && ([a, b] + s)[2..] == s
  {
  }

  lemma DropLast(s: seq<byte>, x: byte)
    ensures (s + [x])[..|s + [x]| - 1] == s
  {
  }

  lemma Regroup(s: seq<byte>, t: seq<byte>, u: seq<byte>)
    ensures s + t + u == s + (t + u)
  {
  }

  /** Dropping the flags, and the terminator if there is none to be. */
  lemma Chopped(a: byte, b: byte, tail: seq<byte>)
    ensures var base := [a, b] + tail + [TERM];
            var kept := if a < 2 then base[..|base| - 1] else base;
            kept[2 - a % 2..] == Join((if a % 2 == 1 then [b] else []) + tail, a >= 2)
  {
    var base := [a, b] + tail + [TERM];
    if a < 2 {
      DropLast([a, b] + tail, TERM);
      DropTwo(a, b, tail);
      assert [] + tail == tail;
    } else {
      Regroup([a, b], tail, [TERM]);
      DropTwo(a, b, tail + [TERM]);
      Regroup([b], tail, [TERM]);
      assert [] + tail == tail;
    }
  }

  lemma ExpandIs(c: seq<byte>)
    requires c != []
    ensures Expand(c) == Join(ExpandBody(c), c[0] >= 32)
  {
    hide Unpack, Hex, Nibbles, HasTerm, Join;
    UnpackFirst(c);
    var a, b, tail := c[0] / 16, c[0] % 16, Unpack(c[1..]);
    assert Spread(c) == [a, b] + tail + [TERM];
    Chopped(a, b, tail);
    assert ExpandBody(c) == (if a % 2 == 1 then [b] else []) + tail;
    assert c[0] >= 32 <==> a >= 2;
  }

  lemma ExpandBodyCompact(body: seq<byte>, term: bool)
    requires Nibbles(body)
    ensures ExpandBody(CompactOf(body, term)) == body && (CompactOf(body, term)[0] >= 32) == term
  {
    hide Unpack, Pack;
    var rest := if |body| % 2 == 1 then body[1..] else body;
    UnpackPack(rest);
    var c := CompactOf(body, term);
    assert c[1..] == Pack(rest);
    if |body| % 2 == 1 {
      assert body == [body[0]] + rest;
    }
  }

  /** `compactToHex` undoes `hexToCompact` on every hex key, of either parity and with or without
      the terminator. */
  lemma ExpandCompact(hex: seq<byte>)
    requires Hex(hex)
    ensures Expand(HexPrefix(hex)) == hex
  {
    hide Unpack, Pack, Expand, ExpandBody;
    JoinBody(hex);
    ExpandBodyCompact(Body(hex), HasTerm(hex));
    ExpandIs(HexPrefix(hex));
  }

  /** A compact key that `hexToCompact` can have produced: two flag bits, and a zero low nibble
      when the number of nibbles is even. */
  predicate CompactForm(c: seq<byte>)
  {
    c != [] && c[0] < 64 && (c[0] / 16 % 2 == 0 ==> c[0] % 16 == 0)
  }

  lemma CompactOfExpandBody(c: seq<byte>)
    requires c != []
    ensures CompactOf(ExpandBody(c), c[0] >= 32) == c <==> CompactForm(c)
  {
    hide Unpack, Pack;
    var body := ExpandBody(c);
    PackUnpack(c[1..]);
    assert |Unpack(c[1..])| % 2 == 0;
    if c[0] / 16 % 2 == 1 {
      assert body[1..] == Unpack(c[1..]);
    } else {
      assert body == Unpack(c[1..]);
    }
    var d := CompactOf(body, c[0] >= 32);
    assert d == [d[0]] + c[1..] && c == [c[0]] + c[1..];
  }

  /** The other direction holds exactly on the keys of that form. */
  lemma CompactExpand(c: seq<byte>)
    ensures Hex(Expand(c))
    ensures HexPrefix(Expand(c)) == c <==> CompactForm(c)
  {
    hide Unpack, ExpandBody;
    if c != [] {
      ExpandIs(c);
      BodyJoin(ExpandBody(c), c[0] >= 32);
      CompactOfExpandBody(c);
    }
  }

  /** A byte that `compactToHex` accepts and `hexToCompact` never makes. */
  lemma LooseByte()
    ensures !CompactForm([5]) && Expand([5]) == [] && HexPrefix([]) == [0]
  {
    ExpandIs([5]);
    assert [5 as byte][1..] == [];
  }

  lemma PackPair(a: byte, b: byte)
    requires a < 16 && b < 16
    ensures Pack([a, b]) == [a as int * 16 + b]
  {
    assert [a, b][2..] == [];
  }

  /** A key of three nibbles and one of two, as an extension and as the end of a key. */
  lemma CompactShort(a: byte, b: byte, c: byte, term: bool)
    requires a < 16 && b < 16 && c < 16
    ensures var odd, even := Join([a, b, c], term), Join([b, c], term);
            Hex(odd) && HexPrefix(odd) == [(if term then 0x30 else 0x10) + a, b as int * 16 + c] &&
            Hex(even) && HexPrefix(even) == [if term then 0x20 else 0, b as int * 16 + c]
  {
    hide Pack;
    BodyJoin([a, b, c], term);
    BodyJoin([b, c], term);
    PackPair(b, c);
    assert [a, b, c][1..] == [b, c];
  }

  /** Distinct hex keys have distinct compact forms. */
  lemma CompactInjective(a: seq<byte>, b: seq<byte>)
    requires Hex(a) && Hex(b) && HexPrefix(a) == HexPrefix(b)
    ensures a == b
  {
    ExpandCompact(a);
    ExpandCompact(b);
  }

  /** `decodeNibbles`, writing from index `at` on. */
  method DecodeNibbles(nibbles: seq<byte>, bytes: array<byte>, at: nat)
    requires Nibbles(nibbles) && |nibbles| % 2 == 0
    requires at + |nibbles| / 2 <= bytes.Length
    modifies bytes
    ensures bytes[at..at + |nibbles| / 2] == Pack(nibbles)
    ensures forall i :: 0 <= i < bytes.Length && !(at <= i < at + |nibbles| / 2) ==> bytes[i] == old(bytes[i])
  {
    PackLength(nibbles);
    var bi, ni := 0, 0;
    while ni < |nibbles|
      invariant ni == 2 * bi && ni <= |nibbles|
      invariant forall i :: 0 <= i < bi ==> bytes[at + i] == Pack(nibbles)[i]
      invariant forall i :: 0 <= i < bytes.Length && !(at <= i < at + |nibbles| / 2) ==> bytes[i] == old(bytes[i])
    {
      PackAt(nibbles, bi);
      bytes[at + bi] := nibbles[ni] as int * 16 + nibbles[ni + 1];
      bi, ni := bi + 1, ni + 2;
    }
    assert forall i :: 0 <= i < bi ==> bytes[at..at + bi][i] == Pack(nibbles)[i];
  }

  /** The compact form is its first byte and the packed rest. */
  lemma HeadAndRest(hex: seq<byte>, key: seq<byte>, first: int)
    requires Hex(hex)
    requires var body := Body(hex);
             var flag := if HasTerm(hex) then 32 else 0;
             if |body| % 2 == 1 then key == body[1..] && first == flag + 16 + body[0] else key == body && first == flag
    ensures Nibbles(key) && |key| % 2 == 0 && 0 <= first < 256 && HexPrefix(hex) == [first] + Pack(key)
  {
    hide Pack;
    JoinBody(hex);
  }

  lemma BodyIs(hex: seq<byte>)
    requires Hex(hex)
    ensures HasTerm(hex) ==> |hex| > 0 && Body(hex) == hex[..|hex| - 1]
    ensures !HasTerm(hex) ==> Body(hex) == hex
    ensures forall i :: 0 <= i < |Body(hex)| ==> Body(hex)[i] < 16
  {
  }

  method HexToCompact(hex: seq<byte>) returns (buf: array<byte>)
    requires Hex(hex)
    ensures fresh(buf) && buf[..] == HexPrefix(hex)
  {
    hide Pack, HexPrefix, Hex, Body, Nibbles;
    BodyIs(hex);
    var terminator, key := 0, hex;
    if HasTerm(hex) {
      terminator, key := 1, hex[..|hex| - 1];
    }
    assert key == Body(hex);
    buf := new byte[|key| / 2 + 1];
    buf[0] := terminator * 32;
    if |key| % 2 == 1 {
      buf[0] := buf[0] + 16 + key[0];
      key := key[1..];
    }
    var first := buf[0];
    HeadAndRest(hex, key, first);
    DecodeNibbles(key, buf, 1);
    assert buf[..] == [first] + buf[1..1 + |key| / 2];
  }

  method KeybytesToHex(str: seq<byte>) returns (nibbles: array<byte>)
    ensures fresh(nibbles) && nibbles[..] == Spread(str)
  {
    var l := |str| * 2 + 1;
    nibbles := new byte[l];
    for i := 0 to |str|
      invariant forall k :: 0 <= k < 2 * i ==> nibbles[k] == Unpack(str)[k]
    {
      UnpackAt(str, i);
      nibbles[i * 2] := str[i] / 16;
      nibbles[i * 2 + 1] := str[i] % 16;
    }
    nibbles[l - 1] := 16;
  }

  /** The nibbles that go into the bytes after the first. */
  function Rest(hex: seq<byte>): (s: seq<byte>)
    requires Hex(hex)
    ensures Nibbles(s) && |s| % 2 == 0
  {
    JoinBody(hex);
    if |Body(hex)| % 2 == 1 then Body(hex)[1..] else Body(hex)
  }

  /** The in-place form leaves the compact key at the front of its buffer. The source indexes the
      first byte without a test, so the buffer must not be empty. */
  method HexToCompactInPlace(hex: array<byte>) returns (binLen: nat)
    requires hex.Length > 0 && Hex(hex[..])
    modifies hex
    ensures binLen <= hex.Length && hex[..binLen] == HexPrefix(old(hex[..]))
  {
    hide Pack, Hex, Nibbles;
    ghost var was := hex[..];
    JoinBody(was);
    ghost var rest := Rest(was);
    PackLength(rest);
    var hexLen, firstByte := hex.Length, 0;
    if hex[hexLen - 1] == 16 {
      firstByte := 32;
      hexLen := hexLen - 1;
    }
    assert Body(was) == was[..hexLen];
    binLen := hexLen / 2 + 1;
    var ni := 0;
    if hexLen % 2 == 1 {
      firstByte := firstByte + 16 + hex[0];
      ni := 1;
    }
    assert rest == was[ni..hexLen];
    PackInPlace(hex, was, rest, ni, hexLen);
    hex[0] := firstByte;
    assert hex[..binLen] == [firstByte] + Pack(rest);
  }

  /** The loop of `hexToCompactInPlace`: each byte is written at or below the nibbles still to be
      read. */
  method PackInPlace(hex: array<byte>, ghost was: seq<byte>, ghost rest: seq<byte>, start: nat, hexLen: nat)
    requires start <= 1 && start <= hexLen <= hex.Length && hex[..] == was && hex.Length > 0
    requires rest == was[start..hexLen] && Nibbles(rest) && |rest| % 2 == 0
    modifies hex
    ensures |Pack(rest)| == |rest| / 2 && 1 + |rest| / 2 <= hex.Length && hex[1..1 + |rest| / 2] == Pack(rest)
  {
    PackLength(rest);
    hide Pack;
    var ni, bi := start, 1;
    while ni < hexLen
      invariant start <= ni <= hexLen && ni == start + 2 * (bi - 1)
      invariant forall i :: ni <= i < hex.Length ==> hex[i] == was[i]
      invariant forall i :: 1 <= i < bi ==> hex[i] == Pack(rest)[i - 1]
    {
      PackAt(rest, bi - 1);
      hex[bi] := hex[ni] as int * 16 + hex[ni + 1];
      bi, ni := bi + 1, ni + 2;
    }
    assert forall i :: 0 <= i < |rest| / 2 ==> hex[1..1 + |rest| / 2][i] == Pack(rest)[i];
  }

  /** The length of the longest common prefix. */
  function PrefixLen(a: seq<byte>, b: seq<byte>): (n: nat)
    ensures n <= |a| && n <= |b| && a[..n] == b[..n]
    ensures n < |a| && n < |b| ==> a[n] != b[n]
  {
    if a == [] || b == [] || a[0] != b[0] then 0
    else
      var n := PrefixLen(a[1..], b[1..]);
      assert a[..n + 1] == [a[0]] + a[1..][..n] && b[..n + 1] == [b[0]] + b[1..][..n];
      1 + n
  }

  /** Only one number has the property stated by `PrefixLen`. */
  lemma PrefixLenUnique(a: seq<byte>, b: seq<byte>, n: nat)
    requires n <= |a| && n <= |b| && a[..n] == b[..n]
    requires n < |a| && n < |b| ==> a[n] != b[n]
    ensures PrefixLen(a, b) == n
  {
    var m := PrefixLen(a, b);
    assert forall i :: 0 <= i < n ==> a[..n][i] == b[..n][i];
    assert forall i :: 0 <= i < m ==> a[..m][i] == b[..m][i];
  }

  method CommonPrefix(a: seq<byte>, b: seq<byte>) returns (i: nat)
    ensures i == PrefixLen(a, b)
  {
    i := 0;
    var length := |a|;
    if |b| < length {
      length := |b|;
    }
    while i < length && a[i] == b[i]
      invariant i <= length && a[..i] == b[..i]
    {
      i := i + 1;
    }
    PrefixLenUnique(a, b, i);
  }
}
