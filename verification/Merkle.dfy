/** The encoding and the root hash of a trie, by the rules of Appendix D of the Ethereum Yellow
    Paper with protobuf in place of RLP: a node whose encoding is shorter than 32 bytes is kept
    inside its parent, any other is replaced by its hash. */
module Merkle {
  import opened MachineTypes
  import opened Wrappers
  import opened HexKey
  import opened ProtoWire
  import opened TrieNode
  import opened TrieTree

  type Digest = f: seq<byte> -> seq<byte> | forall b :: |f(b)| == 32 witness b => seq(32, _ => 0)

  /** The hash function. Nothing is assumed of it but its length: all that is proved here holds for
      every such function. */
  const SHA3: Digest

  /** The root hash of the empty trie, a constant of the source. */
  const EMPTY_ROOT: seq<byte> := [
    0x56, 0xe8, 0x1f, 0x17, 0x1b, 0xcc, 0x55, 0xa6, 0xff, 0x83, 0x45, 0xe6, 0x92, 0xc0, 0xf8, 0x6e,
    0x5b, 0x48, 0xe0, 0x1b, 0x99, 0x6c, 0xad, 0xc0, 0x01, 0x62, 0x2f, 0xb5, 0xe3, 0x63, 0xb4, 0x21]

  lemma SolidKeyHex(t: Tree)
    requires Solid(t) && t.Path?
    ensures Hex(t.key)
  {
  }

  /** The child entry for the target of a short node. */
  function Target(c: Tree): Child
    requires (c.Item? && c.value != []) || (c.Fork? && Solid(c))
    decreases c, 2
  {
    if c.Item? then Child(VALUE, c.value) else Child(HASH, SHA3(Enc(c)))
  }

  /** The child entry for a child of a full node. */
  function Kid(t: Tree): Child
    requires Slot(t) || Solid(t)
    decreases t, 2
  {
    match t
    case Blank => Child(VALUE, [])
    case Item(v) => Child(VALUE, v)
    case _ => if |Enc(t)| < 32 then Child(ENC_SHORT, Enc(t)) else Child(HASH, SHA3(Enc(t)))
  }

  function Pb(t: Tree): (cs: seq<Child>)
    requires Solid(t)
    ensures |cs| == if t.Fork? then 17 else 2
    decreases t, 0
  {
    match t
    case Path(k, c) =>
      SolidKeyHex(t);
      [Child(SHORT_KEY, HexPrefix(k)), Target(c)]
    case Fork(cs) => seq(17, i requires 0 <= i < 17 => Kid(cs[i]))
  }

  function Enc(t: Tree): seq<byte>
    requires Solid(t)
    decreases t, 1
  {
    Marshal(Pb(t))
  }

  function Root(t: Tree): (h: seq<byte>)
    requires Minimal(t)
    ensures |h| == 32
  {
    if t.Blank? then EMPTY_ROOT else SHA3(Enc(t))
  }

  /** Whether a node is replaced by its hash; the root always is. */
  predicate Large(t: Tree, top: bool)
    requires Solid(t)
  {
    top || |Enc(t)| >= 32
  }

  /** Only a leaf can be small. */
  lemma SmallIsLeaf(t: Tree)
    requires Solid(t) && !(t.Path? && t.child.Item?)
    ensures |Enc(t)| >= 32
  {
    MarshalLength(Pb(t));
    if t.Path? {
      assert Pb(t)[1] == Target(t.child);
    }
  }

  lemma EncIs(t: Tree)
    requires Solid(t)
    ensures Enc(t) == Marshal(Pb(t))
  {
  }

  /** The bytes that stand for a child in the encoding of a full node. */
  lemma KidBytes(t: Tree)
    requires Solid(t)
    ensures |Enc(t)| < 32 ==> MarshalChild(Kid(t)) == [8, 2, 18, |Enc(t)|] + Enc(t)
    ensures |Enc(t)| >= 32 ==> MarshalChild(Kid(t)) == [18, 32] + SHA3(Enc(t))
  {
    hide MarshalChild, Enc, Pb;
    MarshalLength(Pb(t));
    EncIs(t);
    ChildBytes(Kid(t));
  }

  /** The bytes that stand for a value or for nothing. */
  lemma SlotBytes(t: Tree)
    requires Slot(t) && (t.Item? ==> |t.value| < 128)
    ensures MarshalChild(Kid(t)) == if t.Item? then [8, 1, 18, |t.value|] + t.value else [8, 1]
  {
    hide MarshalChild;
    ChildBytes(Kid(t));
  }

  lemma PairBytes(a: Child, b: Child)
    requires |MarshalChild(a)| < 128 && |MarshalChild(b)| < 128
    ensures Marshal([a, b]) == [10, |MarshalChild(a)|] + MarshalChild(a) + [10, |MarshalChild(b)|] + MarshalChild(b)
  {
    hide MarshalChild;
    assert [a, b][1..] == [b] && [b][1..] == [];
    assert Marshal([b]) == Field(10, MarshalChild(b)) + [];
  }

  /** The encoding of an extension. */
  lemma ExtensionBytes(k: seq<byte>, c: Tree)
    requires Solid(Path(k, c)) && c.Fork? && Hex(k) && 0 < |HexPrefix(k)| < 100
    ensures Enc(Path(k, c)) ==
            [10, 4 + |HexPrefix(k)|, 8, 3, 18, |HexPrefix(k)|] + HexPrefix(k) + [10, 34, 18, 32] + SHA3(Enc(c))
  {
    hide MarshalChild, HexPrefix, Marshal;
    ChildBytes(Child(SHORT_KEY, HexPrefix(k)));
    ChildBytes(Target(c));
    PairBytes(Child(SHORT_KEY, HexPrefix(k)), Target(c));
    assert Enc(Path(k, c)) == Marshal([Child(SHORT_KEY, HexPrefix(k)), Target(c)]);
  }

  /** The encoding of the trie whose one entry has key 0x12 and value 7, byte by byte. */
  lemma LeafBytes()
    ensures Solid(Path([1, 2, 16], Item([7])))
    ensures Enc(Path([1, 2, 16], Item([7]))) ==
            [0x0a, 0x06, 0x08, 0x03, 0x12, 0x02, 0x20, 0x12, 0x0a, 0x05, 0x08, 0x01, 0x12, 0x01, 0x07]
  {
    hide MarshalChild, HexPrefix, Marshal;
    var k: seq<byte> := [1, 2, 16];
    assert k[..2] == [1, 2];
    assert Key(k);
    CompactShort(0, 1, 2, true);
    assert Join([1, 2], true) == k;
    var a, b := Child(SHORT_KEY, [0x20, 0x12]), Child(VALUE, [7]);
    ChildBytes(a);
    ChildBytes(b);
    PairBytes(a, b);
    assert Enc(Path(k, Item([7]))) == Marshal([a, b]);
  }

  /** A node collapsed to what its parent holds of it: a hash, or itself with its key compacted. */
  predicate RefOk(r: Node, t: Tree, top: bool)
    requires Solid(t)
  {
    if Large(t, top) then r == Hash(SHA3(Enc(t))) else r.Short? && ShortToProto(r) == Ok(Pb(t))
  }

  lemma RefKid(r: Node, t: Tree)
    requires Solid(t) && RefOk(r, t, false)
    ensures ChildToProto(r) == Ok(Kid(t))
  {
    hide Pb;
    if !Large(t, false) {
      assert Enc(t) == Marshal(Pb(t));
    }
  }

  lemma ShortEncodes(n: Node, t: Tree)
    requires Solid(t) && t.Path? && n.Short? && Hex(t.key) && n.key == HexPrefix(t.key)
    requires t.child.Item? ==> n.val == Value(t.child.value)
    requires t.child.Fork? ==> n.val == Hash(SHA3(Enc(t.child)))
    ensures ShortToProto(n) == Ok(Pb(t)) && EncodeNode(n) == Ok(Enc(t))
  {
    hide Marshal, HexPrefix;
    assert Pb(t) == [Child(SHORT_KEY, n.key), Target(t.child)];
  }

  lemma {:induction false} ChildrenEncode(ns: seq<Node>, pb: seq<Child>)
    requires |ns| == |pb| && forall i :: 0 <= i < |ns| ==> ChildToProto(ns[i]) == Ok(pb[i])
    ensures ChildrenToProto(ns) == Ok(pb)
  {
    hide ChildToProto;
    if ns != [] {
      ChildrenEncode(ns[1..], pb[1..]);
      assert pb == [pb[0]] + pb[1..];
    }
  }

  lemma KidOfFork(cs: seq<Tree>, i: nat)
    requires Solid(Fork(cs)) && i < 17
    ensures (Slot(cs[i]) || Solid(cs[i])) && Pb(Fork(cs))[i] == Kid(cs[i])
  {
  }

  lemma FullEncodes(ns: seq<Node>, f: Flag, cs: seq<Tree>)
    requires Solid(Fork(cs)) && |ns| == 17
    requires forall i :: 0 <= i < 17 ==> Slot(cs[i]) || Solid(cs[i])
    requires forall i :: 0 <= i < 17 ==> ChildToProto(ns[i]) == Ok(Kid(cs[i]))
    ensures EncodeNode(Full(ns, f)) == Ok(Enc(Fork(cs)))
  {
    hide ChildToProto, Marshal, Solid, Kid;
    var pb := Pb(Fork(cs));
    forall i | 0 <= i < 17
      ensures ChildToProto(ns[i]) == Ok(pb[i])
    {
      hide Pb;
      KidOfFork(cs, i);
    }
    ChildrenEncode(ns, pb);
  }
}
