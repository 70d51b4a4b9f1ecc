/** The recursive hasher: it collapses a trie to its root hash and caches the hashes on the way. */
module Hasher {
  import opened Wrappers
  import opened HexKey
  import opened TrieNode
  import opened TrieTree
  import opened Merkle
  import opened TrieMemory

  /** Keys are in hex form and full nodes have seventeen children. */
  predicate Keyed(n: Node)
  {
    match n
    case Short(k, v, _) => Hex(k) && Keyed(v)
    case Full(ns, _) => |ns| == 17 && forall i :: 0 <= i < 17 ==> Keyed(ns[i])
    case _ => true
  }

  /** `nodeToHash`; an encoding error is a panic in the source. */
  function NodeToHash(n: Node, force: bool): Result<Node, NodeError>
  {
    match EncodeNode(n)
    case Err(e) => Err(e)
    case Ok(enc) => if |enc| < 32 && !force then Ok(n) else Ok(Hash(SHA3(enc)))
  }

  function CacheOf(f: Flag, hashed: Node): Flag
  {
    f.(hash := if hashed.Hash? then Some(hashed.hash) else None)
  }

  /** `hash`: the collapsed node and the copy of the node with its hash cached. */
  function HashNode(n: Node, force: bool): Result<(Node, Node), NodeError>
    requires Keyed(n)
    decreases n, 17
  {
    if n.Short? then
      if n.flag.hash.Some? then Ok((Hash(n.flag.hash.value), n))
      else
        match HashTarget(n)
        case Err(e) => Err(e)
        case Ok((ref, kept)) =>
          match NodeToHash(Short(HexPrefix(n.key), ref, n.flag), force)
          case Err(e) => Err(e)
          case Ok(hashed) => Ok((hashed, Short(n.key, kept, CacheOf(n.flag, hashed))))
    else if n.Full? then
      if n.flag.hash.Some? then Ok((Hash(n.flag.hash.value), n))
      else
        match HashChildren(n, 16)
        case Err(e) => Err(e)
        case Ok((refs, kept)) =>
          match NodeToHash(Full(refs + [n.children[16]], n.flag), force)
          case Err(e) => Err(e)
          case Ok(hashed) => Ok((hashed, Full(kept + [n.children[16]], CacheOf(n.flag, hashed))))
    else Ok((n, n))
  }

  /** `hashShortNodeChildren`: a value or a hash is left as it is. */
  function HashTarget(n: Node): Result<(Node, Node), NodeError>
    requires Keyed(n) && n.Short?
    decreases n, 0
  {
    if n.val.Full? || n.val.Short? then HashNode(n.val, false) else Ok((n.val, n.val))
  }

  /** The loop of `hashFullNodeChildren` up to the index `k`: collapsed and cached children. */
  function HashChildren(n: Node, k: nat): (r: Result<(seq<Node>, seq<Node>), NodeError>)
    requires Keyed(n) && n.Full? && k <= 16
    ensures r.Ok? ==> |r.value.0| == |r.value.1| == k
    decreases n, k
  {
    if k == 0 then Ok(([], []))
    else
      match HashChildren(n, k - 1)
      case Err(e) => Err(e)
      case Ok((refs, kept)) =>
        var child := n.children[k - 1];
        if child.Nil? then Ok((refs + [Value([])], kept + [Nil]))
        else
          match HashNode(child, false)
          case Err(e) => Err(e)
          case Ok((ref, cached)) => Ok((refs + [ref], kept + [cached]))
  }

  lemma {:induction false} MemKeyed(db: Store, n: Node, t: Tree, top: bool)
    requires Mem(db, n, t, top)
    ensures Keyed(n)
    decreases t
  {
    hide Hashed, FlagOk, Enc;
    match n
    case Short(k, v, _) =>
      SolidKeyHex(t);
      MemKeyed(db, v, t.child, false);
    case Full(ns, _) =>
      forall i | 0 <= i < 17
        ensures Keyed(ns[i])
      {
        MemKeyed(db, ns[i], t.children[i], false);
      }
    case _ =>
  }

  /** What `hash` promises of its two results. */
  ghost predicate Done(db: Store, r: Result<(Node, Node), NodeError>, t: Tree, top: bool)
    requires Solid(t)
  {
    r.Ok? && RefOk(r.value.0, t, top) && Mem(db, r.value.1, t, top) && Hashed(r.value.1, t, top)
  }

  /** What one step of the loop over the children promises. */
  ghost predicate ChildDone(db: Store, ref: Node, kept: Node, c: Tree)
  {
    && (Slot(c) || Solid(c)) && ChildToProto(ref) == Ok(Kid(c))
    && Mem(db, kept, c, false) && Hashed(kept, c, false)
  }

  lemma CachedDone(db: Store, n: Node, t: Tree, top: bool)
    requires Solid(t) && Mem(db, n, t, top) && Keyed(n)
    requires n.Hash? || ((n.Short? || n.Full?) && n.flag.hash.Some?)
    ensures Done(db, HashNode(n, top), t, top)
  {
    hide Enc, Solid, Holds, HashTarget, HashChildren, Keyed, NodeToHash;
  }

  /** Hashing a collapsed node whose encoding is that of the tree. */
  lemma Fold(n: Node, t: Tree, top: bool)
    requires Solid(t) && EncodeNode(n) == Ok(Enc(t)) && (n.Full? ==> t.Fork?) &&
        (n.Short? ==> ShortToProto(n) == Ok(Pb(t)))
    requires n.Short? || n.Full?
    ensures NodeToHash(n, top).Ok? && RefOk(NodeToHash(n, top).value, t, top)
    ensures NodeToHash(n, top).value.Hash? <==> Large(t, top)
  {
    hide Enc, Solid, Pb, EncodeNode, ShortToProto;
    if n.Full? {
      SmallIsLeaf(t);
    }
  }

  lemma FreshFlag(db: Store, f: Flag, hashed: Node, t: Tree, top: bool)
    requires Solid(t) && FlagOk(db, f, t, top) && f.hash.None? && RefOk(hashed, t, top)
    requires hashed.Hash? <==> Large(t, top)
    ensures FlagOk(db, CacheOf(f, hashed), t, top)
    ensures Large(t, top) ==> CacheOf(f, hashed).hash.Some?
    ensures CacheOf(f, hashed).hash.Some? ==> f.dirty
  {
    hide Enc, Solid, Pb, Holds;
  }

  lemma KeepShort(db: Store, v: Node, f: Flag, t: Tree, top: bool)
    requires Solid(t) && t.Path? && Mem(db, v, t.child, false) && Hashed(v, t.child, false)
    requires FlagOk(db, f, t, top) && (Large(t, top) ==> f.hash.Some?)
    ensures Mem(db, Short(t.key, v, f), t, top) && Hashed(Short(t.key, v, f), t, top)
  {
    hide Enc, Solid, Holds, FlagOk, Large;
  }

  lemma KeepFull(db: Store, ns: seq<Node>, f: Flag, t: Tree, top: bool)
    requires Solid(t) && t.Fork? && |ns| == |t.children| == 17
    requires forall i :: 0 <= i < 17 ==> Mem(db, ns[i], t.children[i], false)
    requires forall i :: 0 <= i < 17 ==> Hashed(ns[i], t.children[i], false)
    requires FlagOk(db, f, t, top) && (Large(t, top) ==> f.hash.Some?)
    ensures Mem(db, Full(ns, f), t, top) && Hashed(Full(ns, f), t, top)
  {
    hide Enc, Solid, Holds, FlagOk, Large;
  }

  lemma ShortParts(db: Store, n: Node, t: Tree, top: bool)
    requires Mem(db, n, t, top) && n.Short?
    ensures Solid(t) && t.Path? && n.key == t.key && Hex(t.key) && FlagOk(db, n.flag, t, top)
    ensures Mem(db, n.val, t.child, false)
  {
    hide Enc, Holds, FlagOk, Large, Hashed;
    SolidKeyHex(t);
  }

  lemma FullParts(db: Store, n: Node, t: Tree, top: bool)
    requires Mem(db, n, t, top) && n.Full?
    ensures Solid(t) && t.Fork? && |n.children| == |t.children| == 17 && FlagOk(db, n.flag, t, top)
    ensures forall i :: 0 <= i < 17 ==> Mem(db, n.children[i], t.children[i], false)
  {
    hide Enc, Holds, FlagOk, Large, Hashed;
  }

  lemma ShortDone(db: Store, n: Node, t: Tree, top: bool, ref: Node, kept: Node)
    requires Solid(t) && Mem(db, n, t, top) && Keyed(n) && n.Short? && n.flag.hash.None? && t.Path?
    requires HashTarget(n) == Ok((ref, kept))
    requires t.child.Item? ==> ref == Value(t.child.value)
    requires t.child.Fork? ==> Solid(t.child) && RefOk(ref, t.child, false)
    requires Mem(db, kept, t.child, false) && Hashed(kept, t.child, false)
    ensures Done(db, HashNode(n, top), t, top)
  {
    hide Enc, Solid, Holds, FlagOk, HashTarget, HashChildren, NodeToHash, HexPrefix, Hex, Mem, Hashed, CacheOf,
        EncodeNode, ShortToProto;
    ShortParts(db, n, t, top);
    if t.child.Fork? {
      SmallIsLeaf(t.child);
    }
    var collapsed := Short(HexPrefix(n.key), ref, n.flag);
    ShortEncodes(collapsed, t);
    Fold(collapsed, t, top);
    var hashed := NodeToHash(collapsed, top).value;
    FreshFlag(db, n.flag, hashed, t, top);
    KeepShort(db, kept, CacheOf(n.flag, hashed), t, top);
  }

  lemma FullDone(db: Store, n: Node, t: Tree, top: bool, refs: seq<Node>, kept: seq<Node>)
    requires Solid(t) && Mem(db, n, t, top) && Keyed(n) && n.Full? && n.flag.hash.None? && t.Fork?
    requires HashChildren(n, 16) == Ok((refs, kept)) && |t.children| == 17
    requires forall i :: 0 <= i < 16 ==> ChildDone(db, refs[i], kept[i], t.children[i])
    requires ChildDone(db, n.children[16], n.children[16], t.children[16])
    ensures Done(db, HashNode(n, top), t, top)
  {
    hide Enc, Solid, Holds, FlagOk, HashTarget, HashChildren, NodeToHash, ChildToProto, Kid, Slot, Mem, Hashed,
        CacheOf, EncodeNode, Large, RefOk;
    FullParts(db, n, t, top);
    var collapsed := Full(refs + [n.children[16]], n.flag);
    FullEncodes(collapsed.children, n.flag, t.children);
    Fold(collapsed, t, top);
    var hashed := NodeToHash(collapsed, top).value;
    FreshFlag(db, n.flag, hashed, t, top);
    KeepFull(db, kept + [n.children[16]], CacheOf(n.flag, hashed), t, top);
  }

  lemma TreeShape(t: Tree)
    requires Solid(t)
    ensures t.Path? ==> (t.child.Item? && t.child.value != []) || (t.child.Fork? && Solid(t.child))
    ensures t.Fork? ==> |t.children| == 17 && Slot(t.children[16])
    ensures t.Fork? ==> forall i :: 0 <= i < 16 ==> t.children[i].Blank? || Solid(t.children[i])
    ensures t.Path? || t.Fork?
  {
  }

  /** For every trie in memory, whatever of it is loaded and cached, the hasher gives the hash of
      the tree's encoding, and never meets an encoding error. */
  lemma {:induction false} HashMeans(db: Store, n: Node, t: Tree, top: bool)
    requires Solid(t) && Mem(db, n, t, top) && Keyed(n)
    ensures Done(db, HashNode(n, top), t, top)
    decreases t, 17
  {
    hide Enc, Solid, Holds, FlagOk, HashNode, Hashed, Done, Hex;
    TreeShape(t);
    if n.Hash? || n.flag.hash.Some? {
      CachedDone(db, n, t, top);
    } else if n.Short? {
      TargetMeans(db, n, t);
      var r := HashTarget(n).value;
      ShortDone(db, n, t, top, r.0, r.1);
    } else {
      ChildrenMean(db, n, t, 16);
      FullParts(db, n, t, top);
      SlotMeans(db, n.children[16], t.children[16]);
      var r := HashChildren(n, 16).value;
      FullDone(db, n, t, top, r.0, r.1);
    }
  }

  lemma SlotMeans(db: Store, n: Node, t: Tree)
    requires Slot(t) && Mem(db, n, t, false)
    ensures ChildDone(db, n, n, t)
  {
  }

  lemma {:induction false} TargetMeans(db: Store, n: Node, t: Tree)
    requires Solid(t) && n.Short? && t.Path? && Mem(db, n.val, t.child, false) && Keyed(n)
    ensures HashTarget(n).Ok?
    ensures t.child.Item? ==> HashTarget(n).value.0 == Value(t.child.value)
    ensures t.child.Fork? ==> Solid(t.child) && RefOk(HashTarget(n).value.0, t.child, false)
    ensures Mem(db, HashTarget(n).value.1, t.child, false) && Hashed(HashTarget(n).value.1, t.child, false)
    decreases t, 0
  {
    hide Enc, Holds, FlagOk, HashNode;
    if t.child.Fork? && !n.val.Hash? {
      HashMeans(db, n.val, t.child, false);
    }
  }

  lemma {:induction false} ChildrenMean(db: Store, n: Node, t: Tree, k: nat)
    requires Solid(t) && n.Full? && t.Fork? && k <= 16 && Keyed(n) && |t.children| == 17
    requires forall i :: 0 <= i < 17 ==> Mem(db, n.children[i], t.children[i], false)
    ensures HashChildren(n, k).Ok?
    ensures forall i :: 0 <= i < k ==>
        ChildDone(db, HashChildren(n, k).value.0[i], HashChildren(n, k).value.1[i], t.children[i])
    decreases t, k
  {
    hide HashNode, ChildDone, Solid, Mem, Done, Slot;
    if k > 0 {
      ChildrenMean(db, n, t, k - 1);
      var child, c := n.children[k - 1], t.children[k - 1];
      if child.Nil? {
        NilMeans(db, c);
      } else {
        TreeShape(t);
        NotNil(db, child, c);
        HashMeans(db, child, c, false);
        ChildIsDone(db, HashNode(child, false), c);
      }
    }
  }

  lemma ChildIsDone(db: Store, r: Result<(Node, Node), NodeError>, c: Tree)
    requires Solid(c) && Done(db, r, c, false)
    ensures r.Ok? && ChildDone(db, r.value.0, r.value.1, c)
  {
    hide RefOk, ChildToProto, Kid, Mem, Hashed, Solid;
    RefKid(r.value.0, c);
  }

  lemma NilMeans(db: Store, c: Tree)
    requires Mem(db, Nil, c, false)
    ensures ChildDone(db, Value([]), Nil, c)
  {
  }

  lemma NotNil(db: Store, n: Node, c: Tree)
    requires Mem(db, n, c, false) && !n.Nil?
    ensures !c.Blank?
  {
  }
}
