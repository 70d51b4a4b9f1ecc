/** What a partly loaded, partly hashed trie stands for. A node in memory and a database together
    denote a tree: hash nodes and clean nodes are backed by the database, and a cached hash is the
    hash of the node's encoding. */
module TrieMemory {
  import opened MachineTypes
  import opened Wrappers
  import opened HexKey
  import opened ProtoWire
  import opened TrieNode
  import opened TrieTree
  import opened Merkle

  type Store = map<seq<byte>, seq<byte>>

  /** The encoding is stored under its hash. */
  ghost predicate Stored(db: Store, e: seq<byte>)
  {
    SHA3(e) in db && db[SHA3(e)] == e
  }

  /** Every node of the tree that is not kept inside its parent is stored. */
  ghost predicate Holds(db: Store, t: Tree, top: bool)
    requires Solid(t)
    decreases t
  {
    && (Large(t, top) ==> Stored(db, Enc(t)))
    && match t
       case Path(_, c) => c.Fork? ==> Holds(db, c, false)
       case Fork(cs) => forall i :: 0 <= i < 16 && Solid(cs[i]) ==> Holds(db, cs[i], false)
  }

  /** A node is clean when it has a hash and nothing to write. */
  predicate Clean(f: Flag)
  {
    f.hash.Some? && !f.dirty
  }

  ghost predicate FlagOk(db: Store, f: Flag, t: Tree, top: bool)
    requires Solid(t)
  {
    && (f.hash.Some? ==> f.hash.value == SHA3(Enc(t)) && Large(t, top))
    && (Clean(f) ==> Holds(db, t, top))
    && (f.hash.None? ==> f.dirty || !Large(t, top))
  }

  /** All that `commit` will write has its hash cached. */
  ghost predicate Hashed(n: Node, t: Tree, top: bool)
    decreases t
  {
    match n
    case Short(_, v, f) =>
      Solid(t) && t.Path? && (Clean(f) || ((Large(t, top) ==> f.hash.Some?) && Hashed(v, t.child, false)))
    case Full(ns, f) =>
      && Solid(t) && t.Fork? && |ns| == |t.children| == 17
      && (Clean(f) || ((Large(t, top) ==> f.hash.Some?) && forall i :: 0 <= i < 17 ==>
          Hashed(ns[i], t.children[i], false)))
    case _ => true
  }

  /** The node `n` over the database denotes the tree `t`. */
  ghost predicate Mem(db: Store, n: Node, t: Tree, top: bool)
    decreases t
  {
    match n
    case Nil => t.Blank?
    case Value(v) => v != [] && t == Item(v)
    case Hash(h) => Solid(t) && h == SHA3(Enc(t)) && Large(t, top) && Holds(db, t, top)
    case Short(k, v, f) =>
      && Solid(t) && t.Path? && t.key == k && Mem(db, v, t.child, false)
      && FlagOk(db, f, t, top) && (f.hash.Some? ==> Hashed(n, t, top))
    case Full(ns, f) =>
      && Solid(t) && t.Fork? && |ns| == |t.children| == 17 &&
          (forall i :: 0 <= i < 17 ==> Mem(db, ns[i], t.children[i], false))
      && FlagOk(db, f, t, top) && (f.hash.Some? ==> Hashed(n, t, top))
  }

  /** A database that has every entry of another. */
  ghost predicate Extends(db: Store, more: Store)
  {
    forall h :: h in db ==> h in more && more[h] == db[h]
  }

  lemma {:induction false} HoldsMore(db: Store, more: Store, t: Tree, top: bool)
    requires Solid(t) && Holds(db, t, top) && Extends(db, more)
    ensures Holds(more, t, top)
    decreases t
  {
    hide Enc, Pb;
    match t
    case Path(_, c) =>
      if c.Fork? {
        HoldsMore(db, more, c, false);
      }
    case Fork(cs) =>
      forall i | 0 <= i < 16 && Solid(cs[i])
        ensures Holds(more, cs[i], false)
      {
        HoldsMore(db, more, cs[i], false);
      }
  }

  /** A leaf that is kept inside its parent decodes to itself. */
  lemma DecodeLeaf(t: Tree, hash: Option<seq<byte>>)
    requires Solid(t) && t.Path?
    ensures DecodeNode(hash, Enc(t)) ==
            Ok(Short(t.key, if t.child.Item? then Value(t.child.value) else Hash(SHA3(Enc(t.child))),
                Flag(hash, false)))
  {
    hide Marshal, Unmarshal, HexPrefix, Expand, DecodeChildren;
    SolidKeyHex(t);
    UnmarshalMarshal(Pb(t));
    ExpandCompact(t.key);
    assert Pb(t)[0].val == HexPrefix(t.key) && Pb(t)[1] == Target(t.child);
  }

  /** What the database gives back for a child of a full node. */
  function Loaded(t: Tree): Node
    requires Slot(t) || Solid(t)
  {
    match t
    case Blank => Nil
    case Item(v) => Value(v)
    case _ =>
      if |Enc(t)| >= 32 || !t.Path? || !t.child.Item? then Hash(SHA3(Enc(t)))
      else Short(t.key, Value(t.child.value), Flag(None, false))
  }

  lemma DecodeKid(t: Tree)
    requires Slot(t) || Solid(t)
    ensures DecodeChild(Kid(t)) == Ok(Loaded(t))
  {
    hide Enc, DecodeNode, Solid;
    if Solid(t) {
      SolidKind(t);
    }
    if Solid(t) && |Enc(t)| < 32 {
      if !(t.Path? && t.child.Item?) {
        SmallIsLeaf(t);
      }
      DecodeLeaf(t, None);
      EncNotEmpty(t);
    }
  }

  lemma SolidKind(t: Tree)
    requires Solid(t)
    ensures t.Path? || t.Fork?
  {
  }

  lemma EncNotEmpty(t: Tree)
    requires Solid(t)
    ensures Enc(t) != []
  {
    MarshalLength(Pb(t));
  }

  lemma {:induction false} DecodeKids(pb: seq<Child>, ns: seq<Node>, bound: nat)
    requires |pb| == |ns| && forall i :: 0 <= i < |pb| ==> |pb[i].val| < bound
    requires forall i :: 0 <= i < |pb| ==> DecodeChild(pb[i]) == Ok(ns[i])
    ensures DecodeChildren(pb, bound) == Ok(ns)
  {
    hide DecodeChild;
    if pb != [] {
      DecodeKids(pb[1..], ns[1..], bound);
      assert ns == [ns[0]] + ns[1..];
    }
  }

  lemma DecodeFork(t: Tree, hash: Option<seq<byte>>, ns: seq<Node>)
    requires Solid(t) && t.Fork? && |ns| == |t.children| == 17
    requires forall i :: 0 <= i < 17 ==> (Slot(t.children[i]) || Solid(t.children[i])) && ns[i] == Loaded(t.children[i])
    ensures DecodeNode(hash, Enc(t)) == Ok(Full(ns, Flag(hash, false)))
  {
    hide Marshal, Unmarshal, DecodeChildren, DecodeChild, Kid, Loaded, Solid, Pb;
    var pb := Pb(t);
    UnmarshalMarshal(pb);
    forall i | 0 <= i < 17
      ensures DecodeChild(pb[i]) == Ok(ns[i])
    {
      KidOfFork(t.children, i);
      DecodeKid(t.children[i]);
    }
    var buf := Enc(t);
    assert forall i :: 0 <= i < |Unmarshal(buf).value| ==> |Unmarshal(buf).value[i].val| < |buf|;
    DecodeKids(pb, ns, |buf|);
  }

  lemma LoadedMem(db: Store, t: Tree)
    requires Slot(t) || (Solid(t) && Holds(db, t, false))
    ensures Mem(db, Loaded(t), t, false)
  {
    hide Enc, Holds;
    if Solid(t) && t.Path? && t.child.Item? && |Enc(t)| < 32 {
      assert Mem(db, Value(t.child.value), t.child, false);
    } else if Solid(t) && |Enc(t)| < 32 {
      SmallIsLeaf(t);
    }
  }

  lemma CleanShort(db: Store, v: Node, t: Tree, top: bool)
    requires Solid(t) && Large(t, top) && Holds(db, t, top) && t.Path? && Mem(db, v, t.child, false)
    ensures Mem(db, Short(t.key, v, Flag(Some(SHA3(Enc(t))), false)), t, top)
  {
    hide Enc, Solid, Holds, Large;
    assert Clean(Flag(Some(SHA3(Enc(t))), false));
  }

  lemma CleanFull(db: Store, ns: seq<Node>, t: Tree, top: bool)
    requires Solid(t) && Large(t, top) && Holds(db, t, top) && t.Fork? && |ns| == |t.children| == 17
    requires forall i :: 0 <= i < 17 ==> Mem(db, ns[i], t.children[i], false)
    ensures Mem(db, Full(ns, Flag(Some(SHA3(Enc(t))), false)), t, top)
  {
    hide Enc, Solid, Holds, Large;
    assert Clean(Flag(Some(SHA3(Enc(t))), false));
  }

  /** The target of a short node whose subtree is stored. */
  lemma StoredTarget(db: Store, t: Tree, top: bool)
    requires Solid(t) && Holds(db, t, top) && t.Path?
    ensures t.child.Item? ==> Mem(db, Value(t.child.value), t.child, false)
    ensures !t.child.Item? ==> t.child.Fork? && Solid(t.child) && Mem(db, Hash(SHA3(Enc(t.child))), t.child, false)
  {
    hide Enc;
    if !t.child.Item? {
      SmallIsLeaf(t.child);
    }
  }

  lemma StoredChildren(db: Store, t: Tree, top: bool)
    requires Solid(t) && Holds(db, t, top) && t.Fork?
    ensures |t.children| == 17
    ensures forall i :: 0 <= i < 17 ==>
              Slot(t.children[i]) || (Solid(t.children[i]) && Holds(db, t.children[i], false))
  {
    hide Enc;
  }

  lemma ReloadPath(db: Store, t: Tree, top: bool) returns (n: Node)
    requires Solid(t) && Large(t, top) && Holds(db, t, top) && t.Path?
    ensures DecodeNode(Some(SHA3(Enc(t))), Enc(t)) == Ok(n)
    ensures n.Short? && Mem(db, n, t, top)
  {
    hide Enc, Solid, Holds, Mem, Large, DecodeNode;
    var h := Some(SHA3(Enc(t)));
    DecodeLeaf(t, h);
    StoredTarget(db, t, top);
    var v := if t.child.Item? then Value(t.child.value) else Hash(SHA3(Enc(t.child)));
    CleanShort(db, v, t, top);
    n := Short(t.key, v, Flag(h, false));
  }

  lemma ReloadFork(db: Store, t: Tree, top: bool) returns (n: Node)
    requires Solid(t) && Large(t, top) && Holds(db, t, top) && t.Fork?
    ensures DecodeNode(Some(SHA3(Enc(t))), Enc(t)) == Ok(n)
    ensures n.Full? && Mem(db, n, t, top)
  {
    hide Enc, Pb, Loaded, Solid, Holds, Mem, Large, DecodeNode, Slot;
    StoredChildren(db, t, top);
    var h, cs := Some(SHA3(Enc(t))), t.children;
    var ns := seq(17, i requires 0 <= i < 17 => Loaded(cs[i]));
    DecodeFork(t, h, ns);
    forall i | 0 <= i < 17
      ensures Mem(db, ns[i], cs[i], false)
    {
      LoadedMem(db, cs[i]);
    }
    CleanFull(db, ns, t, top);
    n := Full(ns, Flag(h, false));
  }

  /** Reading a stored node back gives a node that denotes the same tree. */
  lemma Reload(db: Store, t: Tree, top: bool) returns (n: Node)
    requires Solid(t) && Large(t, top) && Holds(db, t, top)
    ensures SHA3(Enc(t)) in db && DecodeNode(Some(SHA3(Enc(t))), db[SHA3(Enc(t))]) == Ok(n)
    ensures (n.Short? || n.Full?) && Mem(db, n, t, top)
  {
    hide Enc, Solid, Mem, DecodeNode;
    assert Stored(db, Enc(t));
    SolidKind(t);
    if t.Path? {
      n := ReloadPath(db, t, top);
    } else {
      n := ReloadFork(db, t, top);
    }
  }
}
