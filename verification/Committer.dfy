/** Writing a hashed trie to the database. */
module Committer {
  import opened MachineTypes
  import opened Wrappers
  import opened HexKey
  import opened TrieNode
  import opened TrieTree
  import opened Merkle
  import opened TrieMemory
  import opened Hasher

  /** Pending writes, as `massdb.Batch` collects them. */
  class Batch {
    var puts: Store

    constructor ()
      ensures puts == map[]
    {
      puts := map[];
    }
  }

  /** No two of these byte strings have the same hash. */
  ghost predicate Apart(s: iset<seq<byte>>)
  {
    forall a, b :: a in s && b in s && SHA3(a) == SHA3(b) ==> a == b
  }

  /** The set has the encoding of every node of the tree. */
  ghost predicate Covers(s: iset<seq<byte>>, t: Tree)
    decreases t
  {
    Solid(t) ==>
      && Enc(t) in s
      && match t
         case Path(_, c) => Covers(s, c)
         case Fork(cs) => forall i :: 0 <= i < 16 ==> Covers(s, cs[i])
         case _ => true
  }

  /** Every entry is one of these byte strings, under its own hash. */
  ghost predicate Within(m: Store, s: iset<seq<byte>>)
  {
    forall h :: h in m ==> m[h] in s && h == SHA3(m[h])
  }

  /** Where two such stores have the same hash they have the same entry. */
  lemma Agree(p: Store, q: Store, s: iset<seq<byte>>, h: seq<byte>)
    requires Apart(s) && Within(p, s) && Within(q, s) && h in p && h in q
    ensures p[h] == q[h]
  {
  }

  lemma ViewGrows(db: Store, p: Store, q: Store, s: iset<seq<byte>>)
    requires Apart(s) && Within(db, s) && Within(p, s) && Within(q, s) && Extends(p, q)
    ensures Extends(db, db + p) && Extends(db + p, db + q)
  {
    hide Apart, Within;
    forall h | h in db
      ensures h in db + p && (db + p)[h] == db[h]
    {
      if h in p {
        Agree(db, p, s, h);
      }
    }
    forall h | h in db + p
      ensures h in db + q && (db + q)[h] == (db + p)[h]
    {
      if h in db && h in q {
        Agree(db, q, s, h);
      }
    }
  }

  lemma PutWithin(p: Store, e: seq<byte>, s: iset<seq<byte>>)
    requires Apart(s) && Within(p, s) && e in s
    ensures Within(p[SHA3(e) := e], s) && Extends(p, p[SHA3(e) := e])
  {
    var q := p[SHA3(e) := e];
    assert Within(q, s) by { hide Apart; }
    hide Apart, Within;
    forall h | h in p
      ensures h in q && q[h] == p[h]
    {
      Agree(p, q, s, h);
    }
  }

  lemma PutStored(db: Store, p: Store, e: seq<byte>)
    requires SHA3(e) in p && p[SHA3(e)] == e
    ensures Stored(db + p, e)
  {
  }

  /** `store`: a node without a hash stays with its parent. The source panics on an encoding error,
      and there is none. */
  method StoreNode(n: Node, batch: Batch, ghost t: Tree, ghost top: bool, ghost s: iset<seq<byte>>)
    returns (r: Node)
    requires Solid(t) && (n.Short? || n.Full?) && (n.flag.hash.Some? <==> Large(t, top))
    requires n.flag.hash.Some? ==> n.flag.hash.value == SHA3(Enc(t))
    requires EncodeNode(n) == Ok(Enc(t)) && (n.Short? ==> ShortToProto(n) == Ok(Pb(t))) && (n.Full? ==> Large(t, top))
    requires Apart(s) && Within(batch.puts, s) && Enc(t) in s
    modifies batch
    ensures RefOk(r, t, top)
    ensures Large(t, top) ==> batch.puts == old(batch.puts)[SHA3(Enc(t)) := Enc(t)]
    ensures !Large(t, top) ==> batch.puts == old(batch.puts)
    ensures Within(batch.puts, s) && Extends(old(batch.puts), batch.puts)
  {
    hide Enc, Solid, Pb, EncodeNode, ShortToProto;
    if n.flag.hash.None? {
      return n;
    }
    var hash := n.flag.hash.value;
    var enc := EncodeNode(n);
    assert enc.Ok?;
    PutWithin(batch.puts, enc.value, s);
    batch.puts := batch.puts[hash := enc.value];
    r := Hash(hash);
  }

  /** What `commit` asks for and keeps of the sets of byte strings. */
  ghost predicate Setting(db: Store, puts: Store, t: Tree, s: iset<seq<byte>>)
  {
    Apart(s) && Covers(s, t) && Within(db, s) && Within(puts, s)
  }

  lemma CoversParts(s: iset<seq<byte>>, t: Tree)
    requires Solid(t) && Covers(s, t)
    ensures Enc(t) in s
    ensures t.Path? ==> Covers(s, t.child)
    ensures t.Fork? ==> |t.children| == 17 && forall i :: 0 <= i < 16 ==> Covers(s, t.children[i])
  {
    hide Enc;
  }

  lemma HoldsPath(m: Store, t: Tree, top: bool)
    requires Solid(t) && t.Path? && (Large(t, top) ==> Stored(m, Enc(t)))
    requires t.child.Fork? ==> Solid(t.child) && Holds(m, t.child, false)
    ensures Holds(m, t, top)
  {
    hide Enc, Solid;
  }

  lemma HoldsFork(m: Store, t: Tree, top: bool)
    requires Solid(t) && t.Fork? && Stored(m, Enc(t)) && |t.children| == 17
    requires forall i :: 0 <= i < 16 && Solid(t.children[i]) ==> Holds(m, t.children[i], false)
    ensures Holds(m, t, top)
  {
    hide Enc;
  }

  lemma HashedParts(n: Node, t: Tree, top: bool)
    requires Hashed(n, t, top) && (n.Short? || n.Full?) && !Clean(n.flag)
    ensures Solid(t) && (Large(t, top) ==> n.flag.hash.Some?)
    ensures n.Short? ==> t.Path? && Hashed(n.val, t.child, false)
    ensures n.Full? ==> t.Fork? && |n.children| == |t.children| == 17
    ensures n.Full? ==> forall i :: 0 <= i < 17 ==> Hashed(n.children[i], t.children[i], false)
  {
    hide Enc, Solid;
  }

  lemma FlagHash(db: Store, f: Flag, t: Tree, top: bool)
    requires Solid(t) && FlagOk(db, f, t, top)
    ensures f.hash.Some? ==> f.hash.value == SHA3(Enc(t)) && Large(t, top)
    ensures Clean(f) ==> Holds(db, t, top)
  {
    hide Enc, Solid, Holds;
  }

  lemma HashParts(db: Store, n: Node, t: Tree, top: bool)
    requires Mem(db, n, t, top) && n.Hash?
    ensures Solid(t) && n.hash == SHA3(Enc(t)) && Large(t, top) && Holds(db, t, top)
  {
    hide Enc, Solid, Holds;
  }

  /** `commit`: returns what the parent keeps of the node, and writes every node below it that is
      not kept inside another. */
  method CommitNode(n: Node, batch: Batch, ghost db: Store, ghost t: Tree, ghost top: bool, ghost s: iset<seq<byte>>)
    returns (r: Node)
    requires Solid(t) && Mem(db, n, t, top) && Hashed(n, t, top) && Keyed(n)
    requires Setting(db, batch.puts, t, s)
    modifies batch
    ensures RefOk(r, t, top)
    ensures Within(batch.puts, s) && Extends(old(batch.puts), batch.puts)
    ensures Holds(db + batch.puts, t, top)
    decreases t, 2
  {
    hide Enc, Solid, Mem, Hashed, Holds, FlagOk, Covers, Within, Apart, Extends, HexPrefix, Hex, Pb, EncodeNode,
        ShortToProto, Kid, Slot, ChildToProto;
    CoversParts(s, t);
    Reflexive(batch.puts);
    ViewGrows(db, batch.puts, batch.puts, s);
    TreeShape(t);
    if n.Hash? {
      HashParts(db, n, t, top);
      HoldsMore(db, db + batch.puts, t, top);
      return n;
    } else if n.Short? {
      ShortParts(db, n, t, top);
      FlagHash(db, n.flag, t, top);
      if Clean(n.flag) {
        HoldsMore(db, db + batch.puts, t, top);
        return Hash(n.flag.hash.value);
      }
      r := CommitShort(n, batch, db, t, top, s);
    } else {
      NotLeaf(db, n, t, top);
      FullParts(db, n, t, top);
      FlagHash(db, n.flag, t, top);
      if Clean(n.flag) {
        HoldsMore(db, db + batch.puts, t, top);
        return Hash(n.flag.hash.value);
      }
      r := CommitFull(n, batch, db, t, top, s);
    }
  }

  lemma Reflexive(p: Store)
    ensures Extends(p, p)
  {
  }

  lemma Transitive(p: Store, q: Store, m: Store)
    requires Extends(p, q) && Extends(q, m)
    ensures Extends(p, m)
  {
  }

  lemma NotLeaf(db: Store, n: Node, t: Tree, top: bool)
    requires Mem(db, n, t, top) && Solid(t) && !n.Hash? && !n.Short?
    ensures n.Full?
  {
  }

  /** The target of a short node that is not a full node in memory. */
  lemma PlainTarget(db: Store, n: Node, t: Tree)
    requires Solid(t) && t.Path? && n.Short? && Mem(db, n.val, t.child, false) && !n.val.Full?
    ensures t.child.Item? ==> n.val == Value(t.child.value)
    ensures t.child.Fork? ==> Solid(t.child) && n.val == Hash(SHA3(Enc(t.child))) && Holds(db, t.child, false)
  {
    hide Enc, Holds, FlagOk, Hashed;
  }

  lemma FullTarget(db: Store, n: Node, t: Tree)
    requires Solid(t) && t.Path? && n.Short? && Mem(db, n.val, t.child, false) && n.val.Full? && Keyed(n)
    ensures t.child.Fork? && Solid(t.child) && Keyed(n.val)
    ensures forall r :: RefOk(r, t.child, false) ==> r == Hash(SHA3(Enc(t.child)))
  {
    hide Enc, Holds, FlagOk, Hashed;
    SmallIsLeaf(t.child);
  }

  method CommitShort(n: Node, batch: Batch, ghost db: Store, ghost t: Tree, ghost top: bool, ghost s: iset<seq<byte>>)
    returns (r: Node)
    requires Solid(t) && Mem(db, n, t, top) && Hashed(n, t, top) && Keyed(n) && n.Short? && !Clean(n.flag)
    requires Setting(db, batch.puts, t, s)
    modifies batch
    ensures RefOk(r, t, top)
    ensures Within(batch.puts, s) && Extends(old(batch.puts), batch.puts)
    ensures Holds(db + batch.puts, t, top)
    decreases t, 0
  {
    hide Enc, Solid, Mem, Hashed, Holds, FlagOk, Covers, Within, Apart, Extends, HexPrefix, Hex, Pb, EncodeNode,
        ShortToProto, Stored, Large, RefOk, Keyed;
    CoversParts(s, t);
    TreeShape(t);
    ShortParts(db, n, t, top);
    FlagHash(db, n.flag, t, top);
    HashedParts(n, t, top);
    Reflexive(batch.puts);
    ViewGrows(db, batch.puts, batch.puts, s);
    var val := n.val;
    if n.val.Full? {
      FullTarget(db, n, t);
      val := CommitNode(n.val, batch, db, t.child, false, s);
    } else {
      PlainTarget(db, n, t);
      if t.child.Fork? {
        HoldsMore(db, db + batch.puts, t.child, false);
      }
    }
    ghost var puts := batch.puts;
    var collapsed := Short(HexPrefix(n.key), val, n.flag);
    ShortEncodes(collapsed, t);
    r := StoreNode(collapsed, batch, t, top, s);
    Transitive(old(batch.puts), puts, batch.puts);
    ViewGrows(db, puts, batch.puts, s);
    if t.child.Fork? {
      HoldsMore(db + puts, db + batch.puts, t.child, false);
    }
    if Large(t, top) {
      PutStored(db, batch.puts, Enc(t));
    }
    HoldsPath(db + batch.puts, t, top);
  }

  lemma NilChild(db: Store, c: Tree)
    requires Mem(db, Nil, c, false)
    ensures c.Blank? && !Solid(c) && ChildToProto(Nil) == Ok(Kid(c))
  {
  }

  lemma LastChild(db: Store, n: Node, c: Tree)
    requires Slot(c) && Mem(db, n, c, false)
    ensures !Solid(c) && ChildToProto(n) == Ok(Kid(c))
  {
  }

  lemma KeyedChild(n: Node, i: nat)
    requires Keyed(n) && n.Full? && i < 17
    ensures |n.children| == 17 && Keyed(n.children[i])
  {
  }

  /** What `commitChildren` has done for a child. */
  ghost predicate Kept(m: Store, ref: Node, c: Tree)
  {
    && (Slot(c) || Solid(c)) && ChildToProto(ref) == Ok(Kid(c))
    && (Solid(c) ==> Holds(m, c, false))
  }

  lemma KeptMore(m: Store, more: Store, refs: seq<Node>, cs: seq<Tree>, k: nat)
    requires k <= |refs| && k <= |cs| && Extends(m, more)
    requires forall i :: 0 <= i < k ==> Kept(m, refs[i], cs[i])
    ensures forall i :: 0 <= i < k ==> Kept(more, refs[i], cs[i])
  {
    hide Solid, Holds, ChildToProto, Kid, Slot, Extends;
    forall i | 0 <= i < k && Solid(cs[i])
      ensures Holds(more, cs[i], false)
    {
      assert Kept(m, refs[i], cs[i]);
      HoldsMore(m, more, cs[i], false);
    }
  }

  lemma KeptRef(m: Store, ref: Node, c: Tree)
    requires Solid(c) && RefOk(ref, c, false) && Holds(m, c, false)
    ensures Kept(m, ref, c)
  {
    hide Holds, Solid, ChildToProto, Kid, RefOk;
    RefKid(ref, c);
  }

  /** `commitChildren`. */
  method CommitChildren(n: Node, batch: Batch, ghost db: Store, ghost t: Tree, ghost top: bool,
      ghost s: iset<seq<byte>>)
    returns (r: seq<Node>)
    requires Solid(t) && t.Fork? && n.Full? && Keyed(n) && |n.children| == |t.children| == 17
    requires forall i :: 0 <= i < 17 ==> Mem(db, n.children[i], t.children[i], false)
    requires forall i :: 0 <= i < 17 ==> Hashed(n.children[i], t.children[i], false)
    requires Setting(db, batch.puts, t, s)
    modifies batch
    ensures |r| == 17
    ensures Within(batch.puts, s) && Extends(old(batch.puts), batch.puts)
    ensures forall i :: 0 <= i < 17 ==> Kept(db + batch.puts, r[i], t.children[i])
    decreases t, 0
  {
    hide Enc, Solid, Mem, Hashed, Holds, Covers, Within, Apart, Extends, Keyed, Kept, RefOk, Slot;
    CoversParts(s, t);
    TreeShape(t);
    Reflexive(batch.puts);
    var children: seq<Node> := [];
    for i := 0 to 16
      invariant |children| == i
      invariant Within(batch.puts, s) && Extends(old(batch.puts), batch.puts)
      invariant forall j :: 0 <= j < i ==> Kept(db + batch.puts, children[j], t.children[j])
    {
      var child := n.children[i];
      ghost var c, puts := t.children[i], batch.puts;
      Reflexive(puts);
      ViewGrows(db, puts, puts, s);
      if child.Nil? {
        NilKept(db, db + puts, c);
        children := children + [Nil];
      } else {
        NotNil(db, child, c);
        if child.Hash? {
          HashKept(db, db + puts, child, c);
          children := children + [child];
        } else {
          KeyedChild(n, i);
          var hashed := CommitNode(child, batch, db, c, false, s);
          Transitive(old(batch.puts), puts, batch.puts);
          ViewGrows(db, puts, batch.puts, s);
          KeptMore(db + puts, db + batch.puts, children, t.children, i);
          KeptRef(db + batch.puts, hashed, c);
          children := children + [hashed];
        }
      }
    }
    LastKept(db, db + batch.puts, n.children[16], t.children[16]);
    r := children + [n.children[16]];
  }

  lemma NilKept(db: Store, m: Store, c: Tree)
    requires Mem(db, Nil, c, false)
    ensures Kept(m, Nil, c)
  {
    NilChild(db, c);
  }

  lemma LastKept(db: Store, m: Store, n: Node, c: Tree)
    requires Slot(c) && Mem(db, n, c, false)
    ensures Kept(m, n, c)
  {
    LastChild(db, n, c);
  }

  lemma HashKept(db: Store, m: Store, n: Node, c: Tree)
    requires Mem(db, n, c, false) && n.Hash? && Extends(db, m)
    ensures Kept(m, n, c)
  {
    hide Holds, Solid, Enc;
    HashParts(db, n, c, false);
    HoldsMore(db, m, c, false);
    KeptRef(m, n, c);
  }

  lemma KeptFork(m: Store, refs: seq<Node>, f: Flag, t: Tree, top: bool)
    requires Solid(t) && t.Fork? && |refs| == |t.children| == 17
    requires forall i :: 0 <= i < 17 ==> Kept(m, refs[i], t.children[i])
    ensures EncodeNode(Full(refs, f)) == Ok(Enc(t)) && Large(t, top)
    ensures Stored(m, Enc(t)) ==> Holds(m, t, top)
  {
    hide Enc, Solid, Holds, ChildToProto, Kid, Slot, EncodeNode, Stored;
    forall i | 0 <= i < 17
      ensures ChildToProto(refs[i]) == Ok(Kid(t.children[i]))
      ensures Slot(t.children[i]) || Solid(t.children[i])
      ensures Solid(t.children[i]) ==> Holds(m, t.children[i], false)
    {
      assert Kept(m, refs[i], t.children[i]);
    }
    FullEncodes(refs, f, t.children);
    SmallIsLeaf(t);
    if Stored(m, Enc(t)) {
      HoldsFork(m, t, top);
    }
  }

  method CommitFull(n: Node, batch: Batch, ghost db: Store, ghost t: Tree, ghost top: bool, ghost s: iset<seq<byte>>)
    returns (r: Node)
    requires Solid(t) && Mem(db, n, t, top) && Hashed(n, t, top) && Keyed(n) && n.Full? && !Clean(n.flag)
    requires Setting(db, batch.puts, t, s)
    modifies batch
    ensures RefOk(r, t, top)
    ensures Within(batch.puts, s) && Extends(old(batch.puts), batch.puts)
    ensures Holds(db + batch.puts, t, top)
    decreases t, 1
  {
    hide Enc, Solid, Mem, Hashed, Holds, FlagOk, Covers, Within, Apart, Extends, EncodeNode, Stored, Large, RefOk,
        Keyed, Kept;
    CoversParts(s, t);
    FullParts(db, n, t, top);
    FlagHash(db, n.flag, t, top);
    HashedParts(n, t, top);
    var kids := CommitChildren(n, batch, db, t, top, s);
    ghost var puts := batch.puts;
    var collapsed := Full(kids, n.flag);
    KeptFork(db + puts, kids, n.flag, t, top);
    r := StoreNode(collapsed, batch, t, top, s);
    Transitive(old(batch.puts), puts, batch.puts);
    ViewGrows(db, puts, batch.puts, s);
    KeptMore(db + puts, db + batch.puts, kids, t.children, 17);
    PutStored(db, batch.puts, Enc(t));
    KeptFork(db + batch.puts, kids, n.flag, t, top);
  }
}
