/** Reading, inserting and deleting in a partly loaded trie. Each operation does to the node in
    memory what the corresponding operation on trees does to the tree it denotes. */
module TrieUpdate {
  import opened MachineTypes
  import opened Wrappers
  import opened HexKey
  import opened TrieNode
  import opened TrieTree
  import opened TrieLaws
  import opened Merkle
  import opened TrieMemory
  import opened Hasher
  import opened Committer

  /** The flag of a node that was created or changed. */
  const NEW_FLAG: Flag := Flag(None, true)

  /** `resolveHash`: reads a node back from the database. None stands for `MissingNodeError`. */
  function ResolveHash(db: Store, hash: seq<byte>): Option<Node>
  {
    if hash !in db then None
    else
      match DecodeNode(Some(hash), db[hash])
      case Ok(n) => Some(n)
      case Err(_) => None
  }

  /** A hash node in a trie always resolves, to a node for the same tree. */
  lemma Resolves(db: Store, n: Node, t: Tree, top: bool)
    requires Mem(db, n, t, top) && n.Hash?
    ensures var r := ResolveHash(db, n.hash); r.Some? && (r.value.Short? || r.value.Full?) && Mem(db, r.value, t, top)
    ensures Hashed(ResolveHash(db, n.hash).value, t, top)
  {
    hide Enc, Solid, Holds, Mem, Large, DecodeNode, Hashed;
    HashParts(db, n, t, top);
    var m := Reload(db, t, top);
    FreshIsClean(db, n.hash, db[n.hash], m);
    CleanHashed(db, m, t, top);
  }

  lemma FreshIsClean(db: Store, h: seq<byte>, e: seq<byte>, m: Node)
    requires DecodeNode(Some(h), e) == Ok(m) && (m.Short? || m.Full?)
    ensures Clean(m.flag)
  {
  }

  lemma CleanHashed(db: Store, m: Node, t: Tree, top: bool)
    requires Mem(db, m, t, top) && (m.Short? || m.Full?) && Clean(m.flag)
    ensures Hashed(m, t, top)
  {
    hide Enc, Solid, Holds, Large;
  }

  /** The pieces of a tree under a node, and what replacing one of them does. */
  lemma ShortAgain(db: Store, n: Node, t: Tree, top: bool, v: Node)
    requires Mem(db, n, t, top) && n.Short? && Mem(db, v, t.child, false)
    requires Hashed(n.val, t.child, false) ==> Hashed(v, t.child, false)
    ensures Mem(db, n.(val := v), t, top)
    ensures Hashed(n, t, top) ==> Hashed(n.(val := v), t, top)
  {
    hide Enc, Solid, Holds, Large, FlagOk;
  }

  lemma FullAgain(db: Store, n: Node, t: Tree, top: bool, i: nat, v: Node)
    requires Mem(db, n, t, top) && n.Full? && i < 17 && |n.children| == |t.children| == 17 &&
        Mem(db, v, t.children[i], false)
    requires Hashed(n.children[i], t.children[i], false) ==> Hashed(v, t.children[i], false)
    ensures Mem(db, n.(children := n.children[i := v]), t, top)
    ensures Hashed(n, t, top) ==> Hashed(n.(children := n.children[i := v]), t, top)
  {
    hide Enc, Solid, Holds, Large, FlagOk;
  }

  lemma BlankMem(db: Store, n: Node, t: Tree, top: bool)
    requires Mem(db, n, t, top) && (n.Nil? || n.Value?)
    ensures n.Nil? ==> t.Blank?
    ensures n.Value? ==> n.value != [] && t == Item(n.value)
  {
  }

  /** `tryGet`, with the rest of the key. The new node has what was loaded on the way. */
  method GetNode(db: Store, n: Node, key: seq<byte>, ghost t: Tree, ghost top: bool)
    returns (value: Option<seq<byte>>, newNode: Node, didResolve: bool)
    requires Sub(t, key) && Mem(db, n, t, top)
    ensures value == Get(t, key)
    ensures Mem(db, newNode, t, top) && (Hashed(n, t, top) ==> Hashed(newNode, t, top))
    ensures !didResolve ==> newNode == n
    decreases t, n.Hash?
  {
    hide Enc, Solid, Holds, Large, FlagOk, Mem, Hashed, Get, Sub;
    match n
    case Nil =>
      BlankMem(db, n, t, top);
      BlankAnywhere(key);
      return None, n, false;
    case Value(v) =>
      BlankMem(db, n, t, top);
      GetItem(t, key);
      return Some(v), n, false;
    case Short(k, v, _) =>
      ShortParts(db, n, t, top);
      SubIsKey(t, key);
      GetPath(t.key, t.child, key);
      if !(k <= key) {
        return None, n, false;
      }
      var child;
      value, child, didResolve := GetNode(db, v, key[|k|..], t.child, false);
      newNode := n;
      if didResolve {
        ShortAgain(db, n, t, top, child);
        newNode := n.(val := child);
      }
    case Full(ns, _) =>
      FullParts(db, n, t, top);
      SubIsKey(t, key);
      GetFork(t.children, key);
      var child;
      value, child, didResolve := GetNode(db, ns[key[0]], key[1..], t.children[key[0]], false);
      newNode := n;
      if didResolve {
        FullAgain(db, n, t, top, key[0], child);
        newNode := n.(children := ns[key[0] := child]);
      }
    case Hash(h) =>
      Resolves(db, n, t, top);
      var child := ResolveHash(db, h).value;
      var loaded;
      value, loaded, didResolve := GetNode(db, child, key, t, top);
      return value, loaded, true;
  }

  lemma GetItem(t: Tree, key: seq<byte>)
    requires Sub(t, key) && t.Item?
    ensures Get(t, key) == Some(t.value)
  {
  }

  lemma SubIsKey(t: Tree, key: seq<byte>)
    requires Sub(t, key) && (t.Path? || t.Fork?)
    ensures Key(key) && Solid(t) && key != []
  {
  }

  /** `insert` into nil. */
  function InsertNil(key: seq<byte>, v: Node): Node
  {
    if key == [] then v else Short(key, v, NEW_FLAG)
  }

  lemma NewShort(db: Store, t: Tree, v: Node, top: bool)
    requires Solid(t) && t.Path? && Mem(db, v, t.child, false)
    ensures Mem(db, Short(t.key, v, NEW_FLAG), t, top)
  {
    hide Enc, Solid, Holds, Large;
  }

  lemma NewFull(db: Store, t: Tree, ns: seq<Node>, top: bool)
    requires Solid(t) && t.Fork? && |ns| == |t.children| == 17
    requires forall i :: 0 <= i < 17 ==> Mem(db, ns[i], t.children[i], false)
    ensures Mem(db, Full(ns, NEW_FLAG), t, top)
  {
    hide Enc, Solid, Holds, Large;
  }

  lemma NewGraft(db: Store, k: seq<byte>, c: Tree, v: Node)
    requires Mem(db, v, c, false) && (k != [] ==> Solid(Path(k, c)))
    ensures Mem(db, InsertNil(k, v), Graft(k, c), false)
  {
    hide Solid, Mem;
    if k != [] {
      NewShort(db, Path(k, c), v, false);
    }
  }

  lemma ItemMem(db: Store, v: seq<byte>)
    requires v != []
    ensures Mem(db, Value(v), Item(v), false)
  {
  }

  lemma NilMem(db: Store, top: bool)
    ensures Mem(db, Nil, Blank, top)
  {
  }

  function Nils(): (ns: seq<Node>)
    ensures |ns| == 17 && forall i :: 0 <= i < 17 ==> ns[i].Nil?
  {
    seq(17, _ => Nil)
  }

  /** The branch made in memory denotes the branch of the tree. */
  lemma BranchMem(db: Store, k: seq<byte>, c: Tree, v: Node, key: seq<byte>, m: nat, value: seq<byte>, top: bool)
    requires Solid(Path(k, c)) && Key(key) && value != [] && m < |k| && m < |key|
    requires k[m] != key[m] && k[m] < 17 && key[m] < 17 && Mem(db, v, c, false)
    ensures var ns := Nils()[k[m] := InsertNil(k[m + 1..], v)][key[m] := InsertNil(key[m + 1..], Value(value))];
            Solid(Branch(k, c, key, m, value)) && Mem(db, Full(ns, NEW_FLAG), Branch(k, c, key, m, value), top)
  {
    hide Solid, Mem, InsertNil, Graft, Key, Nibbles, Branch;
    BranchSolid(k, c, key, m, value);
    LeafSolid(key, value);
    TailSolid(k, c, m);
    TailSolid(key, Item(value), m);
    ItemMem(db, value);
    NewGraft(db, k[m + 1..], c, v);
    NewGraft(db, key[m + 1..], Item(value), Value(value));
    NilMem(db, false);
    var b := Branch(k, c, key, m, value);
    var ns := Nils()[k[m] := InsertNil(k[m + 1..], v)][key[m] := InsertNil(key[m + 1..], Value(value))];
    BranchIsFork(k, c, key, m, value);
    forall i | 0 <= i < 17
      ensures Mem(db, ns[i], b.children[i], false)
    {
      BranchAt(k, c, key, m, value, i);
    }
    NewFull(db, b, ns, top);
  }

  lemma BranchIsFork(k: seq<byte>, c: Tree, key: seq<byte>, m: nat, v: seq<byte>)
    requires m < |k| && m < |key| && k[m] < 17 && key[m] < 17
    ensures Branch(k, c, key, m, v).Fork? && |Branch(k, c, key, m, v).children| == 17
  {
  }

  lemma TailSolid(k: seq<byte>, c: Tree, m: nat)
    requires Solid(Path(k, c)) && m < |k|
    ensures k[m + 1..] != [] ==> Solid(Path(k[m + 1..], c))
  {
    TailChild(k, c, m);
  }

  lemma SetEmpty(t: Tree, v: seq<byte>)
    requires Sub(t, [])
    ensures Set(t, [], v) == Item(v) && Slot(t)
  {
  }

  lemma SetBlank(key: seq<byte>, v: seq<byte>)
    requires Sub(Blank, key) && key != []
    ensures Key(key) && Set(Blank, key, v) == Path(key, Item(v))
  {
  }

  /** `insert` of a value, with the rest of the key. */
  method InsertNode(db: Store, n: Node, key: seq<byte>, value: seq<byte>, ghost t: Tree, ghost top: bool)
    returns (dirty: bool, nn: Node)
    requires Sub(t, key) && Mem(db, n, t, top) && value != [] && (key == [] ==> !top)
    ensures Mem(db, nn, Set(t, key, value), top)
    ensures !dirty ==> Set(t, key, value) == t
    decreases t, n.Hash?
  {
    hide Enc, Solid, Holds, Large, FlagOk, Mem, Hashed, Get, Set, Sub, Key, Nibbles, Branch, Slot, Graft;
    if key == [] {
      SetEmpty(t, value);
      ItemMem(db, value);
      if n.Value? {
        BlankMem(db, n, t, top);
        return n.value != value, Value(value);
      }
      return true, Value(value);
    }
    match n
    case Nil =>
      BlankMem(db, n, t, top);
      SetBlank(key, value);
      LeafSolid(key, value);
      ItemMem(db, value);
      NewShort(db, Path(key, Item(value)), Value(value), top);
      return true, Short(key, Value(value), NEW_FLAG);
    case Value(_) =>
      BlankMem(db, n, t, top);
      ItemKey(t, key);
    case Short(k, v, _) =>
      ShortParts(db, n, t, top);
      SubIsKey(t, key);
      SetPath(k, t.child, key, value);
      SetSolid(t, key, value);
      var m := CommonPrefix(key, k);
      if m == |k| {
        var d, child := InsertNode(db, v, key[m..], value, t.child, false);
        if !d {
          return false, n;
        }
        NewShort(db, Set(t, key, value), child, top);
        return true, Short(k, child, NEW_FLAG);
      }
      SetSplit(k, t.child, key, value);
      nn := SplitShort(db, n, key, value, m, t, top);
      return true, nn;
    case Full(ns, _) =>
      FullParts(db, n, t, top);
      SubIsKey(t, key);
      SetFork(t.children, key, value);
      SetSolid(t, key, value);
      var d, child := InsertNode(db, ns[key[0]], key[1..], value, t.children[key[0]], false);
      if !d {
        assert t.children[key[0] := t.children[key[0]]] == t.children;
        return false, n;
      }
      NewFull(db, Set(t, key, value), ns[key[0] := child], top);
      return true, Full(ns[key[0] := child], NEW_FLAG);
    case Hash(h) =>
      Resolves(db, n, t, top);
      var rn := ResolveHash(db, h).value;
      var d, child := InsertNode(db, rn, key, value, t, top);
      if !d {
        return false, rn;
      }
      return true, child;
  }

  lemma ItemKey(t: Tree, key: seq<byte>)
    requires Sub(t, key) && t.Item?
    ensures key == []
  {
  }

  /** The part of `insert` where the key leaves a short node: the short node becomes a branch, with
      a shorter short node in front when there is a common prefix. */
  method SplitShort(db: Store, n: Node, key: seq<byte>, value: seq<byte>, m: nat, ghost t: Tree, ghost top: bool)
    returns (nn: Node)
    requires Mem(db, n, t, top) && n.Short? && Key(key) && value != []
    requires Solid(t) && t.Path? && n.key == t.key && m < |n.key| && m < |key|
    requires n.key[m] < 17 && key[m] < 17 && n.key[m] != key[m] && Nibbles(key[..m])
    ensures Mem(db, nn, Graft(key[..m], Branch(n.key, t.child, key, m, value)), top)
  {
    hide Enc, Solid, Holds, Mem, Branch, Key, Nibbles;
    ShortParts(db, n, t, top);
    var branch := Full(Nils()[n.key[m] := InsertNil(n.key[m + 1..], n.val)][key[m] := InsertNil(key[m + 1..],
        Value(value))], NEW_FLAG);
    ghost var b := Branch(n.key, t.child, key, m, value);
    BranchMem(db, n.key, t.child, n.val, key, m, value, top && m == 0);
    if m == 0 {
      return branch;
    }
    BranchIsFork(n.key, t.child, key, m, value);
    ExtSolid(key[..m], b);
    NewShort(db, Path(key[..m], b), branch, top);
    nn := Short(key[..m], branch, NEW_FLAG);
  }

  lemma {:induction false} OnlyOfTwo(cs: seq<Tree>)
    requires Two(cs)
    ensures Only(cs) < -1
  {
    var i, j :| 0 <= i < j < |cs| && !cs[i].Blank? && !cs[j].Blank?;
    var p := Only(cs);
    assert p >= 0 ==> i != p || j != p;
  }

  /** The counting loop of `delete` over the children in memory. */
  method OnlyChild(ns: seq<Node>) returns (pos: int)
    ensures pos >= 0 ==> pos < |ns| && !ns[pos].Nil? && forall i :: 0 <= i < |ns| && i != pos ==> ns[i].Nil?
    ensures pos == -1 ==> forall i :: 0 <= i < |ns| ==> ns[i].Nil?
    ensures pos < -1 ==> exists i, j :: 0 <= i < j < |ns| && !ns[i].Nil? && !ns[j].Nil?
  {
    pos := -1;
    for i := 0 to |ns|
      invariant pos >= 0 ==> pos < i && !ns[pos].Nil? && forall j :: 0 <= j < i && j != pos ==> ns[j].Nil?
      invariant pos == -1 ==> forall j :: 0 <= j < i ==> ns[j].Nil?
      invariant -1 <= pos
    {
      if !ns[i].Nil? {
        if pos == -1 {
          pos := i;
        } else {
          assert !ns[pos].Nil? && !ns[i].Nil?;
          return -2;
        }
      }
    }
  }

  lemma NilIsBlank(db: Store, n: Node, t: Tree, top: bool)
    requires Mem(db, n, t, top)
    ensures n.Nil? <==> t.Blank?
  {
    hide Enc, Holds, Large, FlagOk, Hashed;
  }

  /** Counting the children in memory counts the children of the tree. */
  lemma SameOnly(db: Store, ns: seq<Node>, cs: seq<Tree>, pos: int)
    requires |ns| == |cs| == 17 && forall i :: 0 <= i < 17 ==> Mem(db, ns[i], cs[i], false)
    requires pos >= 0 ==> pos < 17 && !ns[pos].Nil? && forall i :: 0 <= i < 17 && i != pos ==> ns[i].Nil?
    requires pos == -1 ==> forall i :: 0 <= i < 17 ==> ns[i].Nil?
    requires pos < -1 ==> exists i, j :: 0 <= i < j < 17 && !ns[i].Nil? && !ns[j].Nil?
    ensures pos >= 0 ==> Only(cs) == pos
    ensures pos < -1 ==> Only(cs) < -1
    ensures pos == -1 ==> Only(cs) == -1
  {
    hide Mem, Only;
    forall i | 0 <= i < 17
      ensures ns[i].Nil? <==> cs[i].Blank?
    {
      NilIsBlank(db, ns[i], cs[i], false);
    }
    var p := Only(cs);
    if pos < -1 {
      var i, j :| 0 <= i < j < 17 && !ns[i].Nil? && !ns[j].Nil?;
      assert !cs[i].Blank? && !cs[j].Blank?;
      OnlyOfTwo(cs);
    }
  }

  lemma ShortIsPath(db: Store, n: Node, t: Tree, top: bool)
    requires Mem(db, n, t, top) && !n.Hash?
    ensures n.Short? <==> t.Path?
  {
    hide Enc, Holds, Large, FlagOk, Hashed;
  }

  /** A full node after one of its children was deleted from. */
  method ReduceFull(db: Store, ns: seq<Node>, ghost cs: seq<Tree>, ghost top: bool) returns (nn: Node)
    requires |ns| == |cs| == 17 && Remains(cs)
    requires forall i :: 0 <= i < 17 ==> Mem(db, ns[i], cs[i], false)
    ensures Mem(db, nn, Reduce(cs), top) && !nn.Hash?
  {
    hide Enc, Solid, Holds, Mem, Only;
    ReduceIs(cs);
    var pos := OnlyChild(ns);
    SameOnly(db, ns, cs, pos);
    if pos >= 0 {
      if pos != 16 {
        var cnode := ns[pos];
        if cnode.Hash? {
          Resolves(db, cnode, cs[pos], false);
          cnode := ResolveHash(db, cnode.hash).value;
        }
        ShortIsPath(db, cnode, cs[pos], false);
        if cnode.Short? {
          ShortParts(db, cnode, cs[pos], false);
          NewShort(db, Reduce(cs), cnode.val, top);
          return Short([pos] + cnode.key, cnode.val, NEW_FLAG);
        }
      }
      NewShort(db, Reduce(cs), ns[pos], top);
      return Short([pos], ns[pos], NEW_FLAG);
    }
    NewFull(db, Reduce(cs), ns, top);
    nn := Full(ns, NEW_FLAG);
  }

  lemma LeadIs(k: seq<byte>, t: Tree)
    ensures t.Path? ==> Lead(k, t) == Path(k + t.key, t.child)
    ensures !t.Path? ==> Lead(k, t) == Path(k, t)
  {
  }

  lemma UnchangedFork(cs: seq<Tree>, x: nat)
    requires Solid(Fork(cs)) && x < 17
    ensures Reduce(cs[x := cs[x]]) == Fork(cs)
  {
    OnlyOfTwo(cs);
    assert cs[x := cs[x]] == cs;
  }

  /** `delete`, with the rest of the key. */
  method DeleteNode(db: Store, n: Node, key: seq<byte>, ghost t: Tree, ghost top: bool)
    returns (dirty: bool, nn: Node)
    requires Sub(t, key) && Mem(db, n, t, top)
    ensures Mem(db, nn, Remove(t, key), top)
    ensures !dirty ==> Remove(t, key) == t
    ensures dirty ==> !nn.Hash?
    decreases t, n.Hash?
  {
    hide Enc, Solid, Holds, Large, FlagOk, Mem, Hashed, Get, Remove, Sub, Key, Nibbles, Slot, Reduce, Lead;
    NilMem(db, top);
    match n
    case Nil =>
      BlankMem(db, n, t, top);
      RemoveNothing(t, key);
      return false, Nil;
    case Value(_) =>
      BlankMem(db, n, t, top);
      RemoveNothing(t, key);
      return true, Nil;
    case Short(k, v, _) =>
      ShortParts(db, n, t, top);
      SubIsKey(t, key);
      RemovePath(k, t.child, key);
      PrefixLenIs(key, k);
      var m := CommonPrefix(key, k);
      if m < |k| {
        return false, n;
      }
      if m == |key| {
        return true, Nil;
      }
      RemoveTrieKey(t.child, key[|k|..]);
      var d, child := DeleteNode(db, v, key[|k|..], t.child, false);
      ghost var r := Remove(t.child, key[|k|..]);
      LeadIs(k, r);
      if !d {
        return false, n;
      }
      LeadSolid(k, r);
      nn := LeadShort(db, k, child, r, top);
      return true, nn;
    case Full(ns, _) =>
      FullParts(db, n, t, top);
      SubIsKey(t, key);
      RemoveFork(t.children, key);
      var d, child := DeleteNode(db, ns[key[0]], key[1..], t.children[key[0]], false);
      if !d {
        UnchangedFork(t.children, key[0]);
        return false, n;
      }
      RemainsKey(t.children, key);
      nn := ReduceFull(db, ns[key[0] := child], t.children[key[0] := Remove(t.children[key[0]], key[1..])], top);
      return true, nn;
    case Hash(h) =>
      Resolves(db, n, t, top);
      var rn := ResolveHash(db, h).value;
      var d, child := DeleteNode(db, rn, key, t, top);
      if !d {
        return false, rn;
      }
      return true, child;
  }

  lemma PrefixLenIs(key: seq<byte>, k: seq<byte>)
    ensures PrefixLen(key, k) == |k| <==> k <= key
    ensures PrefixLen(key, k) == |k| ==> (|k| == |key| <==> k == key)
  {
    if k <= key {
      assert key[..|k|] == k == k[..|k|];
      PrefixLenUnique(key, k, |k|);
    }
    assert k[..|k|] == k;
  }

  lemma RemoveTrieKey(t: Tree, key: seq<byte>)
    requires Solid(t) && t.Fork? && Key(key)
    ensures Sub(t, key) && Solid(Remove(t, key))
  {
    RemoveTrie(t, key);
  }

  lemma RemainsKey(cs: seq<Tree>, key: seq<byte>)
    requires Solid(Fork(cs)) && Key(key)
    ensures |cs| == 17 && key[0] < 17 && Sub(cs[key[0]], key[1..])
    ensures Remains(cs[key[0] := Remove(cs[key[0]], key[1..])])
  {
    hide Solid;
    RemoveFork(cs, key);
    RemoveTrie(cs[key[0]], key[1..]);
    RemainsAfter(cs, key[0], Remove(cs[key[0]], key[1..]));
  }

  /** A short node in front of a changed subtrie, merged with it if that is a short node. The
      subtrie comes from a full node, so it is in memory. */
  method LeadShort(db: Store, k: seq<byte>, child: Node, ghost r: Tree, ghost top: bool) returns (nn: Node)
    requires Mem(db, child, r, false) && Solid(r) && Solid(Lead(k, r)) && !child.Hash?
    ensures Mem(db, nn, Lead(k, r), top) && nn.Short?
  {
    hide Enc, Solid, Holds, Mem;
    ShortIsPath(db, child, r, false);
    if child.Short? {
      ShortParts(db, child, r, false);
      NewShort(db, Lead(k, r), child.val, top);
      return Short(k + child.key, child.val, NEW_FLAG);
    }
    NewShort(db, Lead(k, r), child, top);
    nn := Short(k, child, NEW_FLAG);
  }
}
