/** The trie object over a database: a map from byte strings to byte strings with a root hash. */
module MerkleTrie {
  import opened MachineTypes
  import opened Wrappers
  import opened HexKey
  import opened TrieNode
  import opened TrieTree
  import opened TrieLaws
  import opened TrieUnique
  import opened Merkle
  import opened TrieMemory
  import opened Hasher
  import opened Committer
  import opened TrieUpdate

  lemma SpreadKey(k: seq<byte>)
    ensures Key(Spread(k))
  {
    assert Spread(k)[..|Spread(k)| - 1] == Unpack(k);
  }

  lemma SpreadInjective(a: seq<byte>, b: seq<byte>)
    requires Spread(a) == Spread(b)
    ensures a == b
  {
    assert Spread(a)[..|Spread(a)| - 1] == Unpack(a) && Spread(b)[..|Spread(b)| - 1] == Unpack(b);
    PackUnpack(a);
    PackUnpack(b);
  }

  /** The value that a tree holds for a key given in bytes. */
  function At(t: Tree, k: seq<byte>): Option<seq<byte>>
    requires Minimal(t)
  {
    SpreadKey(k);
    Get(t, Spread(k))
  }

  /** All keys of the tree are byte strings: they have an even number of nibbles. */
  ghost predicate OfBytes(t: Tree)
    requires Minimal(t)
  {
    forall key :: Key(key) && Get(t, key).Some? ==> |key| % 2 == 1
  }

  lemma WholeKey(key: seq<byte>) returns (k: seq<byte>)
    requires Key(key) && |key| % 2 == 1
    ensures key == Spread(k)
  {
    var body := key[..|key| - 1];
    k := Pack(body);
    UnpackPack(body);
    assert key == body + [16];
  }

  /** The contents alone determine the tree, and with it the root hash. */
  lemma ContentsDecide(a: Tree, b: Tree)
    requires Minimal(a) && Minimal(b) && OfBytes(a) && OfBytes(b)
    requires forall k :: At(a, k) == At(b, k)
    ensures a == b && Root(a) == Root(b)
  {
    hide Get, Minimal, Spread, Root;
    forall key | Key(key)
      ensures Get(a, key) == Get(b, key)
    {
      if |key| % 2 == 1 {
        var k := WholeKey(key);
        assert At(a, k) == At(b, k);
      } else {
        assert Get(a, key).None? && Get(b, key).None?;
      }
    }
    Unique(a, b);
  }

  /** The effect of an update on the contents: an empty value deletes. */
  function Updated(t: Tree, k: seq<byte>, v: seq<byte>): Tree
    requires Minimal(t)
  {
    SpreadKey(k);
    if v != [] then Set(t, Spread(k), v) else Remove(t, Spread(k))
  }

  lemma UpdatedKeeps(t: Tree, k: seq<byte>, v: seq<byte>)
    requires Minimal(t) && OfBytes(t)
    ensures Minimal(Updated(t, k, v)) && OfBytes(Updated(t, k, v))
  {
    hide Get, Set, Remove, Solid, Spread;
    SpreadKey(k);
    var key := Spread(k);
    if v != [] {
      SetSolid(t, key, v);
    } else {
      RemoveTrie(t, key);
    }
    forall other | Key(other) && Get(Updated(t, k, v), other).Some?
      ensures |other| % 2 == 1
    {
      UpdatedAtKey(t, key, v, other);
    }
  }

  lemma UpdatedAtKey(t: Tree, key: seq<byte>, v: seq<byte>, other: seq<byte>)
    requires Minimal(t) && Key(key) && Key(other)
    ensures v != [] ==>
        Minimal(Set(t, key, v)) && Get(Set(t, key, v), other) == if other == key then Some(v) else Get(t, other)
    ensures v == [] ==>
        Minimal(Remove(t, key)) && Get(Remove(t, key), other) == if other == key then None else Get(t, other)
  {
    hide Get, Set, Remove, Solid;
    if v != [] {
      SetSolid(t, key, v);
      GetSet(t, key, v, other);
    } else {
      RemoveTrie(t, key);
      GetRemove(t, key, other);
    }
  }

  /** An update changes what is read at its own key, and nothing else. */
  lemma UpdatedAt(t: Tree, k: seq<byte>, v: seq<byte>, other: seq<byte>)
    requires Minimal(t)
    ensures Minimal(Updated(t, k, v))
    ensures At(Updated(t, k, v), other) ==
            if other != k then At(t, other) else if v == [] then None else Some(v)
  {
    hide Get, Set, Remove, Solid, Spread;
    SpreadKey(k);
    SpreadKey(other);
    UpdatedAtKey(t, Spread(k), v, Spread(other));
    if Spread(k) == Spread(other) {
      SpreadInjective(k, other);
    }
  }

  const ZERO_HASH: seq<byte> := [
    0, 0, 0, 0, 0, 0, 0, 0, 0, 0, 0, 0, 0, 0, 0, 0,
    0, 0, 0, 0, 0, 0, 0, 0, 0, 0, 0, 0, 0, 0, 0, 0]

  /** A root hash that `New` opens as an empty trie. */
  predicate Vacant(hash: seq<byte>)
  {
    hash == ZERO_HASH || hash == EMPTY_ROOT
  }

  class Trie {
    var db: Store
    var root: Node
    ghost var tree: Tree

    ghost predicate Valid()
      reads this
    {
      Minimal(tree) && OfBytes(tree) && Mem(db, root, tree, true)
    }

    /** `New` with the hash of a trie that the database holds. Its root hash must differ from the two
        that mean an empty trie. */
    constructor (hash: seq<byte>, store: Store, ghost t: Tree)
      requires Minimal(t) && OfBytes(t)
      requires t.Blank? ==> Vacant(hash)
      requires !t.Blank? ==> hash == SHA3(Enc(t)) && Holds(store, t, true) && !Vacant(hash)
      ensures Valid() && tree == t && db == store
    {
      hide Enc, Solid, Holds, Mem, DecodeNode, OfBytes, Vacant, ResolveHash;
      db := store;
      tree := t;
      NilMem(store, true);
      if Vacant(hash) {
        root := Nil;
      } else {
        RootMem(store, t);
        Resolves(store, Hash(hash), t, true);
        root := ResolveHash(store, hash).value;
      }
    }

    method TryGet(key: seq<byte>) returns (value: Option<seq<byte>>)
      requires Valid()
      modifies `root
      ensures Valid() && value == At(tree, key)
    {
      hide Enc, Solid, Holds, Mem, Get, Spread;
      SpreadKey(key);
      var newRoot, didResolve;
      value, newRoot, didResolve := GetNode(db, root, Spread(key), tree, true);
      if didResolve {
        root := newRoot;
      }
    }

    method TryUpdate(key: seq<byte>, value: seq<byte>)
      requires Valid()
      modifies `root, `tree
      ensures Valid() && tree == Updated(old(tree), key, value)
    {
      hide Enc, Solid, Holds, Mem, Get, Spread, Set, Remove, OfBytes;
      SpreadKey(key);
      UpdatedKeeps(tree, key, value);
      var dirty;
      if |value| != 0 {
        dirty, root := InsertNode(db, root, Spread(key), value, tree, true);
      } else {
        dirty, root := DeleteNode(db, root, Spread(key), tree, true);
      }
      tree := Updated(tree, key, value);
    }

    method TryDelete(key: seq<byte>)
      requires Valid()
      modifies `root, `tree
      ensures Valid() && tree == Updated(old(tree), key, [])
    {
      hide Enc, Solid, Holds, Mem, Get, Spread, Set, Remove, OfBytes;
      SpreadKey(key);
      UpdatedKeeps(tree, key, []);
      var dirty;
      dirty, root := DeleteNode(db, root, Spread(key), tree, true);
      tree := Updated(tree, key, []);
    }

    /** `Hash`: the root hash of the tree. What was computed stays cached in the nodes. */
    method HashRoot() returns (hash: seq<byte>)
      requires Valid()
      modifies `root
      ensures Valid() && hash == Root(tree)
      ensures !tree.Blank? ==> Hashed(root, tree, true)
    {
      hide Enc, Solid, Holds, Mem, OfBytes, HashNode, Hashed;
      NilIsBlank(db, root, tree, true);
      if root.Nil? {
        return EMPTY_ROOT;
      }
      MemKeyed(db, root, tree, true);
      HashMeans(db, root, tree, true);
      var r := HashNode(root, true);
      assert r.Ok?;
      root := r.value.1;
      return r.value.0.hash;
    }

    /** `Commit`: afterwards the database holds the whole trie under its root hash. The hypothesis is
        that the byte strings in `s`, which are the database's entries and the encodings of the
        trie's nodes, have distinct hashes. */
    method Commit(ghost s: iset<seq<byte>>) returns (hash: seq<byte>)
      requires Valid() && Apart(s) && Within(db, s) && Covers(s, tree)
      modifies `root, `db
      ensures Valid() && hash == Root(tree)
      ensures Within(db, s) && Extends(old(db), db)
      ensures !tree.Blank? ==> Holds(db, tree, true)
    {
      hide Enc, Solid, Holds, Mem, OfBytes, Hashed, Apart, Within, Covers, Extends, Keyed;
      Reflexive(db);
      NilIsBlank(db, root, tree, true);
      if root.Nil? {
        return EMPTY_ROOT;
      }
      hash := HashRoot();
      NilIsBlank(db, root, tree, true);
      if (root.Short? || root.Full?) && !root.flag.dirty {
        CleanRoot(db, root, tree);
        return;
      }
      MemKeyed(db, root, tree, true);
      var batch := new Batch();
      EmptyWithin(s);
      var newRoot := CommitNode(root, batch, db, tree, true, s);
      ViewGrows(db, map[], batch.puts, s);
      NothingYet(db);
      WriteWithin(db, batch.puts, s);
      db := db + batch.puts;
      root := newRoot;
      RootMem(db, tree);
    }
  }

  lemma RootMem(db: Store, t: Tree)
    requires Solid(t) && Holds(db, t, true)
    ensures Mem(db, Hash(SHA3(Enc(t))), t, true)
  {
    hide Enc, Solid, Holds;
  }

  lemma CleanRoot(db: Store, n: Node, t: Tree)
    requires Mem(db, n, t, true) && (n.Short? || n.Full?) && !n.flag.dirty
    ensures Solid(t) && Holds(db, t, true)
  {
    hide Enc, Solid, Holds, Hashed;
  }

  lemma EmptyWithin(s: iset<seq<byte>>)
    ensures Within(map[], s) && forall p: Store :: Extends(map[], p)
  {
  }

  lemma NothingYet(db: Store)
    ensures db + map[] == db
  {
  }

  lemma WriteWithin(p: Store, q: Store, s: iset<seq<byte>>)
    requires Within(p, s) && Within(q, s)
    ensures Within(p + q, s)
  {
  }
}
