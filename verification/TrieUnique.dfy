/** Two tries in minimal form with the same contents are the same tree. */
module TrieUnique {
  import opened MachineTypes
  import opened TrieTree
  import opened TrieLaws

  ghost predicate Same(a: Tree, b: Tree)
    requires Minimal(a) && Minimal(b)
  {
    forall key :: Key(key) ==> Get(a, key) == Get(b, key)
  }

  /** A trie in minimal form that is not empty holds some key. */
  lemma {:induction false} HasKey(t: Tree) returns (key: seq<byte>)
    requires Solid(t)
    ensures Key(key) && Get(t, key).Some?
    decreases t
  {
    match t
    case Path(k, c) =>
      if c.Item? {
        key := k;
        assert k <= key && key[|k|..] == [];
      } else {
        var r := HasKey(c);
        KeyConcat(k, r);
        key := k + r;
        assert k <= key && key[|k|..] == r;
      }
      GetPath(k, c, key);
    case Fork(cs) =>
      var i, j :| 0 <= i < j < |cs| && !cs[i].Blank? && !cs[j].Blank?;
      key := KeyUnder(cs, i);
  }

  /** A full node holds some key below each of its children. */
  lemma {:induction false} KeyUnder(cs: seq<Tree>, i: nat) returns (key: seq<byte>)
    requires Solid(Fork(cs)) && i < 17 && !cs[i].Blank?
    ensures Key(key) && key[0] == i && Get(Fork(cs), key).Some?
    decreases Fork(cs), 0
  {
    if i < 16 {
      var r := HasKey(cs[i]);
      KeyConcat([i], r);
      key := [i] + r;
      assert key[1..] == r;
    } else {
      key := [16];
      assert key[1..] == [] && key[..0] == [];
    }
    GetFork(cs, key);
  }

  /** All keys of a short node begin with its key. */
  lemma OnlyUnder(k: seq<byte>, c: Tree, key: seq<byte>)
    requires Solid(Path(k, c)) && Key(key) && Get(Path(k, c), key).Some?
    ensures k <= key
  {
  }

  /** Keys with two different first nibbles do not fit in one short node. */
  lemma ForkIsNotPath(cs: seq<Tree>, k: seq<byte>, c: Tree)
    requires Solid(Fork(cs)) && Solid(Path(k, c))
    ensures !Same(Fork(cs), Path(k, c))
  {
    hide Solid, Get;
    SolidShape(cs, k, c);
    var i, j :| 0 <= i < j < |cs| && !cs[i].Blank? && !cs[j].Blank?;
    var x := KeyUnder(cs, i);
    var y := KeyUnder(cs, j);
    if Same(Fork(cs), Path(k, c)) {
      OnlyUnder(k, c, x);
      OnlyUnder(k, c, y);
    }
  }

  lemma SolidShape(cs: seq<Tree>, k: seq<byte>, c: Tree)
    requires Solid(Fork(cs)) && Solid(Path(k, c))
    ensures |cs| == 17 && Two(cs) && k != []
  {
  }

  /** Neither of two short nodes with the same contents has the longer key. */
  lemma PathKeys(k: seq<byte>, c: Tree, l: seq<byte>, d: Tree)
    requires Solid(Path(k, c)) && Solid(Path(l, d)) && Same(Path(k, c), Path(l, d))
    ensures k <= l
  {
    hide Get;
    var x := HasKey(Path(k, c));
    OnlyUnder(k, c, x);
    OnlyUnder(l, d, x);
    if |l| < |k| {
      assert l <= k;
      KeyPrefix(l, x);
      assert k[|l| - 1] == x[|l| - 1];
      var i, j :| 0 <= i < j < |d.children| && !d.children[i].Blank? && !d.children[j].Blank?;
      var y := KeyUnder(d.children, i);
      var z := KeyUnder(d.children, j);
      PathHolds(l, d, y);
      PathHolds(l, d, z);
      OnlyUnder(k, c, l + y);
      OnlyUnder(k, c, l + z);
      SameNibble(k, l, y, z);
    }
  }

  lemma SameNibble(k: seq<byte>, l: seq<byte>, y: seq<byte>, z: seq<byte>)
    requires |l| < |k| && k <= l + y && k <= l + z && y != [] && z != []
    ensures y[0] == z[0]
  {
    assert y[0] == (l + y)[|l|] == k[|l|] && z[0] == (l + z)[|l|] == k[|l|];
  }

  lemma PathHolds(l: seq<byte>, d: Tree, y: seq<byte>)
    requires Solid(Path(l, d)) && Ext(l) && d.Fork? && Key(y)
    ensures Key(l + y) && Get(Path(l, d), l + y) == Get(d, y)
  {
    KeyConcat(l, y);
    assert l <= l + y && (l + y)[|l|..] == y;
    GetPath(l, d, l + y);
  }

  lemma SameBelowPath(k: seq<byte>, c: Tree, d: Tree)
    requires Solid(Path(k, c)) && Solid(Path(k, d)) && Same(Path(k, c), Path(k, d)) && c.Fork? && d.Fork?
    ensures Solid(c) && Solid(d) && Same(c, d)
  {
    hide Get;
    forall y | Key(y)
      ensures Get(c, y) == Get(d, y)
    {
      PathHolds(k, c, y);
      PathHolds(k, d, y);
    }
  }

  lemma ForkHolds(cs: seq<Tree>, i: nat, y: seq<byte>)
    requires Solid(Fork(cs)) && i < 17 && (if i < 16 then Key(y) else y == [])
    ensures Sub(cs[i], y) && Key([i] + y) && Get(Fork(cs), [i] + y) == Get(cs[i], y)
  {
    if i < 16 {
      KeyConcat([i], y);
    } else {
      assert ([i] + y)[..0] == [];
    }
    assert ([i] + y)[1..] == y;
    GetFork(cs, [i] + y);
  }

  lemma SameBelowFork(cs: seq<Tree>, ds: seq<Tree>, i: nat)
    requires Solid(Fork(cs)) && Solid(Fork(ds)) && Same(Fork(cs), Fork(ds)) && i < 16
    ensures Minimal(cs[i]) && Minimal(ds[i]) && Same(cs[i], ds[i])
  {
    hide Get;
    forall y | Key(y)
      ensures Get(cs[i], y) == Get(ds[i], y)
    {
      ForkHolds(cs, i, y);
      ForkHolds(ds, i, y);
    }
  }

  lemma SameSlot(cs: seq<Tree>, ds: seq<Tree>)
    requires Solid(Fork(cs)) && Solid(Fork(ds)) && Same(Fork(cs), Fork(ds))
    ensures cs[16] == ds[16]
  {
    ForkHolds(cs, 16, []);
    ForkHolds(ds, 16, []);
  }

  lemma SameItem(k: seq<byte>, c: Tree, d: Tree)
    requires Solid(Path(k, c)) && Solid(Path(k, d)) && Same(Path(k, c), Path(k, d)) && c.Item?
    ensures c == d
  {
    assert k <= k && k[|k|..] == [];
    GetPath(k, c, k);
    GetPath(k, d, k);
  }

  /** The contents determine the tree, whatever order they were inserted and deleted in. */
  lemma {:induction false} Unique(a: Tree, b: Tree)
    requires Minimal(a) && Minimal(b) && Same(a, b)
    ensures a == b
    decreases a
  {
    hide Get;
    if a.Blank? || b.Blank? {
      if !a.Blank? {
        var k := HasKey(a);
        GetBlank(k);
      } else if !b.Blank? {
        var k := HasKey(b);
        GetBlank(k);
      }
    } else {
      match (a, b)
      case (Path(k, c), Path(l, d)) =>
        PathKeys(k, c, l, d);
        PathKeys(l, d, k, c);
        assert k == l && (Key(k) ==> k[|k| - 1] == 16);
        if c.Item? {
          SameItem(k, c, d);
        } else {
          SameBelowPath(k, c, d);
          Unique(c, d);
        }
      case (Fork(cs), Path(k, c)) => ForkIsNotPath(cs, k, c);
      case (Path(k, c), Fork(cs)) => ForkIsNotPath(cs, k, c);
      case (Fork(cs), Fork(ds)) =>
        SameSlot(cs, ds);
        forall i | 0 <= i < 16
          ensures cs[i] == ds[i]
        {
          SameBelowFork(cs, ds, i);
          Unique(cs[i], ds[i]);
        }
        assert cs == ds;
    }
  }
}
