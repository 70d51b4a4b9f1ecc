/** What a trie means, free of hashes, caches and storage: a tree in minimal form, which is
    determined by the keys and values it holds. Keys are hex keys with their terminator. */
module TrieTree {
  import opened MachineTypes
  import opened Wrappers
  import opened HexKey

  /** `Path` is a short node, `Fork` a full node, `Item` a value. */
  datatype Tree =
    | Blank
    | Item(value: seq<byte>)
    | Path(key: seq<byte>, child: Tree)
    | Fork(children: seq<Tree>)

  predicate Key(k: seq<byte>)
  {
    HasTerm(k) && Nibbles(k[..|k| - 1])
  }

  /** The key part of an extension. */
  predicate Ext(k: seq<byte>)
  {
    k != [] && Nibbles(k)
  }

  /** What the seventeenth child of a full node may be. */
  predicate Slot(t: Tree)
  {
    t.Blank? || (t.Item? && t.value != [])
  }

  predicate Two(cs: seq<Tree>)
  {
    exists i, j :: 0 <= i < j < |cs| && !cs[i].Blank? && !cs[j].Blank?
  }

  /** The minimal form: a short node leads to a value or to a full node, never to another short
      node, and a full node has at least two children. */
  predicate Solid(t: Tree)
  {
    match t
    case Blank => false
    case Item(_) => false
    case Path(k, c) => (Key(k) && c.Item? && c.value != []) || (Ext(k) && c.Fork? && Solid(c))
    case Fork(cs) => |cs| == 17 && Slot(cs[16]) && Two(cs) && forall i :: 0 <= i < 16 ==> cs[i].Blank? || Solid(cs[i])
  }

  predicate Minimal(t: Tree)
  {
    t.Blank? || Solid(t)
  }

  /** A tree and the rest of a key with which it can be entered. */
  predicate Sub(t: Tree, key: seq<byte>)
  {
    (Key(key) && Minimal(t)) || (key == [] && Slot(t))
  }

  /** A prefix of a key that is itself terminated is the whole key. */
  lemma KeyPrefix(k: seq<byte>, key: seq<byte>)
    requires Key(key) && k <= key && k != []
    ensures Key(k) ==> k == key
    ensures Nibbles(k) ==> Key(key[|k|..])
  {
    assert k[|k| - 1] == key[|k| - 1];
    if Nibbles(k) {
      var r := key[|k|..];
      assert |r| > 0 && r[..|r| - 1] == key[..|key| - 1][|k|..];
    }
  }

  lemma KeyTail(key: seq<byte>)
    requires Key(key)
    ensures key[0] <= 16 && (key[0] == 16 <==> |key| == 1)
    ensures key[0] < 16 ==> Key(key[1..])
  {
    assert |key| > 1 ==> key[..|key| - 1][0] == key[0];
    assert |key| > 1 ==> key[1..][..|key| - 2] == key[..|key| - 1][1..];
  }

  lemma SubPath(k: seq<byte>, c: Tree, key: seq<byte>)
    requires Solid(Path(k, c)) && Key(key) && k <= key
    ensures Sub(c, key[|k|..])
  {
    KeyPrefix(k, key);
  }

  lemma SubFork(cs: seq<Tree>, key: seq<byte>)
    requires Solid(Fork(cs)) && Key(key)
    ensures key[0] < 17 && Sub(cs[key[0]], key[1..])
  {
    KeyTail(key);
  }

  /** `tryGet` on a trie that is all in memory. */
  function Get(t: Tree, key: seq<byte>): Option<seq<byte>>
    requires Sub(t, key)
    decreases t
  {
    match t
    case Blank => None
    case Item(v) => Some(v)
    case Path(k, c) =>
      if k <= key then
        SubPath(k, c, key);
        Get(c, key[|k|..])
      else None
    case Fork(cs) =>
      SubFork(cs, key);
      Get(cs[key[0]], key[1..])
  }

  function Blanks(): (cs: seq<Tree>)
    ensures |cs| == 17 && forall i :: 0 <= i < 17 ==> cs[i].Blank?
  {
    seq(17, _ => Blank)
  }

  /** A new short node, unless no key is left to put in it. */
  function Graft(k: seq<byte>, c: Tree): Tree
  {
    if k == [] then c else Path(k, c)
  }

  lemma MismatchInside(key: seq<byte>, k: seq<byte>)
    requires Key(key) && (Key(k) || Ext(k)) && PrefixLen(key, k) < |k|
    ensures PrefixLen(key, k) < |key|
    ensures key[PrefixLen(key, k)] < 17 && k[PrefixLen(key, k)] < 17 && key[PrefixLen(key, k)] != k[PrefixLen(key, k)]
  {
    var m := PrefixLen(key, k);
    assert m > 0 ==> key[m - 1] == key[..m][m - 1] && k[m - 1] == k[..m][m - 1];
    assert Key(k) && m > 0 ==> k[m - 1] == k[..|k| - 1][m - 1];
    KeyAt(key, m);
    if Key(k) {
      KeyAt(k, m);
    }
  }

  lemma KeyAt(key: seq<byte>, m: nat)
    requires Key(key) && m < |key|
    ensures key[m] <= 16 && (key[m] == 16 <==> m == |key| - 1)
    ensures key[m] < 16 ==> Key(key[m + 1..])
    ensures Nibbles(key[..m])
  {
    if m < |key| - 1 {
      assert key[m] == key[..|key| - 1][m];
      assert key[m + 1..][..|key| - m - 2] == key[..|key| - 1][m + 1..];
    }
    assert key[..m] == key[..|key| - 1][..m];
  }

  /** The branch that `insert` makes where a new key leaves a short node, at the index `m` of both
      keys. */
  function Branch(k: seq<byte>, c: Tree, key: seq<byte>, m: nat, v: seq<byte>): (t: Tree)
    requires m < |k| && m < |key| && k[m] < 17 && key[m] < 17
  {
    Fork(Blanks()[k[m] := Graft(k[m + 1..], c)][key[m] := Graft(key[m + 1..], Item(v))])
  }

  /** `insert` of a value. */
  function Set(t: Tree, key: seq<byte>, v: seq<byte>): Tree
    requires Sub(t, key)
    decreases t
  {
    if key == [] then Item(v)
    else
      match t
      case Blank => Path(key, Item(v))
      case Path(k, c) =>
        var m := PrefixLen(key, k);
        if m == |k| then
          assert key[..m] == k;
          SubPath(k, c, key);
          Path(k, Set(c, key[m..], v))
        else
          MismatchInside(key, k);
          Graft(key[..m], Branch(k, c, key, m, v))
      case Fork(cs) =>
        SubFork(cs, key);
        Fork(cs[key[0] := Set(cs[key[0]], key[1..], v)])
  }

  /** The only index whose child is not blank, or -2 when there are more, or -1 when there is none:
      the counting loop of `delete`. */
  function Only(cs: seq<Tree>): (p: int)
    ensures p >= 0 ==> p < |cs| && !cs[p].Blank? && forall i :: 0 <= i < |cs| && i != p ==> cs[i].Blank?
    ensures p == -1 ==> forall i :: 0 <= i < |cs| ==> cs[i].Blank?
    ensures p < -1 ==> Two(cs)
  {
    if cs == [] then -1
    else
      var n := |cs| - 1;
      var p := Only(cs[..n]);
      assert forall i :: 0 <= i < n ==> cs[..n][i] == cs[i];
      if cs[n].Blank? then
        assert p < -1 ==> Two(cs) by {
          if p < -1 {
            var i, j :| 0 <= i < j < |cs[..n]| && !cs[..n][i].Blank? && !cs[..n][j].Blank?;
            assert !cs[i].Blank? && !cs[j].Blank?;
          }
        }
        p
      else if p == -1 then n
      else
        assert Two(cs) by {
          if p >= 0 {
            assert !cs[p].Blank? && !cs[n].Blank?;
          } else {
            var i, j :| 0 <= i < j < |cs[..n]| && !cs[..n][i].Blank? && !cs[..n][j].Blank?;
            assert !cs[i].Blank? && !cs[j].Blank?;
          }
        }
        -2
  }

  /** A full node after a deletion: with one child left it becomes a short node. */
  function Reduce(cs: seq<Tree>): Tree
    requires |cs| == 17
  {
    var p := Only(cs);
    if p < 0 then Fork(cs)
    else if p != 16 && cs[p].Path? then Path([p] + cs[p].key, cs[p].child)
    else Path([p], cs[p])
  }

  /** A short node in front of a changed subtrie: two short nodes in a row are merged. */
  function Lead(k: seq<byte>, t: Tree): Tree
  {
    if t.Path? then Path(k + t.key, t.child) else Path(k, t)
  }

  /** `delete`. */
  function Remove(t: Tree, key: seq<byte>): Tree
    requires Sub(t, key)
    decreases t
  {
    match t
    case Blank => Blank
    case Item(_) => Blank
    case Path(k, c) =>
      if !(k <= key) then t
      else if k == key then Blank
      else
        SubPath(k, c, key);
        Lead(k, Remove(c, key[|k|..]))
    case Fork(cs) =>
      SubFork(cs, key);
      Reduce(cs[key[0] := Remove(cs[key[0]], key[1..])])
  }
}
