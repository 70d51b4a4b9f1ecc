/** Inserting and deleting keep the minimal form and change one key only, and the minimal form is
    unique: the tree is determined by its contents. */
module TrieLaws {
  import opened MachineTypes
  import opened Wrappers
  import opened HexKey
  import opened TrieTree

  /** The part of a short node beyond the nibble at `m`, as a child of a branch. */
  lemma TailChild(k: seq<byte>, c: Tree, m: nat)
    requires Solid(Path(k, c)) && m < |k|
    ensures k[m] <= 16
    ensures k[m] < 16 ==> Solid(Graft(k[m + 1..], c))
    ensures k[m] == 16 ==> k[m + 1..] == [] && Slot(c) && !c.Blank?
    ensures Nibbles(k[..m])
  {
    if Key(k) {
      KeyAt(k, m);
    }
  }

  lemma BranchSolid(k: seq<byte>, c: Tree, key: seq<byte>, m: nat, v: seq<byte>)
    requires Solid(Path(k, c)) && Key(key) && v != [] && m < |k| && m < |key|
    requires k[m] != key[m] && k[m] < 17 && key[m] < 17
    ensures Solid(Branch(k, c, key, m, v))
  {
    hide Solid;
    TailChild(k, c, m);
    assert Solid(Path(key, Item(v))) by { LeafSolid(key, v); }
    TailChild(key, Item(v), m);
    SolidNotBlank(Graft(k[m + 1..], c));
    SolidNotBlank(Graft(key[m + 1..], Item(v)));
    var cs := Branch(k, c, key, m, v).children;
    assert !cs[k[m]].Blank? && !cs[key[m]].Blank?;
    assert Two(cs) by {
      if k[m] < key[m] {
        assert !cs[k[m]].Blank? && !cs[key[m]].Blank?;
      } else {
        assert !cs[key[m]].Blank? && !cs[k[m]].Blank?;
      }
    }
    ForkSolid(cs);
  }

  lemma LeafSolid(key: seq<byte>, v: seq<byte>)
    requires Key(key) && v != []
    ensures Solid(Path(key, Item(v)))
  {
  }

  lemma SolidNotBlank(t: Tree)
    ensures Solid(t) ==> !t.Blank?
  {
  }

  lemma ForkSolid(cs: seq<Tree>)
    requires |cs| == 17 && Slot(cs[16]) && Two(cs)
    requires forall i :: 0 <= i < 16 ==> Minimal(cs[i])
    ensures Solid(Fork(cs))
  {
    assert forall i :: 0 <= i < 16 ==> Minimal(cs[i]);
  }

  lemma ExtSolid(k: seq<byte>, t: Tree)
    requires Nibbles(k) && Solid(t) && t.Fork?
    ensures Solid(Graft(k, t))
  {
  }

  /** `insert` keeps the minimal form. */
  lemma {:induction false} SetSolid(t: Tree, key: seq<byte>, v: seq<byte>)
    requires Sub(t, key) && v != []
    ensures key != [] ==> Solid(Set(t, key, v))
    ensures key == [] ==> Set(t, key, v) == Item(v)
    ensures t.Fork? && key != [] ==> Set(t, key, v).Fork?
    decreases t
  {
    if key != [] {
      match t
      case Blank =>
      case Path(k, c) =>
        var m := PrefixLen(key, k);
        if m == |k| {
          assert key[..m] == k;
          SubPath(k, c, key);
          KeyPrefix(k, key);
          SetSolid(c, key[m..], v);
        } else {
          MismatchInside(key, k);
          BranchSolid(k, c, key, m, v);
          KeyAt(key, m);
          ExtSolid(key[..m], Branch(k, c, key, m, v));
        }
      case Fork(cs) =>
        SubFork(cs, key);
        KeyTail(key);
        SetSolid(cs[key[0]], key[1..], v);
        var ds := cs[key[0] := Set(cs[key[0]], key[1..], v)];
        var i, j :| 0 <= i < j < |cs| && !cs[i].Blank? && !cs[j].Blank?;
        assert !ds[i].Blank? && !ds[j].Blank?;
        assert forall i :: 0 <= i < 16 ==> Minimal(ds[i]);
        ForkSolid(ds);
    }
  }

  lemma GetPath(k: seq<byte>, c: Tree, key: seq<byte>)
    requires Solid(Path(k, c)) && Key(key)
    ensures k <= key ==> Sub(c, key[|k|..]) && Get(Path(k, c), key) == Get(c, key[|k|..])
    ensures !(k <= key) ==> Get(Path(k, c), key) == None
  {
    if k <= key {
      SubPath(k, c, key);
    }
  }

  lemma GetFork(cs: seq<Tree>, key: seq<byte>)
    requires Solid(Fork(cs)) && Key(key)
    ensures |cs| == 17 && key[0] < 17 && Sub(cs[key[0]], key[1..])
    ensures Get(Fork(cs), key) == Get(cs[key[0]], key[1..])
  {
    SubFork(cs, key);
  }

  lemma SetFork(cs: seq<Tree>, key: seq<byte>, v: seq<byte>)
    requires Solid(Fork(cs)) && Key(key)
    ensures |cs| == 17 && key[0] < 17 && Sub(cs[key[0]], key[1..])
    ensures Set(Fork(cs), key, v) == Fork(cs[key[0] := Set(cs[key[0]], key[1..], v)])
  {
    SubFork(cs, key);
  }

  lemma SetPath(k: seq<byte>, c: Tree, key: seq<byte>, v: seq<byte>)
    requires Solid(Path(k, c)) && Key(key)
    ensures k <= key ==> Sub(c, key[|k|..]) && Set(Path(k, c), key, v) == Path(k, Set(c, key[|k|..], v))
    ensures PrefixLen(key, k) == |k| <==> k <= key
  {
    if k <= key {
      SubPath(k, c, key);
      assert key[..|k|] == k == k[..|k|];
      PrefixLenUnique(key, k, |k|);
    }
    assert k[..|k|] == k;
  }

  lemma GetGraft(k: seq<byte>, c: Tree, key: seq<byte>)
    requires Sub(Graft(k, c), key) && (key == [] ==> k == [])
    ensures k <= key ==> Sub(c, key[|k|..])
    ensures Get(Graft(k, c), key) == if k <= key then Get(c, key[|k|..]) else None
  {
    if k == [] {
      assert key[0..] == key;
    } else if k <= key {
      SubPath(k, c, key);
    }
  }

  lemma HeadDiffers(a: seq<byte>, b: seq<byte>)
    requires a != [] && b != [] && a[0] != b[0]
    ensures !(a <= b)
  {
  }

  lemma NotPrefix(a: seq<byte>, b: seq<byte>, m: nat)
    requires m <= |a| && !(a[..m] <= b)
    ensures !(a <= b)
  {
  }

  /** What the branch holds below the nibble of the new key. */
  lemma GetNew(tail: seq<byte>, v: seq<byte>, rest: seq<byte>)
    requires v != [] && (Key(tail) || tail == []) && (tail == [] <==> rest == []) && (Key(rest) || rest == [])
    ensures Sub(Graft(tail, Item(v)), rest)
    ensures Get(Graft(tail, Item(v)), rest) == if rest == tail then Some(v) else None
  {
    if tail != [] && tail <= rest {
      KeyPrefix(tail, rest);
    }
  }

  lemma GetOld(k: seq<byte>, c: Tree, m: nat, rest: seq<byte>)
    requires Solid(Path(k, c)) && m < |k| && Key(rest) && rest[0] == k[m]
    ensures Sub(Graft(k[m + 1..], c), rest[1..])
    ensures k[m..] <= rest ==> Sub(c, rest[|k| - m..])
    ensures Get(Graft(k[m + 1..], c), rest[1..]) == if k[m..] <= rest then Get(c, rest[|k| - m..]) else None
  {
    hide Solid, Get, Nibbles;
    var tail := rest[1..];
    KeyTail(rest);
    TailChild(k, c, m);
    GetGraft(k[m + 1..], c, tail);
    assert rest == [k[m]] + tail && k[m..] == [k[m]] + k[m + 1..];
    PrefixCons(k[m], k[m + 1..], tail);
    if k[m..] <= rest {
      assert rest[|k| - m..] == tail[|k| - m - 1..];
    }
  }

  lemma BranchAt(k: seq<byte>, c: Tree, key: seq<byte>, m: nat, v: seq<byte>, i: nat)
    requires m < |k| && m < |key| && k[m] < 17 && key[m] < 17 && k[m] != key[m] && i < 17
    ensures var cs := Branch(k, c, key, m, v).children;
            |cs| == 17 && cs[i] == if i == key[m] then Graft(key[m + 1..], Item(v))
                                   else if i == k[m] then Graft(k[m + 1..], c) else Blank
  {
  }

  lemma GetNewAt(key: seq<byte>, m: nat, v: seq<byte>, rest: seq<byte>)
    requires Key(key) && v != [] && m < |key| && Key(rest) && rest[0] == key[m]
    ensures Sub(Graft(key[m + 1..], Item(v)), rest[1..])
    ensures Get(Graft(key[m + 1..], Item(v)), rest[1..]) == if rest == key[m..] then Some(v) else None
  {
    hide Get, Nibbles;
    KeyAt(key, m);
    KeyTail(rest);
    GetNew(key[m + 1..], v, rest[1..]);
    assert rest == [key[m]] + rest[1..] && key[m..] == [key[m]] + key[m + 1..];
  }

  /** Reading from the branch: the two keys part at the index `m`. */
  lemma GetBranch(k: seq<byte>, c: Tree, key: seq<byte>, m: nat, v: seq<byte>, rest: seq<byte>)
    requires Solid(Path(k, c)) && Key(key) && v != [] && m < |k| && m < |key|
    requires k[m] != key[m] && k[m] < 17 && key[m] < 17
    requires Key(rest)
    ensures Solid(Branch(k, c, key, m, v))
    ensures k[m..] <= rest ==> Sub(c, rest[|k| - m..])
    ensures Get(Branch(k, c, key, m, v), rest) ==
            if rest == key[m..] then Some(v)
            else if k[m..] <= rest then Get(c, rest[|k| - m..]) else None
  {
    hide Solid, Get, Graft, Nibbles, Key;
    BranchSolid(k, c, key, m, v);
    var cs := Branch(k, c, key, m, v).children;
    GetFork(cs, rest);
    KeyNotEmpty(rest);
    BranchAt(k, c, key, m, v, rest[0]);
    assert key[m..][0] == key[m] && k[m..][0] == k[m];
    if rest[0] == key[m] {
      GetNewAt(key, m, v, rest);
      HeadDiffers(k[m..], rest);
    } else if rest[0] == k[m] {
      GetOld(k, c, m, rest);
    } else {
      HeadDiffers(k[m..], rest);
      BlankAnywhere(rest[1..]);
    }
  }

  lemma BlankAnywhere(key: seq<byte>)
    requires Sub(Blank, key)
    ensures Get(Blank, key) == None
  {
  }

  lemma GetBlank(key: seq<byte>)
    requires Key(key) || key == []
    ensures Get(Blank, key) == None
  {
  }

  lemma PrefixCons(x: byte, a: seq<byte>, b: seq<byte>)
    ensures [x] + a <= [x] + b <==> a <= b
  {
    if [x] + a <= [x] + b {
      assert forall i :: 0 <= i < |a| ==> a[i] == ([x] + a)[i + 1] == ([x] + b)[i + 1];
    }
  }

  lemma SplitPrefix(k: seq<byte>, key: seq<byte>, m: nat)
    requires m <= |k| && m <= |key|
    ensures k <= key <==> k[..m] == key[..m] && k[m..] <= key[m..]
  {
    assert k == k[..m] + k[m..] && key == key[..m] + key[m..];
    if k <= key {
      assert forall i :: 0 <= i < |k| - m ==> k[m..][i] == key[m..][i];
    }
  }

  lemma SetSplit(k: seq<byte>, c: Tree, key: seq<byte>, v: seq<byte>)
    requires Solid(Path(k, c)) && Key(key) && v != [] && PrefixLen(key, k) < |k|
    ensures var m := PrefixLen(key, k);
            && m < |key| && k[m] < 17 && key[m] < 17 && k[m] != key[m] && Nibbles(key[..m])
            && Set(Path(k, c), key, v) == Graft(key[..m], Branch(k, c, key, m, v))
  {
    MismatchInside(key, k);
    KeyAt(key, PrefixLen(key, k));
  }

  /** The case that the other key shares the common prefix of the two keys. */
  lemma GetSetInside(k: seq<byte>, c: Tree, key: seq<byte>, m: nat, v: seq<byte>, other: seq<byte>)
    requires Solid(Path(k, c)) && Key(key) && Key(other) && v != [] && m < |k| && m < |key| && m <= |other|
    requires k[m] < 17 && key[m] < 17 && k[m] != key[m]
    requires Nibbles(key[..m]) && key[..m] == k[..m] && key[..m] == other[..m]
    ensures Solid(Branch(k, c, key, m, v)) && Key(other[m..])
    ensures Get(Branch(k, c, key, m, v), other[m..]) == if other == key then Some(v) else Get(Path(k, c), other)
  {
    hide Solid, Branch, Get, Key, Nibbles, PrefixLen;
    RestIsKey(other[..m], other);
    GetBranch(k, c, key, m, v, other[m..]);
    GetPath(k, c, other);
    SplitPrefix(k, other, m);
    assert other == other[..m] + other[m..] && key == key[..m] + key[m..];
    if k[m..] <= other[m..] {
      assert other[m..][|k| - m..] == other[|k|..];
    }
  }

  lemma GetSetSplit(k: seq<byte>, c: Tree, key: seq<byte>, v: seq<byte>, other: seq<byte>)
    requires Solid(Path(k, c)) && Key(key) && Key(other) && v != [] && PrefixLen(key, k) < |k|
    ensures Solid(Set(Path(k, c), key, v))
    ensures Get(Set(Path(k, c), key, v), other) == if other == key then Some(v) else Get(Path(k, c), other)
  {
    hide Solid, Branch, Get, Set, Graft, Key, Nibbles, PrefixLen;
    SetSolid(Path(k, c), key, v);
    SetSplit(k, c, key, v);
    var m := PrefixLen(key, k);
    KeyNotEmpty(other);
    GetGraft(key[..m], Branch(k, c, key, m, v), other);
    if key[..m] <= other {
      GetSetInside(k, c, key, m, v, other);
    } else {
      GetPath(k, c, other);
      NotPrefix(k, other, m);
    }
  }

  lemma KeyNotEmpty(key: seq<byte>)
    requires Key(key)
    ensures key != []
  {
  }

  lemma RestIsKey(k: seq<byte>, key: seq<byte>)
    requires Key(key) && k <= key && Nibbles(k)
    ensures Key(key[|k|..])
  {
    if k == [] {
      assert key[0..] == key;
    } else {
      KeyPrefix(k, key);
    }
  }

  /** Reading after `insert` gives the new value at its key and the old one everywhere else. */
  lemma {:induction false} GetSet(t: Tree, key: seq<byte>, v: seq<byte>, other: seq<byte>)
    requires Sub(t, key) && Sub(t, other) && v != [] && (key == [] <==> other == [])
    ensures Sub(Set(t, key, v), other)
    ensures Get(Set(t, key, v), other) == if other == key then Some(v) else Get(t, other)
    decreases t
  {
    SetSolid(t, key, v);
    if key != [] {
      match t
      case Blank =>
        GetNew(key, v, other);
      case Path(k, c) =>
        SetPath(k, c, key, v);
        if k <= key {
          if k <= other {
            SubPath(k, c, other);
            KeyPrefix(k, key);
            KeyPrefix(k, other);
            GetSet(c, key[|k|..], v, other[|k|..]);
          }
          GetSetMatch(k, c, key, v, other);
        } else {
          GetSetSplit(k, c, key, v, other);
        }
      case Fork(cs) =>
        SubFork(cs, key);
        SubFork(cs, other);
        KeyTail(key);
        KeyTail(other);
        if key[0] == other[0] {
          GetSet(cs[key[0]], key[1..], v, other[1..]);
        }
        GetSetFork(cs, key, v, other);
    }
  }

  lemma GetSetMatch(k: seq<byte>, c: Tree, key: seq<byte>, v: seq<byte>, other: seq<byte>)
    requires Solid(Path(k, c)) && Key(key) && Key(other) && v != [] && k <= key
    requires Sub(c, key[|k|..]) && Solid(Set(Path(k, c), key, v))
    requires k <= other ==> Sub(c, other[|k|..]) && Sub(Set(c, key[|k|..], v), other[|k|..])
    requires k <= other ==> Get(Set(c, key[|k|..], v), other[|k|..]) ==
                            if other[|k|..] == key[|k|..] then Some(v) else Get(c, other[|k|..])
    ensures Get(Set(Path(k, c), key, v), other) == if other == key then Some(v) else Get(Path(k, c), other)
  {
    hide Solid, Get, Set, Key;
    SetPath(k, c, key, v);
    GetPath(k, c, other);
    GetPath(k, Set(c, key[|k|..], v), other);
    assert key == k + key[|k|..];
    if k <= other {
      assert other == k + other[|k|..];
    }
  }

  lemma GetSetFork(cs: seq<Tree>, key: seq<byte>, v: seq<byte>, other: seq<byte>)
    requires Solid(Fork(cs)) && Key(key) && Key(other) && v != [] && key[0] < 17 && other[0] < 17
    requires Sub(cs[key[0]], key[1..]) && Sub(cs[other[0]], other[1..]) && Solid(Set(Fork(cs), key, v))
    requires key[0] == other[0] ==> Sub(Set(cs[key[0]], key[1..], v), other[1..])
    requires key[0] == other[0] ==> Get(Set(cs[key[0]], key[1..], v), other[1..]) ==
                                    if other[1..] == key[1..] then Some(v) else Get(cs[other[0]], other[1..])
    ensures Get(Set(Fork(cs), key, v), other) == if other == key then Some(v) else Get(Fork(cs), other)
  {
    hide Solid, Get, Set, Key;
    SetFork(cs, key, v);
    GetFork(cs, other);
    GetFork(Set(Fork(cs), key, v).children, other);
    KeyNotEmpty(key);
    KeyNotEmpty(other);
    assert key == [key[0]] + key[1..] && other == [other[0]] + other[1..];
  }

  lemma KeyConcat(k: seq<byte>, l: seq<byte>)
    requires Nibbles(k)
    ensures Key(l) ==> Key(k + l)
    ensures k != [] && Nibbles(l) ==> Ext(k + l)
  {
    if Key(l) {
      assert (k + l)[..|k + l| - 1] == k + l[..|l| - 1];
    }
  }

  lemma LeadSolid(k: seq<byte>, t: Tree)
    requires Ext(k) && Solid(t)
    ensures Solid(Lead(k, t))
  {
    if t.Path? {
      KeyConcat(k, t.key);
    }
  }

  lemma {:induction false} GetLead(k: seq<byte>, t: Tree, key: seq<byte>)
    requires Ext(k) && Solid(t) && Key(key)
    ensures Solid(Lead(k, t))
    ensures k <= key ==> Key(key[|k|..])
    ensures Get(Lead(k, t), key) == if k <= key then Get(t, key[|k|..]) else None
  {
    hide Get, Solid, Key, Nibbles;
    LeadSolid(k, t);
    ExtNibbles(k);
    if k <= key {
      RestIsKey(k, key);
    }
    var lead := Lead(k, t);
    GetPath(lead.key, lead.child, key);
    if t.Path? {
      assert lead.key == k + t.key;
      if k <= key {
        GetPath(t.key, t.child, key[|k|..]);
        SplitPrefix(lead.key, key, |k|);
        assert lead.key[..|k|] == k && lead.key[|k|..] == t.key;
        if t.key <= key[|k|..] {
          assert key[|k|..][|t.key|..] == key[|k| + |t.key|..];
        }
      } else {
        assert lead.key[..|k|] == k;
        NotPrefix(lead.key, key, |k|);
      }
    }
  }

  lemma ExtNibbles(k: seq<byte>)
    ensures Ext(k) <==> k != [] && Nibbles(k)
  {
  }

  /** The children that `delete` leaves in a full node before reducing it. */
  predicate Remains(cs: seq<Tree>)
  {
    && |cs| == 17 && Slot(cs[16])
    && (forall i :: 0 <= i < 16 ==> Minimal(cs[i]))
    && exists i :: 0 <= i < 17 && !cs[i].Blank?
  }

  lemma ReduceIs(cs: seq<Tree>)
    requires Remains(cs)
    ensures var p := Only(cs);
            && p != -1
            && (p < -1 ==> Reduce(cs) == Fork(cs))
            && (0 <= p < 16 ==> Solid(cs[p]) && Reduce(cs) == Lead([p], cs[p]))
            && (p == 16 ==> cs[16].Item? && Reduce(cs) == Path([16], cs[16]))
    ensures Solid(Reduce(cs))
  {
    hide Solid;
    var p := Only(cs);
    if p < 0 {
      ForkSolid(cs);
    } else if p < 16 {
      assert Minimal(cs[p]);
      assert Ext([p]);
      LeadSolid([p], cs[p]);
    } else {
      assert [p][..0] == [];
      LeafSolid([p], cs[p].value);
    }
  }

  lemma GetReduce(cs: seq<Tree>, key: seq<byte>)
    requires Remains(cs) && Key(key)
    ensures Solid(Reduce(cs)) && key[0] < 17 && Sub(cs[key[0]], key[1..])
    ensures Get(Reduce(cs), key) == Get(cs[key[0]], key[1..])
  {
    hide Solid, Get, Reduce;
    ReduceIs(cs);
    KeyTail(key);
    var p, x, tail := Only(cs), key[0], key[1..];
    assert key == [x] + tail;
    assert x < 16 ==> Minimal(cs[x]);
    if p < -1 {
      GetFork(cs, key);
    } else {
      if x != p {
        GetBlank(tail);
        HeadDiffers([p], key);
      }
      if p < 16 {
        assert Ext([p]);
        GetLead([p], cs[p], key);
      } else {
        GetPath([p], cs[p], key);
        assert [p] <= key <==> x == p;
        assert key[|[p]|..] == tail;
      }
    }
  }

  lemma RemovePath(k: seq<byte>, c: Tree, key: seq<byte>)
    requires Solid(Path(k, c)) && Key(key)
    ensures !(k <= key) ==> Remove(Path(k, c), key) == Path(k, c)
    ensures k == key ==> Remove(Path(k, c), key) == Blank && c.Item?
    ensures k <= key && k != key ==> Ext(k) && c.Fork? && Solid(c) && Key(key[|k|..])
    ensures k <= key && k != key ==> Remove(Path(k, c), key) == Lead(k, Remove(c, key[|k|..]))
  {
    if k <= key {
      SubPath(k, c, key);
      KeyPrefix(k, key);
    }
  }

  lemma RemoveFork(cs: seq<Tree>, key: seq<byte>)
    requires Solid(Fork(cs)) && Key(key)
    ensures |cs| == 17 && key[0] < 17 && Sub(cs[key[0]], key[1..]) && (key[1..] == [] <==> key[0] == 16)
    ensures Remove(Fork(cs), key) == Reduce(cs[key[0] := Remove(cs[key[0]], key[1..])])
  {
    SubFork(cs, key);
    KeyTail(key);
  }

  lemma RemainsAfter(cs: seq<Tree>, x: nat, t: Tree)
    requires Solid(Fork(cs)) && x < 17 && (if x < 16 then Minimal(t) else Slot(t))
    ensures Remains(cs[x := t])
  {
    var i, j :| 0 <= i < j < |cs| && !cs[i].Blank? && !cs[j].Blank?;
    var ds := cs[x := t];
    assert i != x ==> !ds[i].Blank?;
    assert j != x ==> !ds[j].Blank?;
    assert forall i :: 0 <= i < 16 ==> Minimal(ds[i]);
  }

  /** `delete` keeps the minimal form. */
  lemma {:induction false} RemoveTrie(t: Tree, key: seq<byte>)
    requires Sub(t, key)
    ensures key != [] ==> Minimal(Remove(t, key))
    ensures key == [] ==> Remove(t, key) == Blank
    ensures t.Fork? && key != [] ==> Solid(Remove(t, key))
    decreases t
  {
    hide Solid, Remove;
    match t
    case Blank => RemoveNothing(t, key);
    case Item(_) => RemoveNothing(t, key);
    case Path(k, c) =>
      RemovePath(k, c, key);
      if k <= key && k != key {
        RemoveTrie(c, key[|k|..]);
        LeadSolid(k, Remove(c, key[|k|..]));
      }
    case Fork(cs) =>
      RemoveFork(cs, key);
      RemoveTrie(cs[key[0]], key[1..]);
      RemainsAfter(cs, key[0], Remove(cs[key[0]], key[1..]));
      ReduceIs(cs[key[0] := Remove(cs[key[0]], key[1..])]);
  }

  lemma RemoveNothing(t: Tree, key: seq<byte>)
    requires Sub(t, key) && (t.Blank? || t.Item?)
    ensures Remove(t, key) == Blank
    ensures t.Item? ==> key == []
  {
  }

  /** Reading after `delete` finds nothing at its key and the old value everywhere else. */
  lemma {:induction false} GetRemove(t: Tree, key: seq<byte>, other: seq<byte>)
    requires Sub(t, key) && Sub(t, other) && (key == [] <==> other == [])
    ensures Sub(Remove(t, key), other)
    ensures Get(Remove(t, key), other) == if other == key then None else Get(t, other)
    decreases t
  {
    hide Solid, Remove, Get, Reduce, Lead;
    RemoveTrie(t, key);
    match t
    case Blank =>
      RemoveNothing(t, key);
      GetBlank(other);
    case Item(_) =>
      RemoveNothing(t, key);
      GetBlank(other);
    case Path(k, c) =>
      NotItem(t, key);
      RemovePath(k, c, key);
      GetPath(k, c, other);
      if k == key {
        GetBlank(other);
        if k <= other {
          KeyPrefix(k, other);
        }
      } else if k <= key {
        RemoveTrie(c, key[|k|..]);
        GetLead(k, Remove(c, key[|k|..]), other);
        if k <= other {
          KeyNotEmpty(key[|k|..]);
          KeyNotEmpty(other[|k|..]);
          GetRemove(c, key[|k|..], other[|k|..]);
          assert key == k + key[|k|..] && other == k + other[|k|..];
        }
      }
    case Fork(cs) =>
      NotItem(t, key);
      RemoveFork(cs, key);
      RemoveFork(cs, other);
      GetFork(cs, other);
      RemoveTrie(cs[key[0]], key[1..]);
      var r := Remove(cs[key[0]], key[1..]);
      RemainsAfter(cs, key[0], r);
      GetReduce(cs[key[0] := r], other);
      assert key == [key[0]] + key[1..] && other == [other[0]] + other[1..];
      if key[0] == other[0] {
        GetRemove(cs[key[0]], key[1..], other[1..]);
      }
  }

  lemma NotItem(t: Tree, key: seq<byte>)
    requires Sub(t, key) && (t.Path? || t.Fork?)
    ensures Key(key) && Solid(t)
  {
  }
}
