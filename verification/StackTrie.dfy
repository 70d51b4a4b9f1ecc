/** The streaming trie: keys arrive in ascending order, and a subtrie that can no longer change is
    replaced by its hash. */
module StackTrie {
  import opened MachineTypes
  import opened Wrappers
  import opened HexKey
  import opened ProtoWire
  import opened TrieNode
  import opened TrieTree
  import opened TrieLaws
  import opened Merkle
  import opened MerkleTrie

  datatype NodeType = EmptyNode | BranchNode | ExtNode | LeafNode | HashedNode

  /** What a hashed node keeps: the encoding if it is short, else its hash. */
  function Digested(t: Tree): seq<byte>
    requires Minimal(t)
  {
    if t.Blank? then EMPTY_ROOT else if |Enc(t)| < 32 then Enc(t) else SHA3(Enc(t))
  }

  class StackTrie {
    var nodeType: NodeType
    var val: seq<byte>
    var key: seq<byte>
    var keyOffset: nat
    var children: seq<StackTrie?>

    /** What the node stands for: the keys below it, from the node's offset on and terminated. */
    ghost var tree: Tree
    ghost var Repr: set<object>

    /** The children occupy separate parts of the heap. */
    ghost predicate Regions()
      reads this, Repr
    {
      && this in Repr && |children| == 16
      && (forall i :: 0 <= i < 16 && children[i] != null ==>
            children[i] in Repr && children[i].Repr <= Repr && this !in children[i].Repr)
      && (forall i, j :: 0 <= i < j < 16 && children[i] != null && children[j] != null ==>
            children[i].Repr !! children[j].Repr)
    }

    ghost predicate Valid()
      reads this, Repr
      decreases Repr
    {
      && Regions()
      && (forall i :: 0 <= i < 16 && children[i] != null ==> children[i].Valid())
      && Shape()
    }

    /** How the fields agree with the tree, for each type of node. */
    ghost predicate Shape()
      requires |children| == 16
      reads this, children
    {
      match nodeType
      case EmptyNode => tree == Blank && key == [] && Childless()
      case LeafNode => Nibbles(key) && val != [] && tree == Path(key + [TERM], Item(val)) && Childless()
      case ExtNode =>
        && Ext(key) && children[0] != null && children[0].nodeType == BranchNode
        && tree == Path(key, children[0].tree)
        && forall i :: 1 <= i < 16 ==> children[i] == null
      case BranchNode =>
        && key == [] && tree.Fork? && Solid(tree) && |tree.children| == 17 && tree.children[16].Blank?
        && forall i :: 0 <= i < 16 ==>
             if children[i] == null then tree.children[i].Blank?
             else Solid(tree.children[i]) && tree.children[i] == children[i].tree
      case HashedNode => key == [] && Minimal(tree) && val == Digested(tree) && Childless()
    }

    ghost predicate Childless()
      requires |children| == 16
      reads this
    {
      forall i :: 0 <= i < 16 ==> children[i] == null
    }

    constructor ()
      ensures Valid() && fresh(Repr) && Repr == {this} && nodeType == EmptyNode && keyOffset == 0
      ensures tree == Blank
    {
      nodeType := EmptyNode;
      val := [];
      key := [];
      keyOffset := 0;
      children := seq(16, _ => null);
      tree := Blank;
      Repr := {this};
    }

    /** The end of `hash`: the node is cleared and keeps its encoding or its hash. */
    method Finish(enc: seq<byte>)
      requires this in Repr && |children| == 16 && Childless() && Solid(tree) && enc == Enc(tree)
      modifies this
      ensures Valid() && nodeType == HashedNode && tree == old(tree) && Repr == old(Repr) && keyOffset == old(keyOffset)
    {
      hide Enc, Solid;
      SolidNotBlank(tree);
      key := [];
      nodeType := HashedNode;
      val := if |enc| < 32 then enc else SHA3(enc);
    }

    /** `hash`. The asserts are the source's panics. */
    method Seal()
      requires Valid()
      modifies Repr
      ensures Valid() && nodeType == HashedNode
      ensures tree == old(tree) && Repr == old(Repr) && keyOffset == old(keyOffset)
      decreases Repr, 1
    {
      hide Enc, Solid, Marshal, HexPrefix, EncodeNode, Nibbles, Hex;
      match nodeType
      case HashedNode =>
      case EmptyNode =>
        val := EMPTY_ROOT;
        nodeType := HashedNode;
      case LeafNode =>
        LeafTree(key, val);
        var enc := EncodeNode(Short(HexPrefix(key + [TERM]), Value(val), NO_FLAG));
        assert enc.Ok?;
        Finish(enc.value);
      case ExtNode =>
        SealExt();
      case BranchNode =>
        SealBranch();
    }

    method SealExt()
      requires Valid() && nodeType == ExtNode
      modifies Repr
      ensures Valid() && nodeType == HashedNode
      ensures tree == old(tree) && Repr == old(Repr) && keyOffset == old(keyOffset)
      decreases Repr, 0
    {
      hide Enc, Solid, Marshal, HexPrefix, EncodeNode, Nibbles, Hex;
      var child := children[0];
      assert child.Valid();
      ExtTree(key, child.tree);
      child.Seal();
      var bytes := child.val;
      var target := if |bytes| < 32 then Value(bytes) else Hash(bytes);
      var enc := EncodeNode(Short(HexPrefix(key), target, NO_FLAG));
      assert enc.Ok?;
      children := children[0 := null];
      Finish(enc.value);
    }

    method SealBranch()
      requires Valid() && nodeType == BranchNode
      modifies Repr
      ensures Valid() && nodeType == HashedNode
      ensures tree == old(tree) && Repr == old(Repr) && keyOffset == old(keyOffset)
      decreases Repr, 0
    {
      hide Enc, Solid, EncodeNode, ChildToProto, Kid, FromSealed, Digested;
      ghost var cs, kids := tree.children, children;
      ForkTree(tree);
      var nodes: seq<Node> := [];
      for i := 0 to 16
        invariant |nodes| == i && |children| == 16
        invariant tree == old(tree) && Repr == old(Repr) && keyOffset == old(keyOffset)
        invariant forall j :: 0 <= j < 16 ==> children[j] == if j < i then null else kids[j]
        invariant forall j :: i <= j < 16 && kids[j] != null ==>
                    kids[j].Valid() && kids[j].Repr == old(kids[j].Repr) && kids[j].tree == cs[j]
        invariant forall j :: 0 <= j < i ==> ChildToProto(nodes[j]) == Ok(Kid(cs[j]))
      {
        var child := children[i];
        if child == null {
          BlankKid();
          nodes := nodes + [Value([])];
        } else {
          child.Seal();
          FromSealedMeans(cs[i]);
          var n := FromSealed(child.val);
          assert n.Some?;
          nodes := nodes + [n.value];
          children := children[i := null];
        }
      }
      BlankKid();
      FullEncodes(nodes + [Value([])], NO_FLAG, cs);
      var enc := EncodeNode(Full(nodes + [Value([])], NO_FLAG));
      assert enc.Ok?;
      Finish(enc.value);
    }

    /** The path of the key `last` through the node is not hashed, and nothing lies beyond it. */
    ghost predicate Open(last: seq<byte>)
      requires Valid()
      reads this, Repr
      decreases Repr
    {
      match nodeType
      case EmptyNode => false
      case HashedNode => false
      case LeafNode => keyOffset <= |last| && last[keyOffset..] == key
      case ExtNode =>
        && keyOffset + |key| <= |last| && last[keyOffset..keyOffset + |key|] == key
        && children[0].keyOffset == keyOffset + |key| && children[0].Open(last)
      case BranchNode =>
        && keyOffset < |last| && last[keyOffset] < 16
        && children[last[keyOffset]] != null && children[last[keyOffset]].keyOffset == keyOffset + 1
        && children[last[keyOffset]].Open(last)
        && forall i :: last[keyOffset] < i < 16 ==> children[i] == null
    }

    /** `getDiffIndex`. */
    method GetDiffIndex(path: seq<byte>) returns (d: nat)
      requires keyOffset + |key| <= |path|
      ensures d <= |key| && key[..d] == path[keyOffset..keyOffset + d]
      ensures d < |key| ==> key[d] != path[keyOffset + d]
    {
      d := 0;
      while d < |key| && key[d] == path[keyOffset + d]
        invariant d <= |key| && key[..d] == path[keyOffset..keyOffset + d]
      {
        d := d + 1;
      }
    }

    /** A branch with two children, the second of which has the larger index. */
    method Branching(orig: StackTrie, origIdx: nat, next: StackTrie, newIdx: nat, ghost t: Tree)
      requires orig.Valid() && next.Valid() && orig.Repr !! next.Repr && this !in orig.Repr && this !in next.Repr
      requires origIdx < newIdx < 16 && Solid(t) && t.Fork? && |t.children| == 17
      requires Solid(orig.tree) && Solid(next.tree)
      requires t.children[origIdx] == orig.tree && t.children[newIdx] == next.tree
      requires forall i :: 0 <= i < 17 && i != origIdx && i != newIdx ==> t.children[i].Blank?
      modifies this
      ensures Valid() && nodeType == BranchNode && tree == t && Repr == {this} + orig.Repr + next.Repr
      ensures keyOffset == old(keyOffset) && |children| == 16 && children[newIdx] == next
      ensures forall i :: newIdx < i < 16 ==> children[i] == null
    {
      hide Solid, Enc, Digested, Minimal, Nibbles, Ext;
      nodeType := BranchNode;
      key := [];
      val := [];
      children := seq(16, _ => null);
      children := children[origIdx := orig][newIdx := next];
      assert forall i :: 0 <= i < 16 ==>
          children[i] == if i == origIdx then orig else if i == newIdx then next else null;
      tree := t;
      Repr := {this} + orig.Repr + next.Repr;
      assert Shape();
      assert Regions() by { hide Shape; }
    }

    lemma OpenBranch(path: seq<byte>, next: StackTrie)
      requires Valid() && nodeType == BranchNode && next.Valid() && next.Open(path) && next.keyOffset == keyOffset + 1
      requires keyOffset < |path| && path[keyOffset] < 16 && children[path[keyOffset]] == next
      requires forall i :: path[keyOffset] < i < 16 ==> children[i] == null
      ensures Open(path)
    {
    }

    lemma OpenExt(path: seq<byte>, child: StackTrie)
      requires Valid() && nodeType == ExtNode && child.Valid() && child.Open(path)
      requires children[0] == child && child.keyOffset == keyOffset + |key| && Along(key, path, keyOffset)
      ensures Open(path)
    {
    }

    lemma ExtFacts(last: seq<byte>)
      requires Valid() && nodeType == ExtNode && Open(last)
      ensures this in Repr && |children| == 16 && children[0] != null && Ext(key) && key != []
      ensures var child := children[0];
              && child.Valid() && child in Repr && child.Repr <= Repr && this !in child.Repr && child in child.Repr
              && child.nodeType == BranchNode && child.tree.Fork? && Solid(child.tree) && tree == Path(key, child.tree)
              && child.Open(last) && child.keyOffset == keyOffset + |key|
    {
      hide Solid, Enc, Digested, Minimal, Nibbles;
      assert children[0].Valid();
    }

    lemma LeafFacts(last: seq<byte>)
      requires Valid() && nodeType == LeafNode && Open(last)
      ensures Nibbles(key) && val != [] && tree == Path(key + [TERM], Item(val)) && this in Repr
      ensures keyOffset + |key| == |last| && last[keyOffset..keyOffset + |key|] == key
    {
    }

    /** The node and its children other than the one at the index are in order. */
    ghost predicate Others(idx: nat)
      reads this, Repr
    {
      && this in Repr && |children| == 16
      && (forall i :: 0 <= i < 16 && i != idx && children[i] != null ==>
            children[i] in Repr && children[i].Repr <= Repr && this !in children[i].Repr && children[i].Valid())
      && (forall i, j :: 0 <= i < j < 16 && i != idx && j != idx && children[i] != null && children[j] != null ==>
            children[i].Repr !! children[j].Repr)
    }

    /** Puts a child that was inserted into, or made, at its place in a branch. */
    method Adopt(idx: nat, child: StackTrie, ghost t: Tree)
      requires Others(idx) && nodeType == BranchNode && key == [] && idx < 16
      requires child.Valid() && this !in child.Repr && Solid(child.tree)
      requires forall i :: 0 <= i < 16 && i != idx && children[i] != null ==> children[i].Repr !! child.Repr
      requires tree.Fork? && |tree.children| == 17 && tree.children[16].Blank?
      requires Solid(t) && t == Fork(tree.children[idx := child.tree])
      requires forall i :: 0 <= i < 16 && i != idx ==>
                 if children[i] == null then tree.children[i].Blank?
                 else Solid(tree.children[i]) && tree.children[i] == children[i].tree
      modifies this
      ensures Valid() && nodeType == BranchNode && tree == t && keyOffset == old(keyOffset)
      ensures Repr == old(Repr) + child.Repr && children == old(children)[idx := child]
    {
      hide Solid, Enc, Digested, Minimal, Nibbles, Ext;
      children := children[idx := child];
      Repr := Repr + child.Repr;
      tree := t;
      assert Shape();
      assert Regions() by { hide Shape; }
    }

    /** Inserting below a branch where there is no child yet. */
    method InsertNew(path: seq<byte>, value: seq<byte>)
      requires Valid() && Nibbles(path) && value != [] && keyOffset < |path| && nodeType == BranchNode
      requires path[keyOffset] < 16 && forall i :: path[keyOffset] < i < 16 ==> children[i] == null
      requires children[path[keyOffset]] == null
      modifies Repr
      ensures Valid() && fresh(Repr - old(Repr)) && keyOffset == old(keyOffset) && Open(path) && nodeType == BranchNode
      ensures Sub(old(tree), Suffix(path, keyOffset)) && tree == Set(old(tree), Suffix(path, keyOffset), value)
      decreases |path| - keyOffset, 0
    {
      hide Solid, Set, Nibbles, Enc, Sub, PrefixLen, Digested, Minimal, Ext, StackTrie.Open;
      SetBelow(tree, path, keyOffset, value);
      var child := new StackTrie();
      child.keyOffset := keyOffset + 1;
      child.Insert(path, value, []);
      assert Others(path[keyOffset]) by { hide Shape; }
      Adopt(path[keyOffset], child, Set(tree, Suffix(path, keyOffset), value));
      OpenBranch(path, child);
    }

    /** Inserting below a branch into the child on the path of the last key. */
    method InsertOld(path: seq<byte>, value: seq<byte>, ghost last: seq<byte>)
      requires Valid() && Nibbles(path) && value != [] && keyOffset < |path| && nodeType == BranchNode
      requires path[keyOffset] < 16 && forall i :: path[keyOffset] < i < 16 ==> children[i] == null
      requires var child := children[path[keyOffset]];
               && child != null && child.Open(last) && child.keyOffset == keyOffset + 1
               && Ascends(last, path) && child.keyOffset <= PrefixLen(last, path)
      modifies Repr
      ensures Valid() && fresh(Repr - old(Repr)) && keyOffset == old(keyOffset) && Open(path) && nodeType == BranchNode
      ensures Sub(old(tree), Suffix(path, keyOffset)) && tree == Set(old(tree), Suffix(path, keyOffset), value)
      decreases |path| - keyOffset, 0
    {
      hide Solid, Set, Nibbles, Enc, Sub, PrefixLen, Digested, Minimal, Ext, StackTrie.Open;
      SetBelow(tree, path, keyOffset, value);
      var child := children[path[keyOffset]];
      child.Insert(path, value, last);
      assert Others(path[keyOffset]) by { hide Shape; }
      Adopt(path[keyOffset], child, Set(tree, Suffix(path, keyOffset), value));
      OpenBranch(path, child);
    }

    method InsertBranch(path: seq<byte>, value: seq<byte>, ghost last: seq<byte>)
      requires Valid() && Nibbles(path) && value != [] && keyOffset <= |path| && nodeType == BranchNode
      requires Open(last) && Ascends(last, path) && keyOffset <= PrefixLen(last, path)
      modifies Repr
      ensures Valid() && fresh(Repr - old(Repr)) && keyOffset == old(keyOffset) && Open(path) && nodeType == BranchNode
      ensures Sub(old(tree), Suffix(path, keyOffset)) && tree == Set(old(tree), Suffix(path, keyOffset), value)
      decreases |path| - keyOffset, 1
    {
      hide Solid, Set, Nibbles, Enc, Sub, PrefixLen, Digested, Minimal, Ext;
      NextIndex(last, path, keyOffset);
      var idx := path[keyOffset];
      SealElder(idx, last);
      if children[idx] == null {
        InsertNew(path, value);
      } else {
        InsertOld(path, value, last);
      }
    }

    method SealChild(i: nat)
      requires Valid() && nodeType == BranchNode && i < 16 && children[i] != null
      modifies children[i].Repr
      ensures Valid()
    {
      hide Solid, Enc, Digested, Minimal, Nibbles, Ext;
      children[i].Seal();
      assert Regions() by { hide Shape; }
      assert Shape();
    }

    /** Hashes the nearest child before the index. */
    method SealElder(idx: nat, ghost last: seq<byte>)
      requires Valid() && nodeType == BranchNode && idx < 16 && Open(last) && last[keyOffset] <= idx
      modifies Repr
      ensures Valid() && nodeType == BranchNode && tree == old(tree) && Repr == old(Repr) && keyOffset == old(keyOffset)
      ensures children == old(children) && forall i :: idx < i < 16 ==> children[i] == null
      ensures children[idx] != null ==>
          last[keyOffset] == idx && children[idx].keyOffset == keyOffset + 1 && children[idx].Open(last)
    {
      hide Solid, Enc;
      var i := idx - 1;
      while i >= 0
        invariant -1 <= i < idx
        invariant Valid() && nodeType == BranchNode && tree == old(tree) && Repr == old(Repr) &&
            keyOffset == old(keyOffset)
        invariant children == old(children)
        invariant Open(last)
      {
        if children[i] != null {
          if children[i].nodeType != HashedNode {
            SealChild(i);
          }
          return;
        }
        i := i - 1;
      }
    }

    /** Makes the node an extension in front of a branch. */
    method Extending(k: seq<byte>, child: StackTrie)
      requires Ext(k) && child.Valid() && child.nodeType == BranchNode && this !in child.Repr
      modifies this
      ensures Valid() && nodeType == ExtNode && key == k && |children| == 16 && children[0] == child &&
          keyOffset == old(keyOffset)
      ensures tree == Path(k, child.tree) && Repr == {this} + child.Repr
    {
      hide Solid, Enc, Digested, Minimal, Nibbles, Ext;
      nodeType := ExtNode;
      key := k;
      val := [];
      children := seq(16, _ => null);
      children := children[0 := child];
      assert forall i :: 0 <= i < 16 ==> children[i] == if i == 0 then child else null;
      tree := Path(k, child.tree);
      Repr := {this} + child.Repr;
      assert Shape();
      assert Regions() by { hide Shape; }
    }

    /** Puts a branch in the place of a leaf or an extension, at the index `d` of its key, with a new
        leaf for the new key and a shorter extension in front when there is a common prefix. */
    method Split(orig: StackTrie, d: nat, path: seq<byte>, value: seq<byte>, ghost b: Tree)
      requires orig.Valid() && this !in orig.Repr && Solid(orig.tree) && this in Repr
      requires Nibbles(path) && value != [] && d < |key| && keyOffset + d < |path|
      requires key[..d] == path[keyOffset..keyOffset + d] && key[d] < path[keyOffset + d] < 16
      requires Solid(b) && b.Fork? && |b.children| == 17
      requires b.children[key[d]] == orig.tree && b.children[path[keyOffset + d]] == Path(Suffix(path, keyOffset + d +
          1), Item(value))
      requires forall i :: 0 <= i < 17 && i != key[d] && i != path[keyOffset + d] ==> b.children[i].Blank?
      modifies this
      ensures Valid() && fresh(Repr - {this} - orig.Repr) && keyOffset == old(keyOffset) && Open(path)
      ensures tree == Graft(old(key[..d]), b)
    {
      hide Solid, Enc, Digested, Minimal, Nibbles, PrefixLen, StackTrie.Valid, StackTrie.Open, Regions, Shape;
      var origIdx, newIdx := key[d], path[keyOffset + d];
      NibblesFrom(path, keyOffset + d + 1);
      var next := NewLeaf(keyOffset + d + 1, path, value);
      LeafKey(path[keyOffset + d + 1..]);
      LeafSolid(Suffix(path, keyOffset + d + 1), value);
      NibblesSlice(path, keyOffset, keyOffset + d);
      if d == 0 {
        Branching(orig, origIdx, next, newIdx, b);
        OpenBranch(path, next);
      } else {
        SplitLater(orig, next, d, path, b);
      }
    }

    /** The common prefix stays in front of a new branch. */
    method SplitLater(orig: StackTrie, next: StackTrie, d: nat, path: seq<byte>, ghost b: Tree)
      requires orig.Valid() && next.Valid() && orig.Repr !! next.Repr && this !in orig.Repr && this !in next.Repr
      requires 0 < d < |key| && keyOffset + d < |path| && Nibbles(key[..d])
      requires key[..d] == path[keyOffset..keyOffset + d] && key[d] < path[keyOffset + d] < 16
      requires next.Open(path) && next.keyOffset == keyOffset + d + 1
      requires Solid(b) && b.Fork? && |b.children| == 17 && Solid(orig.tree) && Solid(next.tree)
      requires b.children[key[d]] == orig.tree && b.children[path[keyOffset + d]] == next.tree
      requires forall i :: 0 <= i < 17 && i != key[d] && i != path[keyOffset + d] ==> b.children[i].Blank?
      modifies this
      ensures Valid() && fresh(Repr - {this} - orig.Repr - next.Repr) && keyOffset == old(keyOffset) && Open(path)
      ensures tree == Path(old(key[..d]), b)
    {
      hide Solid, Enc, Digested, Minimal, Nibbles, PrefixLen, StackTrie.Valid, StackTrie.Open, Regions, Shape;
      var p := new StackTrie();
      p.keyOffset := keyOffset + d;
      p.Branching(orig, key[d], next, path[keyOffset + d], b);
      p.OpenBranch(path, next);
      Extending(key[..d], p);
      OpenExt(path, p);
    }

    method SplitLeaf(path: seq<byte>, value: seq<byte>, ghost last: seq<byte>)
      requires Valid() && Nibbles(path) && value != [] && keyOffset <= |path| && nodeType == LeafNode
      requires Open(last) && Ascends(last, path) && keyOffset <= PrefixLen(last, path)
      modifies Repr
      ensures Valid() && fresh(Repr - old(Repr)) && keyOffset == old(keyOffset) && Open(path)
      ensures Sub(old(tree), Suffix(path, keyOffset)) && tree == Set(old(tree), Suffix(path, keyOffset), value)
      decreases |path| - keyOffset, 1
    {
      hide Solid, Set, Nibbles, Enc, Sub, PrefixLen, Digested, Minimal, Branch, Ext, StackTrie.Valid, StackTrie.Open,
          Regions, Shape;
      LeafFacts(last);
      var d := GetDiffIndex(path);
      Parting(last, path, keyOffset, key, d);
      ghost var b := SplitLeafTree(key, val, path, keyOffset, d, value);
      var orig := SealedLeaf(d + 1, key, val);
      Split(orig, d, path, value, b);
    }

    method InsertExt(path: seq<byte>, value: seq<byte>, ghost last: seq<byte>)
      requires Valid() && Nibbles(path) && value != [] && keyOffset <= |path| && nodeType == ExtNode
      requires Open(last) && Ascends(last, path) && keyOffset <= PrefixLen(last, path)
      modifies Repr
      ensures Valid() && fresh(Repr - old(Repr)) && keyOffset == old(keyOffset) && Open(path)
      ensures Sub(old(tree), Suffix(path, keyOffset)) && tree == Set(old(tree), Suffix(path, keyOffset), value)
      decreases |path| - keyOffset, 1
    {
      hide Solid, Set, Nibbles, Enc, Sub, PrefixLen, Digested, Minimal, Branch;
      var d := GetDiffIndex(path);
      Parting(last, path, keyOffset, key, d);
      if d == |key| {
        InsertThrough(path, value, last);
      } else {
        SplitExt(path, value, d);
      }
    }

    /** The key runs along the whole extension. */
    method InsertThrough(path: seq<byte>, value: seq<byte>, ghost last: seq<byte>)
      requires Valid() && Nibbles(path) && value != [] && nodeType == ExtNode && Open(last) && Ascends(last, path)
      requires keyOffset + |key| <= PrefixLen(last, path) && Along(key, path, keyOffset)
      modifies Repr
      ensures Valid() && fresh(Repr - old(Repr)) && keyOffset == old(keyOffset) && Open(path)
      ensures Sub(old(tree), Suffix(path, keyOffset)) && tree == Set(old(tree), Suffix(path, keyOffset), value)
      decreases |path| - keyOffset, 0
    {
      hide Solid, Set, Nibbles, Enc, Sub, PrefixLen, Digested, Minimal, Ext, StackTrie.Valid, StackTrie.Open, Regions,
          Shape;
      ExtFacts(last);
      var child := children[0];
      SetThrough(key, child.tree, path, keyOffset, value);
      child.Insert(path, value, last);
      Extending(key, child);
      OpenExt(path, child);
    }

    method SplitExt(path: seq<byte>, value: seq<byte>, d: nat)
      requires Valid() && Nibbles(path) && value != [] && nodeType == ExtNode && keyOffset + |key| <= |path| &&
          d < |key|
      requires key[..d] == path[keyOffset..keyOffset + d] && key[d] < path[keyOffset + d] < 16
      modifies Repr
      ensures Valid() && fresh(Repr - old(Repr)) && keyOffset == old(keyOffset) && Open(path)
      ensures Sub(old(tree), Suffix(path, keyOffset)) && tree == Set(old(tree), Suffix(path, keyOffset), value)
    {
      hide Solid, Set, Nibbles, Enc, Sub, PrefixLen, Digested, Minimal, Branch;
      var n := children[0];
      assert n.Valid();
      ExtSolid(key, n.tree);
      ghost var b := SplitTree(key, n.tree, path, keyOffset, d, value);
      ExtTail(key, d);
      if d < |key| - 1 {
        n := NewExt(d + 1, key, n);
      }
      n.Seal();
      Split(n, d, path, value, b);
    }

    /** `insert`, of a key after all those inserted before, the last of which is `last`. */
    method Insert(path: seq<byte>, value: seq<byte>, ghost last: seq<byte>)
      requires Valid() && Nibbles(path) && value != [] && keyOffset <= |path|
      requires nodeType == EmptyNode || (Open(last) && Ascends(last, path) && keyOffset <= PrefixLen(last, path))
      modifies Repr
      ensures Valid() && fresh(Repr - old(Repr)) && keyOffset == old(keyOffset) && Open(path)
      ensures Sub(old(tree), Suffix(path, keyOffset)) && tree == Set(old(tree), Suffix(path, keyOffset), value)
      ensures old(nodeType) == BranchNode ==> nodeType == BranchNode
      decreases |path| - keyOffset, 2
    {
      hide Solid, Set, Nibbles, Enc, Sub;
      match nodeType
      case EmptyNode =>
        NibblesFrom(path, keyOffset);
        LeafKey(path[keyOffset..]);
        SetIntoBlank(Suffix(path, keyOffset), value);
        nodeType := LeafNode;
        key := path[keyOffset..];
        val := value;
        tree := Path(key + [TERM], Item(val));
      case BranchNode =>
        InsertBranch(path, value, last);
      case ExtNode =>
        InsertExt(path, value, last);
      case LeafNode =>
        SplitLeaf(path, value, last);
      case HashedNode =>
    }

    /** `TryUpdate`. The source panics on an empty value. */
    method TryUpdate(k: seq<byte>, value: seq<byte>, ghost last: seq<byte>)
      requires Valid() && keyOffset == 0 && value != []
      requires nodeType == EmptyNode || (Open(Unpack(last)) && Ascends(last, k))
      modifies Repr
      ensures Valid() && fresh(Repr - old(Repr)) && keyOffset == 0 && Open(Unpack(k))
      ensures Sub(old(tree), Spread(k)) && tree == Set(old(tree), Spread(k), value)
    {
      hide Solid, Set, Sub, PrefixLen, Nibbles, Ascends, StackTrie.Valid, StackTrie.Open, Regions, Shape;
      if nodeType != EmptyNode {
        UnpackAscends(last, k);
      }
      var nibbles := Spread(k);
      assert nibbles[..|nibbles| - 1] == Unpack(k);
      assert Suffix(Unpack(k), 0) == Spread(k);
      Insert(nibbles[..|nibbles| - 1], value, Unpack(last));
    }

    /** `Hash`: the root node is hashed even if it is small. */
    method HashRoot() returns (h: seq<byte>)
      requires Valid()
      modifies Repr
      ensures Valid() && tree == old(tree) && Minimal(tree) && h == Root(tree)
    {
      hide Solid, Enc;
      Seal();
      if |val| != 32 {
        return SHA3(val);
      }
      return val;
    }
  }

  lemma NibblesFrom(s: seq<byte>, k: nat)
    requires Nibbles(s) && k <= |s|
    ensures Nibbles(s[k..])
  {
  }

  lemma SetIntoBlank(key: seq<byte>, v: seq<byte>)
    requires Key(key)
    ensures Sub(Blank, key) && Set(Blank, key, v) == Path(key, Item(v))
  {
  }

  method NewLeaf(ko: nat, key: seq<byte>, val: seq<byte>) returns (st: StackTrie)
    requires ko <= |key| && Nibbles(key[ko..]) && val != []
    ensures fresh(st) && st.Valid() && st.Repr == {st} && st.nodeType == LeafNode && st.keyOffset == ko
    ensures st.Open(key) && st.tree == Path(key[ko..] + [TERM], Item(val))
  {
    hide Nibbles, Solid, Enc, Digested, Minimal, Ext;
    st := new StackTrie();
    st.nodeType := LeafNode;
    st.keyOffset := ko;
    st.key := key[ko..];
    st.val := val;
    st.tree := Path(key[ko..] + [TERM], Item(val));
  }

  method SealedLeaf(ko: nat, key: seq<byte>, val: seq<byte>) returns (st: StackTrie)
    requires ko <= |key| && Nibbles(key[ko..]) && val != []
    ensures fresh(st) && st.Valid() && st.Repr == {st} && st.tree == Path(key[ko..] + [TERM], Item(val))
  {
    st := NewLeaf(ko, key, val);
    st.Seal();
  }

  method NewExt(ko: nat, key: seq<byte>, child: StackTrie) returns (st: StackTrie)
    requires ko <= |key| && Ext(key[ko..]) && child.Valid() && child.nodeType == BranchNode
    ensures fresh(st) && st.Valid() && st.Repr == {st} + child.Repr && st.nodeType == ExtNode
    ensures st.tree == Path(key[ko..], child.tree)
  {
    hide Ext, Solid, Enc, Digested, Minimal, Nibbles;
    st := new StackTrie();
    st.keyOffset := ko;
    st.Extending(key[ko..], child);
  }

  lemma NibblesSlice(s: seq<byte>, i: nat, j: nat)
    requires Nibbles(s) && i <= j <= |s|
    ensures Nibbles(s[i..j])
  {
  }

  lemma LeafTail(key: seq<byte>, d: nat, item: Tree)
    requires d < |key|
    ensures (key + [TERM])[d + 1..] == key[d + 1..] + [TERM] && (key + [TERM])[..d] == key[..d] &&
        (key + [TERM])[d] == key[d]
    ensures Graft((key + [TERM])[d + 1..], item) == Path(key[d + 1..] + [TERM], item)
  {
  }

  lemma ExtTail(key: seq<byte>, d: nat)
    requires Ext(key) && d < |key|
    ensures d < |key| - 1 ==> Ext(key[d + 1..])
    ensures d == |key| - 1 ==> key[d + 1..] == []
  {
  }

  /** Where a larger key leaves a chunk of the last one. */
  lemma Parting(last: seq<byte>, path: seq<byte>, offset: nat, k: seq<byte>, d: nat)
    requires Ascends(last, path) && Nibbles(path) && offset <= PrefixLen(last, path)
    requires offset + |k| <= |last| && last[offset..offset + |k|] == k && d <= |k|
    requires k[..d] == path[offset..offset + d] && (d < |k| ==> k[d] != path[offset + d])
    ensures d < |k| ==> k[d] < path[offset + d] < 16
    ensures d == |k| ==> offset + |k| <= PrefixLen(last, path)
    ensures offset + |k| == |last| ==> d < |k|
  {
    hide PrefixLen, Nibbles;
    var m := PrefixLen(last, path);
    assert last[..m][..offset] == last[..offset] && path[..m][..offset] == path[..offset];
    assert last[offset..offset + |k|][..d] == last[offset..offset + d];
    assert last[..offset + d] == last[..offset] + k[..d];
    assert path[..offset + d] == path[..offset] + k[..d];
    if d < |k| {
      assert last[offset..offset + |k|][d] == last[offset + d];
      PrefixLenUnique(last, path, offset + d);
      NibbleAt(path, offset + d);
    } else {
      PrefixAtLeast(last, path, offset + d);
    }
  }

  lemma NibbleAt(s: seq<byte>, i: nat)
    requires Nibbles(s) && i < |s|
    ensures s[i] < 16
  {
  }

  lemma PrefixAtLeast(a: seq<byte>, b: seq<byte>, n: nat)
    requires n <= |a| && n <= |b| && a[..n] == b[..n]
    ensures n <= PrefixLen(a, b)
  {
    hide PrefixLen;
    assert forall i :: 0 <= i < n ==> a[..n][i] == b[..n][i];
  }

  /** What inserting does to a leaf or an extension that the key leaves at the index `d`. */
  lemma SplitTree(k: seq<byte>, c: Tree, path: seq<byte>, offset: nat, d: nat, v: seq<byte>) returns (b: Tree)
    requires Solid(Path(k, c)) && Nibbles(path) && v != [] && d < |k| && offset + d < |path|
    requires k[..d] == path[offset..offset + d] && k[d] < path[offset + d] < 16
    ensures Solid(b) && b.Fork? && |b.children| == 17
    ensures Sub(Path(k, c), Suffix(path, offset)) && Set(Path(k, c), Suffix(path, offset), v) == Graft(k[..d], b)
    ensures b.children[k[d]] == Graft(k[d + 1..], c) && Solid(b.children[k[d]])
    ensures b.children[path[offset + d]] == Path(Suffix(path, offset + d + 1), Item(v))
    ensures forall i :: 0 <= i < 17 && i != k[d] && i != path[offset + d] ==> b.children[i].Blank?
  {
    hide Solid, Set, Nibbles, PrefixLen, Branch;
    var key := Suffix(path, offset);
    NibblesFrom(path, offset);
    LeafKey(path[offset..]);
    assert key[..d] == path[offset..offset + d] && key[d] == path[offset + d];
    assert key[d + 1..] == Suffix(path, offset + d + 1);
    PrefixLenUnique(key, k, d);
    SetSplit(k, c, key, v);
    b := Branch(k, c, key, d, v);
    BranchSolid(k, c, key, d, v);
    BranchFork(k, c, key, d, v);
    TailChild(k, c, d);
    forall i | 0 <= i < 17
      ensures b.children[i] == if i == key[d] then Graft(key[d + 1..], Item(v)) else if i == k[d]
          then Graft(k[d + 1..], c) else Blank
    {
      BranchAt(k, c, key, d, v, i);
    }
  }

  lemma SplitLeafTree(k: seq<byte>, val: seq<byte>, path: seq<byte>, offset: nat, d: nat, v: seq<byte>)
      returns (b: Tree)
    requires Nibbles(k) && val != [] && Nibbles(path) && v != [] && d < |k| && offset + d < |path|
    requires k[..d] == path[offset..offset + d] && k[d] < path[offset + d] < 16
    ensures Solid(b) && b.Fork? && |b.children| == 17 && Nibbles(k[d + 1..])
    ensures Sub(Path(k + [TERM], Item(val)), Suffix(path, offset))
    ensures Set(Path(k + [TERM], Item(val)), Suffix(path, offset), v) == Graft(k[..d], b)
    ensures b.children[k[d]] == Path(k[d + 1..] + [TERM], Item(val)) && Solid(b.children[k[d]])
    ensures b.children[path[offset + d]] == Path(Suffix(path, offset + d + 1), Item(v))
    ensures forall i :: 0 <= i < 17 && i != k[d] && i != path[offset + d] ==> b.children[i].Blank?
  {
    hide Solid, Set, Nibbles, Sub, Enc, EncodeNode, HexPrefix, Graft, Suffix;
    LeafTree(k, val);
    LeafTail(k, d, Item(val));
    NibblesFrom(k, d + 1);
    b := SplitTree(k + [TERM], Item(val), path, offset, d, v);
  }

  lemma BranchFork(k: seq<byte>, c: Tree, key: seq<byte>, m: nat, v: seq<byte>)
    requires m < |k| && m < |key| && k[m] < 17 && key[m] < 17
    ensures Branch(k, c, key, m, v).Fork? && |Branch(k, c, key, m, v).children| == 17
  {
  }

  /** Inserting below an extension. */
  lemma SetThrough(k: seq<byte>, c: Tree, path: seq<byte>, offset: nat, v: seq<byte>)
    requires Ext(k) && Solid(c) && c.Fork? && Nibbles(path) && v != []
    requires offset + |k| <= |path| && path[offset..offset + |k|] == k
    ensures Sub(Path(k, c), Suffix(path, offset)) && Sub(c, Suffix(path, offset + |k|))
    ensures Set(Path(k, c), Suffix(path, offset), v) == Path(k, Set(c, Suffix(path, offset + |k|), v))
  {
    hide Solid, Set, Nibbles, PrefixLen;
    var key := Suffix(path, offset);
    NibblesFrom(path, offset);
    LeafKey(path[offset..]);
    ExtIsSolid(k, c);
    assert key[..|k|] == k && key[|k|..] == Suffix(path, offset + |k|);
    SetPath(k, c, key, v);
  }

  lemma ExtIsSolid(k: seq<byte>, c: Tree)
    requires Ext(k) && Solid(c) && c.Fork?
    ensures Solid(Path(k, c))
  {
  }

  /** Where a larger key goes in a branch on the path of the last one. */
  lemma NextIndex(last: seq<byte>, path: seq<byte>, offset: nat)
    requires Ascends(last, path) && Nibbles(path) && offset < |path| && offset <= PrefixLen(last, path)
    ensures last[offset] <= path[offset] < 16
    ensures last[offset] == path[offset] ==> offset + 1 <= PrefixLen(last, path)
  {
    var m := PrefixLen(last, path);
    assert offset < m ==> last[..m][offset] == path[..m][offset];
  }

  /** Inserting below a branch. */
  lemma SetBelow(t: Tree, path: seq<byte>, offset: nat, v: seq<byte>)
    requires Solid(t) && t.Fork? && offset < |path| && Nibbles(path) && v != []
    ensures |t.children| == 17 && path[offset] < 16
    ensures Sub(t, Suffix(path, offset)) && Sub(t.children[path[offset]], Suffix(path, offset + 1))
    ensures Set(t, Suffix(path, offset), v) ==
            Fork(t.children[path[offset] := Set(t.children[path[offset]], Suffix(path, offset + 1), v)])
    ensures Solid(Set(t, Suffix(path, offset), v)) && Solid(Set(t.children[path[offset]], Suffix(path, offset + 1), v))
  {
    hide Solid, Set, Nibbles;
    NibblesFrom(path, offset);
    NibblesFrom(path, offset + 1);
    LeafKey(path[offset..]);
    LeafKey(path[offset + 1..]);
    var key := Suffix(path, offset);
    assert key[0] == path[offset] && key[1..] == Suffix(path, offset + 1);
    KeyTail(key);
    SetFork(t.children, key, v);
    SetSolid(t, key, v);
    SetSolid(t.children[path[offset]], Suffix(path, offset + 1), v);
  }

  /** The second key comes after the first, and has the same length. */
  predicate Ascends(a: seq<byte>, b: seq<byte>)
  {
    |a| == |b| && PrefixLen(a, b) < |a| && a[PrefixLen(a, b)] < b[PrefixLen(a, b)]
  }

  /** The key has the chunk at the offset. */
  predicate Along(k: seq<byte>, path: seq<byte>, offset: nat)
  {
    offset + |k| <= |path| && path[offset..offset + |k|] == k
  }

  /** The rest of a key from an offset on, terminated. */
  function Suffix(path: seq<byte>, offset: nat): seq<byte>
    requires offset <= |path|
  {
    path[offset..] + [TERM]
  }

  const NO_FLAG: Flag := Flag(None, false)

  /** A sealed child as a child of a full node: a short encoding is decoded into a short node again,
      and anything else is a hash. None stands for a panic. */
  function FromSealed(val: seq<byte>): Option<Node>
  {
    if |val| >= 32 then Some(Hash(val))
    else
      match Unmarshal(val)
      case None => None
      case Some(pb) =>
        if |pb| != 2 then None
        else if pb[1].kind == HASH then Some(Short(pb[0].val, Hash(pb[1].val), NO_FLAG))
        else if pb[1].kind == VALUE then Some(Short(pb[0].val, Value(pb[1].val), NO_FLAG))
        else None
  }

  lemma FromSealedMeans(t: Tree)
    requires Solid(t)
    ensures Minimal(t) && FromSealed(Digested(t)).Some?
    ensures ChildToProto(FromSealed(Digested(t)).value) == Ok(Kid(t))
  {
    hide Marshal, Unmarshal, HexPrefix;
    if |Enc(t)| < 32 {
      if !(t.Path? && t.child.Item?) {
        SmallIsLeaf(t);
      }
      UnmarshalMarshal(Pb(t));
      SolidKeyHex(t);
      assert Pb(t) == [Child(SHORT_KEY, HexPrefix(t.key)), Child(VALUE, t.child.value)];
    }
  }

  lemma BlankKid()
    ensures ChildToProto(Value([])) == Ok(Kid(Blank))
  {
  }

  lemma ForkTree(t: Tree)
    requires Solid(t) && t.Fork?
    ensures |t.children| == 17
    ensures forall i :: 0 <= i < 17 ==> Slot(t.children[i]) || Solid(t.children[i])
  {
  }

  lemma LeafKey(key: seq<byte>)
    requires Nibbles(key)
    ensures Key(key + [TERM]) && Hex(key + [TERM])
  {
    assert (key + [TERM])[..|key|] == key;
  }

  lemma LeafTree(key: seq<byte>, val: seq<byte>)
    requires Nibbles(key) && val != []
    ensures Solid(Path(key + [TERM], Item(val))) && Hex(key + [TERM])
    ensures EncodeNode(Short(HexPrefix(key + [TERM]), Value(val), NO_FLAG)) == Ok(Enc(Path(key + [TERM], Item(val))))
  {
    hide Enc, HexPrefix, EncodeNode;
    LeafKey(key);
    ShortEncodes(Short(HexPrefix(key + [TERM]), Value(val), NO_FLAG), Path(key + [TERM], Item(val)));
  }

  lemma ExtTree(key: seq<byte>, t: Tree)
    requires Ext(key) && t.Fork? && Solid(t)
    ensures Solid(Path(key, t)) && Hex(key)
    ensures Digested(t) == SHA3(Enc(t)) && |Digested(t)| == 32
    ensures EncodeNode(Short(HexPrefix(key), Hash(Digested(t)), NO_FLAG)) == Ok(Enc(Path(key, t)))
  {
    hide Enc, HexPrefix, EncodeNode;
    SmallIsLeaf(t);
    ShortEncodes(Short(HexPrefix(key), Hash(Digested(t)), NO_FLAG), Path(key, t));
  }

  /** Ascending byte strings are ascending strings of nibbles. */
  lemma UnpackAscends(a: seq<byte>, b: seq<byte>)
    requires Ascends(a, b)
    ensures Ascends(Unpack(a), Unpack(b))
  {
    hide PrefixLen, Nibbles, Unpack;
    var m, u, v := PrefixLen(a, b), Unpack(a), Unpack(b);
    UnpackSlice(a, m);
    UnpackSlice(b, m);
    UnpackAt(a, m);
    UnpackAt(b, m);
    if u[2 * m] == v[2 * m] {
      assert u[..2 * m + 1] == u[..2 * m] + [u[2 * m]] && v[..2 * m + 1] == v[..2 * m] + [v[2 * m]];
      PrefixLenUnique(u, v, 2 * m + 1);
    } else {
      PrefixLenUnique(u, v, 2 * m);
    }
  }

  lemma {:induction false} UnpackSlice(b: seq<byte>, m: nat)
    requires m <= |b|
    ensures Unpack(b)[..2 * m] == Unpack(b[..m])
  {
    if m > 0 {
      UnpackSlice(b[1..], m - 1);
      assert b[1..][..m - 1] == b[..m][1..];
    }
  }

  /** The tree with the given entries, inserted one after the other. */
  function Built(pairs: seq<(seq<byte>, seq<byte>)>): (t: Tree)
    requires forall i :: 0 <= i < |pairs| ==> pairs[i].1 != []
    ensures Minimal(t)
  {
    if pairs == [] then Blank
    else
      var n := |pairs| - 1;
      var t := Built(pairs[..n]);
      SpreadKey(pairs[n].0);
      SetSolid(t, Spread(pairs[n].0), pairs[n].1);
      Set(t, Spread(pairs[n].0), pairs[n].1)
  }

  function Entries(pairs: seq<(seq<byte>, seq<byte>)>): map<seq<byte>, seq<byte>>
  {
    if pairs == [] then map[] else Entries(pairs[..|pairs| - 1])[pairs[|pairs| - 1].0 := pairs[|pairs| - 1].1]
  }

  /** What a tree holds is what the map holds. */
  ghost predicate Has(t: Tree, m: map<seq<byte>, seq<byte>>)
    requires Minimal(t)
  {
    OfBytes(t) && forall k :: At(t, k) == if k in m then Some(m[k]) else None
  }

  lemma BuiltIs(pairs: seq<(seq<byte>, seq<byte>)>)
    requires pairs != [] && forall i :: 0 <= i < |pairs| ==> pairs[i].1 != []
    ensures var n := |pairs| - 1; Built(pairs) == Updated(Built(pairs[..n]), pairs[n].0, pairs[n].1)
  {
  }

  lemma {:induction false} BuiltHas(pairs: seq<(seq<byte>, seq<byte>)>)
    requires forall i :: 0 <= i < |pairs| ==> pairs[i].1 != []
    ensures Has(Built(pairs), Entries(pairs))
  {
    hide At, Updated, Minimal, OfBytes, Built;
    if pairs == [] {
      BlankHas();
      assert Built(pairs) == Blank by { BuiltNothing(); }
    } else {
      var n := |pairs| - 1;
      var t := Built(pairs[..n]);
      BuiltHas(pairs[..n]);
      BuiltIs(pairs);
      UpdatedKeeps(t, pairs[n].0, pairs[n].1);
      forall k
        ensures At(Built(pairs), k) == if k in Entries(pairs) then Some(Entries(pairs)[k]) else None
      {
        UpdatedAt(t, pairs[n].0, pairs[n].1, k);
      }
    }
  }

  lemma BuiltNothing()
    ensures Built([]) == Blank
  {
  }

  lemma BlankHas()
    ensures Minimal(Blank) && Has(Blank, map[])
  {
  }

  /** Feeding a streaming trie with ascending keys and taking its hash. */
  method StackRoot(pairs: seq<(seq<byte>, seq<byte>)>) returns (h: seq<byte>)
    requires forall i :: 0 <= i < |pairs| ==> pairs[i].1 != []
    requires forall i :: 0 < i < |pairs| ==> Ascends(pairs[i - 1].0, pairs[i].0)
    ensures h == Root(Built(pairs))
  {
    hide Set, Ascends, Root, Minimal, Sub, StackTrie.Valid, StackTrie.Open;
    var st := new StackTrie();
    assert pairs[..0] == [];
    for i := 0 to |pairs|
      invariant st.Valid() && fresh(st.Repr) && st.keyOffset == 0
      invariant i == 0 ==> st.nodeType == EmptyNode
      invariant i > 0 ==> st.Open(Unpack(pairs[i - 1].0))
      invariant st.tree == Built(pairs[..i])
    {
      st.TryUpdate(pairs[i].0, pairs[i].1, if i > 0 then pairs[i - 1].0 else []);
      BuiltNext(pairs, i);
    }
    assert pairs[..|pairs|] == pairs;
    h := st.HashRoot();
  }

  lemma BuiltNext(pairs: seq<(seq<byte>, seq<byte>)>, i: nat)
    requires i < |pairs| && forall j :: 0 <= j < |pairs| ==> pairs[j].1 != []
    ensures Sub(Built(pairs[..i]), Spread(pairs[i].0))
    ensures Built(pairs[..i + 1]) == Set(Built(pairs[..i]), Spread(pairs[i].0), pairs[i].1)
  {
    assert pairs[..i + 1][..i] == pairs[..i];
    SpreadKey(pairs[i].0);
  }

  /** The streaming root is the root of every trie with the same entries, however that was built. */
  lemma SameRoot(pairs: seq<(seq<byte>, seq<byte>)>, t: Tree)
    requires forall i :: 0 <= i < |pairs| ==> pairs[i].1 != []
    requires Minimal(t) && Has(t, Entries(pairs))
    ensures Root(t) == Root(Built(pairs))
  {
    hide At, Root, Minimal, Built, Entries;
    BuiltHas(pairs);
    assert forall k :: At(t, k) == At(Built(pairs), k);
    ContentsDecide(t, Built(pairs));
  }
}
