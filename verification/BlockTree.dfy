/** The tree of block nodes and the choice of the best chain in it. */
module BlockTree {
  import opened Hashes

  class BlockNode {
    const hash: Hash
    const previous: Hash
    const height: nat
    const timestamp: int
    const target: int
    const quality: int
    var inMainChain: bool
    var parent: BlockNode?
    var capSum: int

    ghost function Rank(): Score
      reads this
    {
      Score(capSum, timestamp, quality, hash)
    }

    /** `NewBlockNode`, with the parent that `maybeAcceptBlock` sets. */
    constructor (hash: Hash, previous: Hash, height: nat, timestamp: int, target: int, quality: int, parent: BlockNode?)
      ensures this.hash == hash && this.previous == previous && this.height == height && this.timestamp == timestamp
      ensures this.target == target && this.quality == quality && this.parent == parent
      ensures capSum == target && !inMainChain
    {
      this.hash, this.previous, this.height, this.timestamp := hash, previous, height, timestamp;
      this.target, this.quality, this.parent := target, quality, parent;
      capSum, inMainChain := target, false;
    }
  }

  /** The order of `isPotentialNewBestChain`: more capacity, then an earlier time stamp, then a better
      quality, then the smaller hash. */
  predicate Preferred(a: BlockNode, b: BlockNode)
    reads a, b
  {
    if a.capSum != b.capSum then a.capSum > b.capSum
    else if a.timestamp != b.timestamp then a.timestamp < b.timestamp
    else if a.quality != b.quality then a.quality > b.quality
    else a.hash < b.hash
  }

  /** What of a node decides the choice: the capacity of its chain, its time, its quality and its hash. */
  datatype Score = Score(capSum: int, timestamp: int, quality: int, hash: Hash)

  /** The first difference decides: more capacity, an earlier time, a better quality, a smaller hash. */
  predicate Ahead(a: Score, b: Score)
  {
    || a.capSum > b.capSum
    || (a.capSum == b.capSum && a.timestamp < b.timestamp)
    || (a.capSum == b.capSum && a.timestamp == b.timestamp && a.quality > b.quality)
    || (a.capSum == b.capSum && a.timestamp == b.timestamp && a.quality == b.quality && a.hash < b.hash)
  }

  /** The nodes with these hashes form one chain from the root up to the best node: the set is closed
      under parents and has one node of a height. */
  predicate OneChain(index: map<Hash, BlockNode>, main: set<Hash>, root: BlockNode, best: BlockNode)
  {
    && main <= index.Keys && root.hash in main && index[root.hash] == root && best.hash in main &&
        index[best.hash] == best
    && (forall h :: h in main ==> index[h].height <= best.height)
    && (forall h :: h in main && index[h] != root ==> index[h].previous in main)
    && (forall g, h :: g in main && h in main && index[g].height == index[h].height ==> g == h)
  }

  /** The children of each hash are listed once each. */
  predicate Listed(index: map<Hash, BlockNode>, children: map<Hash, seq<BlockNode>>)
  {
    && (forall h :: h in index ==> index[h].previous in children && index[h] in children[index[h].previous])
    && (forall p, i :: p in children && 0 <= i < |children[p]| ==>
          children[p][i].previous == p && children[p][i].hash in index && index[children[p][i].hash] == children[p][i])
    && (forall p, i, j :: p in children && 0 <= i < j < |children[p]| ==> children[p][i] != children[p][j])
  }

  lemma ListedMore(index: map<Hash, BlockNode>, children: map<Hash, seq<BlockNode>>, n: BlockNode)
    requires Listed(index, children) && n.hash !in index
    ensures Listed(index[n.hash := n],
                   children[n.previous := (if n.previous in children then children[n.previous] else []) + [n]])
  {
    var old' := if n.previous in children then children[n.previous] else [];
    var more := children[n.previous := old' + [n]];
    assert more[n.previous][|old'|] == n;
    forall h | h in index
      ensures index[h].previous in more && index[h] in more[index[h].previous]
    {
      if index[h].previous == n.previous {
        var i :| 0 <= i < |old'| && old'[i] == index[h];
        assert more[n.previous][i] == index[h];
      }
    }
  }

  lemma OneChainUp(index: map<Hash, BlockNode>, main: set<Hash>, root: BlockNode, best: BlockNode, node: BlockNode)
    requires OneChain(index, main, root, best) && node.hash in index && index[node.hash] == node
    requires node.previous == best.hash && node.height == best.height + 1
    ensures OneChain(index, main + {node.hash}, root, node)
  {
  }

  lemma OneChainMore(index: map<Hash, BlockNode>, main: set<Hash>, root: BlockNode, best: BlockNode, node: BlockNode)
    requires OneChain(index, main, root, best) && node.hash !in index
    ensures OneChain(index[node.hash := node], main, root, best)
  {
  }

  lemma OneChainDown(index: map<Hash, BlockNode>, main: set<Hash>, root: BlockNode, best: BlockNode, below: BlockNode)
    requires OneChain(index, main, root, best) && best != root && best.previous == below.hash
    requires forall h :: h in index ==> index[h].hash == h
    requires below.hash in index && index[below.hash] == below && best.height == below.height + 1
    requires forall h :: h in main && index[h] != root ==> index[h].height == index[index[h].previous].height + 1
    ensures OneChain(index, main - {best.hash}, root, below)
  {
  }

  class BlockTree {
    var rootNode: BlockNode?
    var bestNode: BlockNode?
    var index: map<Hash, BlockNode>
    var children: map<Hash, seq<BlockNode>>

    constructor ()
      ensures rootNode == null && bestNode == null && index == map[] && children == map[]
    {
      rootNode, bestNode, index, children := null, null, map[], map[];
    }

    /** The node is in the tree. */
    ghost predicate Has(n: BlockNode)
      reads this
    {
      n.hash in index && index[n.hash] == n
    }

    /** The nodes hang together: each is found under its hash, and each but the root has its parent in
        the tree, one block lower, and its parent's capacity plus its own. */
    ghost predicate Linked()
      reads this, index.Values
    {
      && rootNode != null && Has(rootNode) && rootNode.parent == null && rootNode.capSum == rootNode.target
      && (forall h :: h in index ==> index[h].hash == h && index[h].target > 0 && rootNode.height <= index[h].height)
      && (forall h :: h in index && index[h] != rootNode ==> Hangs(index[h]))
    }

    ghost predicate Hangs(n: BlockNode)
      reads this, index.Values, n
    {
      n.previous in index &&
        var p := index[n.previous];
        n.parent == p && p.hash == n.previous && n.height == p.height + 1 && n.capSum == p.capSum + n.target
    }

    /** The hashes of the marked nodes. */
    ghost function Main(): set<Hash>
      reads this, index.Values
    {
      set h | h in index && index[h].inMainChain
    }

    /** The marked nodes form one chain, from the root up to the best node. */
    ghost predicate Marked()
      reads this, index.Values
    {
      rootNode != null && bestNode != null && OneChain(index, Main(), rootNode, bestNode)
    }

    /** No node is preferred to the best node. */
    ghost predicate Best()
      requires bestNode != null
      reads this, index.Values, bestNode
    {
      forall h :: h in index ==> !Preferred(index[h], bestNode)
    }

    ghost predicate Valid()
      reads this, index.Values
    {
      Linked() && Marked() && Best() && Listed(index, children)
    }

    /** No node has more capacity than the best one; of those with as much none is earlier; of those as
        early none has a better quality; and of those as good none has a smaller hash. */
    ghost predicate Leads()
      requires bestNode != null
      reads this, index.Values, bestNode
    {
      forall h :: h in index ==>
        var n := index[h];
        && n.capSum <= bestNode.capSum
        && (n.capSum == bestNode.capSum ==> bestNode.timestamp <= n.timestamp)
        && (n.capSum == bestNode.capSum && n.timestamp == bestNode.timestamp ==> n.quality <= bestNode.quality)
        && (n.capSum == bestNode.capSum && n.timestamp == bestNode.timestamp && n.quality == bestNode.quality ==>
              bestNode.hash <= n.hash)
    }

    lemma BestLeads()
      requires bestNode != null
      ensures Best() <==> Leads()
    {
      assert forall h :: h in index ==> (Preferred(index[h], bestNode) || !Preferred(index[h], bestNode));
    }

    /** The node and its ancestors in the tree. */
    ghost function Ancestors(n: BlockNode): set<BlockNode>
      requires Linked() && Has(n)
      reads this, index.Values
      decreases n.height
    {
      if n == rootNode then {n} else {n} + Ancestors(index[n.previous])
    }

    /** The sum of the targets from the root to the node. */
    ghost function TargetSum(n: BlockNode): int
      requires Linked() && Has(n)
      reads this, index.Values
      decreases n.height
    {
      if n == rootNode then n.target else TargetSum(index[n.previous]) + n.target
    }

    /** `attachBlockNode` of a new node keeps the tree linked. */
    method AttachNew(node: BlockNode)
      requires Linked() && Listed(index, children) && node.hash !in index && node !in index.Values
      requires node.previous in index && node.height == index[node.previous].height + 1
      requires node.capSum == node.target && node.target > 0
      modifies this, node
      ensures Linked() && Listed(index, children) && index == old(index)[node.hash := node]
      ensures rootNode == old(rootNode) && bestNode == old(bestNode) && node.inMainChain == old(node.inMainChain)
      ensures Hangs(node)
    {
      hide Listed, BlockTree.Linked;
      ListedMore(index, children, node);
      AttachLinked(node);
    }

    method AttachLinked(node: BlockNode)
      requires Linked() && node.hash !in index && node !in index.Values
      requires node.previous in index && node.height == index[node.previous].height + 1
      requires node.capSum == node.target && node.target > 0
      modifies this, node
      ensures Linked() && index == old(index)[node.hash := node] && Hangs(node)
      ensures rootNode == old(rootNode) && bestNode == old(bestNode) && node.inMainChain == old(node.inMainChain)
      ensures children == old(children)[node.previous :=
                (if node.previous in old(children) then old(children)[node.previous] else []) + [node]]
    {
      var ok := Attach(node);
      assert ok;
      assert Hangs(node);
      forall h | h in old(index) && index[h] != rootNode
        ensures Hangs(index[h])
      {
        assert old(Hangs(index[h]));
      }
    }

    lemma {:induction false} CapSumIsTargetSum(n: BlockNode)
      requires Linked() && Has(n)
      ensures n.capSum == TargetSum(n)
      decreases n.height
    {
      if n != rootNode {
        CapSumIsTargetSum(index[n.previous]);
      }
    }

    /** The best node ends the chain with the largest sum of targets; among such chains it is the earliest,
        then the one of best quality, then the one with the smallest hash, which no other node shares. */
    lemma BestIsHeaviest(n: BlockNode)
      requires Valid() && Has(n) && n != bestNode
      ensures Ahead(Score(TargetSum(bestNode), bestNode.timestamp, bestNode.quality, bestNode.hash),
                    Score(TargetSum(n), n.timestamp, n.quality, n.hash))
    {
      BestLeads();
      CapSumIsTargetSum(n);
      CapSumIsTargetSum(bestNode);
    }

    lemma {:induction false} AncestorsMarked(n: BlockNode, a: BlockNode)
      requires Linked() && Marked() && Has(n) && n.inMainChain && a in Ancestors(n)
      ensures Has(a) && a.inMainChain
      decreases n.height
    {
      if a != n {
        AncestorsMarked(index[n.previous], a);
      }
    }

    lemma {:induction false} MarkedAncestors(n: BlockNode, a: BlockNode)
      requires Linked() && Marked() && Has(n) && n.inMainChain && Has(a) && a.inMainChain && a.height <= n.height
      ensures a in Ancestors(n)
      decreases n.height
    {
      if a != n && n != rootNode {
        MarkedAncestors(index[n.previous], a);
      }
    }

    /** The main-chain flag marks exactly the best node and its ancestors. */
    lemma MarkedAreAncestors(n: BlockNode)
      requires Linked() && Marked() && Has(n)
      ensures n.inMainChain <==> n in Ancestors(bestNode)
    {
      if n.inMainChain {
        MarkedAncestors(bestNode, n);
      }
      if n in Ancestors(bestNode) {
        AncestorsMarked(bestNode, n);
      }
    }

    /** `setRootBlockNode`, and the first best node. */
    method SetRoot(node: BlockNode) returns (ok: bool)
      requires rootNode == null ==> index == map[] && children == map[] && node.target > 0
      requires node.parent == null && node.capSum == node.target
      modifies this, node
      ensures ok <==> old(rootNode) == null
      ensures ok ==> Valid() && rootNode == node && bestNode == node && index == map[node.hash := node]
      ensures !ok ==> unchanged(this) && unchanged(node)
    {
      if rootNode != null {
        return false;
      }
      node.inMainChain := true;
      rootNode := node;
      children := children[node.previous := [node]];
      index := index[node.hash := node];
      bestNode := node;
      assert children[node.previous] == [node];
      assert Main() == {node.hash};
      return true;
    }

    /** `attachBlockNode`. */
    method Attach(node: BlockNode) returns (ok: bool)
      requires forall h :: h in index ==> index[h] != node
      modifies this, node
      ensures ok <==> node.previous in old(index)
      ensures rootNode == old(rootNode) && bestNode == old(bestNode) && node.inMainChain == old(node.inMainChain)
      ensures !ok ==> unchanged(this) && unchanged(node)
      ensures ok ==> node.parent == old(index)[node.previous] && node.capSum == node.parent.capSum + old(node.capSum)
      ensures ok ==> index == old(index)[node.hash := node]
      ensures ok ==> children == old(children)[node.previous :=
                       (if node.previous in old(children) then old(children)[node.previous] else []) + [node]]
    {
      if node.previous !in index {
        return false;
      }
      var parentNode := index[node.previous];
      node.capSum := parentNode.capSum + node.capSum;
      node.parent := parentNode;
      index := index[node.hash := node];
      children := children[node.previous := (if node.previous in children then children[node.previous] else []) +
          [node]];
      return true;
    }
  }

  lemma PreferredIsAhead(a: BlockNode, b: BlockNode)
    ensures Preferred(a, b) <==> Ahead(a.Rank(), b.Rank())
  {
  }

  /** Preference is a strict order. */
  lemma PreferredChain(a: BlockNode, b: BlockNode, c: BlockNode)
    ensures Preferred(a, b) && !Preferred(c, b) ==> !Preferred(c, a)
    ensures !Preferred(a, a)
  {
  }
}
