/** Extending the best chain, and moving it to a side chain that is preferred. */
module Reorganize {
  import opened Hashes
  import opened BlockTree

  /** The nodes lead from the top down to, and without, the fork. */
  predicate Down(index: map<Hash, BlockNode>, nodes: seq<BlockNode>, top: BlockNode, fork: BlockNode)
  {
    && (forall i :: 0 <= i < |nodes| ==> nodes[i].hash in index && index[nodes[i].hash] == nodes[i])
    && (forall i :: 0 < i < |nodes| ==> nodes[i - 1].previous == nodes[i].hash)
    && (forall i :: 0 <= i < |nodes| ==> nodes[i].height == fork.height + |nodes| - i)
    && (if nodes == [] then fork == top else nodes[0] == top && nodes[|nodes| - 1].previous == fork.hash)
  }

  /** The nodes lead from the fork, without it, up to the last node. */
  predicate Up(index: map<Hash, BlockNode>, nodes: seq<BlockNode>, fork: BlockNode, last: BlockNode)
  {
    && (forall i :: 0 <= i < |nodes| ==> nodes[i].hash in index && index[nodes[i].hash] == nodes[i])
    && (forall i :: 0 < i < |nodes| ==> nodes[i].previous == nodes[i - 1].hash)
    && (forall i :: 0 <= i < |nodes| ==> nodes[i].height == fork.height + 1 + i)
    && (if nodes == [] then fork == last else nodes[0].previous == fork.hash && nodes[|nodes| - 1] == last)
  }

  lemma DownStep(index: map<Hash, BlockNode>, nodes: seq<BlockNode>, top: BlockNode, n: BlockNode)
    requires Down(index, nodes, top, n) && n.hash in index && index[n.hash] == n
    requires n.previous in index && index[n.previous].hash == n.previous && n.height == index[n.previous].height + 1
    ensures Down(index, nodes + [n], top, index[n.previous])
  {
  }

  lemma UpStep(index: map<Hash, BlockNode>, nodes: seq<BlockNode>, n: BlockNode, last: BlockNode)
    requires Up(index, nodes, n, last) && n.hash in index && index[n.hash] == n
    requires n.previous in index && index[n.previous].hash == n.previous && n.height == index[n.previous].height + 1
    ensures Up(index, [n] + nodes, index[n.previous], last)
  {
  }

  ghost predicate Unmarked(nodes: seq<BlockNode>)
    reads nodes
  {
    forall i :: 0 <= i < |nodes| ==> !nodes[i].inMainChain
  }

  /** The first loop of `getReorganizeNodes`, up to a node of the main chain. */
  method AttachList(tree: BlockTree, node: BlockNode) returns (attach: seq<BlockNode>, ancestor: BlockNode)
    requires tree.Linked() && tree.Marked() && tree.Has(node)
    ensures tree.Has(ancestor) && ancestor.inMainChain && Up(tree.index, attach, ancestor, node) && Unmarked(attach)
  {
    hide Up;
    attach, ancestor := [], node;
    assert Up(tree.index, attach, ancestor, node) by { UpNothing(tree.index, node); }
    while ancestor.parent != null && !ancestor.inMainChain
      invariant tree.Has(ancestor) && Up(tree.index, attach, ancestor, node) && Unmarked(attach)
      decreases ancestor.height
    {
      assert tree.Hangs(ancestor);
      UpStep(tree.index, attach, ancestor, node);
      attach := [ancestor] + attach;
      ancestor := ancestor.parent;
    }
    assert ancestor != tree.rootNode ==> tree.Hangs(ancestor);
  }

  lemma UpNothing(index: map<Hash, BlockNode>, n: BlockNode)
    ensures Up(index, [], n, n) && Down(index, [], n, n)
  {
  }

  /** The second loop, from the best node down to the fork. */
  method DetachList(tree: BlockTree, ancestor: BlockNode) returns (detach: seq<BlockNode>)
    requires tree.Linked() && tree.Marked() && tree.Has(ancestor) && ancestor.inMainChain
    ensures Down(tree.index, detach, tree.bestNode, ancestor)
  {
    hide Down;
    detach := [];
    var n: BlockNode := tree.bestNode;
    UpNothing(tree.index, n);
    while n.parent != null && n.hash != ancestor.hash
      invariant tree.Has(n) && n.inMainChain && ancestor.height <= n.height
      invariant Down(tree.index, detach, tree.bestNode, n)
      decreases n.height
    {
      assert tree.Hangs(n);
      DownStep(tree.index, detach, tree.bestNode, n);
      detach := detach + [n];
      n := n.parent;
    }
    assert n != tree.rootNode ==> tree.Hangs(n);
  }

  /** `getReorganizeNodes`. The two lists meet at a node of the main chain: one leads down to it from
      the best node, the other up from it to the given node. */
  method GetReorganizeNodes(tree: BlockTree, node: BlockNode?)
      returns (detach: seq<BlockNode>, attach: seq<BlockNode>, ghost fork: BlockNode?)
    requires tree.Linked() && tree.Marked() && (node != null ==> tree.Has(node))
    ensures node == null ==> detach == [] && attach == []
    ensures node != null ==> fork != null && tree.Has(fork) && fork.inMainChain && Unmarked(attach)
    ensures node != null ==> Down(tree.index, detach, tree.bestNode, fork) && Up(tree.index, attach, fork, node)
  {
    hide Down, Up;
    attach, detach, fork := [], [], null;
    if node == null {
      return;
    }
    var ancestor;
    attach, ancestor := AttachList(tree, node);
    detach := DetachList(tree, ancestor);
    fork := ancestor;
  }

  /** The source takes the first nodes of both lists without a test. When the new node is preferred to a
      best node that it does not extend, and no other node is, both lists have one. */
  lemma NeitherEmpty(tree: BlockTree, node: BlockNode, detach: seq<BlockNode>, attach: seq<BlockNode>, fork: BlockNode)
    requires tree.Linked() && tree.bestNode != null && tree.Has(tree.bestNode) && tree.Has(node) && tree.Has(fork)
    requires fork.inMainChain && !node.inMainChain && node.previous != tree.bestNode.hash
    requires forall h :: h in tree.index && tree.index[h] != node ==> !Preferred(tree.index[h], tree.bestNode)
    requires Down(tree.index, detach, tree.bestNode, fork) && Up(tree.index, attach, fork, node)
    ensures detach != [] && attach != []
  {
    var first := attach[0];
    assert first != tree.rootNode && tree.Hangs(first);
    assert first.capSum == fork.capSum + first.target;
    assert fork == tree.bestNode ==> Preferred(first, tree.bestNode);
  }

  class Blockchain {
    const tree: BlockTree
    /** The side-chain blocks at hand. */
    var blockCache: set<Hash>

    ghost predicate Valid()
      reads this, tree, tree.index.Values
    {
      tree.Valid() && forall h :: h in tree.index && !tree.index[h].inMainChain ==> h in blockCache
    }

    constructor (tree: BlockTree)
      ensures this.tree == tree && blockCache == {}
    {
      this.tree := tree;
      blockCache := {};
    }

    /** The part of `connectBlock` that concerns the tree: its test that the block extends the best
        chain, and the marks. */
    method ConnectBlock(node: BlockNode) returns (ok: bool)
      requires tree.bestNode != null
      modifies tree`bestNode, node`inMainChain
      ensures ok <==> node.previous == old(tree.bestNode).hash
      ensures ok ==> tree.bestNode == node && node.inMainChain
      ensures !ok ==> tree.bestNode == old(tree.bestNode) && node.inMainChain == old(node.inMainChain)
    {
      if node.previous != tree.bestNode.hash {
        return false;
      }
      node.inMainChain := true;
      tree.bestNode := node;
      return true;
    }

    /** The part of `disconnectBlock` that concerns the tree. */
    method DisconnectBlock(node: BlockNode) returns (ok: bool)
      requires tree.bestNode != null
      modifies this`blockCache, tree`bestNode, node`inMainChain
      ensures ok <==> node.hash == old(tree.bestNode).hash
      ensures ok ==> tree.bestNode == node.parent && !node.inMainChain && blockCache == old(blockCache) + {node.hash}
      ensures !ok ==> tree.bestNode == old(tree.bestNode) && node.inMainChain == old(node.inMainChain)
      ensures !ok ==> blockCache == old(blockCache)
    {
      if node.hash != tree.bestNode.hash {
        return false;
      }
      node.inMainChain := false;
      blockCache := blockCache + {node.hash};
      tree.bestNode := node.parent;
      return true;
    }

    /** Taking the tip off the main chain keeps it a chain. */
    method TakeTip(node: BlockNode)
      requires tree.Linked() && tree.Marked() && node == tree.bestNode && node != tree.rootNode
      modifies this`blockCache, tree`bestNode, node`inMainChain
      ensures tree.Linked() && tree.Marked() && tree.bestNode == tree.index[node.previous] && !node.inMainChain
      ensures blockCache == old(blockCache) + {node.hash}
    {
      hide OneChain, BlockTree.Linked;
      HashesAgree(tree);
      TipHangs(tree, node);
      var ok := DisconnectBlock(node);
      assert ok;
      assert tree.Linked() by { LinkedStill(tree); }
      assert tree.Main() == old(tree.Main()) - {node.hash};
    }

    /** Putting a node on the tip keeps it a chain. */
    method PutTip(node: BlockNode)
      requires tree.Linked() && tree.Marked() && tree.Has(node) && node.previous == tree.bestNode.hash &&
          !node.inMainChain
      modifies tree`bestNode, node`inMainChain
      ensures tree.Linked() && tree.Marked() && tree.bestNode == node && node.inMainChain
    {
      hide OneChain, BlockTree.Linked;
      HashesAgree(tree);
      NextHangs(tree, node);
      var ok := ConnectBlock(node);
      assert ok;
      assert tree.Linked() by { LinkedStill(tree); }
      assert tree.Main() == old(tree.Main()) + {node.hash};
    }

    /** `reorganizeChain`, when every block passes its checks. The tip tests of `disconnectBlock` and
        `connectBlock` always pass: `TakeTip` and `PutTip` assert it. */
    method ReorganizeChain(detach: seq<BlockNode>, attach: seq<BlockNode>, ghost fork: BlockNode, ghost last: BlockNode)
      requires tree.Linked() && tree.Marked() && tree.Has(fork) && fork.inMainChain
      requires Down(tree.index, detach, tree.bestNode, fork) && Up(tree.index, attach, fork, last) && Unmarked(attach)
      modifies this`blockCache, tree`bestNode, tree.index.Values`inMainChain
      ensures tree.Linked() && tree.Marked() && tree.bestNode == last
      ensures old(blockCache) <= blockCache
      ensures forall h :: h in tree.index && !tree.index[h].inMainChain && old(tree.index[h].inMainChain) ==>
          h in blockCache
    {
      hide BlockTree.Linked, BlockTree.Marked, Down, Up, Unmarked;
      DetachAll(detach, attach, fork);
      AttachAll(attach, fork, last);
    }

    method DetachAll(detach: seq<BlockNode>, ghost attach: seq<BlockNode>, ghost fork: BlockNode)
      requires tree.Linked() && tree.Marked() && tree.Has(fork) && Down(tree.index, detach, tree.bestNode, fork)
      requires Unmarked(attach)
      modifies this`blockCache, tree`bestNode, tree.index.Values`inMainChain
      ensures tree.Linked() && tree.Marked() && tree.bestNode == fork && Unmarked(attach)
      ensures old(blockCache) <= blockCache
      ensures forall h :: h in tree.index && !tree.index[h].inMainChain && old(tree.index[h].inMainChain) ==>
          h in blockCache
    {
      hide BlockTree.Linked, BlockTree.Marked;
      HashesAgree(tree);
      for i := 0 to |detach|
        invariant tree.Linked() && tree.Marked() && Unmarked(attach)
        invariant tree.bestNode == if i < |detach| then detach[i] else fork
        invariant old(blockCache) <= blockCache
        invariant forall h :: h in tree.index && !tree.index[h].inMainChain && old(tree.index[h].inMainChain) ==>
            h in blockCache
      {
        NotRoot(tree, detach[i], fork);
        TakeTip(detach[i]);
      }
    }

    method AttachAll(attach: seq<BlockNode>, ghost fork: BlockNode, ghost last: BlockNode)
      requires tree.Linked() && tree.Marked() && tree.bestNode == fork && Up(tree.index, attach, fork, last) &&
          Unmarked(attach)
      modifies tree`bestNode, tree.index.Values`inMainChain
      ensures tree.Linked() && tree.Marked() && tree.bestNode == last
      ensures forall h :: h in tree.index && old(tree.index[h].inMainChain) ==> tree.index[h].inMainChain
    {
      hide BlockTree.Linked, BlockTree.Marked;
      for i := 0 to |attach|
        invariant tree.Linked() && tree.Marked()
        invariant tree.bestNode == if i == 0 then fork else attach[i - 1]
        invariant forall j :: i <= j < |attach| ==> !attach[j].inMainChain
        invariant forall h :: h in tree.index && old(tree.index[h].inMainChain) ==> tree.index[h].inMainChain
      {
        assert forall j :: i < j < |attach| ==> attach[j].height != attach[i].height;
        PutTip(attach[i]);
      }
    }

    /** A new node, as `maybeAcceptBlock` makes it for a block that passed its checks. */
    ghost predicate Fresh(node: BlockNode)
      reads this, tree, tree.index.Values, node
    {
      && node.hash !in tree.index && node !in tree.index.Values && !node.inMainChain
      && node.previous in tree.index && node.parent == tree.index[node.previous]
      && node.height == node.parent.height + 1 && node.capSum == node.target && node.target > 0
    }

    /** A block on top of the best chain. */
    method Extend(node: BlockNode)
      requires Valid() && Fresh(node) && node.previous == tree.bestNode.hash
      modifies tree, node
      ensures Valid()
      ensures tree.index == old(tree.index)[node.hash := node] && tree.rootNode == old(tree.rootNode) &&
          tree.bestNode == node
      ensures node.capSum == old(node.parent.capSum) + node.target
    {
      hide OneChain, Listed;
      ghost var best, main := tree.bestNode, tree.Main();
      BestHas(tree);
      ConnectAndAttach(node);
      hide BlockTree.Linked;
      assert tree.Main() == main + {node.hash};
      assert tree.Marked() by {
        OneChainMore(old(tree.index), main, tree.rootNode, best, node);
        OneChainUp(tree.index, main, tree.rootNode, best, node);
      }
      assert forall h :: h in old(tree.index) ==> tree.index[h].capSum <= best.capSum;
    }

    method ConnectAndAttach(node: BlockNode)
      requires tree.Linked() && Listed(tree.index, tree.children) && Fresh(node)
      requires tree.bestNode != null && node.previous == tree.bestNode.hash
      modifies tree, node
      ensures tree.Linked() && Listed(tree.index, tree.children) && tree.Hangs(node) && node.inMainChain
      ensures tree.index == old(tree.index)[node.hash := node] && tree.rootNode == old(tree.rootNode) &&
          tree.bestNode == node
    {
      hide Listed;
      var ok := ConnectBlock(node);
      assert ok;
      assert tree.Linked();
      tree.AttachNew(node);
    }

    /** A block on a side chain. */
    method AddSide(node: BlockNode)
      requires Valid() && Fresh(node)
      modifies this`blockCache, tree, node
      ensures tree.Linked() && tree.Marked() && Listed(tree.index, tree.children) && tree.Has(node) && !node.inMainChain
      ensures tree.index == old(tree.index)[node.hash := node] && tree.rootNode == old(tree.rootNode) &&
          tree.bestNode == old(tree.bestNode)
      ensures node.capSum == old(node.parent.capSum) + node.target
      ensures forall h :: h in old(tree.index) ==> !Preferred(tree.index[h], tree.bestNode)
      ensures forall h :: h in tree.index && !tree.index[h].inMainChain ==> h in blockCache
    {
      hide OneChain, Listed;
      ghost var main := tree.Main();
      BestHas(tree);
      PutAside(node);
      hide BlockTree.Linked;
      assert tree.Main() == main;
      OneChainMore(old(tree.index), main, tree.rootNode, tree.bestNode, node);
    }

    method PutAside(node: BlockNode)
      requires tree.Linked() && Listed(tree.index, tree.children) && Fresh(node)
      modifies this`blockCache, tree, node
      ensures tree.Linked() && Listed(tree.index, tree.children) && tree.Hangs(node) && !node.inMainChain
      ensures tree.index == old(tree.index)[node.hash := node] && tree.rootNode == old(tree.rootNode) &&
          tree.bestNode == old(tree.bestNode)
      ensures blockCache == old(blockCache) + {node.hash}
    {
      hide Listed;
      blockCache := blockCache + {node.hash};
      node.inMainChain := false;
      assert tree.Linked();
      hide BlockTree.Linked;
      tree.AttachNew(node);
    }

    /** The reorganisation to a node that is preferred to the best one. */
    method Switch(node: BlockNode)
      requires tree.Linked() && tree.Marked() && Listed(tree.index, tree.children) && tree.Has(node) &&
          Preferred(node, tree.bestNode)
      requires forall h :: h in tree.index && tree.index[h] != node ==> !Preferred(tree.index[h], tree.bestNode)
      requires forall h :: h in tree.index && !tree.index[h].inMainChain ==> h in blockCache
      requires !node.inMainChain && node.previous != tree.bestNode.hash
      modifies this`blockCache, tree`bestNode, tree.index.Values`inMainChain
      ensures Valid() && tree.bestNode == node
    {
      hide BlockTree.Linked, OneChain, Listed, Down, Up, Unmarked;
      ghost var best := tree.bestNode;
      var detach, attach, fork := GetReorganizeNodes(tree, node);
      BestHas(tree);
      NeitherEmpty(tree, node, detach, attach, fork);
      assert detach != [] && attach != [];
      ReorganizeChain(detach, attach, fork, node);
      forall h | h in tree.index
        ensures !Preferred(tree.index[h], node)
      {
        PreferredChain(node, best, tree.index[h]);
      }
    }

    /** `connectBestChain`, for a block that passes its checks: the node extends the best chain, or is
        put on a side chain, and becomes the best node exactly if it extends it or is preferred. */
    method ConnectBestChain(node: BlockNode)
      requires Valid() && Fresh(node)
      modifies this`blockCache, tree, tree.index.Values, node
      ensures Valid()
      ensures tree.index == old(tree.index)[node.hash := node] && tree.rootNode == old(tree.rootNode)
      ensures node.capSum == old(node.parent.capSum) + node.target && tree.Leads()
      ensures tree.bestNode ==
              if old(node.parent == tree.bestNode) || Ahead(node.Rank(), old(tree.bestNode.Rank())) then node
              else old(tree.bestNode)
    {
      hide BlockTree.Linked, BlockTree.Leads, OneChain, Listed, Preferred, Ahead;
      HashesAgree(tree);
      BestHas(tree);
      ghost var best := tree.bestNode;
      if node.parent.hash == tree.bestNode.hash {
        Extend(node);
      } else {
        AddSide(node);
        PreferredIsAhead(node, best);
        assert best.Rank() == old(tree.bestNode.Rank());
        if Preferred(node, tree.bestNode) {
          ghost var rank := node.Rank();
          Switch(node);
          assert node.Rank() == rank;
        }
      }
      tree.BestLeads();
    }

    /** A header that is new, has its parent in the tree and the height and the target to go with it. */
    ghost predicate Taken(header: Header)
      reads tree, tree.index.Values
    {
      && header.hash !in tree.index && header.previous in tree.index
      && header.height == tree.index[header.previous].height + 1 && header.target > 0
    }

    /** The header extends the best chain, or its chain is ahead of it. */
    ghost predicate Wins(header: Header)
      requires header.previous in tree.index && tree.bestNode != null
      reads tree, tree.index.Values, tree.bestNode
    {
      || tree.index[header.previous] == tree.bestNode
      || Ahead(Score(tree.index[header.previous].capSum + header.target, header.timestamp, header.quality, header.hash),
               tree.bestNode.Rank())
    }

    /** The way of a block through `processBlock` and `maybeAcceptBlock`: a known block and a block
        without its parent change nothing, nor does one with a wrong height or target. */
    method ProcessBlock(header: Header)
      requires Valid()
      modifies this`blockCache, tree, tree.index.Values
      ensures Valid() && tree.rootNode == old(tree.rootNode) && tree.Leads()
      ensures !old(Taken(header)) ==> tree.index == old(tree.index) && tree.bestNode == old(tree.bestNode)
      ensures old(Taken(header)) ==>
                && tree.index.Keys == old(tree.index).Keys + {header.hash}
                && tree.bestNode == if old(Wins(header)) then tree.index[header.hash] else old(tree.bestNode)
      ensures fresh(tree.index.Values - old(tree.index.Values)) && forall h :: h in old(tree.index) ==>
          h in tree.index && tree.index[h] == old(tree.index)[h]
    {
      hide BlockTree.Linked, BlockTree.Marked, BlockTree.Best, BlockTree.Leads, BlockTree.Valid, Blockchain.Valid,
          Ahead;
      Led(this);
      if header.hash in tree.index || header.previous !in tree.index {
        return;
      }
      var prevNode := tree.index[header.previous];
      if header.height != prevNode.height + 1 || header.target <= 0 {
        return;
      }
      var node := new BlockNode(header.hash, header.previous, header.height, header.timestamp, header.target,
          header.quality, prevNode);
      ghost var rank := Score(prevNode.capSum + header.target, header.timestamp, header.quality, header.hash);
      ConnectBestChain(node);
      assert node.Rank() == rank;
    }
  }

  /** The fields of a block header that decide the choice of the chain. */
  datatype Header = Header(hash: Hash, previous: Hash, height: nat, timestamp: int, target: int, quality: int)

  lemma Led(chain: Blockchain)
    requires chain.Valid()
    ensures chain.tree.bestNode != null && chain.tree.Leads()
    ensures chain.tree.Has(chain.tree.bestNode) && forall h :: h in chain.tree.index ==> chain.tree.index[h].hash == h
  {
    chain.tree.BestLeads();
  }

  /** Every run: whatever blocks arrive and in whatever order, the tree stays valid, and no node is ahead
      of the best one. */
  method Run(chain: Blockchain, headers: seq<Header>)
    requires chain.Valid()
    modifies chain`blockCache, chain.tree, chain.tree.index.Values
    ensures chain.Valid() && chain.tree.rootNode == old(chain.tree.rootNode) && chain.tree.Leads()
  {
    hide BlockTree.Linked, BlockTree.Marked, BlockTree.Leads, BlockTree.Valid, Blockchain.Valid;
    Led(chain);
    ghost var first := chain.tree.index.Values;
    for i := 0 to |headers|
      invariant chain.Valid() && chain.tree.rootNode == old(chain.tree.rootNode)
      invariant chain.tree.bestNode != null && chain.tree.Leads()
      invariant fresh(chain.tree.index.Values - first)
    {
      chain.ProcessBlock(headers[i]);
    }
  }

  /** `Ancestor`: the node of the given height on the way from the node to the root, if there is one. */
  method Ancestor(tree: BlockTree, node: BlockNode, height: nat) returns (a: BlockNode?)
    requires tree.Linked() && tree.Has(node)
    ensures a == null <==> height > node.height || height < tree.rootNode.height
    ensures a != null ==> a.height == height && a in tree.Ancestors(node)
  {
    if height > node.height {
      return null;
    }
    var n: BlockNode? := node;
    while n != null && n.height != height
      invariant n != null ==> tree.Has(n) && height <= n.height && tree.Ancestors(n) <= tree.Ancestors(node)
      invariant n == null ==> height < tree.rootNode.height
      decreases if n == null then 0 else n.height + 1
    {
      assert n != tree.rootNode ==> tree.Hangs(n);
      n := n.parent;
    }
    return n;
  }

  lemma TipHangs(tree: BlockTree, node: BlockNode)
    requires tree.Linked() && tree.Marked() && node == tree.bestNode && node != tree.rootNode
    ensures tree.Has(node) && tree.Hangs(node)
    ensures OneChain(tree.index, tree.Main() - {node.hash}, tree.rootNode, tree.index[node.previous])
  {
    assert forall h :: h in tree.Main() && tree.index[h] != tree.rootNode ==> tree.Hangs(tree.index[h]);
    OneChainDown(tree.index, tree.Main(), tree.rootNode, node, tree.index[node.previous]);
  }

  lemma NextHangs(tree: BlockTree, node: BlockNode)
    requires tree.Linked() && tree.Marked() && tree.Has(node) && !node.inMainChain &&
        node.previous == tree.bestNode.hash
    ensures node != tree.rootNode && tree.Hangs(node)
    ensures OneChain(tree.index, tree.Main() + {node.hash}, tree.rootNode, node)
  {
    assert node != tree.rootNode && tree.Hangs(node);
    OneChainUp(tree.index, tree.Main(), tree.rootNode, tree.bestNode, node);
  }

  lemma HashesAgree(tree: BlockTree)
    requires tree.Linked()
    ensures forall h :: h in tree.index ==> tree.index[h].hash == h
  {
  }

  lemma BestHas(tree: BlockTree)
    requires tree.Marked()
    ensures tree.Has(tree.bestNode) && tree.Has(tree.rootNode)
  {
  }

  lemma NotRoot(tree: BlockTree, n: BlockNode, fork: BlockNode)
    requires tree.Linked() && tree.Has(fork) && fork.height < n.height
    ensures n != tree.rootNode
  {
  }

  twostate lemma LinkedStill(tree: BlockTree)
    requires old(tree.Linked()) && tree.index == old(tree.index) && tree.rootNode == old(tree.rootNode)
    requires forall h :: h in tree.index ==>
               tree.index[h].parent == old(tree.index[h].parent) && tree.index[h].capSum == old(tree.index[h].capSum)
    ensures tree.Linked()
  {
    assert forall h :: h in tree.index && tree.index[h] != tree.rootNode ==> old(tree.Hangs(tree.index[h]));
  }
}
