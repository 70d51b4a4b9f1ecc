/** The transaction store from the point of view of any node of the block tree. */
module TxLookup {
  import opened Hashes
  import opened Wrappers
  import opened BlockTree
  import opened Reorganize
  import opened Ledger
  import opened TxStore

  /** The nodes from the root to the given one. */
  ghost function Chain(tree: BlockTree, n: BlockNode): seq<BlockNode>
    requires tree.Linked() && tree.Has(n)
    reads tree, tree.index.Values
    decreases n.height
  {
    if n == tree.rootNode then [n] else Chain(tree, tree.index[n.previous]) + [n]
  }

  function Reversed(nodes: seq<BlockNode>): seq<BlockNode>
  {
    if nodes == [] then [] else Reversed(nodes[1..]) + [nodes[0]]
  }

  lemma ChainStep(tree: BlockTree, n: BlockNode, fork: BlockNode)
    requires tree.Linked() && tree.Has(n) && tree.Has(fork) && fork.height < n.height
    ensures n.previous in tree.index && tree.Has(tree.index[n.previous])
    ensures Chain(tree, n) == Chain(tree, tree.index[n.previous]) + [n]
  {
    NotRoot(tree, n, fork);
    assert tree.Hangs(n);
  }

  lemma UpPrefix(index: map<Hash, BlockNode>, nodes: seq<BlockNode>, fork: BlockNode, last: BlockNode)
    requires Up(index, nodes, fork, last) && nodes != [] && fork.hash in index && index[fork.hash] == fork
    ensures last == nodes[|nodes| - 1] && last.previous in index && fork.height < last.height
    ensures Up(index, nodes[..|nodes| - 1], fork, index[last.previous])
  {
    var n := |nodes| - 1;
    assert n > 0 ==> nodes[n].previous == nodes[n - 1].hash;
  }

  lemma DownSuffix(index: map<Hash, BlockNode>, nodes: seq<BlockNode>, top: BlockNode, fork: BlockNode)
    requires Down(index, nodes, top, fork) && nodes != [] && fork.hash in index && index[fork.hash] == fork
    ensures top == nodes[0] && top.previous in index && fork.height < top.height
    ensures Down(index, nodes[1..], index[top.previous], fork)
  {
    assert |nodes| > 1 ==> nodes[0].previous == nodes[1].hash;
  }

  lemma {:induction false} ChainUp(tree: BlockTree, nodes: seq<BlockNode>, fork: BlockNode, last: BlockNode)
    requires tree.Linked() && tree.Has(fork) && Up(tree.index, nodes, fork, last)
    ensures tree.Has(last) && Chain(tree, last) == Chain(tree, fork) + nodes
    decreases |nodes|
  {
    hide BlockTree.Linked, Chain;
    if nodes == [] {
      assert fork == last;
      assert Chain(tree, fork) + nodes == Chain(tree, fork);
    } else {
      UpPrefix(tree.index, nodes, fork, last);
      assert tree.Has(last);
      hide Up;
      ChainStep(tree, last, fork);
      ChainUp(tree, nodes[..|nodes| - 1], fork, tree.index[last.previous]);
      assert nodes == nodes[..|nodes| - 1] + [last];
    }
  }

  lemma {:induction false} ChainDown(tree: BlockTree, nodes: seq<BlockNode>, top: BlockNode, fork: BlockNode)
    requires tree.Linked() && tree.Has(fork) && Down(tree.index, nodes, top, fork)
    ensures tree.Has(top) && Chain(tree, top) == Chain(tree, fork) + Reversed(nodes)
    decreases |nodes|
  {
    hide BlockTree.Linked, Chain;
    if nodes == [] {
      assert fork == top;
      assert Chain(tree, fork) + Reversed(nodes) == Chain(tree, fork);
    } else {
      DownSuffix(tree.index, nodes, top, fork);
      assert tree.Has(top);
      hide Down;
      ChainStep(tree, top, fork);
      ChainDown(tree, nodes[1..], tree.index[top.previous], fork);
    }
  }

  /** The database of the main chain: what was there before the root of the tree, and the blocks since. */
  datatype ChainDb = ChainDb(base: View, blocks: seq<Block>)

  function FindTx(txs: seq<Tx>, h: Hash): (r: Option<Tx>)
    ensures r.Some? ==> r.value in txs && r.value.id == h
    ensures r.None? ==> forall i :: 0 <= i < |txs| ==> txs[i].id != h
  {
    if txs == [] then None else if txs[|txs| - 1].id == h then Some(txs[|txs| - 1]) else FindTx(txs[..|txs| - 1], h)
  }

  /** `FetchLastFullySpentTxBeforeHeight`: the last transaction with the hash in a block below the
      height. A transaction that a later one replaced is fully spent. */
  function LastBefore(db: ChainDb, h: Hash, height: nat): Option<(Tx, nat)>
    decreases |db.blocks|
  {
    if db.blocks == [] then Version(db.base, h)
    else
      var n := |db.blocks| - 1;
      var b := db.blocks[n];
      if b.height < height && FindTx(b.txs, h).Some? then Some((FindTx(b.txs, h).value, b.height))
      else LastBefore(ChainDb(db.base, db.blocks[..n]), h, height)
  }

  /** Each block is one higher than the one before it. */
  predicate Ascending(blocks: seq<Block>)
  {
    forall i :: 0 < i < |blocks| ==> blocks[i].height == blocks[i - 1].height + 1
  }

  /** The blocks at and above the height do not matter. */
  lemma {:induction false} LastBeforeCut(db: ChainDb, h: Hash, k: nat)
    requires Ascending(db.blocks) && k < |db.blocks|
    ensures LastBefore(db, h, db.blocks[k].height) == LastBefore(ChainDb(db.base, db.blocks[..k]), h,
        db.blocks[k].height)
    decreases |db.blocks|
  {
    var n := |db.blocks| - 1;
    AscendingHeights(db.blocks, k, n);
    var less := ChainDb(db.base, db.blocks[..n]);
    if k < n {
      LastBeforeCut(less, h, k);
      assert less.blocks[..k] == db.blocks[..k];
    }
  }

  lemma {:induction false} AscendingHeights(blocks: seq<Block>, i: nat, j: nat)
    requires Ascending(blocks) && i <= j < |blocks|
    ensures blocks[j].height == blocks[i].height + j - i
    decreases j
  {
    if i < j {
      AscendingHeights(blocks, i, j - 1);
    }
  }

  lemma {:induction false} AfterOwn(v: View, txs: seq<Tx>, height: nat, h: Hash)
    requires Sized(v) && Distinct(txs) && FindTx(txs, h).Some?
    ensures var w := ApplyTxs(v, txs, height); h in w && w[h].tx == FindTx(txs, h).value && w[h].height == height
    decreases |txs|
  {
    var n := |txs| - 1;
    var w := ApplyTxs(v, txs[..n], height);
    ApplyTxsSized(v, txs[..n], height);
    if txs[n].id == h {
      MarkKeepsTx(Enter(w, txs[n], height), txs[n].ins, h);
    } else {
      AfterOwn(v, txs[..n], height, h);
      KeepsTx(w, txs[n], height, h);
    }
  }

  /** The search finds the version that replaying the lower blocks gives. */
  lemma {:induction false} LastBeforeIs(db: ChainDb, h: Hash, height: nat)
    requires Sized(db.base) && forall i :: 0 <= i < |db.blocks| ==>
        db.blocks[i].height < height && Distinct(db.blocks[i].txs)
    ensures LastBefore(db, h, height) == Version(Replay(db.base, db.blocks), h)
    decreases |db.blocks|
  {
    if db.blocks != [] {
      var n := |db.blocks| - 1;
      var b := db.blocks[n];
      var v := Replay(db.base, db.blocks[..n]);
      ReplaySized(db.base, db.blocks[..n]);
      if FindTx(b.txs, h).Some? {
        AfterOwn(v, b.txs, b.height, h);
      } else {
        LastBeforeIs(ChainDb(db.base, db.blocks[..n]), h, height);
        BeforeOwn(v, b.txs, b.height, h);
      }
    }
  }

  /** What the database replies for a hash: the transaction and its marks at the tip. Without
      `includeSpent` a transaction whose outputs are all spent is not found. */
  function Reply(db: ChainDb, h: Hash, includeSpent: bool): Option<Entry>
  {
    var v := Replay(db.base, db.blocks);
    if h in v && (includeSpent || !AllSpent(v[h])) then Some(v[h]) else None
  }

  /** `fetchTxStoreMain`: every transaction that was asked for is shown as replaying the main chain shows
      it, but one with nothing left to spend is missing unless spent ones are included. */
  method FetchTxStoreMain(db: ChainDb, txSet: set<Hash>, includeSpent: bool) returns (store: Store)
    ensures fresh(store) && store.entries.Keys == txSet
    ensures includeSpent ==> Shows(store.entries, Replay(db.base, db.blocks))
    ensures var v := Replay(db.base, db.blocks);
            forall h :: h in txSet ==>
              store.entries[h] == if h in v && AllSpent(v[h]) && !includeSpent then MISSING else Shown(v, h)
  {
    hide Replay;
    ghost var v := Replay(db.base, db.blocks);
    store := new Store(map h | h in txSet :: MISSING);
    var left := txSet;
    while left != {}
      invariant left <= txSet && store.entries.Keys == txSet
      invariant forall h :: h in left ==> store.entries[h] == MISSING
      invariant forall h :: h in txSet - left ==>
                  store.entries[h] == if h in v && AllSpent(v[h]) && !includeSpent then MISSING else Shown(v, h)
      decreases |left|
    {
      var h :| h in left;
      var reply := Reply(db, h, includeSpent);
      if reply.Some? {
        store.entries := store.entries[h := TxData(Some(reply.value.tx), reply.value.height, reply.value.spent, false)];
      }
      left := left - {h};
    }
  }

  function BlocksOf(nodes: seq<BlockNode>, blocks: map<Hash, Block>): (r: seq<Block>)
    requires forall i :: 0 <= i < |nodes| ==> nodes[i].hash in blocks
    ensures |r| == |nodes| && forall i :: 0 <= i < |nodes| ==> r[i] == blocks[nodes[i].hash]
  {
    seq(|nodes|, i requires 0 <= i < |nodes| => blocks[nodes[i].hash])
  }

  /** The blocks from the root to a node. */
  ghost function PathBlocks(tree: BlockTree, n: BlockNode, blocks: map<Hash, Block>): seq<Block>
    requires tree.Linked() && tree.Has(n) && tree.index.Keys <= blocks.Keys
    reads tree, tree.index.Values
  {
    ChainInTree(tree, n);
    BlocksOf(Chain(tree, n), blocks)
  }

  lemma {:induction false} ChainInTree(tree: BlockTree, n: BlockNode)
    requires tree.Linked() && tree.Has(n)
    ensures forall i :: 0 <= i < |Chain(tree, n)| ==> tree.Has(Chain(tree, n)[i])
    ensures forall i :: 0 < i < |Chain(tree, n)| ==> Chain(tree, n)[i].height == Chain(tree, n)[i - 1].height + 1
    ensures Chain(tree, n) != [] && Chain(tree, n)[|Chain(tree, n)| - 1] == n
    decreases n.height
  {
    if n != tree.rootNode {
      assert tree.Hangs(n);
      ChainInTree(tree, tree.index[n.previous]);
    }
  }

  /** A tree of valid blocks: every path from the root fits. */
  ghost predicate ValidBlocks(tree: BlockTree, base: View, blocks: map<Hash, Block>)
    requires tree.Linked() && tree.index.Keys <= blocks.Keys
    reads tree, tree.index.Values
  {
    && Sized(base)
    && (forall h :: h in tree.index ==> blocks[h].height == tree.index[h].height && Distinct(blocks[h].txs))
    && (forall h :: h in tree.index ==> ChainFits(base, PathBlocks(tree, tree.index[h], blocks)))
  }

  /** The chain of a database that can be replayed. */
  predicate Sound(db: ChainDb)
  {
    Sized(db.base) && Ascending(db.blocks) && ChainFits(db.base, db.blocks)
  }

  lemma VersionBelow(db: ChainDb, k: nat, h: Hash)
    requires Sound(db) && k < |db.blocks|
    ensures LastBefore(db, h, db.blocks[k].height) == Version(Replay(db.base, db.blocks[..k]), h)
  {
    hide BlockFits, Replay, LastBefore, Version;
    LastBeforeCut(db, h, k);
    var less := ChainDb(db.base, db.blocks[..k]);
    forall i | 0 <= i < k
      ensures less.blocks[i].height < db.blocks[k].height && Distinct(less.blocks[i].txs)
    {
      AscendingHeights(db.blocks, i, k);
      FitsDistinct(Replay(db.base, db.blocks[..i]), db.blocks[i]);
    }
    LastBeforeIs(less, h, db.blocks[k].height);
  }

  lemma FitsDistinct(v: View, b: Block)
    requires BlockFits(v, b)
    ensures Distinct(b.txs)
  {
  }

  /** Undoes the topmost blocks of the main chain, the highest first. */
  method UndoAll(store: Store, db: ChainDb, undo: seq<Block>)
    requires Sound(db) && Shows(store.entries, Replay(db.base, db.blocks)) && |undo| <= |db.blocks|
    requires forall i :: 0 <= i < |undo| ==> undo[i] == db.blocks[|db.blocks| - 1 - i]
    modifies store
    ensures store.entries.Keys == old(store.entries.Keys)
    ensures Shows(store.entries, Replay(db.base, db.blocks[..|db.blocks| - |undo|]))
  {
    hide Replay, BlockFits, LastBefore, Version, Shows, Ascending, ApplyBlock;
    assert db.blocks[..|db.blocks|] == db.blocks;
    for i := 0 to |undo|
      invariant store.entries.Keys == old(store.entries.Keys)
      invariant Shows(store.entries, Replay(db.base, db.blocks[..|db.blocks| - i]))
    {
      ghost var k := |db.blocks| - 1 - i;
      ghost var v := Replay(db.base, db.blocks[..k]);
      var b := undo[i];
      ReplayNext(db.base, db.blocks, k);
      ReplaySized(db.base, db.blocks[..k]);
      forall j | 0 <= j < |b.txs|
        ensures LastBefore(db, b.txs[j].id, b.height) == Version(v, b.txs[j].id)
      {
        VersionBelow(db, k, b.txs[j].id);
      }
      var r := store.DisconnectTransactions((h: Hash) => LastBefore(db, h, b.height), b, v);
      assert r == None;
    }
  }

  /** Applies the blocks of a side chain, the lowest first. */
  method RedoAll(store: Store, ghost base: View, ghost below: seq<Block>, redo: seq<Block>)
    requires Sized(base) && ChainFits(base, below + redo) && Shows(store.entries, Replay(base, below))
    modifies store
    ensures store.entries.Keys == old(store.entries.Keys)
    ensures Shows(store.entries, Replay(base, below + redo))
  {
    hide Replay, BlockFits, Shows, ApplyBlock;
    ghost var all := below + redo;
    assert all[..|below|] == below && all[..|below| + |redo|] == all;
    for i := 0 to |redo|
      invariant store.entries.Keys == old(store.entries.Keys)
      invariant Shows(store.entries, Replay(base, all[..|below| + i]))
    {
      ghost var k := |below| + i;
      ReplayNext(base, all, k);
      ReplaySized(base, all[..k]);
      assert all[k] == redo[i];
      var r := store.ConnectTransactions(redo[i], Replay(base, all[..k]));
      assert r == None;
    }
  }

  lemma NodesInTree(index: map<Hash, BlockNode>, blocks: map<Hash, Block>, nodes: seq<BlockNode>)
    requires index.Keys <= blocks.Keys
    requires forall i :: 0 <= i < |nodes| ==> nodes[i].hash in index
    ensures forall i :: 0 <= i < |nodes| ==> nodes[i].hash in blocks
  {
  }

  lemma PathUp(tree: BlockTree, blocks: map<Hash, Block>, node: BlockNode, fork: BlockNode, attach: seq<BlockNode>)
    requires tree.Linked() && tree.index.Keys <= blocks.Keys && tree.Has(fork) && Up(tree.index, attach, fork, node)
    ensures forall i :: 0 <= i < |attach| ==> attach[i].hash in blocks
    ensures tree.Has(node) && PathBlocks(tree, node, blocks) == PathBlocks(tree, fork, blocks) +
        BlocksOf(attach, blocks)
  {
    hide BlockTree.Linked, Chain;
    NodesInTree(tree.index, blocks, attach);
    ChainUp(tree, attach, fork, node);
    ChainInTree(tree, fork);
    ChainInTree(tree, node);
  }

  lemma PathDown(tree: BlockTree, blocks: map<Hash, Block>, best: BlockNode, fork: BlockNode, detach: seq<BlockNode>)
    requires tree.Linked() && tree.index.Keys <= blocks.Keys && tree.Has(fork) && Down(tree.index, detach, best, fork)
    ensures forall i :: 0 <= i < |detach| ==> detach[i].hash in blocks
    ensures tree.Has(best)
    ensures var main, undo := PathBlocks(tree, best, blocks), BlocksOf(detach, blocks);
            && |main| == |PathBlocks(tree, fork, blocks)| + |undo|
            && main[..|main| - |undo|] == PathBlocks(tree, fork, blocks)
            && forall i :: 0 <= i < |undo| ==> undo[i] == main[|main| - 1 - i]
  {
    hide BlockTree.Linked, Chain, Reversed;
    NodesInTree(tree.index, blocks, detach);
    ChainDown(tree, detach, best, fork);
    ReversedLength(detach);
    ChainInTree(tree, fork);
    ChainInTree(tree, best);
    var main, undo := PathBlocks(tree, best, blocks), BlocksOf(detach, blocks);
    forall i | 0 <= i < |undo|
      ensures undo[i] == main[|main| - 1 - i]
    {
      ReversedAt(detach, i);
    }
  }

  lemma {:induction false} ReversedLength(nodes: seq<BlockNode>)
    ensures |Reversed(nodes)| == |nodes|
  {
    if nodes != [] {
      ReversedLength(nodes[1..]);
    }
  }

  lemma {:induction false} ReversedAt(nodes: seq<BlockNode>, i: nat)
    requires i < |nodes|
    ensures |Reversed(nodes)| == |nodes| && nodes[i] == Reversed(nodes)[|nodes| - 1 - i]
  {
    ReversedLength(nodes);
    ReversedLength(nodes[1..]);
    if i > 0 {
      ReversedAt(nodes[1..], i - 1);
    }
  }

  /** `fetchTxStore`, for a node whose parent is `prevNode`. Whatever side chain the node is on, the
      store shows the view that replaying the blocks from the root to the parent gives: undoing and
      redoing blocks is as good as replaying. Only at the tip of the best chain the transactions with
      no unspent output are shown as missing. */
  method FetchTxStore(tree: BlockTree, db: ChainDb, blocks: map<Hash, Block>, prevNode: BlockNode, txSet: set<Hash>)
      returns (store: Store)
    requires tree.Linked() && tree.Marked() && tree.Has(prevNode) && tree.index.Keys <= blocks.Keys
    requires ValidBlocks(tree, db.base, blocks) && db.blocks == PathBlocks(tree, tree.bestNode, blocks)
    ensures fresh(store) && store.entries.Keys == txSet
    ensures var v := Replay(db.base, PathBlocks(tree, prevNode, blocks));
            forall h :: h in txSet ==>
              || store.entries[h] == Shown(v, h)
              || (prevNode == tree.bestNode && h in v && AllSpent(v[h]) && store.entries[h] == MISSING)
  {
    hide BlockTree.Linked, OneChain, Replay, ChainFits, Chain, Up, Down, Ascending, Shows, PathBlocks, ValidBlocks,
        Unmarked;
    BestHas(tree);
    SoundDb(tree, db, blocks);
    if prevNode.hash == tree.bestNode.hash {
      store := FetchTxStoreMain(db, txSet, false);
      return;
    }
    store := FetchTxStoreMain(db, txSet, true);
    var detach, attach, fork := GetReorganizeNodes(tree, prevNode);
    PathUp(tree, blocks, prevNode, fork, attach);
    PathDown(tree, blocks, tree.bestNode, fork, detach);
    UndoAll(store, db, BlocksOf(detach, blocks));
    if |attach| == 0 {
      SamePath(tree, blocks, fork, prevNode, attach);
      ShownAll(store.entries, Replay(db.base, PathBlocks(tree, prevNode, blocks)));
      return;
    }
    PathFits(tree, db.base, blocks, prevNode);
    RedoAll(store, db.base, PathBlocks(tree, fork, blocks), BlocksOf(attach, blocks));
    ShownAll(store.entries, Replay(db.base, PathBlocks(tree, prevNode, blocks)));
  }

  lemma ShownAll(entries: map<Hash, TxData>, v: View)
    requires Shows(entries, v)
    ensures forall h :: h in entries ==> entries[h] == Shown(v, h)
  {
  }

  lemma SamePath(tree: BlockTree, blocks: map<Hash, Block>, fork: BlockNode, node: BlockNode, attach: seq<BlockNode>)
    requires tree.Linked() && tree.Has(fork) && Up(tree.index, attach, fork, node) && attach == []
    ensures fork == node
  {
  }

  lemma PathFits(tree: BlockTree, base: View, blocks: map<Hash, Block>, n: BlockNode)
    requires tree.Linked() && tree.Has(n) && tree.index.Keys <= blocks.Keys && ValidBlocks(tree, base, blocks)
    ensures ChainFits(base, PathBlocks(tree, n, blocks)) && Sized(base)
  {
    assert tree.index[n.hash] == n;
  }

  lemma SoundDb(tree: BlockTree, db: ChainDb, blocks: map<Hash, Block>)
    requires tree.Linked() && tree.Marked() && tree.index.Keys <= blocks.Keys && ValidBlocks(tree, db.base, blocks)
    requires tree.Has(tree.bestNode) && db.blocks == PathBlocks(tree, tree.bestNode, blocks)
    ensures Sound(db)
  {
    hide ChainFits, Chain, OneChain;
    PathFits(tree, db.base, blocks, tree.bestNode);
    ChainInTree(tree, tree.bestNode);
    var nodes := Chain(tree, tree.bestNode);
    forall i | 0 <= i < |nodes|
      ensures db.blocks[i].height == nodes[i].height
    {
      assert tree.index[nodes[i].hash] == nodes[i];
    }
  }
}
