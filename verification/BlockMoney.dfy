/** Connecting a block: the money part of the checks, and what acceptance means for the total. */
module BlockMoney {
  import opened Hashes
  import opened Wrappers
  import opened BlockTree
  import opened Ledger
  import opened TxStore
  import opened TxLookup
  import opened Money

  /** The outputs that a transaction refers to; the first input of a coinbase refers to none. */
  function Refs(tx: Tx): seq<OutPoint>
  {
    if IsCoinBase(tx) then tx.ins[1..] else tx.ins
  }

  predicate RefersTo(tx: Tx, h: Hash)
  {
    exists i :: 0 <= i < |Refs(tx)| && Refs(tx)[i].hash == h
  }

  /** A transaction of the block itself, as a source of outputs for the later ones. */
  function InFlight(tx: Tx, height: nat): TxData
  {
    TxData(Some(tx), height, seq(|tx.outs|, _ => false), false)
  }

  /** The entry is what the view before the block has for the hash; a transaction with nothing left
      to spend may appear as missing. */
  predicate Seen(d: TxData, v: View, h: Hash)
  {
    d == Shown(v, h) || (h in v && AllSpent(v[h]) && d == MISSING)
  }

  /** The entry is the transaction at the index `j` of the block, and only later ones refer to it. */
  predicate Pending(d: TxData, b: Block, h: Hash, j: nat)
  {
    && j < |b.txs| && b.txs[j].id == h && d == InFlight(b.txs[j], b.height)
    && forall k :: 0 <= k < j ==> !RefersTo(b.txs[k], h)
  }

  /** What `fetchInputTransactions` promises. */
  ghost predicate InputStore(entries: map<Hash, TxData>, v: View, b: Block)
  {
    && (forall h :: h in entries ==> Seen(entries[h], v, h) || exists j: nat :: Pending(entries[h], b, h, j))
    && (forall i :: 0 <= i < |b.txs| ==> Covered(entries, b.txs[i]))
    && (Distinct(b.txs) ==> forall j :: 0 <= j < |b.txs| ==> Placed(entries, b, j))
  }

  /** An earlier transaction of the block refers to the hash. */
  predicate Early(b: Block, j: nat, h: Hash)
  {
    exists k :: 0 <= k < j && k < |b.txs| && RefersTo(b.txs[k], h)
  }

  /** The entry for a transaction of the block is that transaction, unless an earlier one refers to it:
      then the entry is what the chain has under the hash. */
  predicate Placed(entries: map<Hash, TxData>, b: Block, j: nat)
    requires j < |b.txs|
  {
    var h := b.txs[j].id;
    h in entries ==> Pending(entries[h], b, h, j) || Early(b, j, h)
  }

  predicate Covered(entries: map<Hash, TxData>, tx: Tx)
  {
    forall i :: 0 <= i < |Refs(tx)| ==> Refs(tx)[i].hash in entries
  }

  /** The index of the last transaction with each hash. */
  method IndexTxs(txs: seq<Tx>) returns (inFlight: map<Hash, nat>)
    ensures forall h :: h in inFlight ==> inFlight[h] < |txs| && txs[inFlight[h]].id == h
    ensures forall i :: 0 <= i < |txs| ==> txs[i].id in inFlight && i <= inFlight[txs[i].id]
  {
    inFlight := map[];
    for i := 0 to |txs|
      invariant forall h :: h in inFlight ==> inFlight[h] < i && txs[inFlight[h]].id == h
      invariant forall j :: 0 <= j < i ==> txs[j].id in inFlight && j <= inFlight[txs[j].id]
    {
      inFlight := inFlight[txs[i].id := i];
    }
  }

  /** Some transaction refers to the hash without having it before it in the block. */
  predicate Needs(b: Block, inFlight: map<Hash, nat>, k: nat, h: Hash)
  {
    k < |b.txs| && RefersTo(b.txs[k], h) && !(h in inFlight && k >= inFlight[h])
  }

  /** The entries that are not needed from the chain are transactions in flight. */
  predicate Sorted(b: Block, inFlight: map<Hash, nat>, entries: map<Hash, TxData>, needed: set<Hash>)
  {
    && needed <= entries.Keys
    && forall h :: h in entries && h !in needed ==>
         h in inFlight && inFlight[h] < |b.txs| && entries[h] == InFlight(b.txs[inFlight[h]], b.height)
  }

  /** The inputs of one transaction. */
  method SortTx(b: Block, inFlight: map<Hash, nat>, i: nat, entries: map<Hash, TxData>, needed: set<Hash>)
    returns (entries': map<Hash, TxData>, needed': set<Hash>)
    requires i < |b.txs| && Sorted(b, inFlight, entries, needed) && forall h :: h in inFlight ==> inFlight[h] < |b.txs|
    ensures Sorted(b, inFlight, entries', needed') && needed <= needed' && entries.Keys <= entries'.Keys
    ensures Covered(entries', b.txs[i]) && forall h :: Needs(b, inFlight, i, h) ==> h in needed'
    ensures forall h :: h in needed' ==> h in needed || Needs(b, inFlight, i, h)
  {
    hide InFlight, Needs;
    entries', needed' := entries, needed;
    var ins := Refs(b.txs[i]);
    for j := 0 to |ins|
      invariant Sorted(b, inFlight, entries', needed') && needed <= needed' && entries.Keys <= entries'.Keys
      invariant forall k :: 0 <= k < j ==> ins[k].hash in entries'
      invariant forall k :: 0 <= k < j && Needs(b, inFlight, i, ins[k].hash) ==> ins[k].hash in needed'
      invariant forall h :: h in needed' ==> h in needed || Needs(b, inFlight, i, h)
    {
      var h := ins[j].hash;
      NeedsIs(b, inFlight, i, j);
      if h in inFlight && i >= inFlight[h] {
        entries' := entries'[h := InFlight(b.txs[inFlight[h]], b.height)];
      } else {
        needed' := needed' + {h};
        entries' := entries'[h := MISSING];
      }
    }
    forall h | Needs(b, inFlight, i, h)
      ensures h in needed'
    {
      NeedsRef(b, inFlight, i, h);
    }
  }

  lemma NeedsIs(b: Block, inFlight: map<Hash, nat>, i: nat, j: nat)
    requires i < |b.txs| && j < |Refs(b.txs[i])|
    ensures var h := Refs(b.txs[i])[j].hash;
            Needs(b, inFlight, i, h) <==> !(h in inFlight && i >= inFlight[h])
  {
  }

  lemma NeedsRef(b: Block, inFlight: map<Hash, nat>, i: nat, h: Hash)
    requires Needs(b, inFlight, i, h)
    ensures exists j :: 0 <= j < |Refs(b.txs[i])| && Refs(b.txs[i])[j].hash == h
  {
  }

  /** The first part of `fetchInputTransactions`: the transactions in flight, and the hashes that are
      still needed. */
  method SortInputs(b: Block, inFlight: map<Hash, nat>) returns (entries: map<Hash, TxData>, needed: set<Hash>)
    requires forall h :: h in inFlight ==> inFlight[h] < |b.txs|
    ensures Sorted(b, inFlight, entries, needed) && forall i :: 0 <= i < |b.txs| ==> Covered(entries, b.txs[i])
    ensures forall k: nat, h :: k < |b.txs| && Needs(b, inFlight, k, h) ==> h in needed
    ensures forall h :: h in needed ==> exists k: nat :: Needs(b, inFlight, k, h)
  {
    hide Needs, Covered;
    entries, needed := map[], {};
    for i := 0 to |b.txs|
      invariant Sorted(b, inFlight, entries, needed) && forall k :: 0 <= k < i ==> Covered(entries, b.txs[k])
      invariant forall k: nat, h :: k < i && Needs(b, inFlight, k, h) ==> h in needed
      invariant forall h :: h in needed ==> exists k: nat :: Needs(b, inFlight, k, h)
    {
      var before := entries;
      entries, needed := SortTx(b, inFlight, i, entries, needed);
      forall k | 0 <= k < i
        ensures Covered(entries, b.txs[k])
      {
        CoveredMore(before, entries, b.txs[k]);
      }
    }
  }

  lemma CoveredMore(entries: map<Hash, TxData>, more: map<Hash, TxData>, tx: Tx)
    requires Covered(entries, tx) && entries.Keys <= more.Keys
    ensures Covered(more, tx)
  {
  }

  /** The tree, the database and the blocks that the store is looked up in. */
  ghost predicate Setting(tree: BlockTree, db: ChainDb, blocks: map<Hash, Block>, prevNode: BlockNode)
    reads tree, tree.index.Values
  {
    && tree.Linked() && tree.Marked() && tree.Has(prevNode) && tree.index.Keys <= blocks.Keys
    && ValidBlocks(tree, db.base, blocks) && db.blocks == PathBlocks(tree, tree.bestNode, blocks)
  }

  /** The view before the block: everything up to its parent. */
  ghost function ViewAt(tree: BlockTree, db: ChainDb, blocks: map<Hash, Block>, prevNode: BlockNode): View
    requires Setting(tree, db, blocks, prevNode)
    reads tree, tree.index.Values
  {
    Replay(db.base, PathBlocks(tree, prevNode, blocks))
  }

  method FetchSeen(tree: BlockTree, db: ChainDb, blocks: map<Hash, Block>, prevNode: BlockNode, txSet: set<Hash>)
      returns (store: Store)
    requires Setting(tree, db, blocks, prevNode)
    ensures fresh(store) && store.entries.Keys == txSet
    ensures forall h :: h in txSet ==> Seen(store.entries[h], ViewAt(tree, db, blocks, prevNode), h)
  {
    hide BlockTree.Linked, BlockTree.Marked, ValidBlocks, PathBlocks, Replay;
    store := FetchTxStore(tree, db, blocks, prevNode, txSet);
  }

  /** `fetchInputTransactions`. */
  method FetchInputTransactions(tree: BlockTree, db: ChainDb, blocks: map<Hash, Block>, prevNode: BlockNode, b: Block)
      returns (store: Store)
    requires Setting(tree, db, blocks, prevNode)
    ensures fresh(store) && InputStore(store.entries, ViewAt(tree, db, blocks, prevNode), b)
  {
    hide Setting, ViewAt, Seen, InputStore, Sorted, Covered;
    var inFlight := IndexTxs(b.txs);
    var entries, needed := SortInputs(b, inFlight);
    store := FetchSeen(tree, db, blocks, prevNode, needed);
    InputStoreIs(entries, store.entries, ViewAt(tree, db, blocks, prevNode), b, inFlight, needed);
    store.entries := entries + store.entries;
  }

  lemma InputStoreIs(entries: map<Hash, TxData>, found: map<Hash, TxData>, v: View, b: Block,
      inFlight: map<Hash, nat>, needed: set<Hash>)
    requires forall h :: h in inFlight ==> inFlight[h] < |b.txs| && b.txs[inFlight[h]].id == h
    requires forall i :: 0 <= i < |b.txs| ==> b.txs[i].id in inFlight
    requires Sorted(b, inFlight, entries, needed) && forall i :: 0 <= i < |b.txs| ==> Covered(entries, b.txs[i])
    requires forall k: nat, h :: k < |b.txs| && Needs(b, inFlight, k, h) ==> h in needed
    requires forall h :: h in needed ==> exists k: nat :: Needs(b, inFlight, k, h)
    requires found.Keys == needed && forall h :: h in needed ==> Seen(found[h], v, h)
    ensures InputStore(entries + found, v, b)
  {
    hide Seen, Pending, Needs, Covered, Early;
    var all := entries + found;
    forall h | h in all
      ensures Seen(all[h], v, h) || exists j: nat :: Pending(all[h], b, h, j)
    {
      if h !in needed {
        PendingIs(all[h], b, inFlight, h, needed);
      }
    }
    forall i | 0 <= i < |b.txs|
      ensures Covered(all, b.txs[i])
    {
      CoveredMore(entries, all, b.txs[i]);
    }
    if Distinct(b.txs) {
      forall j | 0 <= j < |b.txs|
        ensures Placed(all, b, j)
      {
        var h := b.txs[j].id;
        if h in needed {
          var k: nat :| Needs(b, inFlight, k, h);
          EarlyIs(b, inFlight, k, j);
        } else if h in all {
          PendingIs(all[h], b, inFlight, h, needed);
        }
      }
    }
  }

  lemma PendingIs(d: TxData, b: Block, inFlight: map<Hash, nat>, h: Hash, needed: set<Hash>)
    requires h in inFlight && inFlight[h] < |b.txs| && h !in needed && b.txs[inFlight[h]].id == h
    requires d == InFlight(b.txs[inFlight[h]], b.height)
    requires forall k: nat, g :: k < |b.txs| && Needs(b, inFlight, k, g) ==> g in needed
    ensures Pending(d, b, h, inFlight[h])
  {
    hide Needs;
    NotNeeded(b, inFlight, h, needed);
  }

  lemma EarlyIs(b: Block, inFlight: map<Hash, nat>, k: nat, j: nat)
    requires j < |b.txs| && b.txs[j].id in inFlight && inFlight[b.txs[j].id] == j
    requires Needs(b, inFlight, k, b.txs[j].id)
    ensures Early(b, j, b.txs[j].id)
  {
  }

  lemma NotNeeded(b: Block, inFlight: map<Hash, nat>, h: Hash, needed: set<Hash>)
    requires h in inFlight && inFlight[h] <= |b.txs| && h !in needed
    requires forall k: nat, g :: k < |b.txs| && Needs(b, inFlight, k, g) ==> g in needed
    ensures forall k :: 0 <= k < inFlight[h] ==> !RefersTo(b.txs[k], h)
  {
    forall k | 0 <= k < inFlight[h]
      ensures !RefersTo(b.txs[k], h)
    {
      assert !Needs(b, inFlight, k, h);
    }
  }

  /** `checkDupTx`: no transaction of the block replaces one that has unspent outputs. */
  method CheckDupTx(tree: BlockTree, db: ChainDb, blocks: map<Hash, Block>, prevNode: BlockNode, b: Block)
      returns (r: Option<TxError>)
    requires Setting(tree, db, blocks, prevNode)
    ensures var v := ViewAt(tree, db, blocks, prevNode);
            r.None? <==> forall i :: 0 <= i < |b.txs| && b.txs[i].id in v ==> AllSpent(v[b.txs[i].id])
  {
    hide Setting, ViewAt;
    var fetchSet := {};
    for i := 0 to |b.txs|
      invariant forall h :: h in fetchSet <==> exists j :: 0 <= j < i && b.txs[j].id == h
    {
      fetchSet := fetchSet + {b.txs[i].id};
    }
    var store := FetchSeen(tree, db, blocks, prevNode, fetchSet);
    ghost var v := ViewAt(tree, db, blocks, prevNode);
    var rest := fetchSet;
    while rest != {}
      invariant rest <= fetchSet
      invariant forall h :: h in fetchSet - rest && h in v ==> AllSpent(v[h])
    {
      var h :| h in rest;
      assert Seen(store.entries[h], v, h);
      if !store.entries[h].missing && !IsTransactionSpent(store.entries[h]) {
        return Some(OverwriteTx);
      }
      rest := rest - {h};
    }
    r := None;
  }
}
