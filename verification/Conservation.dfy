/** A block that passes the checks adds no more than its reward to the total of the unspent outputs. */
module Conservation {
  import opened Hashes
  import opened Wrappers
  import opened BlockTree
  import opened Ledger
  import opened TxStore
  import opened TxLookup
  import opened Worth
  import opened Money
  import opened BlockMoney

  /** What `checkBlockSanity` has seen to, and that no transaction refers to its own hash. */
  predicate Sane(b: Block)
  {
    && |b.txs| > 0 && IsCoinBase(b.txs[0]) && Distinct(b.txs)
    && (forall i :: 0 < i < |b.txs| ==> !IsCoinBase(b.txs[i]))
    && forall i :: 0 <= i < |b.txs| ==> Unused(b.txs[i].ins, b.txs[i].id)
  }

  /** Nothing can be spent of the entry. */
  ghost predicate Dead(d: TxData)
  {
    forall x: nat :: !Spendable(d, x)
  }

  /** A transaction with the hash is still to come. */
  predicate Upcoming(b: Block, i: nat, h: Hash)
  {
    exists j :: i <= j < |b.txs| && b.txs[j].id == h
  }

  /** The entry is one that only transactions after the one at its index refer to, and that index is
      still to come. */
  ghost predicate Waits(d: TxData, b: Block, i: nat, h: Hash)
  {
    exists j: nat :: i <= j && Pending(d, b, h, j)
  }

  /** How the store relates to the view before the transaction at the index `i`. */
  ghost predicate Track(entries: map<Hash, TxData>, w: View, b: Block, i: nat)
  {
    forall h :: h in entries ==>
        Waits(entries[h], b, i, h) || (Backed(entries, w, h) && (Upcoming(b, i, h) ==> Dead(entries[h])))
  }

  lemma SeenBacked(entries: map<Hash, TxData>, v: View, h: Hash)
    requires Sized(v) && h in entries && Seen(entries[h], v, h)
    ensures Backed(entries, v, h)
    ensures h in v && AllSpent(v[h]) ==> Dead(entries[h])
    ensures h !in v ==> Dead(entries[h])
  {
  }

  lemma TrackStart(entries: map<Hash, TxData>, v: View, b: Block)
    requires Sized(v) && InputStore(entries, v, b)
    requires forall i :: 0 <= i < |b.txs| && b.txs[i].id in v ==> AllSpent(v[b.txs[i].id])
    ensures Track(entries, v, b, 0) && SizedStore(entries)
  {
    hide Backed, Dead, Pending;
    forall h | h in entries
      ensures Waits(entries[h], b, 0, h) || (Backed(entries, v, h) && (Upcoming(b, 0, h) ==> Dead(entries[h])))
    {
      if Seen(entries[h], v, h) {
        SeenBacked(entries, v, h);
      } else {
        var j: nat :| Pending(entries[h], b, h, j);
      }
    }
    assert SizedStore(entries) by {
      forall h | h in entries && entries[h].tx.Some?
        ensures |entries[h].spent| == |entries[h].tx.value.outs|
      {
        EntrySized(entries[h], v, b, h);
      }
    }
  }

  lemma EntrySized(d: TxData, v: View, b: Block, h: Hash)
    requires Sized(v) && d.tx.Some? && (Seen(d, v, h) || exists j: nat :: Pending(d, b, h, j))
    ensures |d.spent| == |d.tx.value.outs|
  {
  }

  lemma UsedOrNot(tx: Tx, h: Hash)
    requires !IsCoinBase(tx)
    ensures Unused(tx.ins, h) || RefersTo(tx, h)
  {
    if !Unused(tx.ins, h) {
      var k :| 0 <= k < |tx.ins| && tx.ins[k].hash == h;
      assert Refs(tx)[k].hash == h;
    }
  }

  /** The transaction at the index only refers to what is backed. */
  lemma InputsBacked(entries: map<Hash, TxData>, w: View, b: Block, i: nat, k: nat)
    requires Track(entries, w, b, i) && i < |b.txs| && !IsCoinBase(b.txs[i]) && Unused(b.txs[i].ins, b.txs[i].id)
    requires k < |b.txs[i].ins|
    ensures Backed(entries, w, b.txs[i].ins[k].hash)
  {
    UsedOrNot(b.txs[i], b.txs[i].ins[k].hash);
  }

  /** The relation is kept by a transaction that passes. */
  lemma TrackNext(entries: map<Hash, TxData>, after: map<Hash, TxData>, w: View, b: Block, i: nat)
    requires Track(entries, w, b, i) && i < |b.txs| && Sized(w) && Distinct(b.txs)
    requires Unused(b.txs[i].ins, b.txs[i].id) && Less(entries, after)
    requires forall h :: h in entries && Unused(b.txs[i].ins, h) ==> after[h] == entries[h]
    requires IsCoinBase(b.txs[i]) ==> after == entries
    requires !IsCoinBase(b.txs[i]) ==> forall h :: Backed(entries, w, h) ==>
        Backed(after, MarkAll(w, b.txs[i].ins, true), h)
    ensures Track(after, ApplyTx(w, b.txs[i], b.height), b, i + 1)
  {
    hide Backed, Dead, MarkAll, Less, Pending;
    LessKeys(entries, after);
    var tx := b.txs[i];
    forall h | h in after
      ensures Waits(after[h], b, i + 1, h) || (Backed(after, ApplyTx(w, tx, b.height), h) &&
          (Upcoming(b, i + 1, h) ==> Dead(after[h])))
    {
      if Waits(entries[h], b, i, h) {
        WaitsNext(entries, after, w, b, i, h);
      } else {
        BackedNext(entries, after, w, b, i, h);
      }
    }
  }

  lemma WaitsNext(entries: map<Hash, TxData>, after: map<Hash, TxData>, w: View, b: Block, i: nat, h: Hash)
    requires i < |b.txs| && Sized(w) && Distinct(b.txs) && Unused(b.txs[i].ins, b.txs[i].id)
    requires h in entries && h in after && Waits(entries[h], b, i, h)
    requires Unused(b.txs[i].ins, h) || IsCoinBase(b.txs[i]) ==> after[h] == entries[h]
    ensures Waits(after[h], b, i + 1, h) || (Backed(after, ApplyTx(w, b.txs[i], b.height), h) &&
        (Upcoming(b, i + 1, h) ==> Dead(after[h])))
  {
    var tx := b.txs[i];
    var j: nat :| i <= j && Pending(entries[h], b, h, j);
    if j == i {
      assert after[h] == entries[h];
      EnteredFresh(w, tx, b.height);
      assert !Upcoming(b, i + 1, h);
    } else if !IsCoinBase(tx) {
      UsedOrNot(tx, h);
    }
  }

  lemma EnteredFresh(w: View, tx: Tx, height: nat)
    requires Sized(w) && Unused(tx.ins, tx.id)
    ensures tx.id in ApplyTx(w, tx, height)
    ensures ApplyTx(w, tx, height)[tx.id] == Entry(tx, height, seq(|tx.outs|, _ => false))
  {
    EnterCommutes(w, tx, height, tx.ins, true);
  }

  lemma BackedNext(entries: map<Hash, TxData>, after: map<Hash, TxData>, w: View, b: Block, i: nat, h: Hash)
    requires i < |b.txs| && Sized(w) && Distinct(b.txs) && Less(entries, after) && Unused(b.txs[i].ins, b.txs[i].id)
    requires h in entries && Backed(entries, w, h) && (Upcoming(b, i, h) ==> Dead(entries[h]))
    requires IsCoinBase(b.txs[i]) ==> after == entries
    requires !IsCoinBase(b.txs[i]) ==> Backed(after, MarkAll(w, b.txs[i].ins, true), h)
    ensures Backed(after, ApplyTx(w, b.txs[i], b.height), h) && (Upcoming(b, i + 1, h) ==> Dead(after[h]))
  {
    var tx := b.txs[i];
    if h == tx.id {
      assert Upcoming(b, i, h);
      assert Dead(after[h]);
    } else if !IsCoinBase(tx) {
      EnterCommutes(w, tx, b.height, tx.ins, true);
    }
    if Upcoming(b, i + 1, h) {
      assert Upcoming(b, i, h);
    }
  }

  /** A transaction whose outputs are all spent stays so until it is replaced. */
  lemma {:induction false} SpentStays(v: View, txs: seq<Tx>, height: nat, id: Hash)
    requires Sized(v) && (id in v ==> AllSpent(v[id])) && forall i :: 0 <= i < |txs| ==> txs[i].id != id
    ensures id in ApplyTxs(v, txs, height) ==> AllSpent(ApplyTxs(v, txs, height)[id])
  {
    if txs != [] {
      var n := |txs| - 1;
      SpentStays(v, txs[..n], height, id);
      MarkSpentStays(Enter(ApplyTxs(v, txs[..n], height), txs[n], height), txs[n].ins, id);
    }
  }

  lemma {:induction false} MarkSpentStays(v: View, ops: seq<OutPoint>, id: Hash)
    requires id in v ==> AllSpent(v[id])
    ensures id in MarkAll(v, ops, true) ==> AllSpent(MarkAll(v, ops, true)[id])
  {
    if ops != [] {
      MarkSpentStays(Mark(v, ops[0], true), ops[1..], id);
    }
  }

  /** A block that is accepted on a view: it fits, and its coinbase pays out no more than the reward
      and the fees. */
  ghost predicate Accepted(v: View, b: Block, reward: int)
  {
    && Sized(v) && BlockFits(v, b) && |b.txs| > 0 && IsCoinBase(b.txs[0])
    && (forall i :: 0 < i < |b.txs| ==> !IsCoinBase(b.txs[i]))
    && Sum(b.txs[0].outs) <= reward + Fees(v, b.txs, b.height)
  }

  /** No transaction of the block replaces one that had unspent outputs before the block. */
  predicate NoOverwrite(v: View, b: Block)
  {
    forall i :: 0 <= i < |b.txs| && b.txs[i].id in v ==> AllSpent(v[b.txs[i].id])
  }

  /** The coinbase refers to the transaction of the block with this hash. */
  predicate Reserved(b: Block, h: Hash)
  {
    |b.txs| > 0 && RefersTo(b.txs[0], h) && Upcoming(b, 1, h)
  }

  /** Nothing that the coinbase refers to in the block is spent in the block. */
  predicate Apart(b: Block, i: nat)
    requires i < |b.txs|
  {
    forall k :: 0 <= k < |b.txs[i].ins| ==> !Reserved(b, b.txs[i].ins[k].hash)
  }

  predicate ApartUpTo(b: Block, n: nat)
  {
    forall i :: 0 < i < n && i < |b.txs| ==> Apart(b, i)
  }

  /** The values that the transaction moves are amounts. */
  predicate AmountsAt(v: View, b: Block, i: nat)
    requires i < |b.txs|
  {
    IsCoinBase(b.txs[i]) || TxAmounts(ApplyTxs(v, b.txs[..i], b.height), b.txs[i])
  }

  predicate AmountsUpTo(v: View, b: Block, n: nat)
  {
    forall i :: 0 <= i < n && i < |b.txs| ==> AmountsAt(v, b, i)
  }

  /** Every transaction after the coinbase is in order: it fits, it spends from no young coinbase and
      from nothing that the coinbase refers to in the block, and all values are amounts. */
  ghost predicate InOrder(v: View, b: Block)
  {
    && Sized(v) && BlockFits(v, b) && MatureUpTo(v, b, |b.txs|) && ApartUpTo(b, |b.txs|) && AmountsUpTo(v, b, |b.txs|)
    && Fees(v, b.txs, b.height) <= MAX_AMOUNT
  }

  /** The money part of `checkConnectBlock`: duplicates, inputs, fees, and the total of the coinbase
      against the reward that `checkCoinbase` allows. It says exactly which blocks pass. */
  method CheckConnectBlock(tree: BlockTree, db: ChainDb, blocks: map<Hash, Block>, prevNode: BlockNode, b: Block,
      reward: int)
    returns (r: Option<TxError>)
    requires Setting(tree, db, blocks, prevNode) && Sane(b)
    ensures var v := ViewAt(tree, db, blocks, prevNode);
            r.None? <==>
              && NoOverwrite(v, b) && InOrder(v, b) && Accepted(v, b, reward)
              && Amounts(b.txs[0].outs) && 0 <= reward + Fees(v, b.txs, b.height) <= MAX_AMOUNT
  {
    hide Setting, ViewAt, InputStore, BlockFits, MatureUpTo, ApartUpTo, AmountsUpTo, NoOverwrite, Amounts, Fees;
    ghost var v := ViewAt(tree, db, blocks, prevNode);
    ViewSized(tree, db, blocks, prevNode);
    r := CheckDupTx(tree, db, blocks, prevNode, b);
    assert r.None? <==> NoOverwrite(v, b) by { NoOverwriteIs(v, b); }
    if r.Some? {
      return;
    }
    var store := FetchInputTransactions(tree, db, blocks, prevNode, b);
    var fees := CheckAllInputs(b, store, v);
    if fees.Err? {
      return Some(fees.error);
    }
    var limit := Checked(reward + fees.value);
    var out := AddOutputs(b.txs[0].outs);
    if limit.None? || out.None? {
      return Some(BadAmount);
    }
    if out.value > limit.value {
      return Some(BadCoinbaseValue);
    }
    r := None;
  }

  lemma NoOverwriteIs(v: View, b: Block)
    ensures NoOverwrite(v, b) <==> forall i :: 0 <= i < |b.txs| && b.txs[i].id in v ==> AllSpent(v[b.txs[i].id])
  {
  }

  /** A view and a block whose coinbase refers to the transaction 2 of the block, which 3 spends from. */
  const ONE_ENTRY: View := map[7 := Entry(Tx(7, [], [100]), 0, [false])]
  const MINED: Tx := Tx(1, [NO_OUTPUT, OutPoint(2, 0)], [])
  const MOVED: Tx := Tx(2, [OutPoint(7, 0)], [100])
  const MOVED_ON: Tx := Tx(3, [OutPoint(2, 0)], [100])
  const CLASH: Block := Block(5, [MINED, MOVED, MOVED_ON])

  lemma ClashViews()
    ensures ApplyTxs(ONE_ENTRY, CLASH.txs[..0], 5) == ONE_ENTRY
    ensures ApplyTxs(ONE_ENTRY, CLASH.txs[..1], 5) == ONE_ENTRY[1 := Entry(MINED, 5, [])]
    ensures ApplyTxs(ONE_ENTRY, CLASH.txs[..2], 5) ==
            map[7 := Entry(Tx(7, [], [100]), 0, [true]), 1 := Entry(MINED, 5, []), 2 := Entry(MOVED, 5, [false])]
  {
    var txs, v1 := CLASH.txs, ONE_ENTRY[1 := Entry(MINED, 5, [])];
    assert txs[..0] == [];
    ApplyNext(ONE_ENTRY, txs, 5, 0);
    ApplyNext(ONE_ENTRY, txs, 5, 1);
    assert seq(0, _ => false) == [];
    assert seq(1, _ => false) == [false];
    var u := Enter(v1, MOVED, 5);
    assert MarkAll(u, MOVED.ins, true) == Mark(u, OutPoint(7, 0), true) by {
      assert MOVED.ins[1..] == [];
    }
    assert [false][0 := true] == [true];
  }

  lemma OneInput(w: View, op: OutPoint, value: int)
    requires CanSpend(w, op) && OutputValue(w, op) == value && 0 <= value <= MAX_AMOUNT
    ensures CanSpendAll(w, [op]) && InputValues(w, [op]) == [value] && Amounts([value]) && Sum([value]) == value
  {
    assert [op][1..] == [] && [value][1..] == [];
    assert forall i {:trigger [value][i]} :: 0 <= i < 1 ==> [value][..i + 1] == [value];
  }

  /** Such a block fits and moves amounts only, and is refused all the same: the entry for transaction 2
      is what the chain has under its hash, which is nothing. */
  lemma ClashFits()
    ensures Sane(CLASH) && Sized(ONE_ENTRY) && NoOverwrite(ONE_ENTRY, CLASH) && BlockFits(ONE_ENTRY, CLASH)
    ensures MatureUpTo(ONE_ENTRY, CLASH, 3) && AmountsUpTo(ONE_ENTRY, CLASH, 3) && !Apart(CLASH, 2)
    ensures !InOrder(ONE_ENTRY, CLASH)
  {
    hide CanSpendAll, InputValues, Amounts, Sum, ApplyTxs, Fees;
    var txs := CLASH.txs;
    ClashViews();
    OneInput(ApplyTxs(ONE_ENTRY, txs[..1], 5), OutPoint(7, 0), 100);
    OneInput(ApplyTxs(ONE_ENTRY, txs[..2], 5), OutPoint(2, 0), 100);
    assert Refs(MINED)[0] == OutPoint(2, 0);
    assert txs[1].id == 2 && Upcoming(CLASH, 1, 2);
    assert Reserved(CLASH, txs[2].ins[0].hash);
    assert TxFits(ApplyTxs(ONE_ENTRY, txs[..0], 5), txs[0]);
    assert TxFits(ApplyTxs(ONE_ENTRY, txs[..1], 5), txs[1]);
    assert TxFits(ApplyTxs(ONE_ENTRY, txs[..2], 5), txs[2]);
  }

  lemma ViewSized(tree: BlockTree, db: ChainDb, blocks: map<Hash, Block>, prevNode: BlockNode)
    requires Setting(tree, db, blocks, prevNode)
    ensures Sized(ViewAt(tree, db, blocks, prevNode))
  {
    ReplaySized(db.base, PathBlocks(tree, prevNode, blocks));
  }

  /** How the store shows what is unspent: each entry waits for its transaction of the block, or shows
      all that can be spent, or is one that the coinbase refers to, of which nothing can be spent. */
  ghost predicate Mirror(entries: map<Hash, TxData>, w: View, b: Block, i: nat)
  {
    && (forall h :: h in entries ==> Waits(entries[h], b, i, h) || Reflects(entries, w, h) || Reserved(b, h))
    && (forall j :: i <= j < |b.txs| ==> Placed(entries, b, j))
    && (forall h :: h in entries && Reserved(b, h) ==> Dead(entries[h]))
  }

  lemma MirrorStart(entries: map<Hash, TxData>, v: View, b: Block)
    requires Sized(v) && Sane(b) && InputStore(entries, v, b) && NoOverwrite(v, b)
    ensures Mirror(entries, v, b, 0) && forall k :: 0 <= k < |b.txs| ==> Covered(entries, b.txs[k])
  {
    hide Reflects, Dead, Pending, Seen, Placed, Covered, Reserved;
    forall h | h in entries
      ensures Waits(entries[h], b, 0, h) || Reflects(entries, v, h)
      ensures Reserved(b, h) ==> Dead(entries[h])
    {
      if Seen(entries[h], v, h) {
        SeenReflected(entries, v, h);
        SeenBacked(entries, v, h);
        if Reserved(b, h) {
          ReservedSpent(v, b, h);
        }
      } else {
        var j: nat :| Pending(entries[h], b, h, j);
        assert Waits(entries[h], b, 0, h);
        PendingFree(entries[h], b, h, j);
      }
    }
  }

  lemma SeenReflected(entries: map<Hash, TxData>, v: View, h: Hash)
    requires Sized(v) && h in entries && Seen(entries[h], v, h)
    ensures Reflects(entries, v, h)
  {
  }

  lemma ReservedSpent(v: View, b: Block, h: Hash)
    requires NoOverwrite(v, b) && Reserved(b, h)
    ensures h in v ==> AllSpent(v[h])
  {
  }

  lemma PendingFree(d: TxData, b: Block, h: Hash, j: nat)
    requires Sane(b) && Pending(d, b, h, j)
    ensures !Reserved(b, h)
  {
    if Upcoming(b, 1, h) {
      var m :| 1 <= m < |b.txs| && b.txs[m].id == h;
      assert m == j;
    }
  }

  /** Where there is nothing left to spend, nothing is spent. */
  lemma {:induction false} SpentUnused(w: View, ops: seq<OutPoint>, h: Hash)
    requires CanSpendAll(w, ops) && (h in w ==> AllSpent(w[h]))
    ensures Unused(ops, h)
  {
    if ops != [] {
      SpentUnused(Mark(w, ops[0], true), ops[1..], h);
      assert forall i :: 0 < i < |ops| ==> ops[i] == ops[1..][i - 1];
    }
  }

  /** No transaction that passed refers to a later one. */
  lemma NoneEarly(v: View, b: Block, i: nat, k: nat)
    requires Sized(v) && Sane(b) && NoOverwrite(v, b) && 0 < k < i < |b.txs|
    requires CanSpendAll(ApplyTxs(v, b.txs[..k], b.height), b.txs[k].ins)
    ensures !RefersTo(b.txs[k], b.txs[i].id)
  {
    hide MarkAll, CanSpendAll, ApplyTxs;
    var h := b.txs[i].id;
    SpentStays(v, b.txs[..k], b.height, h);
    SpentUnused(ApplyTxs(v, b.txs[..k], b.height), b.txs[k].ins, h);
  }

  lemma FitsAt(v: View, b: Block, i: nat, k: nat)
    requires FitsUpTo(v, b, i) && k < i && !IsCoinBase(b.txs[k])
    ensures CanSpendAll(ApplyTxs(v, b.txs[..k], b.height), b.txs[k].ins)
  {
    hide ApplyTxs, CanSpendAll;
    assert b.txs[..i][..k] == b.txs[..k] && b.txs[..i][k] == b.txs[k];
  }

  lemma EarlyReserved(v: View, b: Block, i: nat)
    requires Sized(v) && Sane(b) && NoOverwrite(v, b) && i < |b.txs| && FitsUpTo(v, b, i)
    requires Early(b, i, b.txs[i].id)
    ensures Reserved(b, b.txs[i].id)
  {
    hide ApplyTxs, CanSpendAll, FitsUpTo, RefersTo, NoOverwrite;
    var k :| 0 <= k < i && RefersTo(b.txs[k], b.txs[i].id);
    if k > 0 {
      FitsAt(v, b, i, k);
      NoneEarly(v, b, i, k);
    }
  }

  /** The relation is kept by a transaction that passes. */
  lemma MirrorNext(entries: map<Hash, TxData>, after: map<Hash, TxData>, v: View, w: View, b: Block, i: nat)
    requires Mirror(entries, w, b, i) && Sized(v) && Sane(b) && NoOverwrite(v, b) && i < |b.txs| && FitsUpTo(v, b, i)
    requires Sized(w) && Less(entries, after)
    requires forall h :: h in entries && Unused(b.txs[i].ins, h) ==> after[h] == entries[h]
    requires IsCoinBase(b.txs[i]) ==> after == entries
    requires !IsCoinBase(b.txs[i]) ==> forall h :: Reflects(entries, w, h) ==>
        Reflects(after, MarkAll(w, b.txs[i].ins, true), h)
    ensures Mirror(after, ApplyTx(w, b.txs[i], b.height), b, i + 1)
  {
    hide Reflects, Dead, MarkAll, Less, Pending, Reserved, FitsUpTo, NoOverwrite, ApplyTx, Unused, Early, RefersTo;
    LessKeys(entries, after);
    var tx := b.txs[i];
    forall h | h in after
      ensures Waits(after[h], b, i + 1, h) || Reflects(after, ApplyTx(w, tx, b.height), h) || Reserved(b, h)
    {
      if Waits(entries[h], b, i, h) {
        WaitsReflected(entries, after, w, b, i, h);
      } else if h == tx.id {
        PlacedHere(entries, b, i);
        EarlyReserved(v, b, i);
      } else if Reflects(entries, w, h) {
        ReflectsNext(after, w, b, i, h);
      }
    }
    forall j | i + 1 <= j < |b.txs|
      ensures Placed(after, b, j)
    {
      PlacedStill(entries, after, b, i, j);
    }
    forall h | h in after && Reserved(b, h)
      ensures Dead(after[h])
    {
      DeadStill(entries, after, h);
    }
  }

  lemma PlacedHere(entries: map<Hash, TxData>, b: Block, i: nat)
    requires i < |b.txs| && Placed(entries, b, i) && b.txs[i].id in entries
    requires !Waits(entries[b.txs[i].id], b, i, b.txs[i].id)
    ensures Early(b, i, b.txs[i].id)
  {
    hide Pending, Early;
  }

  lemma DeadStill(entries: map<Hash, TxData>, after: map<Hash, TxData>, h: Hash)
    requires Less(entries, after) && h in entries && Dead(entries[h])
    ensures h in after && Dead(after[h])
  {
  }

  lemma PlacedStill(entries: map<Hash, TxData>, after: map<Hash, TxData>, b: Block, i: nat, j: nat)
    requires i < j < |b.txs| && Placed(entries, b, j) && entries.Keys == after.Keys
    requires forall h :: h in entries && Unused(b.txs[i].ins, h) ==> after[h] == entries[h]
    requires IsCoinBase(b.txs[i]) ==> after == entries
    ensures Placed(after, b, j)
  {
    var h := b.txs[j].id;
    if h in entries && Pending(entries[h], b, h, j) && !IsCoinBase(b.txs[i]) {
      UsedOrNot(b.txs[i], h);
    }
  }

  lemma WaitsReflected(entries: map<Hash, TxData>, after: map<Hash, TxData>, w: View, b: Block, i: nat, h: Hash)
    requires i < |b.txs| && Sized(w) && Sane(b)
    requires h in entries && h in after && Waits(entries[h], b, i, h)
    requires Unused(b.txs[i].ins, h) || IsCoinBase(b.txs[i]) ==> after[h] == entries[h]
    ensures Waits(after[h], b, i + 1, h) || Reflects(after, ApplyTx(w, b.txs[i], b.height), h)
  {
    var tx := b.txs[i];
    var j: nat :| i <= j && Pending(entries[h], b, h, j);
    if j == i {
      assert after[h] == entries[h];
      EnteredFresh(w, tx, b.height);
    } else if !IsCoinBase(tx) {
      UsedOrNot(tx, h);
    }
  }

  lemma ReflectsNext(after: map<Hash, TxData>, w: View, b: Block, i: nat, h: Hash)
    requires i < |b.txs| && Sized(w) && Sane(b) && h != b.txs[i].id
    requires if IsCoinBase(b.txs[i]) then Reflects(after, w, h) else Reflects(after, MarkAll(w, b.txs[i].ins, true), h)
    ensures Reflects(after, ApplyTx(w, b.txs[i], b.height), h)
  {
    var tx := b.txs[i];
    if !IsCoinBase(tx) {
      EnterCommutes(w, tx, b.height, tx.ins, true);
    }
  }

  /** What a block in order says of its next transaction: the check must let it pass. */
  lemma WouldFit(v: View, b: Block, i: nat, entries: map<Hash, TxData>)
    requires Sane(b) && 0 < i < |b.txs| && Covered(entries, b.txs[i])
    requires Mirror(entries, ApplyTxs(v, b.txs[..i], b.height), b, i)
    ensures InOrder(v, b) ==>
              && AllReflected(entries, ApplyTxs(v, b.txs[..i], b.height), b.txs[i].ins)
              && TxPasses(ApplyTxs(v, b.txs[..i], b.height), b.txs[i], b.height)
  {
    hide Reflects, ApplyTxs, CanSpendAll, AllMature, Dead, TxAmounts, Reserved, Placed, RefersTo;
    if InOrder(v, b) {
      var w, tx := ApplyTxs(v, b.txs[..i], b.height), b.txs[i];
      assert TxFits(w, tx);
      assert AmountsAt(v, b, i) && Apart(b, i);
      forall k | 0 <= k < |tx.ins|
        ensures Reflects(entries, w, tx.ins[k].hash)
      {
        NotWaiting(entries, b, i, k);
      }
    }
  }

  lemma NotWaiting(entries: map<Hash, TxData>, b: Block, i: nat, k: nat)
    requires Sane(b) && 0 < i < |b.txs| && k < |b.txs[i].ins| && Covered(entries, b.txs[i])
    ensures b.txs[i].ins[k].hash in entries
    ensures !Waits(entries[b.txs[i].ins[k].hash], b, i, b.txs[i].ins[k].hash)
  {
    var h := b.txs[i].ins[k].hash;
    assert Refs(b.txs[i])[k].hash == h;
    assert RefersTo(b.txs[i], h);
  }

  /** A transaction that passed spends nothing that the coinbase refers to. */
  lemma ApartHere(entries: map<Hash, TxData>, w: View, b: Block, i: nat)
    requires i < |b.txs| && Mirror(entries, w, b, i) && AllSpendable(entries, b.txs[i].ins)
    ensures Apart(b, i)
  {
    hide Reserved, Placed, Reflects, Waits;
    forall k | 0 <= k < |b.txs[i].ins|
      ensures !Reserved(b, b.txs[i].ins[k].hash)
    {
      assert !Dead(entries[b.txs[i].ins[k].hash]);
    }
  }

  /** The loop that checks the inputs of each transaction and adds up the fees. */
  method CheckAllInputs(b: Block, store: Store, ghost v: View) returns (r: Result<int, TxError>)
    requires Sized(v) && Sane(b) && InputStore(store.entries, v, b) && NoOverwrite(v, b)
    modifies store
    ensures r.Ok? <==> InOrder(v, b)
    ensures r.Ok? ==> r.value == Fees(v, b.txs, b.height)
  {
    hide Track, Mirror, Backed, Reflects, Less, SizedStore, MarkAll, CanSpendAll, TxFits, Fee, AllMature, ApplyTxs,
        Fees,
         FitsUpTo, MatureUpTo, AmountsUpTo, ApartUpTo, Apart, AllSpent, Unused, BlockFits, InputStore, InOrder,
             NoOverwrite,
         TxPasses, Covered, AllReflected, AllSpendable;
    var total := 0;
    NoOverwriteIs(v, b);
    TrackStart(store.entries, v, b);
    MirrorStart(store.entries, v, b);
    NothingYet(v, b);
    for i := 0 to |b.txs|
      invariant Track(store.entries, ApplyTxs(v, b.txs[..i], b.height), b, i) && SizedStore(store.entries)
      invariant Mirror(store.entries, ApplyTxs(v, b.txs[..i], b.height), b, i)
      invariant forall k :: 0 <= k < |b.txs| ==> Covered(store.entries, b.txs[k])
      invariant Sized(ApplyTxs(v, b.txs[..i], b.height)) && 0 <= total <= MAX_AMOUNT
      invariant FitsUpTo(v, b, i) && FeesAre(v, b, i, total) && GoodUpTo(v, b, i)
    {
      ghost var before, w := store.entries, ApplyTxs(v, b.txs[..i], b.height);
      var tx := b.txs[i];
      if !IsCoinBase(tx) {
        forall k | 0 <= k < |tx.ins|
          ensures Backed(store.entries, w, tx.ins[k].hash)
        {
          InputsBacked(store.entries, w, b, i, k);
        }
        WouldFit(v, b, i, store.entries);
      }
      var fee := CheckTransactionInputs(tx, b.height, store, w);
      if fee.Err? {
        return fee;
      }
      PassedHere(v, b, i, before, fee.value);
      TrackNext(before, store.entries, w, b, i);
      MirrorNext(before, store.entries, v, w, b, i);
      CoveredStill(before, store.entries, b);
      ApplyNext(v, b.txs, b.height, i);
      ApplySized(w, tx, b.height);
      FeesNext(v, b, i, total);
      FeesGrow(v, b, i + 1, total + fee.value);
      InOrderParts(v, b);
      var sum := Checked(total + fee.value);
      if sum.None? {
        return Err(BadFees);
      }
      total := sum.value;
    }
    FitsAll(v, b, total);
    r := Ok(total);
  }

  lemma InOrderParts(v: View, b: Block)
    ensures InOrder(v, b) ==>
              Sized(v) && BlockFits(v, b) && AmountsUpTo(v, b, |b.txs|) && Fees(v, b.txs, b.height) <= MAX_AMOUNT
  {
  }

  lemma CoveredStill(before: map<Hash, TxData>, after: map<Hash, TxData>, b: Block)
    requires before.Keys == after.Keys && forall k :: 0 <= k < |b.txs| ==> Covered(before, b.txs[k])
    ensures forall k :: 0 <= k < |b.txs| ==> Covered(after, b.txs[k])
  {
    forall k | 0 <= k < |b.txs|
      ensures Covered(after, b.txs[k])
    {
      CoveredMore(before, after, b.txs[k]);
    }
  }

  /** The first transactions are mature, apart from the coinbase, and move amounts. */
  ghost predicate GoodUpTo(v: View, b: Block, i: nat)
  {
    MatureUpTo(v, b, i) && ApartUpTo(b, i) && AmountsUpTo(v, b, i)
  }

  /** What the check of one transaction shows. */
  lemma PassedHere(v: View, b: Block, i: nat, before: map<Hash, TxData>, fee: int)
    requires Sized(v) && Sane(b) && NoOverwrite(v, b) && i < |b.txs| && GoodUpTo(v, b, i)
    requires Sized(ApplyTxs(v, b.txs[..i], b.height)) && Mirror(before, ApplyTxs(v, b.txs[..i], b.height), b, i)
    requires IsCoinBase(b.txs[i]) ==> fee == 0
    requires !IsCoinBase(b.txs[i]) ==> TxPasses(ApplyTxs(v, b.txs[..i], b.height), b.txs[i], b.height)
    requires !IsCoinBase(b.txs[i]) ==>
               fee == Spent(ApplyTxs(v, b.txs[..i], b.height), b.txs[i].ins) - Sum(b.txs[i].outs)
    requires !IsCoinBase(b.txs[i]) ==> AllSpendable(before, b.txs[i].ins)
    ensures GoodUpTo(v, b, i + 1) && TxFits(ApplyTxs(v, b.txs[..i], b.height), b.txs[i])
    ensures fee == Fee(ApplyTxs(v, b.txs[..i], b.height), b.txs[i])
  {
    hide ApplyTxs, CanSpendAll, AllMature, TxAmounts, Mirror, AllSpendable, Spent, Sum, TxFits, NoOverwrite, Apart;
    var w := ApplyTxs(v, b.txs[..i], b.height);
    assert b.txs[i].id in v ==> AllSpent(v[b.txs[i].id]) by { NoOverwriteIs(v, b); }
    FitsHere(v, b, i);
    FeeIs(w, b.txs[i], fee);
    MatureNext(v, b, i);
    if !IsCoinBase(b.txs[i]) {
      ApartHere(before, w, b, i);
    }
    GoodNext(v, b, i);
  }

  lemma GoodNext(v: View, b: Block, i: nat)
    requires ApartUpTo(b, i) && AmountsUpTo(v, b, i) && i < |b.txs| && AmountsAt(v, b, i) && (i > 0 ==> Apart(b, i))
    ensures ApartUpTo(b, i + 1) && AmountsUpTo(v, b, i + 1)
  {
    hide Apart, AmountsAt;
  }

  /** Fees are not negative, so they only grow. */
  lemma {:induction false} FeesGrow(v: View, b: Block, i: nat, total: int)
    requires FeesAre(v, b, i, total) && i <= |b.txs|
    ensures BlockFits(v, b) && AmountsUpTo(v, b, |b.txs|) ==> total <= Fees(v, b.txs, b.height)
    decreases |b.txs| - i
  {
    hide ApplyTxs, TxFits, Fees, Fee, AmountsAt, FitsUpTo;
    if BlockFits(v, b) && AmountsUpTo(v, b, |b.txs|) {
      if i == |b.txs| {
        assert b.txs[..i] == b.txs;
      } else {
        var w := ApplyTxs(v, b.txs[..i], b.height);
        ApplyTxsSized(v, b.txs[..i], b.height);
        FeesNext(v, b, i, total);
        assert AmountsAt(v, b, i);
        FeeNotNegative(v, b, i);
        FeesGrow(v, b, i + 1, total + Fee(w, b.txs[i]));
      }
    }
  }

  lemma FeeNotNegative(v: View, b: Block, i: nat)
    requires i < |b.txs| && AmountsAt(v, b, i)
    requires Sized(ApplyTxs(v, b.txs[..i], b.height)) && TxFits(ApplyTxs(v, b.txs[..i], b.height), b.txs[i])
    ensures Fee(ApplyTxs(v, b.txs[..i], b.height), b.txs[i]) >= 0
  {
    hide ApplyTxs, Sum, InputValues, Amounts;
    if !IsCoinBase(b.txs[i]) {
      SpentIs(ApplyTxs(v, b.txs[..i], b.height), b.txs[i].ins);
    }
  }

  /** The fees of the first transactions. */
  ghost predicate FeesAre(v: View, b: Block, i: nat, total: int)
  {
    Sized(v) && FitsUpTo(v, b, i) && total == Fees(v, b.txs[..i], b.height)
  }

  lemma NothingYet(v: View, b: Block)
    requires Sized(v)
    ensures b.txs[..0] == [] && ApplyTxs(v, b.txs[..0], b.height) == v
    ensures FitsUpTo(v, b, 0) && GoodUpTo(v, b, 0) && FeesAre(v, b, 0, 0)
  {
  }

  lemma MatureNext(v: View, b: Block, i: nat)
    requires MatureUpTo(v, b, i) && i < |b.txs|
    requires !IsCoinBase(b.txs[i]) ==> AllMature(ApplyTxs(v, b.txs[..i], b.height), b.txs[i].ins, b.height)
    ensures MatureUpTo(v, b, i + 1)
  {
    hide AllMature, ApplyTxs;
  }

  lemma FitsAll(v: View, b: Block, total: int)
    requires FeesAre(v, b, |b.txs|, total) && Distinct(b.txs) && GoodUpTo(v, b, |b.txs|) && total <= MAX_AMOUNT
    ensures InOrder(v, b) && total == Fees(v, b.txs, b.height)
  {
    hide TxFits, MatureUpTo, ApartUpTo, AmountsUpTo;
    assert b.txs[..|b.txs|] == b.txs;
  }

  /** Every one of the first transactions fits. */
  ghost predicate FitsUpTo(v: View, b: Block, i: nat)
  {
    i <= |b.txs| && forall k :: 0 <= k < i ==> TxFits(ApplyTxs(v, b.txs[..i][..k], b.height), b.txs[..i][k])
  }

  /** None of the first transactions spends from a young coinbase. */
  predicate MatureUpTo(v: View, b: Block, i: nat)
  {
    forall k :: 0 <= k < i && k < |b.txs| && !IsCoinBase(b.txs[k]) ==>
      AllMature(ApplyTxs(v, b.txs[..k], b.height), b.txs[k].ins, b.height)
  }

  lemma FitsHere(v: View, b: Block, i: nat)
    requires Sized(v) && Sane(b) && i < |b.txs| && (b.txs[i].id in v ==> AllSpent(v[b.txs[i].id]))
    requires !IsCoinBase(b.txs[i]) ==> CanSpendAll(ApplyTxs(v, b.txs[..i], b.height), b.txs[i].ins)
    ensures TxFits(ApplyTxs(v, b.txs[..i], b.height), b.txs[i])
  {
    SpentStays(v, b.txs[..i], b.height, b.txs[i].id);
  }

  lemma FeeIs(w: View, tx: Tx, fee: int)
    requires Sized(w) && TxFits(w, tx)
    requires IsCoinBase(tx) ==> fee == 0
    requires !IsCoinBase(tx) ==> CanSpendAll(w, tx.ins) && fee == Spent(w, tx.ins) - Sum(tx.outs)
    ensures fee == Fee(w, tx)
  {
  }

  lemma FeesNext(v: View, b: Block, i: nat, total: int)
    requires FeesAre(v, b, i, total) && i < |b.txs| && TxFits(ApplyTxs(v, b.txs[..i], b.height), b.txs[i])
    requires Sized(ApplyTxs(v, b.txs[..i], b.height))
    ensures FeesAre(v, b, i + 1, total + Fee(ApplyTxs(v, b.txs[..i], b.height), b.txs[i])) && FitsUpTo(v, b, i + 1)
  {
    hide TxFits, Fee, ApplyTxs;
    var txs := b.txs[..i + 1];
    assert txs[..i] == b.txs[..i];
    assert forall k :: 0 <= k <= i ==> txs[..k] == b.txs[..k];
    assert forall k :: 0 <= k < i ==> b.txs[..i][..k] == b.txs[..k];
  }

  lemma {:induction false} OnlyCoinbaseMints(txs: seq<Tx>)
    requires |txs| > 0 && IsCoinBase(txs[0]) && forall i :: 0 < i < |txs| ==> !IsCoinBase(txs[i])
    ensures Minted(txs) == Sum(txs[0].outs)
  {
    if |txs| > 1 {
      OnlyCoinbaseMints(txs[..|txs| - 1]);
    } else {
      assert txs[..0] == [];
    }
  }

  /** The total of the unspent outputs grows by what the coinbase pays out less the fees, and so by no
      more than the reward. */
  lemma BlockConserves(v: View, b: Block, reward: int)
    requires Accepted(v, b, reward)
    ensures Sized(ApplyBlock(v, b))
    ensures Total(ApplyBlock(v, b)) == Total(v) + Sum(b.txs[0].outs) - Fees(v, b.txs, b.height)
    ensures Total(ApplyBlock(v, b)) <= Total(v) + reward
  {
    hide TxFits, Fees, Total;
    TxsTotal(v, b.txs, b.height);
    OnlyCoinbaseMints(b.txs);
  }

  /** Along every chain of accepted blocks the money in existence is bounded by the rewards. */
  lemma {:induction false} ChainConserves(v: View, blocks: seq<Block>, rewards: seq<int>)
    requires Sized(v) && |rewards| == |blocks|
    requires forall i :: 0 <= i < |blocks| ==> Accepted(Replay(v, blocks[..i]), blocks[i], rewards[i])
    ensures Sized(Replay(v, blocks)) && Total(Replay(v, blocks)) <= Total(v) + Sum(rewards)
    decreases |blocks|
  {
    hide Accepted, Total;
    ReplaySized(v, blocks);
    if blocks == [] {
      assert rewards == [];
    } else {
      var n := |blocks| - 1;
      assert forall i :: 0 <= i < n ==> blocks[..n][..i] == blocks[..i];
      ChainConserves(v, blocks[..n], rewards[..n]);
      BlockConserves(Replay(v, blocks[..n]), blocks[n], rewards[n]);
      SumSnoc(rewards, n);
      assert rewards[..n + 1] == rewards;
    }
  }
}
