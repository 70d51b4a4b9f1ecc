/** The transaction store: what a set of requested transactions looks like from one point of the
    chain. It is carried from point to point by undoing and redoing blocks. */
module TxStore {
  import opened Hashes
  import opened Wrappers
  import opened Ledger

  /** `missing` is the error that the transaction was not found. */
  datatype TxData = TxData(tx: Option<Tx>, height: nat, spent: seq<bool>, missing: bool)

  const MISSING: TxData := TxData(None, 0, [], true)

  /** How the entry of a view appears in a store. */
  function Shown(v: View, h: Hash): TxData
  {
    if h in v then TxData(Some(v[h].tx), v[h].height, v[h].spent, false) else MISSING
  }

  /** The store shows the view, for the transactions that were asked for. */
  ghost predicate Shows(entries: map<Hash, TxData>, v: View)
  {
    forall h :: h in entries ==> entries[h] == Shown(v, h)
  }

  predicate IsTransactionSpent(d: TxData)
  {
    forall i :: 0 <= i < |d.spent| ==> d.spent[i]
  }

  datatype StoreError = TxAlreadyExists | BadTxInput

  /** The lookup that `disconnectTransactions` makes in the database: the last transaction with the
      hash in a lower block, all of whose outputs are spent. */
  type LastSpent = Hash -> Option<(Tx, nat)>

  class Store {
    var entries: map<Hash, TxData>

    constructor (entries: map<Hash, TxData>)
      ensures this.entries == entries
    {
      this.entries := entries;
    }

    /** The loop over the inputs of a transaction, which marks the outputs it spends. */
    method MarkInputs(ops: seq<OutPoint>, spent: bool, ghost v: View) returns (r: Option<StoreError>)
      modifies this
      ensures entries.Keys == old(entries.Keys)
      ensures Shows(old(entries), v) && InRange(v, ops) ==> r == None && Shows(entries, MarkAll(v, ops, spent))
    {
      ghost var w := v;
      r := None;
      for i := 0 to |ops|
        invariant entries.Keys == old(entries.Keys)
        invariant Shows(old(entries), v) && InRange(v, ops) ==>
                    Shows(entries, w) && InRange(w, ops[i..]) && MarkAll(w, ops[i..], spent) == MarkAll(v, ops, spent)
      {
        var op := ops[i];
        assert ops[i..][0] == op && ops[i..][1..] == ops[i + 1..];
        if op.hash in entries && entries[op.hash].tx.Some? && !entries[op.hash].missing {
          if op.index >= |entries[op.hash].spent| {
            return Some(BadTxInput);
          }
          entries := entries[op.hash := entries[op.hash].(spent := entries[op.hash].spent[op.index := spent])];
        }
        w := Mark(w, op, spent);
      }
    }

    /** `connectTransactions`. On a block that fits there is no error, and the store follows the view. */
    method ConnectTransactions(b: Block, ghost v: View) returns (r: Option<StoreError>)
      modifies this
      ensures entries.Keys == old(entries.Keys)
      ensures Shows(old(entries), v) && Sized(v) && BlockFits(v, b) ==> r == None && Shows(entries, ApplyBlock(v, b))
    {
      hide MarkAll, CanSpendAll, Distinct;
      ghost var w := v;
      ghost var fits := Shows(entries, v) && Sized(v) && BlockFits(v, b);
      assert b.txs[..0] == [];
      for i := 0 to |b.txs|
        invariant entries.Keys == old(entries.Keys)
        invariant fits ==> w == ApplyTxs(v, b.txs[..i], b.height) && Shows(entries, w) && Sized(w)
      {
        var tx := b.txs[i];
        if fits {
          ApplyNext(v, b.txs, b.height, i);
          assert TxFits(w, tx);
          ApplySized(w, tx, b.height);
          EnteredRange(w, tx, b.height);
        }
        r := ConnectTx(tx, b.height, w, fits);
        if r.Some? {
          return;
        }
        w := ApplyTx(w, tx, b.height);
      }
      assert b.txs[..|b.txs|] == b.txs;
      r := None;
    }

    method ConnectTx(tx: Tx, height: nat, ghost w: View, ghost fits: bool) returns (r: Option<StoreError>)
      requires fits ==> Shows(entries, w) && (tx.id in w ==> AllSpent(w[tx.id]))
      requires fits && !IsCoinBase(tx) ==> InRange(Enter(w, tx, height), tx.ins)
      modifies this
      ensures entries.Keys == old(entries.Keys)
      ensures fits ==> r == None && Shows(entries, ApplyTx(w, tx, height))
    {
      hide MarkAll;
      if tx.id in entries {
        var d := entries[tx.id];
        if d.tx.Some? && !IsTransactionSpent(d) {
          return Some(TxAlreadyExists);
        }
        entries := entries[tx.id := TxData(Some(tx), height, seq(|tx.outs|, _ => false), false)];
      }
      assert fits ==> Shows(entries, Enter(w, tx, height));
      if IsCoinBase(tx) {
        return None;
      }
      r := MarkInputs(tx.ins, true, Enter(w, tx, height));
    }

    /** `disconnectTransactions` undoes `connectTransactions`: on a store that shows the view after the
        block it brings back the view before the block. */
    method DisconnectTransactions(last: LastSpent, b: Block, ghost v: View) returns (r: Option<StoreError>)
      requires forall i :: 0 <= i < |b.txs| ==> last(b.txs[i].id) == Version(v, b.txs[i].id)
      modifies this
      ensures entries.Keys == old(entries.Keys)
      ensures Shows(old(entries), ApplyBlock(v, b)) && Sized(v) && BlockFits(v, b) ==> r == None && Shows(entries, v)
    {
      hide MarkAll, CanSpendAll;
      ghost var fits := Shows(entries, ApplyBlock(v, b)) && Sized(v) && BlockFits(v, b);
      assert b.txs[..|b.txs|] == b.txs;
      var i := |b.txs|;
      while i > 0
        invariant 0 <= i <= |b.txs| && entries.Keys == old(entries.Keys)
        invariant fits ==> Shows(entries, ApplyTxs(v, b.txs[..i], b.height))
      {
        i := i - 1;
        ghost var w := ApplyTxs(v, b.txs[..i], b.height);
        if fits {
          ApplyNext(v, b.txs, b.height, i);
          ApplyTxsSized(v, b.txs[..i], b.height);
          BeforeOwn(v, b.txs[..i], b.height, b.txs[i].id);
          assert TxFits(w, b.txs[i]);
          UndoneRange(w, b.txs[i]);
        }
        r := DisconnectTx(last, b.txs[i], b.height, w, fits);
        if r.Some? {
          return;
        }
      }
      assert b.txs[..0] == [];
      r := None;
    }

    method DisconnectTx(last: LastSpent, tx: Tx, height: nat, ghost w: View, ghost fits: bool)
        returns (r: Option<StoreError>)
      requires fits ==>
          Shows(entries, ApplyTx(w, tx, height)) && Sized(w) && TxFits(w, tx) && last(tx.id) == Version(w, tx.id)
      requires fits && !IsCoinBase(tx) ==> InRange(MarkAll(w, tx.ins, true), tx.ins)
      modifies this
      ensures entries.Keys == old(entries.Keys)
      ensures fits ==> r == None && Shows(entries, w)
    {
      hide MarkAll, CanSpendAll;
      ghost var u := ApplyTx(w, tx, height);
      if fits {
        UndoApply(w, tx, height);
      }
      if tx.id in entries {
        match last(tx.id)
        case None =>
          entries := entries[tx.id := MISSING];
        case Some((old', h)) =>
          entries := entries[tx.id := TxData(Some(old'), h, seq(|old'.outs|, _ => true), false)];
      }
      if fits {
        assert Shows(entries, Forget(u, tx.id, w)) by { ShowsForget(old(entries), entries, u, tx.id, w); }
      }
      if IsCoinBase(tx) {
        return None;
      }
      r := MarkInputs(tx.ins, false, Forget(u, tx.id, w));
    }
  }

  /** What the database knows of the versions of a transaction before a block. */
  function Version(v: View, h: Hash): Option<(Tx, nat)>
  {
    if h in v then Some((v[h].tx, v[h].height)) else None
  }

  lemma ShowsForget(before: map<Hash, TxData>, after: map<Hash, TxData>, u: View, id: Hash, w: View)
    requires Shows(before, u) && after.Keys == before.Keys && Sized(w) && (id in w ==> AllSpent(w[id]))
    requires forall h :: h in before && h != id ==> after[h] == before[h]
    requires id in before && id in w ==>
        after[id] == TxData(Some(w[id].tx), w[id].height, seq(|w[id].tx.outs|, _ => true), false)
    requires id in before && id !in w ==> after[id] == MISSING
    ensures Shows(after, Forget(u, id, w))
  {
    if id in w {
      assert w[id].spent == seq(|w[id].tx.outs|, _ => true);
    }
  }

  lemma EnteredRange(w: View, tx: Tx, height: nat)
    requires TxFits(w, tx)
    ensures !IsCoinBase(tx) ==> InRange(Enter(w, tx, height), tx.ins)
  {
    if !IsCoinBase(tx) {
      forall i | 0 <= i < |tx.ins|
        ensures tx.ins[i].hash in Enter(w, tx, height) && tx.ins[i].index < |Enter(w, tx, height)[tx.ins[i].hash].spent|
      {
        CanSpendInRange(w, tx.ins, i);
      }
    }
  }

  lemma UndoneRange(w: View, tx: Tx)
    requires Sized(w) && TxFits(w, tx)
    ensures !IsCoinBase(tx) ==> InRange(MarkAll(w, tx.ins, true), tx.ins)
  {
    if !IsCoinBase(tx) {
      MarkAllSized(w, tx.ins, true);
      forall i | 0 <= i < |tx.ins|
        ensures tx.ins[i].hash in w && tx.ins[i].index < |MarkAll(w, tx.ins, true)[tx.ins[i].hash].spent|
      {
        CanSpendInRange(w, tx.ins, i);
        MarkKeepsTx(w, tx.ins, tx.ins[i].hash);
      }
    }
  }

  /** Every output exists. */
  ghost predicate InRange(v: View, ops: seq<OutPoint>)
  {
    forall i :: 0 <= i < |ops| ==> ops[i].hash in v && ops[i].index < |v[ops[i].hash].spent|
  }
}
