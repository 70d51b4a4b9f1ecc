/** Transactions, and the unspent outputs that a chain of blocks leaves. */
module Ledger {
  import opened Hashes

  datatype OutPoint = OutPoint(hash: Hash, index: nat)

  /** The values of the outputs are in maxwell. */
  datatype Tx = Tx(id: Hash, ins: seq<OutPoint>, outs: seq<int>)

  datatype Block = Block(height: nat, txs: seq<Tx>)

  /** What the first input of a coinbase refers to. */
  const NO_OUTPUT: OutPoint := OutPoint(0, 0xFFFF_FFFF)

  predicate IsCoinBase(tx: Tx)
  {
    |tx.ins| >= 1 && tx.ins[0] == NO_OUTPUT
  }

  /** A transaction in the chain, with the outputs of it that are spent. */
  datatype Entry = Entry(tx: Tx, height: nat, spent: seq<bool>)

  /** For each hash the latest transaction that has it. */
  type View = map<Hash, Entry>

  predicate AllSpent(e: Entry)
  {
    forall i :: 0 <= i < |e.spent| ==> e.spent[i]
  }

  function Enter(v: View, tx: Tx, height: nat): View
  {
    v[tx.id := Entry(tx, height, seq(|tx.outs|, _ => false))]
  }

  /** Sets the mark of an output, if there is such an output. */
  function Mark(v: View, op: OutPoint, spent: bool): View
  {
    if op.hash in v && op.index < |v[op.hash].spent| then
      v[op.hash := v[op.hash].(spent := v[op.hash].spent[op.index := spent])]
    else v
  }

  function MarkAll(v: View, ops: seq<OutPoint>, spent: bool): View
  {
    if ops == [] then v else MarkAll(Mark(v, ops[0], spent), ops[1..], spent)
  }

  function ApplyTx(v: View, tx: Tx, height: nat): View
  {
    if IsCoinBase(tx) then Enter(v, tx, height) else MarkAll(Enter(v, tx, height), tx.ins, true)
  }

  function ApplyTxs(v: View, txs: seq<Tx>, height: nat): View
  {
    if txs == [] then v else ApplyTx(ApplyTxs(v, txs[..|txs| - 1], height), txs[|txs| - 1], height)
  }

  /** The view after a block: its transactions one after the other. */
  function ApplyBlock(v: View, b: Block): View
  {
    ApplyTxs(v, b.txs, b.height)
  }

  function Replay(v: View, blocks: seq<Block>): View
  {
    if blocks == [] then v else ApplyBlock(Replay(v, blocks[..|blocks| - 1]), blocks[|blocks| - 1])
  }

  predicate CanSpend(v: View, op: OutPoint)
  {
    op.hash in v && op.index < |v[op.hash].spent| && !v[op.hash].spent[op.index]
  }

  /** Each output is there and not spent when its turn comes. */
  predicate CanSpendAll(v: View, ops: seq<OutPoint>)
  {
    ops == [] || (CanSpend(v, ops[0]) && CanSpendAll(Mark(v, ops[0], true), ops[1..]))
  }

  /** The rules on the place of a transaction in the chain: it replaces no transaction with unspent
      outputs, and spends what is there to spend. No transaction has its own hash in it. */
  predicate TxFits(v: View, tx: Tx)
  {
    && (tx.id in v ==> AllSpent(v[tx.id]))
    && (!IsCoinBase(tx) ==> CanSpendAll(v, tx.ins) && forall i :: 0 <= i < |tx.ins| ==> tx.ins[i].hash != tx.id)
  }

  predicate Distinct(txs: seq<Tx>)
  {
    forall i, j :: 0 <= i < j < |txs| ==> txs[i].id != txs[j].id
  }

  predicate BlockFits(v: View, b: Block)
  {
    Distinct(b.txs) && forall i :: 0 <= i < |b.txs| ==> TxFits(ApplyTxs(v, b.txs[..i], b.height), b.txs[i])
  }

  predicate ChainFits(v: View, blocks: seq<Block>)
  {
    forall i :: 0 <= i < |blocks| ==> BlockFits(Replay(v, blocks[..i]), blocks[i])
  }

  lemma ApplyNext(v: View, txs: seq<Tx>, height: nat, i: nat)
    requires i < |txs|
    ensures ApplyTxs(v, txs[..i + 1], height) == ApplyTx(ApplyTxs(v, txs[..i], height), txs[i], height)
  {
    assert txs[..i + 1][..i] == txs[..i];
  }

  lemma ReplayNext(v: View, blocks: seq<Block>, i: nat)
    requires i < |blocks|
    ensures Replay(v, blocks[..i + 1]) == ApplyBlock(Replay(v, blocks[..i]), blocks[i])
  {
    assert blocks[..i + 1][..i] == blocks[..i];
  }

  /** Unspending. */

  lemma MarkOther(v: View, a: OutPoint, b: OutPoint, x: bool, y: bool)
    requires a != b
    ensures Mark(Mark(v, a, x), b, y) == Mark(Mark(v, b, y), a, x)
  {
    if a.hash == b.hash && a.hash in v && a.index < |v[a.hash].spent| && b.index < |v[a.hash].spent| {
      assert v[a.hash].spent[a.index := x][b.index := y] == v[a.hash].spent[b.index := y][a.index := x];
    }
  }

  lemma {:induction false} MarkAllOther(v: View, op: OutPoint, ops: seq<OutPoint>)
    requires op !in ops
    ensures Mark(MarkAll(v, ops, true), op, false) == MarkAll(Mark(v, op, false), ops, true)
  {
    if ops != [] {
      MarkAllOther(Mark(v, ops[0], true), op, ops[1..]);
      MarkOther(v, ops[0], op, true, false);
    }
  }

  lemma Unmark(v: View, op: OutPoint)
    requires CanSpend(v, op)
    ensures Mark(Mark(v, op, true), op, false) == v
  {
    assert v[op.hash].spent[op.index := true][op.index := false] == v[op.hash].spent;
  }

  lemma {:induction false} SpentNotAgain(v: View, op: OutPoint, ops: seq<OutPoint>)
    requires op.hash in v && op.index < |v[op.hash].spent| && v[op.hash].spent[op.index] && CanSpendAll(v, ops)
    ensures op !in ops
  {
    if ops != [] {
      assert op != ops[0];
      SpentNotAgain(Mark(v, ops[0], true), op, ops[1..]);
    }
  }

  /** Unspending the same outputs, in the same order, restores the view. */
  lemma {:induction false} UnmarkAll(v: View, ops: seq<OutPoint>)
    requires CanSpendAll(v, ops)
    ensures MarkAll(MarkAll(v, ops, true), ops, false) == v
  {
    if ops != [] {
      var op, rest := ops[0], ops[1..];
      var w := Mark(v, op, true);
      SpentNotAgain(w, op, rest);
      MarkAllOther(w, op, rest);
      Unmark(v, op);
      UnmarkAll(v, rest) by { CanSpendWithout(v, op, rest); }
    }
  }

  lemma {:induction false} CanSpendWithout(v: View, op: OutPoint, ops: seq<OutPoint>)
    requires op !in ops && CanSpendAll(Mark(v, op, true), ops)
    ensures CanSpendAll(v, ops)
  {
    if ops != [] {
      MarkOther(v, op, ops[0], true, true);
      CanSpendWithout(Mark(v, ops[0], true), op, ops[1..]);
    }
  }

  /** Every transaction has a mark for each of its outputs. */
  predicate Sized(v: View)
  {
    forall h :: h in v ==> |v[h].spent| == |v[h].tx.outs|
  }

  lemma {:induction false} MarkAllSized(v: View, ops: seq<OutPoint>, spent: bool)
    requires Sized(v)
    ensures Sized(MarkAll(v, ops, spent)) && MarkAll(v, ops, spent).Keys == v.Keys
    ensures forall h :: h in v && (forall i :: 0 <= i < |ops| ==> ops[i].hash != h) ==>
        MarkAll(v, ops, spent)[h] == v[h]
  {
    if ops != [] {
      var w := Mark(v, ops[0], spent);
      assert w.Keys == v.Keys;
      MarkAllSized(w, ops[1..], spent);
      forall h | h in v && (forall i :: 0 <= i < |ops| ==> ops[i].hash != h)
        ensures MarkAll(v, ops, spent)[h] == v[h]
      {
        assert ops[0].hash != h;
        assert forall i :: 0 <= i < |ops[1..]| ==> ops[1..][i] == ops[i + 1];
      }
    }
  }

  lemma {:induction false} EnterCommutes(v: View, tx: Tx, height: nat, ops: seq<OutPoint>, spent: bool)
    requires forall i :: 0 <= i < |ops| ==> ops[i].hash != tx.id
    ensures MarkAll(Enter(v, tx, height), ops, spent) == Enter(MarkAll(v, ops, spent), tx, height)
  {
    if ops != [] {
      assert Mark(Enter(v, tx, height), ops[0], spent) == Enter(Mark(v, ops[0], spent), tx, height);
      EnterCommutes(Mark(v, ops[0], spent), tx, height, ops[1..], spent);
    }
  }

  /** Puts back what an earlier view had for a hash. */
  function Forget(u: View, h: Hash, v: View): View
  {
    if h in v then u[h := v[h]] else u - {h}
  }

  /** Taking a transaction off again: its own entry first, then the outputs it spent. */
  function UndoTx(u: View, tx: Tx, v: View): View
  {
    var w := Forget(u, tx.id, v);
    if IsCoinBase(tx) then w else MarkAll(w, tx.ins, false)
  }

  lemma UndoApply(v: View, tx: Tx, height: nat)
    requires Sized(v) && TxFits(v, tx)
    ensures UndoTx(ApplyTx(v, tx, height), tx, v) == v
    ensures !IsCoinBase(tx) ==> Forget(ApplyTx(v, tx, height), tx.id, v) == MarkAll(v, tx.ins, true)
  {
    if IsCoinBase(tx) {
      assert Forget(Enter(v, tx, height), tx.id, v) == v;
    } else {
      var w := MarkAll(v, tx.ins, true);
      EnterCommutes(v, tx, height, tx.ins, true);
      MarkAllSized(v, tx.ins, true);
      assert Forget(Enter(w, tx, height), tx.id, v) == w;
      UnmarkAll(v, tx.ins);
    }
  }

  lemma ApplySized(v: View, tx: Tx, height: nat)
    requires Sized(v)
    ensures Sized(ApplyTx(v, tx, height)) && ApplyTx(v, tx, height).Keys == v.Keys + {tx.id}
  {
    assert Sized(Enter(v, tx, height));
    MarkAllSized(Enter(v, tx, height), tx.ins, true);
  }

  lemma {:induction false} ApplyTxsSized(v: View, txs: seq<Tx>, height: nat)
    requires Sized(v)
    ensures Sized(ApplyTxs(v, txs, height))
  {
    if txs != [] {
      ApplyTxsSized(v, txs[..|txs| - 1], height);
      ApplySized(ApplyTxs(v, txs[..|txs| - 1], height), txs[|txs| - 1], height);
    }
  }

  lemma {:induction false} ReplaySized(v: View, blocks: seq<Block>)
    requires Sized(v)
    ensures Sized(Replay(v, blocks))
  {
    if blocks != [] {
      ReplaySized(v, blocks[..|blocks| - 1]);
      ApplyTxsSized(Replay(v, blocks[..|blocks| - 1]), blocks[|blocks| - 1].txs, blocks[|blocks| - 1].height);
    }
  }

  lemma {:induction false} CanSpendInRange(v: View, ops: seq<OutPoint>, i: nat)
    requires CanSpendAll(v, ops) && i < |ops|
    ensures ops[i].hash in v && ops[i].index < |v[ops[i].hash].spent|
  {
    if i > 0 {
      CanSpendInRange(Mark(v, ops[0], true), ops[1..], i - 1);
    }
  }

  /** A transaction of a block is not touched by the others as long as it is not entered: only its
      older version may be spent further. */
  lemma {:induction false} BeforeOwn(v: View, txs: seq<Tx>, height: nat, id: Hash)
    requires Sized(v) && forall i :: 0 <= i < |txs| ==> txs[i].id != id
    ensures var w := ApplyTxs(v, txs, height);
        (id in w <==> id in v) && (id in v ==> w[id].tx == v[id].tx && w[id].height == v[id].height)
  {
    if txs != [] {
      var n := |txs| - 1;
      BeforeOwn(v, txs[..n], height, id);
      ApplyTxsSized(v, txs[..n], height);
      KeepsTx(ApplyTxs(v, txs[..n], height), txs[n], height, id);
    }
  }

  lemma KeepsTx(v: View, tx: Tx, height: nat, id: Hash)
    requires id != tx.id
    ensures var w := ApplyTx(v, tx, height);
        (id in w <==> id in v) && (id in v ==> w[id].tx == v[id].tx && w[id].height == v[id].height)
  {
    MarkKeepsTx(Enter(v, tx, height), tx.ins, id);
  }

  lemma {:induction false} MarkKeepsTx(v: View, ops: seq<OutPoint>, id: Hash)
    ensures var w := MarkAll(v, ops, true);
        (id in w <==> id in v) && (id in v ==> w[id].tx == v[id].tx && w[id].height == v[id].height)
  {
    if ops != [] {
      MarkKeepsTx(Mark(v, ops[0], true), ops[1..], id);
    }
  }
}
