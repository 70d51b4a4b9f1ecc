/** The value of all unspent outputs, and what transactions do to it. */
module Worth {
  import opened Hashes
  import opened Ledger

  function Sum(values: seq<int>): int
  {
    if values == [] then 0 else values[0] + Sum(values[1..])
  }

  /** The value of the unspent among these outputs. */
  function Left(values: seq<int>, spent: seq<bool>): int
    requires |values| == |spent|
  {
    if values == [] then 0 else (if spent[0] then 0 else values[0]) + Left(values[1..], spent[1..])
  }

  ghost function Total(v: View): int
    requires Sized(v)
    decreases |v|
  {
    if v == map[] then 0
    else
      var h :| h in v;
      Left(v[h].tx.outs, v[h].spent) + Total(v - {h})
  }

  /** The total may be taken apart at any transaction. */
  lemma {:induction false} TotalAt(v: View, h: Hash)
    requires Sized(v) && h in v
    ensures Total(v) == Left(v[h].tx.outs, v[h].spent) + Total(v - {h})
    decreases |v|
  {
    var g :| g in v && Total(v) == Left(v[g].tx.outs, v[g].spent) + Total(v - {g});
    if g != h {
      TotalAt(v - {g}, h);
      TotalAt(v - {h}, g);
      assert v - {g} - {h} == v - {h} - {g};
    }
  }

  lemma TotalPut(v: View, h: Hash, e: Entry)
    requires Sized(v) && |e.spent| == |e.tx.outs|
    ensures Sized(v[h := e])
    ensures Total(v[h := e]) == Total(v) + Left(e.tx.outs, e.spent) - (if h in v then Left(v[h].tx.outs, v[h].spent)
        else 0)
  {
    TotalAt(v[h := e], h);
    assert v[h := e] - {h} == v - {h};
    if h in v {
      TotalAt(v, h);
    } else {
      assert v - {h} == v;
    }
  }

  lemma {:induction false} LeftNone(values: seq<int>, spent: seq<bool>)
    requires |values| == |spent| && forall i :: 0 <= i < |spent| ==> spent[i]
    ensures Left(values, spent) == 0
  {
    if values != [] {
      LeftNone(values[1..], spent[1..]);
    }
  }

  lemma {:induction false} LeftAll(values: seq<int>, spent: seq<bool>)
    requires |values| == |spent| && forall i :: 0 <= i < |spent| ==> !spent[i]
    ensures Left(values, spent) == Sum(values)
  {
    if values != [] {
      LeftAll(values[1..], spent[1..]);
    }
  }

  lemma {:induction false} LeftSpend(values: seq<int>, spent: seq<bool>, k: nat)
    requires |values| == |spent| && k < |spent| && !spent[k]
    ensures Left(values, spent[k := true]) == Left(values, spent) - values[k]
  {
    if k == 0 {
      assert spent[0 := true][1..] == spent[1..];
    } else {
      assert spent[k := true][1..] == spent[1..][k - 1 := true];
      LeftSpend(values[1..], spent[1..], k - 1);
    }
  }

  /** The value of an output. */
  function Value(v: View, op: OutPoint): int
    requires CanSpend(v, op) && Sized(v)
  {
    v[op.hash].tx.outs[op.index]
  }

  /** The value of the outputs that a list of inputs spends. */
  function Spent(v: View, ops: seq<OutPoint>): int
    requires Sized(v) && CanSpendAll(v, ops)
  {
    if ops == [] then 0
    else
      MarkAllSized(v, [ops[0]], true);
      assert MarkAll(v, [ops[0]], true) == Mark(v, ops[0], true);
      Value(v, ops[0]) + Spent(Mark(v, ops[0], true), ops[1..])
  }

  lemma MarkTotal(v: View, op: OutPoint)
    requires Sized(v) && CanSpend(v, op)
    ensures Sized(Mark(v, op, true)) && Total(Mark(v, op, true)) == Total(v) - Value(v, op)
  {
    var e := v[op.hash];
    TotalPut(v, op.hash, e.(spent := e.spent[op.index := true]));
    LeftSpend(e.tx.outs, e.spent, op.index);
  }

  lemma {:induction false} SpentTotal(v: View, ops: seq<OutPoint>)
    requires Sized(v) && CanSpendAll(v, ops)
    ensures Sized(MarkAll(v, ops, true)) && Total(MarkAll(v, ops, true)) == Total(v) - Spent(v, ops)
    decreases |ops|
  {
    if ops != [] {
      MarkTotal(v, ops[0]);
      SpentTotal(Mark(v, ops[0], true), ops[1..]);
    }
  }

  lemma EnterTotal(v: View, tx: Tx, height: nat)
    requires Sized(v) && (tx.id in v ==> AllSpent(v[tx.id]))
    ensures Sized(Enter(v, tx, height)) && Total(Enter(v, tx, height)) == Total(v) + Sum(tx.outs)
  {
    var e := Entry(tx, height, seq(|tx.outs|, _ => false));
    TotalPut(v, tx.id, e);
    LeftAll(tx.outs, e.spent);
    if tx.id in v {
      LeftNone(v[tx.id].tx.outs, v[tx.id].spent);
    }
  }

  /** What a transaction takes from the outputs it spends and does not give to its own: the fee. */
  function Fee(v: View, tx: Tx): int
    requires Sized(v) && TxFits(v, tx)
  {
    if IsCoinBase(tx) then 0 else Spent(v, tx.ins) - Sum(tx.outs)
  }

  /** A transaction lowers the total by its fee; a coinbase raises it by its outputs. */
  lemma TxTotal(v: View, tx: Tx, height: nat)
    requires Sized(v) && TxFits(v, tx)
    ensures Sized(ApplyTx(v, tx, height))
    ensures Total(ApplyTx(v, tx, height)) == Total(v) - Fee(v, tx) + (if IsCoinBase(tx) then Sum(tx.outs) else 0)
  {
    ApplySized(v, tx, height);
    if IsCoinBase(tx) {
      EnterTotal(v, tx, height);
    } else {
      EnterCommutes(v, tx, height, tx.ins, true);
      SpentTotal(v, tx.ins);
      var w := MarkAll(v, tx.ins, true);
      MarkAllSized(v, tx.ins, true);
      EnterTotal(w, tx, height);
    }
  }

  /** The fees of the first transactions of a block. */
  function Fees(v: View, txs: seq<Tx>, height: nat): int
    requires Sized(v) && forall i :: 0 <= i < |txs| ==> TxFits(ApplyTxs(v, txs[..i], height), txs[i])
  {
    if txs == [] then 0
    else
      var n := |txs| - 1;
      assert forall i :: 0 <= i < n ==> txs[..n][..i] == txs[..i];
      ApplyTxsSized(v, txs[..n], height);
      Fees(v, txs[..n], height) + Fee(ApplyTxs(v, txs[..n], height), txs[n])
  }

  /** What the coinbases among the transactions pay out. */
  function Minted(txs: seq<Tx>): int
  {
    if txs == [] then 0
    else Minted(txs[..|txs| - 1]) + if IsCoinBase(txs[|txs| - 1]) then Sum(txs[|txs| - 1].outs) else 0
  }

  /** A block raises the total by exactly what its coinbase pays out less the fees. */
  lemma {:induction false} TxsTotal(v: View, txs: seq<Tx>, height: nat)
    requires Sized(v) && forall i :: 0 <= i < |txs| ==> TxFits(ApplyTxs(v, txs[..i], height), txs[i])
    ensures Sized(ApplyTxs(v, txs, height))
    ensures Total(ApplyTxs(v, txs, height)) == Total(v) + Minted(txs) - Fees(v, txs, height)
    decreases |txs|
  {
    if txs != [] {
      var n := |txs| - 1;
      assert forall i :: 0 <= i < n ==> txs[..n][..i] == txs[..i];
      TxsTotal(v, txs[..n], height);
      TxTotal(ApplyTxs(v, txs[..n], height), txs[n], height);
    }
  }
}
