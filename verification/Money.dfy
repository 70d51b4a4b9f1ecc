/** The checks on the money that a block moves. */
module Money {
  import opened Hashes
  import opened Wrappers
  import opened Ledger
  import opened TxStore
  import opened Worth

  /** `MaxMass` in maxwell: no amount is larger, and none is negative. */
  const MAX_AMOUNT: int := 206438400 * 100000000

  const COINBASE_MATURITY: nat := 1000

  datatype TxError =
    | MissingTx
    | ImmatureSpend
    | BadInput
    | DoubleSpend
    | BadAmount
    | OverwriteTx
    | BadFees
    | BadCoinbaseValue

  /** An amount, or none when it is out of range. */
  function Checked(x: int): Option<int>
  {
    if 0 <= x <= MAX_AMOUNT then Some(x) else None
  }

  /** An output that `CheckTransactionInputs` would let a transaction spend. */
  predicate Spendable(d: TxData, i: nat)
  {
    d.tx.Some? && !d.missing && i < |d.spent| && !d.spent[i] && i < |d.tx.value.outs|
  }

  /** What the store lets a transaction spend of this hash is unspent in the view, in the same transaction. */
  ghost predicate Backed(entries: map<Hash, TxData>, w: View, h: Hash)
  {
    h in entries ==> forall i: nat :: Spendable(entries[h], i) ==>
      CanSpend(w, OutPoint(h, i)) && w[h].tx == entries[h].tx.value && w[h].height == entries[h].height
  }

  /** A transaction at the height may spend the output, as far as the age of a coinbase goes. */
  predicate Mature(w: View, op: OutPoint, height: nat)
  {
    op.hash in w && (IsCoinBase(w[op.hash].tx) ==> height >= w[op.hash].height + COINBASE_MATURITY)
  }

  predicate AllMature(w: View, ops: seq<OutPoint>, height: nat)
  {
    forall i :: 0 <= i < |ops| ==> Mature(w, ops[i], height)
  }

  /** What is unspent in the view the store lets a transaction spend. */
  ghost predicate Reflects(entries: map<Hash, TxData>, w: View, h: Hash)
  {
    h in entries && forall i: nat :: CanSpend(w, OutPoint(h, i)) ==> Spendable(entries[h], i)
  }

  /** The value of an output that is in the view. */
  function OutputValue(w: View, op: OutPoint): int
  {
    if op.hash in w && op.index < |w[op.hash].tx.outs| then w[op.hash].tx.outs[op.index] else 0
  }

  function InputValues(w: View, ops: seq<OutPoint>): seq<int>
  {
    seq(|ops|, i requires 0 <= i < |ops| => OutputValue(w, ops[i]))
  }

  /** None of the values is negative, and their sum is an amount at every step. */
  predicate Amounts(values: seq<int>)
  {
    forall i :: 0 <= i < |values| ==> 0 <= values[i] && Sum(values[..i + 1]) <= MAX_AMOUNT
  }

  /** What goes in and what goes out are amounts, and no more goes out than in. */
  predicate TxAmounts(w: View, tx: Tx)
  {
    Amounts(InputValues(w, tx.ins)) && Amounts(tx.outs) && Sum(tx.outs) <= Sum(InputValues(w, tx.ins))
  }

  /** The next input can be added to the total: it can be spent at this height, for an amount. */
  predicate CanAdd(w: View, op: OutPoint, height: nat, total: int)
  {
    && CanSpend(w, op) && Mature(w, op, height)
    && 0 <= OutputValue(w, op) <= MAX_AMOUNT && 0 <= total + OutputValue(w, op) <= MAX_AMOUNT
  }

  /** The entries have a mark for each output. */
  ghost predicate SizedStore(entries: map<Hash, TxData>)
  {
    forall h :: h in entries && entries[h].tx.Some? ==> |entries[h].spent| == |entries[h].tx.value.outs|
  }

  /** Spending only takes away. */
  ghost predicate Less(before: map<Hash, TxData>, after: map<Hash, TxData>)
  {
    && after.Keys == before.Keys
    && forall h :: h in before ==>
        after[h].tx == before[h].tx && (forall i: nat :: Spendable(after[h], i) ==> Spendable(before[h], i))
  }

  lemma {:induction false} MarkAllSnoc(v: View, ops: seq<OutPoint>, op: OutPoint)
    ensures MarkAll(v, ops + [op], true) == Mark(MarkAll(v, ops, true), op, true)
  {
    if ops == [] {
      assert ops + [op] == [op] && [op][1..] == [];
    } else {
      assert (ops + [op])[1..] == ops[1..] + [op];
      MarkAllSnoc(Mark(v, ops[0], true), ops[1..], op);
    }
  }

  lemma {:induction false} SpentSnoc(v: View, ops: seq<OutPoint>, op: OutPoint)
    requires Sized(v) && CanSpendAll(v, ops) && CanSpend(MarkAll(v, ops, true), op)
    ensures CanSpendAll(v, ops + [op]) && Sized(MarkAll(v, ops, true))
    ensures Spent(v, ops + [op]) == Spent(v, ops) + Value(MarkAll(v, ops, true), op)
    decreases |ops|
  {
    MarkAllSized(v, ops, true);
    if ops == [] {
      assert ops + [op] == [op] && [op][1..] == [];
    } else {
      assert (ops + [op])[1..] == ops[1..] + [op];
      MarkTotal(v, ops[0]);
      SpentSnoc(Mark(v, ops[0], true), ops[1..], op);
    }
  }

  /** One input of `CheckTransactionInputs`: its value is added to the total. */
  method CheckInput(op: OutPoint, txHeight: nat, total: int, store: Store, ghost w: View)
      returns (r: Result<int, TxError>)
    requires SizedStore(store.entries) && Sized(w) && Backed(store.entries, w, op.hash)
    modifies store
    ensures Less(old(store.entries), store.entries) && SizedStore(store.entries)
    ensures forall h :: h in old(store.entries) && h != op.hash ==> store.entries[h] == old(store.entries)[h]
    ensures r.Ok? ==> CanAdd(w, op, txHeight, total) && r.value == total + Value(w, op)
    ensures Reflects(old(store.entries), w, op.hash) && CanAdd(w, op, txHeight, total) ==> r.Ok?
    ensures r.Ok? ==> op.hash in old(store.entries) && Spendable(old(store.entries)[op.hash], op.index)
    ensures r.Ok? ==> forall h :: Backed(old(store.entries), w, h) ==> Backed(store.entries, Mark(w, op, true), h)
    ensures r.Ok? ==> forall h :: Reflects(old(store.entries), w, h) ==> Reflects(store.entries, Mark(w, op, true), h)
  {
    if op.hash !in store.entries || store.entries[op.hash].missing || store.entries[op.hash].tx.None? {
      return Err(MissingTx);
    }
    var d := store.entries[op.hash];
    var blocksSincePrev := if txHeight > d.height then txHeight - d.height else 0;
    if IsCoinBase(d.tx.value) && blocksSincePrev < COINBASE_MATURITY {
      return Err(ImmatureSpend);
    }
    if op.index >= |d.spent| {
      return Err(BadInput);
    }
    if d.spent[op.index] {
      return Err(DoubleSpend);
    }
    var value := Checked(d.tx.value.outs[op.index]);
    if value.None? {
      return Err(BadAmount);
    }
    assert Spendable(d, op.index);
    var sum := Checked(total + value.value);
    if sum.None? {
      return Err(BadAmount);
    }
    store.entries := store.entries[op.hash := d.(spent := d.spent[op.index := true])];
    r := Ok(sum.value);
    SpendBacked(old(store.entries), store.entries, w, op);
    SpendReflected(old(store.entries), store.entries, w, op);
  }

  lemma SpendReflected(before: map<Hash, TxData>, after: map<Hash, TxData>, w: View, op: OutPoint)
    requires op.hash in before && Spendable(before[op.hash], op.index) && CanSpend(w, op)
    requires after == before[op.hash := before[op.hash].(spent := before[op.hash].spent[op.index := true])]
    ensures forall h :: Reflects(before, w, h) ==> Reflects(after, Mark(w, op, true), h)
  {
    forall h | Reflects(before, w, h)
      ensures Reflects(after, Mark(w, op, true), h)
    {
      forall i: nat | CanSpend(Mark(w, op, true), OutPoint(h, i))
        ensures Spendable(after[h], i)
      {
        assert CanSpend(w, OutPoint(h, i));
      }
    }
  }

  lemma SpendBacked(before: map<Hash, TxData>, after: map<Hash, TxData>, w: View, op: OutPoint)
    requires op.hash in before && Spendable(before[op.hash], op.index) && CanSpend(w, op)
    requires after == before[op.hash := before[op.hash].(spent := before[op.hash].spent[op.index := true])]
    ensures Less(before, after)
    ensures forall h :: Backed(before, w, h) ==> Backed(after, Mark(w, op, true), h)
  {
    forall h | h in before && Backed(before, w, h)
      ensures Backed(after, Mark(w, op, true), h)
    {
      forall i: nat | Spendable(after[h], i)
        ensures CanSpend(Mark(w, op, true), OutPoint(h, i)) && w[h].tx == after[h].tx.value &&
            w[h].height == after[h].height
      {
        assert Spendable(before[h], i);
      }
    }
  }

  /** The loop over the outputs of a transaction. */
  method AddOutputs(outs: seq<int>) returns (r: Option<int>)
    ensures r.Some? ==> r.value == Sum(outs)
    ensures r.Some? <==> Amounts(outs)
  {
    var total := 0;
    assert outs[..0] == [];
    for i := 0 to |outs|
      invariant total == Sum(outs[..i])
      invariant forall j :: 0 <= j < i ==> 0 <= outs[j] && Sum(outs[..j + 1]) <= MAX_AMOUNT
      invariant 0 <= total <= MAX_AMOUNT
    {
      SumSnoc(outs, i);
      var v := Checked(outs[i]);
      if v.None? {
        if 0 <= outs[i] {
          assert Sum(outs[..i + 1]) > MAX_AMOUNT;
        }
        return None;
      }
      var sum := Checked(total + v.value);
      if sum.None? {
        return None;
      }
      total := sum.value;
    }
    assert outs[..|outs|] == outs;
    r := Some(total);
  }

  lemma {:induction false} SumConcat(a: seq<int>, b: seq<int>)
    ensures Sum(a + b) == Sum(a) + Sum(b)
  {
    if a == [] {
      assert a + b == b;
    } else {
      assert (a + b)[1..] == a[1..] + b;
      SumConcat(a[1..], b);
    }
  }

  lemma SumSnoc(values: seq<int>, i: nat)
    requires i < |values|
    ensures Sum(values[..i + 1]) == Sum(values[..i]) + values[i]
  {
    assert values[..i + 1] == values[..i] + [values[i]];
    SumConcat(values[..i], [values[i]]);
    assert [values[i]][1..] == [];
  }

  lemma ValuesKept(w: View, ops: seq<OutPoint>, op: OutPoint, height: nat)
    ensures OutputValue(MarkAll(w, ops, true), op) == OutputValue(w, op)
    ensures Mature(MarkAll(w, ops, true), op, height) <==> Mature(w, op, height)
  {
    MarkKeepsTx(w, ops, op.hash);
  }

  lemma {:induction false} CanSpendAt(w: View, ops: seq<OutPoint>, i: nat)
    requires CanSpendAll(w, ops) && i < |ops|
    ensures CanSpend(MarkAll(w, ops[..i], true), ops[i])
  {
    if i > 0 {
      assert ops[..i][1..] == ops[1..][..i - 1];
      CanSpendAt(Mark(w, ops[0], true), ops[1..], i - 1);
    }
  }

  lemma ValuesSnoc(w: View, ops: seq<OutPoint>, i: nat)
    requires i < |ops|
    ensures Sum(InputValues(w, ops[..i + 1])) == Sum(InputValues(w, ops[..i])) + OutputValue(w, ops[i])
    ensures InputValues(w, ops[..i + 1]) == InputValues(w, ops)[..i + 1]
  {
    var values := InputValues(w, ops);
    assert InputValues(w, ops[..i + 1]) == values[..i + 1] && InputValues(w, ops[..i]) == values[..i];
    SumSnoc(values, i);
  }

  lemma {:induction false} SpentIs(w: View, ops: seq<OutPoint>)
    requires Sized(w) && CanSpendAll(w, ops)
    ensures Spent(w, ops) == Sum(InputValues(w, ops))
  {
    if ops != [] {
      var u := Mark(w, ops[0], true);
      MarkTotal(w, ops[0]);
      SpentIs(u, ops[1..]);
      assert InputValues(u, ops[1..]) == InputValues(w, ops)[1..];
    }
  }

  lemma {:induction false} AmountsSum(values: seq<int>, i: nat)
    requires Amounts(values) && i <= |values|
    ensures 0 <= Sum(values[..i]) <= MAX_AMOUNT
  {
    if i > 0 {
      AmountsSum(values, i - 1);
      SumSnoc(values, i - 1);
    } else {
      assert values[..0] == [];
    }
  }

  /** The first inputs pass, with this total. */
  ghost predicate PassUpTo(w: View, ops: seq<OutPoint>, height: nat, i: nat, total: int)
  {
    && i <= |ops| && Sized(w) && CanSpendAll(w, ops[..i]) && AllMature(w, ops[..i], height)
    && Amounts(InputValues(w, ops[..i])) && total == Sum(InputValues(w, ops[..i])) == Spent(w, ops[..i])
  }

  lemma NonePassed(w: View, ops: seq<OutPoint>, height: nat)
    requires Sized(w)
    ensures ops[..0] == [] && MarkAll(w, ops[..0], true) == w && PassUpTo(w, ops, height, 0, 0)
  {
    assert ops[..0] == [];
  }

  lemma PassNext(w: View, ops: seq<OutPoint>, height: nat, i: nat, total: int)
    requires PassUpTo(w, ops, height, i, total) && i < |ops|
    requires CanAdd(MarkAll(w, ops[..i], true), ops[i], height, total)
    ensures PassUpTo(w, ops, height, i + 1, total + OutputValue(MarkAll(w, ops[..i], true), ops[i]))
  {
    hide MarkAll, CanSpendAll, Sum, Spent, InputValues, OutputValue, Mature;
    var more := ops[..i + 1];
    assert more == ops[..i] + [ops[i]];
    MarkAllSized(w, ops[..i], true);
    SpentSnoc(w, ops[..i], ops[i]);
    ValuesKept(w, ops[..i], ops[i], height);
    ValuesSnoc(w, ops, i);
    ValueIs(MarkAll(w, ops[..i], true), ops[i]);
    AmountsSnoc(w, ops, i);
  }

  lemma ValueIs(w: View, op: OutPoint)
    requires Sized(w) && CanSpend(w, op)
    ensures Value(w, op) == OutputValue(w, op)
  {
  }

  lemma AmountsSnoc(w: View, ops: seq<OutPoint>, i: nat)
    requires i < |ops| && Amounts(InputValues(w, ops[..i]))
    ensures 0 <= OutputValue(w, ops[i]) && Sum(InputValues(w, ops[..i + 1])) <= MAX_AMOUNT ==>
              Amounts(InputValues(w, ops[..i + 1]))
  {
    var some, more := InputValues(w, ops[..i]), InputValues(w, ops[..i + 1]);
    if 0 <= OutputValue(w, ops[i]) && Sum(more) <= MAX_AMOUNT {
      forall k | 0 <= k < |more|
        ensures 0 <= more[k] && Sum(more[..k + 1]) <= MAX_AMOUNT
      {
        if k < i {
          assert more[k] == some[k] && more[..k + 1] == some[..k + 1];
        } else {
          assert more[..k + 1] == more;
        }
      }
    }
  }

  /** If all the inputs are good, then so is the next one. */
  lemma WouldPass(w: View, ops: seq<OutPoint>, height: nat, i: nat, total: int)
    requires PassUpTo(w, ops, height, i, total) && i < |ops|
    ensures CanSpendAll(w, ops) && AllMature(w, ops, height) && Amounts(InputValues(w, ops)) ==>
              CanAdd(MarkAll(w, ops[..i], true), ops[i], height, total)
  {
    hide MarkAll, CanSpendAll, Sum, Spent, OutputValue, Mature;
    if CanSpendAll(w, ops) && AllMature(w, ops, height) && Amounts(InputValues(w, ops)) {
      CanSpendAt(w, ops, i);
      ValuesKept(w, ops[..i], ops[i], height);
      ValuesSnoc(w, ops, i);
      AmountsSum(InputValues(w, ops[..i]), i);
      assert InputValues(w, ops[..i])[..i] == InputValues(w, ops[..i]);
      var values := InputValues(w, ops);
      assert values[i] == OutputValue(w, ops[i]) && Sum(values[..i + 1]) <= MAX_AMOUNT;
    }
  }

  lemma AllPassed(w: View, ops: seq<OutPoint>, height: nat, total: int)
    requires PassUpTo(w, ops, height, |ops|, total)
    ensures CanSpendAll(w, ops) && AllMature(w, ops, height) && Amounts(InputValues(w, ops))
    ensures total == Sum(InputValues(w, ops)) == Spent(w, ops) && 0 <= total <= MAX_AMOUNT
  {
    hide InputValues, CanSpendAll, Mature, Sum, Spent;
    assert ops[..|ops|] == ops;
    var values := InputValues(w, ops);
    AmountsSum(values, |values|);
    assert values[..|values|] == values;
  }

  /** The inputs and the amounts of a transaction are in order. */
  ghost predicate TxPasses(w: View, tx: Tx, height: nat)
  {
    CanSpendAll(w, tx.ins) && AllMature(w, tx.ins, height) && TxAmounts(w, tx)
  }

  /** `CheckTransactionInputs`. On a store that shows what is unspent it succeeds if and only if the
      transaction spends unspent outputs, each once and none of a young coinbase, and all values are in
      range. The result is the value of its inputs less that of its outputs. */
  method CheckTransactionInputs(tx: Tx, txHeight: nat, store: Store, ghost w: View) returns (r: Result<int, TxError>)
    requires SizedStore(store.entries) && Sized(w)
    requires !IsCoinBase(tx) ==> forall i :: 0 <= i < |tx.ins| ==> Backed(store.entries, w, tx.ins[i].hash)
    modifies store
    ensures Less(old(store.entries), store.entries) && SizedStore(store.entries) &&
        store.entries.Keys == old(store.entries).Keys
    ensures IsCoinBase(tx) ==> r == Ok(0) && store.entries == old(store.entries)
    ensures forall h :: h in old(store.entries) && Unused(tx.ins, h) ==> store.entries[h] == old(store.entries)[h]
    ensures !IsCoinBase(tx) && r.Ok? ==>
              TxPasses(w, tx, txHeight) && r.value == Spent(w, tx.ins) - Sum(tx.outs) && 0 <= r.value <= MAX_AMOUNT
    ensures !IsCoinBase(tx) && AllReflected(old(store.entries), w, tx.ins) && TxPasses(w, tx, txHeight) ==> r.Ok?
    ensures !IsCoinBase(tx) && r.Ok? ==> AllSpendable(old(store.entries), tx.ins)
    ensures !IsCoinBase(tx) && r.Ok? ==> forall h :: Backed(old(store.entries), w, h) ==>
        Backed(store.entries, MarkAll(w, tx.ins, true), h)
    ensures !IsCoinBase(tx) && r.Ok? ==> forall h :: Reflects(old(store.entries), w, h) ==>
        Reflects(store.entries, MarkAll(w, tx.ins, true), h)
  {
    hide Backed, Reflects, Less, SizedStore, MarkAll, CanSpendAll, Sum, Spent, Mature, PassUpTo, Amounts, AllMature,
         InputValues, CanAdd;
    LessRefl(store.entries);
    if IsCoinBase(tx) {
      return Ok(0);
    }
    var total := 0;
    NonePassed(w, tx.ins, txHeight);
    for i := 0 to |tx.ins|
      invariant Less(old(store.entries), store.entries) && SizedStore(store.entries)
      invariant store.entries.Keys == old(store.entries).Keys
      invariant forall h :: h in old(store.entries) && Unused(tx.ins, h) ==> store.entries[h] == old(store.entries)[h]
      invariant Sized(MarkAll(w, tx.ins[..i], true)) && PassUpTo(w, tx.ins, txHeight, i, total)
      invariant forall h :: Backed(old(store.entries), w, h) ==> Backed(store.entries, MarkAll(w, tx.ins[..i], true), h)
      invariant forall h :: Reflects(old(store.entries), w, h) ==>
                  Reflects(store.entries, MarkAll(w, tx.ins[..i], true), h)
      invariant AllSpendable(old(store.entries), tx.ins[..i])
    {
      ghost var before, u := store.entries, MarkAll(w, tx.ins[..i], true);
      assert tx.ins[..i + 1] == tx.ins[..i] + [tx.ins[i]];
      assert Backed(old(store.entries), w, tx.ins[i].hash);
      WouldPass(w, tx.ins, txHeight, i, total);
      var sum := CheckInput(tx.ins[i], txHeight, total, store, u);
      LessSpendable(old(store.entries), before, tx.ins[i]);
      LessTrans(old(store.entries), before, store.entries);
      LessKeys(old(store.entries), store.entries);
      if sum.Err? {
        return sum;
      }
      PassNext(w, tx.ins, txHeight, i, total);
      ValueAdded(u, tx.ins[i], txHeight, total);
      MarkAllSnoc(w, tx.ins[..i], tx.ins[i]);
      MarkAllSized(w, tx.ins[..i + 1], true);
      total := sum.value;
    }
    assert tx.ins[..|tx.ins|] == tx.ins;
    AllPassed(w, tx.ins, txHeight, total);
    var out := AddOutputs(tx.outs);
    if out.None? {
      return Err(BadAmount);
    }
    OutputsSum(tx.outs);
    var fee := Checked(total - out.value);
    if fee.None? {
      return Err(BadAmount);
    }
    r := Ok(fee.value);
  }

  ghost predicate AllReflected(entries: map<Hash, TxData>, w: View, ops: seq<OutPoint>)
  {
    forall i :: 0 <= i < |ops| ==> Reflects(entries, w, ops[i].hash)
  }

  predicate AllSpendable(entries: map<Hash, TxData>, ops: seq<OutPoint>)
  {
    forall i :: 0 <= i < |ops| ==> ops[i].hash in entries && Spendable(entries[ops[i].hash], ops[i].index)
  }

  lemma LessSpendable(a: map<Hash, TxData>, b: map<Hash, TxData>, op: OutPoint)
    requires Less(a, b)
    ensures op.hash in b && Spendable(b[op.hash], op.index) ==>
              op.hash in a && Spendable(a[op.hash], op.index)
  {
  }

  lemma ValueAdded(w: View, op: OutPoint, height: nat, total: int)
    requires Sized(w) && CanAdd(w, op, height, total)
    ensures CanSpend(w, op) && Value(w, op) == OutputValue(w, op)
  {
  }

  lemma OutputsSum(outs: seq<int>)
    requires Amounts(outs)
    ensures 0 <= Sum(outs) <= MAX_AMOUNT
  {
    AmountsSum(outs, |outs|);
    assert outs[..|outs|] == outs;
  }

  lemma LessRefl(m: map<Hash, TxData>)
    ensures Less(m, m)
  {
  }

  lemma LessTrans(a: map<Hash, TxData>, b: map<Hash, TxData>, c: map<Hash, TxData>)
    requires Less(a, b) && Less(b, c)
    ensures Less(a, c)
  {
  }

  lemma LessKeys(a: map<Hash, TxData>, b: map<Hash, TxData>)
    requires Less(a, b)
    ensures a.Keys == b.Keys
  {
  }

  /** No input refers to the hash. */
  predicate Unused(ops: seq<OutPoint>, h: Hash)
  {
    forall i :: 0 <= i < |ops| ==> ops[i].hash != h
  }
}
