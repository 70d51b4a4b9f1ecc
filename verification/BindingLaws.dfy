/** The code paths that compute the binding state agree, and the total is the sum of what is bound. */
module BindingLaws {
  import opened Hashes
  import opened MachineTypes
  import opened Wrappers
  import opened Ledger
  import opened Binding
  import opened Money

  /** The index and the block template, started from one trie, end in one trie: where the index succeeds
      the template does, and where the template succeeds the index does if it can read the scripts. */
  method IndexedAsBuilt(a: BindingState, b: BindingState, txs: seq<BindTx>)
      returns (x: Option<BindError>, y: Option<BindError>)
    requires a != b && a.Trie() == b.Trie()
    modifies a, b
    ensures x.None? <==> y.None? && Readable(txs)
    ensures x.None? ==> a.Trie() == b.Trie()
  {
    ghost var s := a.Value();
    x := IndexBlockAddrs(a, txs);
    assert b.Value() == s;
    y := BuildTemplateState(b, txs);
  }

  /** Applying the payload once more changes nothing. */
  lemma PayloadAgain(s: State, p: Option<Payload>)
    requires PayloadStep(s, p).Ok?
    ensures PayloadStep(PayloadStep(s, p).value, p) == PayloadStep(s, p)
  {
  }

  /** Binding and the payload concern different parts of the state. */
  lemma OutThenPayload(s: State, o: Output, p: Option<Payload>)
    requires PayloadStep(s, p).Ok?
    ensures var t := PayloadStep(s, p).value;
            match OutStep(s, o)
            case Err(e) => OutStep(t, o) == Err(e)
            case Ok(u) => OutStep(t, o).Ok? && PayloadStep(u, p) == OutStep(t, o)
  {
  }

  lemma {:induction false} ConnectOutsIs(s: State, outs: seq<Output>, p: Option<Payload>)
    requires outs != [] || p.None?
    ensures match OutSteps(s, outs)
            case Ok(t) =>
              && (ConnectOuts(s, outs, p).Ok? <==> PayloadStep(t, p).Ok?)
              && (ConnectOuts(s, outs, p).Ok? ==> ConnectOuts(s, outs, p) == PayloadStep(t, p))
            case Err(_) => ConnectOuts(s, outs, p).Err?
    decreases |outs|
  {
    if outs != [] {
      var n := |outs| - 1;
      if n > 0 || p.None? {
        ConnectOutsIs(s, outs[..n], p);
        var front := OutSteps(s, outs[..n]);
        if front.Ok? {
          PayloadNeedsPools(s, front.value, p);
          if PayloadStep(front.value, p).Ok? {
            OutThenPayload(front.value, outs[n], p);
            PayloadAgain(front.value, p);
            if OutStep(front.value, outs[n]).Ok? {
              PayloadAgain(OutStep(front.value, outs[n]).value, p);
            }
          } else if OutStep(front.value, outs[n]).Ok? {
            PayloadNeedsPools(front.value, OutStep(front.value, outs[n]).value, p);
          }
        }
      } else {
        assert outs[..n] == [];
        assert OutSteps(s, outs[..n]) == Ok(s) && ConnectOuts(s, outs[..n], p) == Ok(s);
        assert ConnectOuts(s, outs, p) == ConnectOut(s, outs[n], p);
      }
    }
  }

  /** Whether a payload is refused depends on the pools only. */
  lemma PayloadNeedsPools(s: State, t: State, p: Option<Payload>)
    ensures s.pools == t.pools ==> (PayloadStep(s, p).Ok? <==> PayloadStep(t, p).Ok?)
  {
  }

  /** No binding of the new kind is spent. */
  predicate NoneSpent(txs: seq<BindTx>)
  {
    forall i, j :: 0 <= i < |txs| && !txs[i].coinbase && 0 <= j < |txs[i].ins| ==> !SpendsBinding(txs[i].ins[j])
  }

  /** Every transaction that has a payload has an output, as every transaction must. */
  predicate HasOutputs(txs: seq<BindTx>)
  {
    forall i :: 0 <= i < |txs| ==> txs[i].outs != []
  }

  lemma {:induction false} InputsIdle(s: State, ins: seq<Input>)
    requires InSteps(s, ins).Ok? && forall j :: 0 <= j < |ins| ==> !SpendsBinding(ins[j])
    ensures InSteps(s, ins) == Ok(s)
    decreases |ins|
  {
    if ins != [] {
      InputsIdle(s, ins[..|ins| - 1]);
    }
  }

  /** `connectState` reaches the same state when no binding of the new kind is spent. */
  lemma {:induction false} ConnectSame(s: State, txs: seq<BindTx>)
    requires BlockStep(s, txs).Ok? && NoneSpent(txs) && HasOutputs(txs)
    ensures ConnectStep(s, txs) == BlockStep(s, txs)
    decreases |txs|
  {
    hide InSteps, OutSteps, PayloadStep, ConnectOuts;
    if txs != [] {
      var n := |txs| - 1;
      var tx := txs[n];
      ConnectSame(s, txs[..n]);
      var t := BlockStep(s, txs[..n]).value;
      var ins := if tx.coinbase then [] else tx.ins;
      InputsIdle(t, ins);
      ConnectOutsIs(t, tx.outs, if tx.coinbase then None else tx.payload);
    }
  }

  /** All that the first state has bound is bound in the second. */
  predicate Below(b: State, c: State)
  {
    b.plots.Keys <= c.plots.Keys
  }

  /** The target is bound in the second state only. */
  predicate Gap(b: State, c: State, t: seq<byte>)
  {
    t in c.plots && t !in b.plots
  }

  lemma {:induction false} OutsBelow(b: State, c: State, outs: seq<Output>)
    requires Below(b, c) && OutSteps(b, outs).Ok? && OutSteps(c, outs).Ok?
    ensures Below(OutSteps(b, outs).value, OutSteps(c, outs).value)
    ensures forall t :: Gap(b, c, t) ==> Gap(OutSteps(b, outs).value, OutSteps(c, outs).value, t)
    decreases |outs|
  {
    if outs != [] {
      OutsBelow(b, c, outs[..|outs| - 1]);
    }
  }

  /** Spending only widens the gap. */
  lemma {:induction false} InsBelow(b: State, c: State, ins: seq<Input>)
    requires Below(b, c) && InSteps(b, ins).Ok?
    ensures Below(InSteps(b, ins).value, c)
    ensures forall t :: Gap(b, c, t) ==> Gap(InSteps(b, ins).value, c, t)
    ensures forall j :: 0 <= j < |ins| && SpendsBinding(ins[j]) ==>
        Gap(InSteps(b, ins).value, c, ins[j].out.script.target)
    decreases |ins|
  {
    if ins != [] {
      InsBelow(b, c, ins[..|ins| - 1]);
    }
  }

  lemma PayloadPlots(s: State, p: Option<Payload>)
    requires PayloadStep(s, p).Ok?
    ensures PayloadStep(s, p).value.plots == s.plots
  {
  }

  /** Some binding of the new kind is spent in the transactions. */
  predicate SpentAt(txs: seq<BindTx>, i: int, j: int)
  {
    0 <= i < |txs| && !txs[i].coinbase && 0 <= j < |txs[i].ins| && SpendsBinding(txs[i].ins[j])
  }

  lemma {:induction false} ConnectGap(s: State, txs: seq<BindTx>)
    requires BlockStep(s, txs).Ok? && ConnectStep(s, txs).Ok? && HasOutputs(txs)
    ensures Below(BlockStep(s, txs).value, ConnectStep(s, txs).value)
    ensures forall i, j :: SpentAt(txs, i, j) ==>
              Gap(BlockStep(s, txs).value, ConnectStep(s, txs).value, txs[i].ins[j].out.script.target)
    decreases |txs|
  {
    hide InSteps, OutSteps, PayloadStep, ConnectOuts, Below, Gap;
    if txs == [] {
      BelowSelf(s);
    } else {
      var n := |txs| - 1;
      var tx := txs[n];
      var front := txs[..n];
      ConnectGap(s, front);
      var b, c := BlockStep(s, front).value, ConnectStep(s, front).value;
      var ins, p := if tx.coinbase then [] else tx.ins, if tx.coinbase then None else tx.payload;
      InsBelow(b, c, ins);
      var b1 := InSteps(b, ins).value;
      ConnectOutsIs(c, tx.outs, p);
      OutsBelow(b1, c, tx.outs);
      var b2, c2 := OutSteps(b1, tx.outs).value, OutSteps(c, tx.outs).value;
      PayloadPlots(b2, p);
      PayloadPlots(c2, p);
      var b3, c3 := BlockStep(s, txs).value, ConnectStep(s, txs).value;
      SamePlots(b2, c2, b3, c3);
      forall i, j | SpentAt(txs, i, j)
        ensures Gap(b3, c3, txs[i].ins[j].out.script.target)
      {
        if i < n {
          assert SpentAt(front, i, j);
        }
      }
    }
  }

  lemma BelowSelf(s: State)
    ensures Below(s, s)
  {
  }

  lemma SamePlots(b: State, c: State, b': State, c': State)
    requires b.plots == b'.plots && c.plots == c'.plots
    ensures Below(b, c) <==> Below(b', c')
    ensures forall t :: Gap(b, c, t) <==> Gap(b', c', t)
  {
  }

  /** For a block that can be applied, `connectState` reaches the same state if and only if no binding of
      the new kind is spent in the block. */
  lemma ConnectAgrees(s: State, txs: seq<BindTx>)
    requires BlockStep(s, txs).Ok? && HasOutputs(txs)
    ensures ConnectStep(s, txs) == BlockStep(s, txs) <==> NoneSpent(txs)
  {
    hide BlockStep, ConnectStep;
    if NoneSpent(txs) {
      ConnectSame(s, txs);
    } else if ConnectStep(s, txs).Ok? {
      var i, j :| 0 <= i < |txs| && !txs[i].coinbase && 0 <= j < |txs[i].ins| && SpendsBinding(txs[i].ins[j]);
      assert SpentAt(txs, i, j);
      ConnectGap(s, txs);
    }
  }

  /** So a block whose header has the root that was built for it passes `connectState` if and only if it
      spends no binding of the new kind and its outputs can be read. */
  method ConnectsAsBuilt(a: BindingState, b: BindingState, txs: seq<BindTx>)
      returns (x: Option<BindError>, y: Option<BindError>)
    requires a != b && a.Trie() == b.Trie() && HasOutputs(txs)
    modifies a, b
    ensures y.None? ==>
              (x.None? <==> NoneSpent(txs) && forall i :: 0 <= i < |txs| ==> ReadableOuts(txs[i].outs))
    ensures y.None? && x.None? ==> a.Trie() == b.Trie()
  {
    hide BlockStep, ConnectStep, NoneSpent, HasOutputs, ReadableOuts;
    ghost var c, s := a.Trie(), a.Value();
    y := BuildTemplateState(b, txs);
    assert a.Value() == s;
    x := ConnectState(a, txs, b.Trie());
    if y.None? {
      ConnectAgrees(s, txs);
      if ConnectStep(s, txs).Ok? {
        StoredInjective(c, ConnectStep(s, txs).value, BlockStep(s, txs).value);
      }
    }
  }

  lemma StoredInjective(c: Contents, s: State, t: State)
    ensures Stored(c, s) == Stored(c, t) <==> s == t
  {
  }

  /** A block that spends a binding of the new kind: `connectState` keeps the plot bound. */
  lemma SpentStaysBound(target: seq<byte>, op: OutPoint)
    requires |target| == 22
    ensures var s := State(map[target := 5], map[], 5);
            var txs := [BindTx(1, false, [Input(op, WARM_UP, Output(5, Binds(target)))], [Output(5, Pays)], None)];
            && BlockStep(s, txs) == Ok(State(map[], map[], 0))
            && ConnectStep(s, txs) == Ok(s)
  {
    var s := State(map[target := 5], map[], 5);
    var ins, outs := [Input(op, WARM_UP, Output(5, Binds(target)))], [Output(5, Pays)];
    var tx := BindTx(1, false, ins, outs, None);
    var gone := State(map[], map[], 0);
    assert ins[..0] == [] && outs[..0] == [] && [tx][..0] == [];
    assert map[target := 5] - {target} == map[];
    assert InSteps(s, ins) == InStep(s, ins[0]) == Ok(gone);
    assert OutSteps(gone, outs) == OutStep(gone, outs[0]) == Ok(gone);
    assert BlockStep(s, [tx]) == TxStep(s, tx);
    assert ConnectOuts(s, outs, None) == ConnectOut(s, outs[0], None) == Ok(s);
  }

  /** The sum of what is bound. */
  ghost function Bound(plots: map<seq<byte>, int>): int
    decreases |plots|
  {
    if plots == map[] then 0
    else
      var t :| t in plots;
      plots[t] + Bound(plots - {t})
  }

  lemma {:induction false} BoundAt(plots: map<seq<byte>, int>, t: seq<byte>)
    requires t in plots
    ensures Bound(plots) == plots[t] + Bound(plots - {t})
    decreases |plots|
  {
    var g :| g in plots && Bound(plots) == plots[g] + Bound(plots - {g});
    if g != t {
      BoundAt(plots - {g}, t);
      BoundAt(plots - {t}, g);
      assert plots - {g} - {t} == plots - {t} - {g};
    }
  }

  lemma BoundPut(plots: map<seq<byte>, int>, t: seq<byte>, x: int)
    requires t !in plots
    ensures Bound(plots[t := x]) == Bound(plots) + x
  {
    BoundAt(plots[t := x], t);
    assert plots[t := x] - {t} == plots;
  }

  /** The unspent binding outputs of the new kind. */
  type Live = map<OutPoint, Output>

  predicate SameTarget(x: Script, y: Script)
  {
    x.Binds? && y.Binds? && x.target == y.target
  }

  /** Some live output binds the plot. */
  ghost predicate LiveBinds(live: Live, t: seq<byte>)
  {
    exists op :: op in live && SameTarget(live[op].script, Binds(t))
  }

  /** The bound plots are exactly the targets of the live outputs, with their values; no two have one
      target. */
  ghost predicate Matches(plots: map<seq<byte>, int>, live: Live)
  {
    && (forall op :: op in live ==>
        && live[op].script.Binds? && |live[op].script.target| == 22
        && live[op].script.target in plots && plots[live[op].script.target] == live[op].value)
    && (forall t :: t in plots ==> LiveBinds(live, t))
    && (forall a, b :: a in live && b in live && SameTarget(live[a].script, live[b].script) ==> a == b)
  }

  function SpendLive(live: Live, i: Input): Live
  {
    if SpendsBinding(i) then live - {i.op} else live
  }

  function SpendAllLive(live: Live, ins: seq<Input>): Live
  {
    if ins == [] then live else SpendLive(SpendAllLive(live, ins[..|ins| - 1]), ins[|ins| - 1])
  }

  function AddLive(live: Live, id: Hash, k: nat, o: Output): Live
  {
    if o.script.Binds? then live[OutPoint(id, k) := o] else live
  }

  function AddAllLive(live: Live, id: Hash, outs: seq<Output>): Live
  {
    if outs == [] then live else AddLive(AddAllLive(live, id, outs[..|outs| - 1]), id, |outs| - 1, outs[|outs| - 1])
  }

  /** Each binding that is spent is live at that moment: the rule that outputs are spent once. */
  predicate SpendsOnce(live: Live, ins: seq<Input>)
  {
    ins == [] ||
    (var n := |ins| - 1;
     && SpendsOnce(live, ins[..n])
     && (SpendsBinding(ins[n]) ==>
         ins[n].op in SpendAllLive(live, ins[..n]) && SpendAllLive(live, ins[..n])[ins[n].op] == ins[n].out))
  }

  /** The total is the sum of what is bound, and what is bound is what the live outputs bind. */
  ghost predicate Balanced(s: State, live: Live)
  {
    s.total == Bound(s.plots) && Matches(s.plots, live)
  }

  lemma {:induction false} InsBalanced(s: State, live: Live, ins: seq<Input>)
    requires Balanced(s, live) && SpendsOnce(live, ins) && InSteps(s, ins).Ok?
    ensures Balanced(InSteps(s, ins).value, SpendAllLive(live, ins))
    decreases |ins|
  {
    if ins != [] {
      var n := |ins| - 1;
      InsBalanced(s, live, ins[..n]);
      InBalanced(InSteps(s, ins[..n]).value, SpendAllLive(live, ins[..n]), ins[n]);
    }
  }

  lemma InBalanced(s: State, live: Live, i: Input)
    requires Balanced(s, live) && InStep(s, i).Ok?
    requires SpendsBinding(i) ==> i.op in live && live[i.op] == i.out
    ensures Balanced(InStep(s, i).value, SpendLive(live, i))
  {
    if SpendsBinding(i) {
      var target := i.out.script.target;
      BoundAt(s.plots, target);
      hide Matches;
      MatchesLess(s.plots, live, i.op);
    }
  }

  lemma MatchesLess(plots: map<seq<byte>, int>, live: Live, op: OutPoint)
    requires Matches(plots, live) && op in live && live[op].script.Binds?
    ensures Matches(plots - {live[op].script.target}, live - {op})
  {
    var target := live[op].script.target;
    forall t | t in plots && t != target
      ensures LiveBinds(live - {op}, t)
    {
      var other :| other in live && SameTarget(live[other].script, Binds(t));
      assert other in live - {op};
    }
  }

  lemma {:induction false} BoundPositive(plots: map<seq<byte>, int>)
    requires forall t :: t in plots ==> plots[t] >= 0
    ensures Bound(plots) >= 0
    decreases |plots|
  {
    if plots != map[] {
      var t :| t in plots && Bound(plots) == plots[t] + Bound(plots - {t});
      BoundPositive(plots - {t});
    }
  }

  /** A live binding can always be spent: an input is refused only if it is missing or cannot be read. */
  lemma SpendsDecided(s: State, live: Live, i: Input)
    requires Balanced(s, live) && s.total <= MAX_AMOUNT && forall t :: t in s.plots ==> s.plots[t] >= 0
    requires SpendsBinding(i) ==> i.op in live && live[i.op] == i.out
    ensures InStep(s, i).Ok? <==> i.Input? && !(i.height >= WARM_UP && i.out.script == BadBinding)
  {
    if SpendsBinding(i) {
      var target := i.out.script.target;
      BoundAt(s.plots, target);
      BoundPositive(s.plots - {target});
    }
  }

  /** A plot can be bound exactly if its name has 22 bytes, no live output binds it, and the total stays
      an amount. */
  lemma BindsDecided(s: State, live: Live, o: Output)
    requires Balanced(s, live)
    ensures OutStep(s, o).Ok? <==>
              && o.script != BadBinding
              && (o.script.Binds? ==>
                    && |o.script.target| == 22 && !LiveBinds(live, o.script.target)
                    && 0 <= s.total + o.value <= MAX_AMOUNT)
  {
  }

  lemma {:induction false} OutsBalanced(s: State, live: Live, id: Hash, outs: seq<Output>)
    requires Balanced(s, live) && OutSteps(s, outs).Ok?
    requires forall k: nat :: OutPoint(id, k) !in live
    ensures Balanced(OutSteps(s, outs).value, AddAllLive(live, id, outs))
    ensures forall k: nat :: k >= |outs| ==> OutPoint(id, k) !in AddAllLive(live, id, outs)
    decreases |outs|
  {
    if outs != [] {
      var n := |outs| - 1;
      OutsBalanced(s, live, id, outs[..n]);
      OutBalanced(OutSteps(s, outs[..n]).value, AddAllLive(live, id, outs[..n]), id, n, outs[n]);
    }
  }

  lemma OutBalanced(s: State, live: Live, id: Hash, k: nat, o: Output)
    requires Balanced(s, live) && OutStep(s, o).Ok? && OutPoint(id, k) !in live
    ensures Balanced(OutStep(s, o).value, AddLive(live, id, k, o))
  {
    if o.script.Binds? {
      hide Matches;
      BoundPut(s.plots, o.script.target, o.value);
      MatchesMore(s.plots, live, OutPoint(id, k), o);
    }
  }

  lemma MatchesMore(plots: map<seq<byte>, int>, live: Live, op: OutPoint, o: Output)
    requires Matches(plots, live) && op !in live && o.script.Binds? && |o.script.target| == 22
    requires o.script.target !in plots
    ensures Matches(plots[o.script.target := o.value], live[op := o])
  {
    var more := live[op := o];
    forall t | t in plots[o.script.target := o.value]
      ensures LiveBinds(more, t)
    {
      var at := op;
      if t in plots {
        at :| at in live && SameTarget(live[at].script, Binds(t));
      }
      assert at in more && SameTarget(more[at].script, Binds(t));
    }
  }

  function LiveAfter(live: Live, tx: BindTx): Live
  {
    AddAllLive(SpendAllLive(live, if tx.coinbase then [] else tx.ins), tx.id, tx.outs)
  }

  function LiveAfterAll(live: Live, txs: seq<BindTx>): Live
  {
    if txs == [] then live else LiveAfter(LiveAfterAll(live, txs[..|txs| - 1]), txs[|txs| - 1])
  }

  /** The transaction spends each binding once, and is new. */
  ghost predicate Proper(live: Live, tx: BindTx)
  {
    && SpendsOnce(live, if tx.coinbase then [] else tx.ins)
    && forall k: nat :: OutPoint(tx.id, k) !in SpendAllLive(live, if tx.coinbase then [] else tx.ins)
  }

  /** After every block of a chain the stored total is the sum of the amounts that are bound. */
  lemma {:induction false} TotalIsBound(s: State, live: Live, txs: seq<BindTx>)
    requires Balanced(s, live) && BlockStep(s, txs).Ok?
    requires forall i :: 0 <= i < |txs| ==> Proper(LiveAfterAll(live, txs[..i]), txs[i])
    ensures Balanced(BlockStep(s, txs).value, LiveAfterAll(live, txs))
    decreases |txs|
  {
    hide Balanced, Proper, InSteps, OutSteps, PayloadStep, AddAllLive, SpendAllLive;
    if txs != [] {
      var n := |txs| - 1;
      assert forall i :: 0 <= i < n ==> txs[..n][..i] == txs[..i];
      TotalIsBound(s, live, txs[..n]);
      TxBalanced(BlockStep(s, txs[..n]).value, LiveAfterAll(live, txs[..n]), txs[n]);
    }
  }

  lemma TxBalanced(s: State, live: Live, tx: BindTx)
    requires Balanced(s, live) && TxStep(s, tx).Ok? && Proper(live, tx)
    ensures Balanced(TxStep(s, tx).value, LiveAfter(live, tx))
  {
    hide InSteps, OutSteps, AddAllLive, SpendAllLive, Matches;
    var ins, p := if tx.coinbase then [] else tx.ins, if tx.coinbase then None else tx.payload;
    InsBalanced(s, live, ins);
    var t := InSteps(s, ins).value;
    OutsBalanced(t, SpendAllLive(live, ins), tx.id, tx.outs);
    PayloadPlots(OutSteps(t, tx.outs).value, p);
  }

  /** The payload of the transaction that counts: a coinbase has none. */
  function PayloadOf(tx: BindTx): Option<Payload>
  {
    if tx.coinbase then None else tx.payload
  }

  /** The transaction has a payload for the pool that takes effect. */
  predicate Takes(pools: Pools, tx: BindTx, pool: seq<byte>)
  {
    PayloadOf(tx).Some? && PayloadOf(tx).value.pool == pool && Follows(pools, pool, PayloadOf(tx).value.nonce)
  }

  /** The pools after some transactions of the block. */
  function PoolsAt(s: State, txs: seq<BindTx>, i: nat): Pools
    requires i <= |txs| && BlockStep(s, txs).Ok?
  {
    BlockFails(s, txs, i);
    BlockStep(s, txs[..i]).value.pools
  }

  lemma {:induction false} InPools(s: State, ins: seq<Input>)
    requires InSteps(s, ins).Ok?
    ensures InSteps(s, ins).value.pools == s.pools
  {
    if ins != [] {
      InPools(s, ins[..|ins| - 1]);
    }
  }

  lemma {:induction false} OutPools(s: State, outs: seq<Output>)
    requires OutSteps(s, outs).Ok?
    ensures OutSteps(s, outs).value.pools == s.pools
  {
    if outs != [] {
      OutPools(s, outs[..|outs| - 1]);
    }
  }

  /** A payload that takes effect stores its nonce and its coinbase for its pool; nothing else is touched. */
  lemma PayloadSets(s: State, p: Payload)
    ensures PayloadStep(s, Some(p)).Err? <==> p.pool !in s.pools && p.nonce == 0
    ensures PayloadStep(s, Some(p)).Ok? ==>
              PayloadStep(s, Some(p)).value.pools ==
              if Follows(s.pools, p.pool, p.nonce) then s.pools[p.pool := (p.nonce, p.coinbase)] else s.pools
  {
  }

  lemma TxPools(s: State, tx: BindTx, pool: seq<byte>)
    requires TxStep(s, tx).Ok?
    ensures var after := TxStep(s, tx).value.pools;
            if Takes(s.pools, tx, pool)
            then pool in after && after[pool] == (PayloadOf(tx).value.nonce, PayloadOf(tx).value.coinbase)
            else (pool in after <==> pool in s.pools) && (pool in after ==> after[pool] == s.pools[pool])
  {
    hide InSteps, OutSteps, PayloadStep, Follows;
    var ins := if tx.coinbase then [] else tx.ins;
    InPools(s, ins);
    var t := InSteps(s, ins).value;
    OutPools(t, tx.outs);
    var u := OutSteps(t, tx.outs).value;
    NoPayload(u);
    if PayloadOf(tx).Some? {
      PayloadSets(u, PayloadOf(tx).value);
    }
  }

  /** The pool has the same entry in both, or none in either. */
  predicate SameEntry(a: Pools, b: Pools, pool: seq<byte>)
  {
    (pool in a <==> pool in b) && (pool in a ==> a[pool] == b[pool])
  }

  /** The payload of transaction `i` is the last one for the pool that took effect: it followed the entry
      before it, its own nonce and coinbase are the entry at the end, and none after it follows that. */
  predicate LastTaken(s: State, txs: seq<BindTx>, pool: seq<byte>, i: nat)
    requires i < |txs| && BlockStep(s, txs).Ok?
  {
    var after := PoolsAt(s, txs, |txs|);
    && Takes(PoolsAt(s, txs, i), txs[i], pool)
    && pool in after && after[pool] == (PayloadOf(txs[i]).value.nonce, PayloadOf(txs[i]).value.coinbase)
    && forall j :: i < j < |txs| ==> !Takes(after, txs[j], pool)
  }

  lemma PoolsAtPrefix(s: State, txs: seq<BindTx>, n: nat, i: nat)
    requires i <= n <= |txs| && BlockStep(s, txs).Ok?
    ensures BlockStep(s, txs[..n]).Ok? && PoolsAt(s, txs[..n], i) == PoolsAt(s, txs, i)
  {
    BlockFails(s, txs, n);
    assert txs[..n][..i] == txs[..i];
  }

  lemma SameTakes(a: Pools, b: Pools, tx: BindTx, pool: seq<byte>)
    requires SameEntry(a, b, pool)
    ensures Takes(a, tx, pool) <==> Takes(b, tx, pool)
  {
  }

  lemma LastStep(s: State, txs: seq<BindTx>, pool: seq<byte>)
    requires txs != [] && BlockStep(s, txs).Ok?
    ensures var n := |txs| - 1;
            var before, after := PoolsAt(s, txs, n), PoolsAt(s, txs, n + 1);
            && (Takes(before, txs[n], pool) ==>
                  pool in after && after[pool] == (PayloadOf(txs[n]).value.nonce, PayloadOf(txs[n]).value.coinbase))
            && (!Takes(before, txs[n], pool) ==> SameEntry(before, after, pool))
  {
    hide TxStep, Takes;
    BlockFails(s, txs, |txs| - 1);
    assert txs[..|txs|] == txs;
    TxPools(BlockStep(s, txs[..|txs| - 1]).value, txs[|txs| - 1], pool);
  }

  lemma TakesHigher(pools: Pools, tx: BindTx, pool: seq<byte>)
    requires Takes(pools, tx, pool) && pool in pools
    ensures pools[pool].0 < PayloadOf(tx).value.nonce
  {
  }

  lemma StillLast(s: State, txs: seq<BindTx>, pool: seq<byte>, i: nat)
    requires txs != [] && BlockStep(s, txs).Ok? && i < |txs| - 1
    requires BlockStep(s, txs[..|txs| - 1]).Ok? && LastTaken(s, txs[..|txs| - 1], pool, i)
    requires !Takes(PoolsAt(s, txs, |txs| - 1), txs[|txs| - 1], pool)
    ensures LastTaken(s, txs, pool, i)
  {
    hide Takes, PoolsAt;
    var n := |txs| - 1;
    PoolsAtPrefix(s, txs, n, i);
    PoolsAtPrefix(s, txs, n, n);
    LastStep(s, txs, pool);
    var before, after := PoolsAt(s, txs, n), PoolsAt(s, txs, n + 1);
    forall j | i < j < |txs|
      ensures !Takes(after, txs[j], pool)
    {
      SameTakes(before, after, txs[j], pool);
      if j < n {
        assert txs[..n][j] == txs[j];
      }
    }
  }

  /** What a block, or any run of transactions, leaves for a pool. Its entry changes if and only if some
      payload follows the one it had; then the new entry is nonce and coinbase of one payload, the last
      that took effect, and the nonce has grown. */
  lemma {:induction false} PoolsAfter(s: State, txs: seq<BindTx>, pool: seq<byte>)
    requires BlockStep(s, txs).Ok?
    ensures var after := PoolsAt(s, txs, |txs|);
            && (SameEntry(s.pools, after, pool) <==> forall j :: 0 <= j < |txs| ==> !Takes(s.pools, txs[j], pool))
            && (!SameEntry(s.pools, after, pool) ==> exists i :: 0 <= i < |txs| && LastTaken(s, txs, pool, i))
            && (pool in s.pools ==> pool in after && s.pools[pool].0 <= after[pool].0)
    decreases |txs|
  {
    hide BlockStep, Takes;
    NoTxs(s, txs);
    if txs != [] {
      var n := |txs| - 1;
      var init := txs[..n];
      PoolsAtPrefix(s, txs, n, n);
      PoolsAfter(s, init, pool);
      LastStep(s, txs, pool);
      var before, after := PoolsAt(s, txs, n), PoolsAt(s, txs, n + 1);
      assert forall j :: 0 <= j < n ==> init[j] == txs[j];
      assert SameEntry(s.pools, before, pool) ==> (Takes(s.pools, txs[n], pool) <==> Takes(before, txs[n], pool)) by {
        if SameEntry(s.pools, before, pool) {
          SameTakes(s.pools, before, txs[n], pool);
        }
      }
      if Takes(before, txs[n], pool) {
        if pool in before {
          TakesHigher(before, txs[n], pool);
        }
        assert LastTaken(s, txs, pool, n);
      } else if !SameEntry(s.pools, before, pool) {
        var i :| 0 <= i < |init| && LastTaken(s, init, pool, i);
        StillLast(s, txs, pool, i);
      }
    }
  }

  /** Some nonce takes effect if and only if the last one is not within the gap of the end of its range. */
  lemma CanFollow(pools: Pools, pool: seq<byte>)
    ensures (exists nonce: uint32 :: Follows(pools, pool, nonce)) <==>
            (pool in pools ==> pools[pool].0 as int + NONCE_GAP < 0x1_0000_0000)
  {
    if pool in pools {
      if pools[pool].0 as int + NONCE_GAP < 0x1_0000_0000 {
        assert Follows(pools, pool, pools[pool].0 + 1);
      }
    } else {
      assert Follows(pools, pool, 1);
    }
  }

  /** A pool whose nonce is there keeps its coinbase, whatever the payloads. */
  lemma PoolFrozen(s: State, txs: seq<BindTx>, pool: seq<byte>)
    requires BlockStep(s, txs).Ok? && pool in s.pools
    requires s.pools[pool].0 as int + NONCE_GAP >= 0x1_0000_0000
    ensures SameEntry(s.pools, PoolsAt(s, txs, |txs|), pool)
  {
    PoolsAfter(s, txs, pool);
  }

  /** Such a pool can be had: one nonce after the other, and any nonce at all at first. */
  lemma FrozenAtOnce(s: State, pool: seq<byte>, a: seq<byte>, b: seq<byte>)
    requires pool !in s.pools
    ensures var t := s.(pools := s.pools[pool := (0xFFFF_FFFB, a)]);
            && PayloadStep(s, Some(Payload(pool, 0xFFFF_FFFB, a))) == Ok(t)
            && PayloadStep(t, Some(Payload(pool, 0xFFFF_FFFC, b))) == Ok(t)
  {
  }
}
