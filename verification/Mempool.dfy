/** The memory pool: the transactions that wait for a block, and the index of the outputs that they spend. */
module Mempool {
  import opened Hashes
  import opened Ledger
  import opened Wrappers

  type Pool = map<Hash, Tx>

  predicate In(pool: Pool, tx: Tx)
  {
    tx.id in pool && pool[tx.id] == tx
  }

  /** A hash stands for one transaction. */
  predicate Known(pool: Pool, tx: Tx)
  {
    tx.id in pool ==> pool[tx.id] == tx
  }

  predicate Within(small: Pool, big: Pool)
  {
    forall h :: h in small ==> h in big && small[h] == big[h]
  }

  /** The index holds exactly the inputs of the pooled transactions, each with its transaction. */
  ghost predicate Indexed(pool: Pool, outpoints: map<OutPoint, Tx>)
  {
    && (forall h :: h in pool ==> pool[h].id == h)
    && (forall op :: op in outpoints ==> In(pool, outpoints[op]) && op in outpoints[op].ins)
    && (forall h, op :: h in pool && op in pool[h].ins ==> op in outpoints && outpoints[op] == pool[h])
  }

  predicate Spends(b: Tx, a: Tx)
  {
    exists i :: 0 <= i < |a.outs| && OutPoint(a.id, i) in b.ins
  }

  /** Each transaction after the first is pooled and spends the one before. */
  ghost predicate Chain(pool: Pool, path: seq<Tx>)
  {
    forall k :: 0 < k < |path| ==> In(pool, path[k]) && Spends(path[k], path[k - 1])
  }

  /** `b` relies on `a`, through one pooled transaction or more. */
  ghost predicate Reaches(pool: Pool, a: Tx, b: Tx)
  {
    exists path :: Chain(pool, path) && |path| >= 2 && path[0] == a && path[|path| - 1] == b
  }

  ghost predicate Acyclic(pool: Pool)
  {
    forall h :: h in pool ==> !Reaches(pool, pool[h], pool[h])
  }

  /** All pooled transactions that rely on `tx`. */
  ghost function Spenders(pool: Pool, tx: Tx): set<Hash>
  {
    set h | h in pool && Reaches(pool, tx, pool[h])
  }

  lemma Direct(pool: Pool, a: Tx, b: Tx)
    requires In(pool, b) && Spends(b, a)
    ensures Reaches(pool, a, b)
  {
    assert Chain(pool, [a, b]);
  }

  lemma Before(pool: Pool, a: Tx, b: Tx, c: Tx)
    requires In(pool, b) && Spends(b, a) && Reaches(pool, b, c)
    ensures Reaches(pool, a, c)
  {
    var path :| Chain(pool, path) && |path| >= 2 && path[0] == b && path[|path| - 1] == c;
    var longer := [a] + path;
    forall k | 0 < k < |longer|
      ensures In(pool, longer[k]) && Spends(longer[k], longer[k - 1])
    {
      assert longer[k] == path[k - 1];
      assert k > 1 ==> longer[k - 1] == path[k - 2];
    }
    assert Chain(pool, longer);
    assert longer[|longer| - 1] == path[|path| - 1];
  }

  lemma More(small: Pool, big: Pool, a: Tx, b: Tx)
    requires Within(small, big) && Reaches(small, a, b)
    ensures Reaches(big, a, b)
  {
    var path :| Chain(small, path) && |path| >= 2 && path[0] == a && path[|path| - 1] == b;
    assert Chain(big, path);
  }

  /** A part of an acyclic pool is acyclic. */
  lemma LessAcyclic(small: Pool, big: Pool)
    requires Within(small, big) && Acyclic(big)
    ensures Acyclic(small)
  {
    forall h | h in small
      ensures !Reaches(small, small[h], small[h])
    {
      if Reaches(small, small[h], small[h]) {
        More(small, big, small[h], small[h]);
      }
    }
  }

  /** What contains the transactions that spend `tx` or one of its own members contains all that rely on `tx`. */
  lemma {:induction false} Closed(pool: Pool, tx: Tx, gone: set<Hash>, path: seq<Tx>, k: nat)
    requires forall h :: h in pool && Spends(pool[h], tx) ==> h in gone
    requires forall g, h :: g in gone && g in pool && h in pool && Spends(pool[h], pool[g]) ==> h in gone
    requires Chain(pool, path) && 0 < k < |path| && path[0] == tx
    ensures path[k].id in gone
    decreases k
  {
    if k > 1 {
      Closed(pool, tx, gone, path, k - 1);
    }
  }

  lemma ClosedAll(pool: Pool, tx: Tx, gone: set<Hash>)
    requires forall h :: h in pool ==> pool[h].id == h
    requires forall h :: h in pool && Spends(pool[h], tx) ==> h in gone
    requires forall g, h :: g in gone && g in pool && h in pool && Spends(pool[h], pool[g]) ==> h in gone
    ensures Spenders(pool, tx) <= gone
  {
    forall h | h in Spenders(pool, tx)
      ensures h in gone
    {
      var path :| Chain(pool, path) && |path| >= 2 && path[0] == tx && path[|path| - 1] == pool[h];
      Closed(pool, tx, gone, path, |path| - 1);
    }
  }

  /** What a spender removes is part of what the spent transaction removes, and less. */
  lemma SpendersShrink(was: Pool, now: Pool, tx: Tx, r: Tx)
    requires Within(now, was) && Acyclic(was)
    requires In(now, r) && Spends(r, tx)
    ensures {r.id} + Spenders(now, r) <= Spenders(was, tx)
    ensures |Spenders(now, r)| < |Spenders(was, tx)|
  {
    assert In(was, r);
    Direct(was, tx, r);
    forall h | h in Spenders(now, r)
      ensures h in Spenders(was, tx)
    {
      More(now, was, r, now[h]);
      Before(was, tx, r, was[h]);
    }
    assert r.id !in Spenders(now, r) by {
      LessAcyclic(now, was);
    }
    Smaller(Spenders(now, r), Spenders(was, tx), r.id);
  }

  lemma Smaller(small: set<Hash>, big: set<Hash>, h: Hash)
    requires small <= big && h in big && h !in small
    ensures |small| < |big|
  {
    var rest := big - small;
    assert big == small + rest;
    assert h in rest;
  }

  /** While transactions are removed: what left the pool is in the target, and nothing that stays spends
      what left. */
  ghost predicate Removing(was: Pool, now: Pool, target: set<Hash>)
  {
    && Within(now, was)
    && was.Keys - now.Keys <= target
    && forall g, h :: g in was && g !in now && h in now ==> !Spends(now[h], was[g])
  }

  lemma RemovingMore(was: Pool, now: Pool, after: Pool, target: set<Hash>, r: Tx)
    requires forall h :: h in was ==> was[h].id == h
    requires Removing(was, now, target) && In(now, r)
    requires {r.id} + Spenders(now, r) <= target
    requires after == now - ({r.id} + Spenders(now, r))
    ensures Removing(was, after, target)
  {
    forall g, h | g in was && g !in after && h in after
      ensures !Spends(after[h], was[g])
    {
      if g in now && Spends(after[h], was[g]) {
        assert now[g] == was[g] && now[h] == after[h];
        if g == r.id {
          Direct(now, r, now[h]);
        } else {
          Then(now, r, now[g], now[h]);
        }
      }
    }
  }

  lemma Then(pool: Pool, a: Tx, b: Tx, c: Tx)
    requires Reaches(pool, a, b) && In(pool, c) && Spends(c, b)
    ensures Reaches(pool, a, c)
  {
    var path :| Chain(pool, path) && |path| >= 2 && path[0] == a && path[|path| - 1] == b;
    assert Chain(pool, path + [c]);
  }

  lemma Redeemed(pool: Pool, outpoints: map<OutPoint, Tx>, tx: Tx, h: Hash)
    requires Indexed(pool, outpoints) && h in pool && Spends(pool[h], tx)
    ensures exists i :: 0 <= i < |tx.outs| && OutPoint(tx.id, i) in outpoints
  {
  }

  lemma RemovedAll(was: Pool, now: Pool, outpoints: map<OutPoint, Tx>, tx: Tx)
    requires forall h :: h in was ==> was[h].id == h
    requires Removing(was, now, Spenders(was, tx)) && Indexed(now, outpoints)
    requires forall i :: 0 <= i < |tx.outs| ==> OutPoint(tx.id, i) !in outpoints
    ensures now == was - Spenders(was, tx)
  {
    var gone := was.Keys - now.Keys;
    forall h | h in was && Spends(was[h], tx)
      ensures h in gone
    {
      if h in now {
        Redeemed(now, outpoints, tx, h);
      }
    }
    ClosedAll(was, tx, gone);
    assert now.Keys == was.Keys - Spenders(was, tx);
  }

  lemma IndexedLess(pool: Pool, outpoints: map<OutPoint, Tx>, tx: Tx, left: map<OutPoint, Tx>)
    requires Indexed(pool, outpoints) && In(pool, tx)
    requires left == outpoints - (set op | op in tx.ins)
    ensures Indexed(pool - {tx.id}, left)
  {
    forall h, op | h in pool - {tx.id} && op in pool[h].ins
      ensures op in left && left[op] == pool[h]
    {
      assert op in tx.ins ==> outpoints[op] == pool[tx.id];
    }
  }

  /** Some pooled transaction spends an output that `tx` spends. */
  predicate Clashes(pool: Pool, tx: Tx)
  {
    exists h, op :: h in pool && op in tx.ins && op in pool[h].ins
  }

  function Overlay(outpoints: map<OutPoint, Tx>, ins: seq<OutPoint>, tx: Tx): map<OutPoint, Tx>
  {
    outpoints + map op | op in ins :: tx
  }

  lemma OverlayNone(outpoints: map<OutPoint, Tx>, tx: Tx)
    ensures Overlay(outpoints, [], tx) == outpoints
  {
  }

  lemma OverlayMore(outpoints: map<OutPoint, Tx>, ins: seq<OutPoint>, op: OutPoint, tx: Tx)
    ensures Overlay(outpoints, ins + [op], tx) == Overlay(outpoints, ins, tx)[op := tx]
  {
  }

  /** Adding a new transaction keeps the index if and only if no pooled transaction spends one of its inputs. */
  lemma AddKeeps(pool: Pool, outpoints: map<OutPoint, Tx>, tx: Tx)
    requires Indexed(pool, outpoints) && tx.id !in pool
    ensures Indexed(pool[tx.id := tx], Overlay(outpoints, tx.ins, tx)) <==> !Clashes(pool, tx)
  {
    var more, now := pool[tx.id := tx], Overlay(outpoints, tx.ins, tx);
    if h, op :| h in pool && op in tx.ins && op in pool[h].ins {
      assert more[h] == pool[h] && now[op] == tx && h != tx.id;
    } else {
      forall op | op in now
        ensures In(more, now[op]) && op in now[op].ins
      {
        assert op !in tx.ins ==> now[op] == outpoints[op];
      }
    }
  }

  /** In an indexed pool no output is spent twice. */
  lemma SpentOnce(pool: Pool, outpoints: map<OutPoint, Tx>, g: Hash, h: Hash, op: OutPoint)
    requires Indexed(pool, outpoints) && g in pool && h in pool && op in pool[g].ins && op in pool[h].ins
    ensures g == h
  {
    assert outpoints[op] == pool[g] && outpoints[op] == pool[h];
  }

  /** A new transaction brings a cycle if and only if it relies on itself. */
  lemma AddAcyclic(pool: Pool, tx: Tx)
    requires Acyclic(pool) && tx.id !in pool
    requires forall h :: h in pool ==> pool[h].id == h
    ensures Acyclic(pool[tx.id := tx]) <==> !Reaches(pool[tx.id := tx], tx, tx)
  {
    var more := pool[tx.id := tx];
    if !Reaches(more, tx, tx) {
      forall h | h in more
        ensures !Reaches(more, more[h], more[h])
      {
        if Reaches(more, more[h], more[h]) {
          Cycle(pool, tx, more[h]);
        }
      }
    } else {
      assert more[tx.id] == tx;
    }
  }

  lemma Cycle(pool: Pool, tx: Tx, a: Tx)
    requires tx.id !in pool && Reaches(pool[tx.id := tx], a, a)
    ensures Reaches(pool, a, a) || Reaches(pool[tx.id := tx], tx, tx)
  {
    var more := pool[tx.id := tx];
    var path :| Chain(more, path) && |path| >= 2 && path[0] == a && path[|path| - 1] == a;
    if k :| 0 < k < |path| && path[k] == tx {
      Turned(more, path, k);
    } else {
      assert Chain(pool, path);
    }
  }

  /** A cycle can start at any of its transactions. */
  lemma Turned(pool: Pool, path: seq<Tx>, k: nat)
    requires Chain(pool, path) && 0 < k < |path| && path[0] == path[|path| - 1]
    ensures Reaches(pool, path[k], path[k])
  {
    var turn := path[k..] + path[1..k + 1];
    var n := |path| - k;
    forall j | 0 < j < |turn|
      ensures In(pool, turn[j]) && Spends(turn[j], turn[j - 1])
    {
      if j < n {
        assert turn[j] == path[k + j] && turn[j - 1] == path[k + j - 1];
      } else {
        assert turn[j] == path[j - n + 1] && turn[j - 1] == path[j - n];
      }
    }
    assert Chain(pool, turn) && turn[0] == path[k] && turn[|turn| - 1] == path[k];
  }

  /** A transaction that nothing spends yet, itself included, brings no cycle. */
  lemma FreshAcyclic(pool: Pool, tx: Tx)
    requires Acyclic(pool) && tx.id !in pool && !Spends(tx, tx)
    requires forall h :: h in pool ==> pool[h].id == h && !Spends(pool[h], tx)
    ensures Acyclic(pool[tx.id := tx])
  {
    var more := pool[tx.id := tx];
    if Reaches(more, tx, tx) {
      FirstSpends(more, tx, tx);
    }
    AddAcyclic(pool, tx);
  }

  lemma FirstSpends(pool: Pool, a: Tx, b: Tx)
    requires Reaches(pool, a, b)
    ensures exists h :: h in pool && Spends(pool[h], a)
  {
    var path :| Chain(pool, path) && |path| >= 2 && path[0] == a && path[|path| - 1] == b;
    assert In(pool, path[1]) && Spends(path[1], path[0]);
  }

  /** Another pooled transaction that spends an output that `tx` spends. */
  predicate Rival(pool: Pool, tx: Tx, r: Hash)
  {
    r in pool && r != tx.id && exists op :: op in tx.ins && op in pool[r].ins
  }

  /** The rivals of `tx` and all that relies on them. */
  ghost function Losers(pool: Pool, tx: Tx): set<Hash>
  {
    set h | h in pool && Loses(pool, tx, h)
  }

  ghost predicate Loses(pool: Pool, tx: Tx, h: Hash)
    requires h in pool
  {
    exists r :: Rival(pool, tx, r) && (h == r || Reaches(pool, pool[r], pool[h]))
  }

  lemma LosersMore(small: Pool, big: Pool, tx: Tx)
    requires Within(small, big)
    ensures Losers(small, tx) <= Losers(big, tx)
  {
    forall h | h in Losers(small, tx)
      ensures h in Losers(big, tx)
    {
      var r :| Rival(small, tx, r) && (h == r || Reaches(small, small[r], small[h]));
      assert Rival(big, tx, r);
      if h != r {
        More(small, big, small[r], small[h]);
      }
    }
  }

  /** A rival in what is left takes only losers with it. */
  lemma RivalLoses(was: Pool, now: Pool, tx: Tx, r: Hash)
    requires Within(now, was) && Rival(now, tx, r) && now[r].id == r
    ensures {r} + Spenders(now, now[r]) <= Losers(was, tx)
  {
    assert {r} + Spenders(now, now[r]) <= Losers(now, tx);
    LosersMore(now, was, tx);
  }

  lemma LosersGone(was: Pool, now: Pool, tx: Tx)
    requires forall h :: h in was ==> was[h].id == h
    requires Removing(was, now, Losers(was, tx))
    requires forall r :: r in now ==> !Rival(now, tx, r)
    ensures now == was - Losers(was, tx)
  {
    var gone := was.Keys - now.Keys;
    forall h | h in Losers(was, tx)
      ensures h in gone
    {
      var r :| Rival(was, tx, r) && (h == r || Reaches(was, was[r], was[h]));
      assert r in gone by {
        assert r in now ==> Rival(now, tx, r);
      }
      if h != r {
        ClosedAll(was, was[r], gone);
        assert h in Spenders(was, was[r]);
      }
    }
    assert now.Keys == was.Keys - Losers(was, tx);
  }

  lemma NoRivals(pool: Pool, outpoints: map<OutPoint, Tx>, tx: Tx)
    requires Indexed(pool, outpoints)
    requires forall i :: 0 <= i < |tx.ins| && tx.ins[i] in outpoints ==> outpoints[tx.ins[i]].id == tx.id
    ensures forall r :: r in pool ==> !Rival(pool, tx, r)
  {
  }

  lemma RivalAt(pool: Pool, outpoints: map<OutPoint, Tx>, tx: Tx, op: OutPoint)
    requires Indexed(pool, outpoints) && op in outpoints && op in tx.ins && outpoints[op].id != tx.id
    ensures In(pool, outpoints[op]) && Rival(pool, tx, outpoints[op].id)
  {
  }

  datatype PoolError = TxAlreadyExists | DoubleSpend | Rejected | NotNoticed

  class TxPool {
    var pool: Pool
    var outpoints: map<OutPoint, Tx>

    ghost predicate Valid()
      reads this
    {
      Indexed(pool, outpoints)
    }

    constructor ()
      ensures Valid() && pool == map[]
    {
      pool, outpoints := map[], map[];
    }

    /** Removes a transaction. With its redeemers: it and everything in the pool that relies on it, and
        nothing else; the recursion ends because nothing relies on itself. */
    method RemoveTransaction(tx: Tx, removeRedeemers: bool)
      requires Valid() && Known(pool, tx)
      requires removeRedeemers ==> Acyclic(pool)
      modifies this
      ensures Valid()
      ensures pool == old(pool) - ({tx.id} + if removeRedeemers then Spenders(old(pool), tx) else {})
      decreases |Spenders(pool, tx)|
    {
      hide Acyclic, Spends, Spenders, Indexed;
      ghost var was := pool;
      IndexedKeys(pool, outpoints);
      if removeRedeemers {
        var i := 0;
        while i < |tx.outs|
          invariant 0 <= i <= |tx.outs|
          invariant Valid() && Removing(was, pool, Spenders(was, tx))
          invariant forall j :: 0 <= j < i ==> OutPoint(tx.id, j) !in outpoints
        {
          var outpoint := OutPoint(tx.id, i);
          if outpoint in outpoints {
            var redeemer := outpoints[outpoint];
            ghost var before := pool;
            ghost var spent := outpoints;
            Redeems(pool, outpoints, tx, i);
            SpendersShrink(was, pool, tx, redeemer);
            LessAcyclic(pool, was);
            RemoveTransaction(redeemer, true);
            RemovingMore(was, before, pool, Spenders(was, tx), redeemer);
            StillFree(before, spent, pool, outpoints, redeemer);
          }
          i := i + 1;
        }
        RemovedAll(was, pool, outpoints, tx);
      }
      if tx.id in pool {
        IndexedLess(pool, outpoints, pool[tx.id], outpoints - (set op | op in pool[tx.id].ins));
        Unspend(pool[tx.id].ins);
        pool := pool - {tx.id};
      }
    }

    /** Removes the other transactions that spend what `tx` spends, with all that relies on them. */
    method RemoveDoubleSpends(tx: Tx)
      requires Valid() && Acyclic(pool)
      modifies this
      ensures Valid() && Acyclic(pool)
      ensures pool == old(pool) - Losers(old(pool), tx)
      ensures forall r :: r in pool ==> !Rival(pool, tx, r)
    {
      hide Acyclic, Spends, Spenders, Losers, Indexed, Rival;
      ghost var was := pool;
      IndexedKeys(pool, outpoints);
      for i := 0 to |tx.ins|
        invariant Valid() && Removing(was, pool, Losers(was, tx))
        invariant forall j :: 0 <= j < i && tx.ins[j] in outpoints ==> outpoints[tx.ins[j]].id == tx.id
      {
        if tx.ins[i] in outpoints {
          var redeemer := outpoints[tx.ins[i]];
          if redeemer.id != tx.id {
            ghost var before := pool;
            ghost var spent := outpoints;
            RivalAt(pool, outpoints, tx, tx.ins[i]);
            RivalLoses(was, pool, tx, redeemer.id);
            LessAcyclic(pool, was);
            RemoveTransaction(redeemer, true);
            RemovingMore(was, before, pool, Losers(was, tx), redeemer);
            StillFree(before, spent, pool, outpoints, redeemer);
          }
        }
      }
      NoRivals(pool, outpoints, tx);
      LosersGone(was, pool, tx);
      LessAcyclic(pool, was);
    }

    /** Whether a pooled transaction already spends an input of `tx`. */
    method CheckPoolDoubleSpend(tx: Tx) returns (ok: bool)
      requires Valid()
      ensures ok <==> !Clashes(pool, tx)
    {
      for i := 0 to |tx.ins|
        invariant forall j :: 0 <= j < i ==> tx.ins[j] !in outpoints
      {
        if tx.ins[i] in outpoints {
          ghost var h := outpoints[tx.ins[i]].id;
          assert h in pool && tx.ins[i] in tx.ins && tx.ins[i] in pool[h].ins;
          return false;
        }
      }
      return true;
    }

    /** Enters a transaction and its inputs without any check. */
    method AddTransaction(tx: Tx)
      modifies this
      ensures pool == old(pool)[tx.id := tx]
      ensures outpoints == Overlay(old(outpoints), tx.ins, tx)
    {
      hide Overlay;
      OverlayNone(outpoints, tx);
      pool := pool[tx.id := tx];
      for i := 0 to |tx.ins|
        invariant pool == old(pool)[tx.id := tx]
        invariant outpoints == Overlay(old(outpoints), tx.ins[..i], tx)
      {
        assert tx.ins[..i + 1] == tx.ins[..i] + [tx.ins[i]];
        OverlayMore(old(outpoints), tx.ins[..i], tx.ins[i], tx);
        outpoints := outpoints[tx.ins[i] := tx];
      }
      assert tx.ins[..|tx.ins|] == tx.ins;
    }

    /** Enters a transaction that passes the checks. `orphan` says that it waits in the orphan pool,
        `early` and `late` that it passes the checks before and after the one on double spends,
        `complete` that the transactions it spends from are known, and `noticed` that it can be put in
        the address index and announced. If not, there is an error and the transaction stays pooled. */
    method MaybeAcceptTransaction(tx: Tx, orphan: bool, early: bool, complete: bool, late: bool, noticed: bool)
        returns (r: Result<bool, PoolError>)
      requires Valid()
      modifies this
      ensures Valid()
      ensures var enters := !orphan && early && complete && late && tx.id !in old(pool) && !Clashes(old(pool), tx);
              && pool == (if enters then old(pool)[tx.id := tx] else old(pool))
              && (r == Ok(true) <==> enters && noticed) && (r == Err(NotNoticed) <==> enters && !noticed)
      ensures r == Err(DoubleSpend) ==> Clashes(pool, tx)
      ensures old(Acyclic(pool)) && !Reaches(pool, tx, tx) ==> Acyclic(pool)
    {
      hide Acyclic, Clashes, Reaches, Indexed;
      if tx.id in pool || orphan {
        return Err(TxAlreadyExists);
      }
      if !early {
        return Err(Rejected);
      }
      var free := CheckPoolDoubleSpend(tx);
      if !free {
        return Err(DoubleSpend);
      }
      if !complete {
        return Ok(false);
      }
      if !late {
        return Err(Rejected);
      }
      AddKeeps(pool, outpoints, tx);
      IndexedKeys(pool, outpoints);
      if Acyclic(pool) {
        AddAcyclic(pool, tx);
      }
      AddTransaction(tx);
      r := if noticed then Ok(true) else Err(NotNoticed);
    }

    /** A block joined the chain: neither its transactions nor a rival of one stay pooled, and what else
        left relied on such a rival. */
    method SyncAttachBlock(block: Block)
      requires Valid() && Acyclic(pool)
      requires block.txs != [] && forall i :: 0 < i < |block.txs| ==> Known(pool, block.txs[i])
      modifies this
      ensures Valid() && Acyclic(pool)
      ensures Attached(old(pool), pool, block.txs[1..])
    {
      hide Acyclic, Indexed, Losers;
      ghost var was := pool;
      var txs := block.txs[1..];
      for i := 0 to |txs|
        invariant Valid() && Acyclic(pool)
        invariant Attached(was, pool, txs[..i])
      {
        ghost var before := pool;
        assert txs[i] == block.txs[i + 1];
        RemoveTransaction(txs[i], false);
        LessAcyclic(pool, before);
        ghost var without := pool;
        RemoveDoubleSpends(txs[i]);
        AttachedMore(was, before, without, pool, txs[..i], txs[i]);
        assert txs[..i + 1] == txs[..i] + [txs[i]];
      }
      assert txs[..|txs|] == txs;
    }

    method Unspend(ins: seq<OutPoint>)
      modifies this`outpoints
      ensures outpoints == old(outpoints) - (set op | op in ins)
    {
      for i := 0 to |ins|
        invariant outpoints == old(outpoints) - (set op | op in ins[..i])
      {
        assert ins[..i + 1] == ins[..i] + [ins[i]];
        outpoints := outpoints - {ins[i]};
      }
      assert ins[..|ins|] == ins;
    }
  }

  lemma IndexedKeys(pool: Pool, outpoints: map<OutPoint, Tx>)
    requires Indexed(pool, outpoints)
    ensures forall h :: h in pool ==> pool[h].id == h
  {
  }

  lemma Redeems(pool: Pool, outpoints: map<OutPoint, Tx>, tx: Tx, i: nat)
    requires Indexed(pool, outpoints) && i < |tx.outs| && OutPoint(tx.id, i) in outpoints
    ensures In(pool, outpoints[OutPoint(tx.id, i)]) && Spends(outpoints[OutPoint(tx.id, i)], tx)
  {
  }

  /** An output that no pooled transaction spends is not in the index of a smaller pool either, and what a
      removed transaction spent is free. */
  lemma StillFree(before: Pool, spent: map<OutPoint, Tx>, after: Pool, left: map<OutPoint, Tx>, r: Tx)
    requires Indexed(before, spent) && Indexed(after, left) && Within(after, before) && r.id !in after
    ensures forall op :: op in left ==> op in spent && left[op] == spent[op]
    ensures forall op :: op in spent && spent[op] == r ==> op !in left
  {
  }

  ghost predicate Attached(was: Pool, now: Pool, txs: seq<Tx>)
  {
    && Within(now, was)
    && (forall i :: 0 <= i < |txs| ==> txs[i].id !in now && !Clashes(now, txs[i]))
    && (forall h :: h in was && h !in now ==>
        exists i :: 0 <= i < |txs| && (h == txs[i].id || h in Losers(was, txs[i])))
  }

  lemma AttachedMore(was: Pool, before: Pool, without: Pool, now: Pool, txs: seq<Tx>, tx: Tx)
    requires Attached(was, before, txs)
    requires without == before - {tx.id} && now == without - Losers(without, tx)
    requires forall r :: r in now ==> !Rival(now, tx, r)
    ensures Attached(was, now, txs + [tx])
  {
    hide Losers, Rival, Clashes;
    LosersMore(without, was, tx);
    var more := txs + [tx];
    forall i | 0 <= i < |more|
      ensures more[i].id !in now && !Clashes(now, more[i])
    {
      if i < |txs| {
        FewerClashes(now, before, txs[i]);
      } else {
        NoClash(now, tx);
      }
    }
    forall h | h in was && h !in now
      ensures exists i :: 0 <= i < |more| && (h == more[i].id || h in Losers(was, more[i]))
    {
      if h in before {
        assert more[|txs|] == tx;
      } else {
        var i :| 0 <= i < |txs| && (h == txs[i].id || h in Losers(was, txs[i]));
        assert more[i] == txs[i];
      }
    }
  }

  lemma FewerClashes(small: Pool, big: Pool, tx: Tx)
    requires Within(small, big)
    ensures Clashes(small, tx) ==> Clashes(big, tx)
  {
    if Clashes(small, tx) {
      var h, op :| h in small && op in tx.ins && op in small[h].ins;
      assert op in big[h].ins;
    }
  }

  lemma NoClash(pool: Pool, tx: Tx)
    requires tx.id !in pool
    ensures Clashes(pool, tx) ==> exists r :: r in pool && Rival(pool, tx, r)
  {
    if Clashes(pool, tx) {
      var h, op :| h in pool && op in tx.ins && op in pool[h].ins;
      assert Rival(pool, tx, h);
    }
  }
}
