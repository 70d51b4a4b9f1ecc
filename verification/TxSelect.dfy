/** Filling a block template: transactions are taken by priority or by fee, each after the ones in the
    pool that it depends on. */
module TxSelect {
  import opened Hashes
  import opened MachineTypes
  import opened Money

  /** A transaction of the pool: the hashes its inputs refer to, and what the choice depends on. The
      priority and the fee rate are real numbers here. */
  datatype PoolTx = PoolTx(hash: Hash, ins: seq<Hash>, size: uint32, sigOps: nat, fee: int, priority: real,
      feePerKB: real)

  /** The settings: sizes in bytes, the limit on signature operations. */
  datatype Limits = Limits(maxSize: uint32, minSize: uint32, prioritySize: uint32, maxSigOps: nat)

  const MIN_RELAY_FEE: real := 10000.0
  const MIN_HIGH_PRIORITY: real := 768000000.0

  type Pool = map<Hash, PoolTx>

  /** The pool is a map: every transaction is there under its hash. */
  predicate Keyed(pool: Pool)
  {
    forall h :: h in pool ==> pool[h].hash == h
  }

  /** The transactions of the pool that an input refers to. */
  function Parents(pool: Pool, tx: PoolTx): set<Hash>
  {
    set i | 0 <= i < |tx.ins| && tx.ins[i] in pool :: tx.ins[i]
  }

  /** The variables of the loop that chooses. `deps` lists, for a transaction, those that wait for it;
      `waits` is what each one still waits for. */
  datatype Choice = Choice(
    queue: seq<Hash>, deps: map<Hash, seq<Hash>>, waits: map<Hash, set<Hash>>,
    block: seq<Hash>, size: uint32, sigOps: nat, fee: int, sortedByFee: bool)

  function SumFees(pool: Pool, txs: seq<Hash>): int
    requires forall i :: 0 <= i < |txs| ==> txs[i] in pool
  {
    if txs == [] then 0 else SumFees(pool, txs[..|txs| - 1]) + pool[txs[|txs| - 1]].fee
  }

  function SumSizes(pool: Pool, txs: seq<Hash>): int
    requires forall i :: 0 <= i < |txs| ==> txs[i] in pool
  {
    if txs == [] then 0 else SumSizes(pool, txs[..|txs| - 1]) + pool[txs[|txs| - 1]].size
  }

  function SumSigOps(pool: Pool, txs: seq<Hash>): int
    requires forall i :: 0 <= i < |txs| ==> txs[i] in pool
  {
    if txs == [] then 0 else SumSigOps(pool, txs[..|txs| - 1]) + pool[txs[|txs| - 1]].sigOps
  }

  /** Every transaction of the block comes after all its parents in the pool. */
  predicate ParentsFirst(pool: Pool, block: seq<Hash>)
    requires forall i :: 0 <= i < |block| ==> block[i] in pool
  {
    forall i :: 0 <= i < |block| ==> Parents(pool, pool[block[i]]) <= Members(block[..i])
  }

  /** The hashes of a sequence of transactions. */
  function Members(txs: seq<Hash>): set<Hash>
  {
    set i | 0 <= i < |txs| :: txs[i]
  }

  /** Who is in the queue waits for nothing, and a parent that is not waited for is in the block. */
  ghost predicate Ordered(pool: Pool, c: Choice)
  {
    && (forall i :: 0 <= i < |c.block| ==> c.block[i] in pool)
    && (forall i :: 0 <= i < |c.queue| ==> c.queue[i] in pool)
    && (forall h, i :: h in c.deps && 0 <= i < |c.deps[h]| ==> c.deps[h][i] in pool)
    && c.waits.Keys == pool.Keys
    && (forall h :: h in pool ==> Parents(pool, pool[h]) - c.waits[h] <= Members(c.block))
    && (forall i :: 0 <= i < |c.queue| ==> c.waits[c.queue[i]] == {})
    && ParentsFirst(pool, c.block)
  }

  /** The counters are sums over the block, and within the limits once anything was added. */
  ghost predicate Counted(pool: Pool, lim: Limits, size0: int, sigOps0: int, c: Choice)
  {
    && (forall i :: 0 <= i < |c.block| ==> c.block[i] in pool)
    && c.fee == SumFees(pool, c.block) && 0 <= c.fee <= MAX_AMOUNT
    && c.size as int == size0 + SumSizes(pool, c.block) && (c.block != [] ==> c.size < lim.maxSize)
    && c.sigOps == sigOps0 + SumSigOps(pool, c.block) && (c.block != [] ==> c.sigOps <= lim.maxSigOps)
  }

  /** The transactions that waited for `h`, one after the other: one that waits for nothing any more
      goes into the queue. */
  function Release(c: Choice, h: Hash, ds: seq<Hash>): Choice
  {
    if ds == [] then c
    else
      var b := Release(c, h, ds[..|ds| - 1]);
      var d := ds[|ds| - 1];
      if d !in b.waits then b
      else
        var w := b.waits[d] - {h};
        b.(waits := b.waits[d := w], queue := if w == {} then b.queue + [d] else b.queue)
  }

  /** Adds a transaction to the block, unless the fees leave the range of amounts. */
  function Take(c: Choice, tx: PoolTx, ds: seq<Hash>): Choice
  {
    match Checked(c.fee + tx.fee)
    case None => c
    case Some(fee) =>
      Release(c.(block := c.block + [tx.hash], size := (c.size as int + tx.size) % 0x1_0000_0000, sigOps := c.sigOps +
          tx.sigOps, fee := fee), tx.hash, ds)
  }

  /** One round of the loop, for the transaction at the index `k` of the queue. */
  function Step(pool: Pool, lim: Limits, c: Choice, k: nat): Choice
    requires k < |c.queue| && c.queue[k] in pool
  {
    var tx := pool[c.queue[k]];
    var h := c.queue[k];
    var ds := if h in c.deps then c.deps[h] else [];
    var rest := c.(queue := c.queue[..k] + c.queue[k + 1..], deps := c.deps - {h});
    var plus := (c.size as int + tx.size) % 0x1_0000_0000;
    if plus < c.size || plus >= lim.maxSize then rest
    else if c.sigOps + tx.sigOps > lim.maxSigOps then rest
    else if c.sortedByFee && tx.feePerKB < MIN_RELAY_FEE && plus >= lim.minSize then rest
    else if !c.sortedByFee && (plus >= lim.prioritySize || tx.priority <= MIN_HIGH_PRIORITY) then
      var fees := rest.(sortedByFee := true);
      if plus > lim.prioritySize || tx.priority < MIN_HIGH_PRIORITY then fees.(queue := fees.queue + [h])
      else Take(fees, tx, ds)
    else Take(rest, tx, ds)
  }

  /** The entries that the dependency lists still hold. */
  ghost function Listed(deps: map<Hash, seq<Hash>>): nat
    decreases |deps|
  {
    if deps == map[] then 0
    else
      var h :| h in deps;
      |deps[h]| + Listed(deps - {h})
  }

  lemma {:induction false} ListedAt(deps: map<Hash, seq<Hash>>, h: Hash)
    requires h in deps
    ensures Listed(deps) == |deps[h]| + Listed(deps - {h})
    decreases |deps|
  {
    var g :| g in deps && Listed(deps) == |deps[g]| + Listed(deps - {g});
    if g != h {
      ListedAt(deps - {g}, h);
      ListedAt(deps - {h}, g);
      assert deps - {g} - {h} == deps - {h} - {g};
    }
  }

  /** What goes down in every round: queue, lists, and the one change of the order. */
  ghost function Measure(c: Choice): nat
  {
    |c.queue| + Listed(c.deps) + if c.sortedByFee then 0 else 1
  }

  lemma {:induction false} ReleaseSize(c: Choice, h: Hash, ds: seq<Hash>)
    ensures var r := Release(c, h, ds);
            |r.queue| <= |c.queue| + |ds| && r == c.(queue := r.queue, waits := r.waits)
    decreases |ds|
  {
    if ds != [] {
      ReleaseSize(c, h, ds[..|ds| - 1]);
    }
  }

  lemma StepMeasure(pool: Pool, lim: Limits, c: Choice, k: nat)
    requires k < |c.queue| && c.queue[k] in pool
    ensures Measure(Step(pool, lim, c, k)) < Measure(c)
  {
    var h := c.queue[k];
    var tx := pool[h];
    var ds := if h in c.deps then c.deps[h] else [];
    if h in c.deps {
      ListedAt(c.deps, h);
    } else {
      assert c.deps - {h} == c.deps;
    }
    var rest := c.(queue := c.queue[..k] + c.queue[k + 1..], deps := c.deps - {h});
    TakeSize(rest, tx, ds);
    TakeSize(rest.(sortedByFee := true), tx, ds);
    hide Take, Listed;
    assert |rest.queue| == |c.queue| - 1;
  }

  lemma TakeSize(c: Choice, tx: PoolTx, ds: seq<Hash>)
    ensures var r := Take(c, tx, ds);
        |r.queue| <= |c.queue| + |ds| && r.deps == c.deps && r.sortedByFee == c.sortedByFee
  {
    var fee := Checked(c.fee + tx.fee);
    if fee.Some? {
      ReleaseSize(c.(block := c.block + [tx.hash], size := (c.size as int + tx.size) % 0x1_0000_0000,
          sigOps := c.sigOps + tx.sigOps, fee := fee.value), tx.hash, ds);
    }
  }

  lemma MembersSnoc(txs: seq<Hash>, h: Hash)
    ensures Members(txs + [h]) == Members(txs) + {h}
  {
    assert forall i :: 0 <= i < |txs| ==> (txs + [h])[i] == txs[i];
    assert (txs + [h])[|txs|] == h;
    forall x | x in Members(txs) + {h}
      ensures x in Members(txs + [h])
    {
      if x in Members(txs) {
        var i :| 0 <= i < |txs| && txs[i] == x;
        assert (txs + [h])[i] == x;
      }
    }
  }

  /** A transaction from the queue goes to the end of the block. */
  lemma AppendOrdered(pool: Pool, c: Choice, h: Hash, d: Choice)
    requires Ordered(pool, c) && h in pool && c.waits[h] == {}
    requires d.block == c.block + [h] && d.queue == c.queue && d.waits == c.waits && d.deps == c.deps
    ensures Ordered(pool, d)
  {
    MembersSnoc(c.block, h);
    forall i | 0 <= i < |d.block|
      ensures Parents(pool, pool[d.block[i]]) <= Members(d.block[..i])
    {
      if i < |c.block| {
        assert d.block[..i] == c.block[..i];
      } else {
        assert d.block[..i] == c.block;
      }
    }
  }

  lemma {:induction false} ReleaseOrdered(pool: Pool, c: Choice, h: Hash, ds: seq<Hash>)
    requires Ordered(pool, c) && h in Members(c.block) && forall i :: 0 <= i < |ds| ==> ds[i] in pool
    ensures Ordered(pool, Release(c, h, ds))
    decreases |ds|
  {
    if ds != [] {
      var n := |ds| - 1;
      var b := Release(c, h, ds[..n]);
      ReleaseOrdered(pool, c, h, ds[..n]);
      ReleaseSize(c, h, ds[..n]);
      ReleaseOne(pool, b, h, ds[n], Release(c, h, ds));
    }
  }

  lemma ReleaseOne(pool: Pool, b: Choice, h: Hash, d: Hash, r: Choice)
    requires Ordered(pool, b) && h in Members(b.block) && d in pool
    requires var w := b.waits[d] - {h};
             r == b.(waits := b.waits[d := w], queue := if w == {} then b.queue + [d] else b.queue)
    ensures Ordered(pool, r)
  {
    hide Members, ParentsFirst, Parents;
  }

  lemma PopOrdered(pool: Pool, c: Choice, k: nat)
    requires Ordered(pool, c) && k < |c.queue|
    ensures Ordered(pool, c.(queue := c.queue[..k] + c.queue[k + 1..], deps := c.deps - {c.queue[k]}))
  {
    hide Members, ParentsFirst, Parents;
  }

  lemma TakeOrdered(pool: Pool, c: Choice, tx: PoolTx, ds: seq<Hash>)
    requires Ordered(pool, c) && tx.hash in pool && c.waits[tx.hash] == {} && forall i :: 0 <= i < |ds| ==>
        ds[i] in pool
    ensures Ordered(pool, Take(c, tx, ds))
  {
    hide Ordered, Release;
    var fee := Checked(c.fee + tx.fee);
    if fee.Some? {
      var d := c.(block := c.block + [tx.hash], size := (c.size as int + tx.size) % 0x1_0000_0000, sigOps := c.sigOps +
          tx.sigOps, fee := fee.value);
      AppendOrdered(pool, c, tx.hash, d);
      MembersSnoc(c.block, tx.hash);
      ReleaseOrdered(pool, d, tx.hash, ds);
    }
  }

  /** Each round keeps the order. */
  lemma StepOrdered(pool: Pool, lim: Limits, c: Choice, k: nat)
    requires Keyed(pool) && Ordered(pool, c) && k < |c.queue|
    ensures Ordered(pool, Step(pool, lim, c, k))
  {
    hide Ordered, Take;
    OrderedFacts(pool, c, k);
    var h := c.queue[k];
    var tx := pool[h];
    var ds := if h in c.deps then c.deps[h] else [];
    var rest := c.(queue := c.queue[..k] + c.queue[k + 1..], deps := c.deps - {h});
    PopOrdered(pool, c, k);
    TakeOrdered(pool, rest, tx, ds);
    FlagOrdered(pool, rest);
    TakeOrdered(pool, rest.(sortedByFee := true), tx, ds);
    BackOrdered(pool, rest.(sortedByFee := true), h);
  }

  lemma OrderedFacts(pool: Pool, c: Choice, k: nat)
    requires Ordered(pool, c) && k < |c.queue|
    ensures c.queue[k] in pool && c.queue[k] in c.waits && c.waits[c.queue[k]] == {}
    ensures forall h, i :: h in c.deps && 0 <= i < |c.deps[h]| ==> c.deps[h][i] in pool
  {
  }

  lemma FlagOrdered(pool: Pool, c: Choice)
    requires Ordered(pool, c)
    ensures Ordered(pool, c.(sortedByFee := true))
  {
  }

  lemma BackOrdered(pool: Pool, c: Choice, h: Hash)
    requires Ordered(pool, c) && h in pool && c.waits[h] == {}
    ensures Ordered(pool, c.(queue := c.queue + [h]))
  {
    hide Members, ParentsFirst, Parents;
  }

  lemma SumsSnoc(pool: Pool, txs: seq<Hash>, h: Hash)
    requires h in pool && forall i :: 0 <= i < |txs| ==> txs[i] in pool
    ensures forall i :: 0 <= i < |txs + [h]| ==> (txs + [h])[i] in pool
    ensures SumFees(pool, txs + [h]) == SumFees(pool, txs) + pool[h].fee
    ensures SumSizes(pool, txs + [h]) == SumSizes(pool, txs) + pool[h].size
    ensures SumSigOps(pool, txs + [h]) == SumSigOps(pool, txs) + pool[h].sigOps
  {
    assert (txs + [h])[..|txs|] == txs;
  }

  lemma TakeCounted(pool: Pool, lim: Limits, size0: int, sigOps0: int, c: Choice, tx: PoolTx, ds: seq<Hash>)
    requires Counted(pool, lim, size0, sigOps0, c) && tx.hash in pool && pool[tx.hash] == tx
    requires var plus := (c.size as int + tx.size) % 0x1_0000_0000; c.size <= plus < lim.maxSize
    requires c.sigOps + tx.sigOps <= lim.maxSigOps
    ensures Counted(pool, lim, size0, sigOps0, Take(c, tx, ds))
  {
    hide Release, Counted;
    NoWrap(c.size, tx.size);
    var fee := Checked(c.fee + tx.fee);
    if fee.Some? {
      var d := c.(block := c.block + [tx.hash], size := c.size + tx.size, sigOps := c.sigOps + tx.sigOps,
                  fee := fee.value);
      AddedCounted(pool, lim, size0, sigOps0, c, d, tx);
      ReleaseSize(d, tx.hash, ds);
      CountedSame(pool, lim, size0, sigOps0, d, Release(d, tx.hash, ds));
    }
  }

  lemma AddedCounted(pool: Pool, lim: Limits, size0: int, sigOps0: int, c: Choice, d: Choice, tx: PoolTx)
    requires Counted(pool, lim, size0, sigOps0, c) && tx.hash in pool && pool[tx.hash] == tx
    requires d.block == c.block + [tx.hash] && d.size as int == c.size as int + tx.size as int
    requires d.sigOps == c.sigOps + tx.sigOps && d.fee == c.fee + tx.fee
    requires 0 <= d.fee <= MAX_AMOUNT && d.size < lim.maxSize && d.sigOps <= lim.maxSigOps
    ensures Counted(pool, lim, size0, sigOps0, d)
  {
    hide SumFees, SumSizes, SumSigOps;
    SumsSnoc(pool, c.block, tx.hash);
  }

  lemma CountedSame(pool: Pool, lim: Limits, size0: int, sigOps0: int, c: Choice, d: Choice)
    requires Counted(pool, lim, size0, sigOps0, c)
    requires d.block == c.block && d.size == c.size && d.sigOps == c.sigOps && d.fee == c.fee
    ensures Counted(pool, lim, size0, sigOps0, d)
  {
  }

  /** The test for wrap-around is exact. */
  lemma NoWrap(a: uint32, b: uint32)
    ensures (a as int + b) % 0x1_0000_0000 >= a <==> a as int + b < 0x1_0000_0000
    ensures a as int + b < 0x1_0000_0000 ==> (a as int + b) % 0x1_0000_0000 == a + b
  {
  }

  /** Each round keeps the counters. */
  lemma StepCounted(pool: Pool, lim: Limits, size0: int, sigOps0: int, c: Choice, k: nat)
    requires Keyed(pool) && Ordered(pool, c) && Counted(pool, lim, size0, sigOps0, c) && k < |c.queue|
    ensures Counted(pool, lim, size0, sigOps0, Step(pool, lim, c, k))
  {
    hide Take, Ordered;
    var h := c.queue[k];
    PopOrdered(pool, c, k);
    QueueInPool(pool, c, k);
    var tx := pool[h];
    var ds := if h in c.deps then c.deps[h] else [];
    var rest := c.(queue := c.queue[..k] + c.queue[k + 1..], deps := c.deps - {h});
    var plus := (c.size as int + tx.size) % 0x1_0000_0000;
    if c.size <= plus < lim.maxSize && c.sigOps + tx.sigOps <= lim.maxSigOps {
      TakeCounted(pool, lim, size0, sigOps0, rest, tx, ds);
      TakeCounted(pool, lim, size0, sigOps0, rest.(sortedByFee := true), tx, ds);
    }
  }

  lemma QueueInPool(pool: Pool, c: Choice, k: nat)
    requires Ordered(pool, c) && k < |c.queue|
    ensures c.queue[k] in pool
  {
  }

  predicate NoRepeat(txs: seq<Hash>)
  {
    forall i, j :: 0 <= i < j < |txs| ==> txs[i] != txs[j]
  }

  predicate Apart(a: seq<Hash>, b: seq<Hash>)
  {
    forall i, j :: 0 <= i < |a| && 0 <= j < |b| ==> a[i] != b[j]
  }

  /** Nobody is chosen or queued twice: whoever is still listed as waiting is neither. */
  ghost predicate Once(c: Choice)
  {
    && NoRepeat(c.queue) && NoRepeat(c.block) && Apart(c.queue, c.block)
    && (forall i :: 0 <= i < |c.queue| ==> c.queue[i] in c.waits && c.waits[c.queue[i]] == {})
    && (forall i :: 0 <= i < |c.block| ==> c.block[i] in c.waits && c.waits[c.block[i]] == {})
    && (forall h :: h in c.deps ==> NoRepeat(c.deps[h]))
    && (forall h, i :: h in c.deps && 0 <= i < |c.deps[h]| ==> c.deps[h][i] in c.waits && h in c.waits[c.deps[h][i]])
  }

  lemma {:induction false} ReleaseOnce(c: Choice, h: Hash, ds: seq<Hash>)
    requires Once(c) && h !in c.deps && NoRepeat(ds)
    requires forall i :: 0 <= i < |ds| ==> ds[i] in c.waits && h in c.waits[ds[i]]
    ensures Once(Release(c, h, ds))
    ensures forall t :: t in c.waits ==> t in Release(c, h, ds).waits
    ensures forall t :: t in c.waits && (forall i :: 0 <= i < |ds| ==> ds[i] != t) ==>
        Release(c, h, ds).waits[t] == c.waits[t]
    decreases |ds|
  {
    if ds != [] {
      var n := |ds| - 1;
      ReleaseOnce(c, h, ds[..n]);
      ReleaseSize(c, h, ds[..n]);
      var b := Release(c, h, ds[..n]);
      assert forall i :: 0 <= i < n ==> ds[..n][i] != ds[n];
      OnceMore(b, h, ds[n], Release(c, h, ds));
      forall t | t in c.waits && (forall i :: 0 <= i < |ds| ==> ds[i] != t)
        ensures Release(c, h, ds).waits[t] == c.waits[t]
      {
        assert ds[n] != t;
        assert forall i :: 0 <= i < n ==> ds[..n][i] == ds[i];
      }
    }
  }

  lemma OnceMore(b: Choice, h: Hash, d: Hash, r: Choice)
    requires Once(b) && h !in b.deps && d in b.waits && h in b.waits[d]
    requires var w := b.waits[d] - {h};
             r == b.(waits := b.waits[d := w], queue := if w == {} then b.queue + [d] else b.queue)
    ensures Once(r)
  {
  }

  lemma TakeOnce(c: Choice, tx: PoolTx, ds: seq<Hash>)
    requires Once(c) && tx.hash !in c.deps && NoRepeat(ds) && tx.hash in c.waits && c.waits[tx.hash] == {}
    requires Apart([tx.hash], c.queue) && Apart([tx.hash], c.block)
    requires forall i :: 0 <= i < |ds| ==> ds[i] in c.waits && tx.hash in c.waits[ds[i]]
    ensures Once(Take(c, tx, ds))
  {
    hide Release;
    var fee := Checked(c.fee + tx.fee);
    if fee.Some? {
      var d := c.(block := c.block + [tx.hash], size := (c.size as int + tx.size) % 0x1_0000_0000, sigOps := c.sigOps +
          tx.sigOps, fee := fee.value);
      assert [tx.hash][0] == tx.hash;
      assert Once(d);
      ReleaseOnce(d, tx.hash, ds);
    }
  }

  lemma PopOnce(c: Choice, k: nat)
    requires Once(c) && k < |c.queue|
    ensures var h := c.queue[k];
            var rest := c.(queue := c.queue[..k] + c.queue[k + 1..], deps := c.deps - {h});
            && Once(rest) && h in c.waits && c.waits[h] == {} && Apart([h], rest.queue) && Apart([h], rest.block)
            && Once(rest.(sortedByFee := true)) && Once(rest.(sortedByFee := true, queue := rest.queue + [h]))
  {
  }

  /** Each round keeps everything chosen at most once. */
  lemma StepOnce(pool: Pool, lim: Limits, c: Choice, k: nat)
    requires Keyed(pool) && Once(c) && k < |c.queue| && c.queue[k] in pool
    ensures Once(Step(pool, lim, c, k))
  {
    var h := c.queue[k];
    var ds := if h in c.deps then c.deps[h] else [];
    assert NoRepeat(ds) && forall i :: 0 <= i < |ds| ==> ds[i] in c.waits && h in c.waits[ds[i]];
    hide Once, Take, Apart, NoRepeat;
    PopOnce(c, k);
    var rest := c.(queue := c.queue[..k] + c.queue[k + 1..], deps := c.deps - {h});
    TakeOnce(rest, pool[h], ds);
    TakeOnce(rest.(sortedByFee := true), pool[h], ds);
    assert rest.(sortedByFee := true).(queue := rest.queue + [h]) == rest.(sortedByFee := true, queue := rest.queue +
        [h]);
  }

  /** The queue orders: by priority and then fee rate, or the other way round. */
  predicate Before(pool: Pool, a: Hash, b: Hash, sortedByFee: bool)
    requires a in pool && b in pool
  {
    var x, y := pool[a], pool[b];
    if sortedByFee then
      if x.feePerKB == y.feePerKB then x.priority > y.priority else x.feePerKB > y.feePerKB
    else
      if x.priority == y.priority then x.feePerKB > y.feePerKB else x.priority > y.priority
  }

  /** The entry has the largest fee rate of the queue and, among those, the largest priority; or the
      other way round before the order changes. */
  predicate Highest(pool: Pool, queue: seq<Hash>, sortedByFee: bool, k: nat)
    requires k < |queue| && queue[k] in pool
  {
    forall j :: 0 <= j < |queue| && queue[j] in pool ==>
      var x, y := pool[queue[j]], pool[queue[k]];
      if sortedByFee then x.feePerKB <= y.feePerKB && (x.feePerKB == y.feePerKB ==> x.priority <= y.priority)
      else x.priority <= y.priority && (x.priority == y.priority ==> x.feePerKB <= y.feePerKB)
  }

  /** What popping the heap gives: an index with nobody before it. */
  method PopIndex(pool: Pool, queue: seq<Hash>, sortedByFee: bool) returns (k: nat)
    requires queue != [] && forall i :: 0 <= i < |queue| ==> queue[i] in pool
    ensures k < |queue| && forall j :: 0 <= j < |queue| ==> !Before(pool, queue[j], queue[k], sortedByFee)
    ensures Highest(pool, queue, sortedByFee, k)
  {
    k := 0;
    for i := 1 to |queue|
      invariant k < i && forall j :: 0 <= j < i ==> !Before(pool, queue[j], queue[k], sortedByFee)
    {
      if Before(pool, queue[i], queue[k], sortedByFee) {
        k := i;
      }
    }
  }

  /** The loop over the transactions that waited for the one just added. */
  method ReleaseAll(c: Choice, h: Hash, ds: seq<Hash>) returns (r: Choice)
    ensures r == Release(c, h, ds)
  {
    r := c;
    assert ds[..0] == [];
    for i := 0 to |ds|
      invariant r == Release(c, h, ds[..i])
    {
      assert ds[..i + 1][..i] == ds[..i];
      var d := ds[i];
      if d in r.waits {
        r := r.(waits := r.waits[d := r.waits[d] - {h}]);
        if r.waits[d] == {} {
          r := r.(queue := r.queue + [d]);
        }
      }
    }
    assert ds[..|ds|] == ds;
  }

  /** The body of the loop. */
  method Round(pool: Pool, lim: Limits, c: Choice, k: nat) returns (r: Choice)
    requires Keyed(pool) && k < |c.queue| && c.queue[k] in pool
    ensures r == Step(pool, lim, c, k)
  {
    hide Release;
    var h := c.queue[k];
    var tx := pool[h];
    var deps := if h in c.deps then c.deps[h] else [];
    r := c.(queue := c.queue[..k] + c.queue[k + 1..], deps := c.deps - {h});
    var blockPlusTxSize := (c.size as int + tx.size) % 0x1_0000_0000;
    if blockPlusTxSize < c.size || blockPlusTxSize >= lim.maxSize {
      return;
    }
    if c.sigOps + tx.sigOps > lim.maxSigOps {
      return;
    }
    if c.sortedByFee && tx.feePerKB < MIN_RELAY_FEE && blockPlusTxSize >= lim.minSize {
      return;
    }
    if !c.sortedByFee && (blockPlusTxSize >= lim.prioritySize || tx.priority <= MIN_HIGH_PRIORITY) {
      r := r.(sortedByFee := true);
      if blockPlusTxSize > lim.prioritySize || tx.priority < MIN_HIGH_PRIORITY {
        r := r.(queue := r.queue + [h]);
        return;
      }
    }
    var fee := Checked(r.fee + tx.fee);
    if fee.None? {
      return;
    }
    r := r.(block := r.block + [h], size := blockPlusTxSize, sigOps := r.sigOps + tx.sigOps, fee := fee.value);
    r := ReleaseAll(r, h, deps);
  }

  /** No transaction has two inputs from one transaction of the pool. */
  predicate SingleParents(pool: Pool)
  {
    forall h, i, j :: h in pool && 0 <= i < j < |pool[h].ins| && pool[h].ins[i] in pool ==>
        pool[h].ins[i] != pool[h].ins[j]
  }

  function At(deps: map<Hash, seq<Hash>>, h: Hash): seq<Hash>
  {
    if h in deps then deps[h] else []
  }

  /** The list of a transaction of the pool has those seen that refer to it, as often as they do. */
  ghost predicate Lists(pool: Pool, seen: set<Hash>, deps: map<Hash, seq<Hash>>)
  {
    && (forall h :: h in deps ==> h in pool)
    && (forall h, i :: h in deps && 0 <= i < |deps[h]| ==> deps[h][i] in seen && deps[h][i] in pool)
    && (forall h, t :: h in pool && t in pool && t in seen ==> multiset(At(deps, h))[t] == multiset(pool[t].ins)[h])
  }

  /** The inputs of one transaction of the pool. */
  method ListTx(pool: Pool, tx: PoolTx, ghost seen: set<Hash>, deps: map<Hash, seq<Hash>>)
    returns (deps': map<Hash, seq<Hash>>, waits: set<Hash>)
    requires tx.hash in pool && pool[tx.hash] == tx && tx.hash !in seen && Lists(pool, seen, deps)
    ensures Lists(pool, seen + {tx.hash}, deps') && waits == Parents(pool, tx)
  {
    hide PartLists, Lists;
    deps', waits := deps, {};
    PartStarts(pool, seen, tx, deps);
    for j := 0 to |tx.ins|
      invariant waits == set i | 0 <= i < j && tx.ins[i] in pool :: tx.ins[i]
      invariant PartLists(pool, seen, tx, tx.ins[..j], deps')
    {
      var origin := tx.ins[j];
      assert tx.ins[..j + 1] == tx.ins[..j] + [origin];
      PartNext(pool, seen, tx, tx.ins[..j], deps', origin);
      if origin in pool {
        var list := if origin in deps' then deps'[origin] else [];
        deps' := deps'[origin := list + [tx.hash]];
        waits := waits + {origin};
      }
    }
    assert tx.ins[..|tx.ins|] == tx.ins;
    PartEnds(pool, seen, tx, deps');
  }

  /** The lists have only these transactions. */
  predicate Among(pool: Pool, all: set<Hash>, deps: map<Hash, seq<Hash>>)
  {
    && (forall h :: h in deps ==> h in pool)
    && (forall h, i :: h in deps && 0 <= i < |deps[h]| ==> deps[h][i] in all && deps[h][i] in pool)
  }

  /** A transaction is on each list as often as its inputs say. */
  ghost predicate Counts(pool: Pool, t: Hash, ins: seq<Hash>, deps: map<Hash, seq<Hash>>)
  {
    forall h :: h in pool ==> multiset(At(deps, h))[t] == multiset(ins)[h]
  }

  /** The lists while the inputs of a transaction are gone through. */
  ghost predicate PartLists(pool: Pool, seen: set<Hash>, tx: PoolTx, ins: seq<Hash>, deps: map<Hash, seq<Hash>>)
  {
    && Among(pool, seen + {tx.hash}, deps) && Counts(pool, tx.hash, ins, deps)
    && (forall t :: t in pool && t in seen ==> Counts(pool, t, pool[t].ins, deps))
  }

  lemma PartStarts(pool: Pool, seen: set<Hash>, tx: PoolTx, deps: map<Hash, seq<Hash>>)
    requires Lists(pool, seen, deps) && tx.hash !in seen
    ensures PartLists(pool, seen, tx, tx.ins[..0], deps)
  {
    NotListed(pool, seen, deps, tx.hash);
  }

  lemma CountSnoc(list: seq<Hash>, x: Hash, y: Hash)
    ensures multiset(list + [x])[y] == multiset(list)[y] + if x == y then 1 else 0
  {
  }

  /** Putting `x` on the list of `h` counts for `x` and `h` only. */
  lemma CountsPut(pool: Pool, t: Hash, ins: seq<Hash>, deps: map<Hash, seq<Hash>>, h: Hash, x: Hash)
    requires Counts(pool, t, ins, deps)
    ensures h in pool ==> Counts(pool, t, if t == x then ins + [h] else ins, deps[h := At(deps, h) + [x]])
    ensures h !in pool ==> Counts(pool, t, ins + [h], deps)
  {
    forall g | g in pool
      ensures var more := deps[h := At(deps, h) + [x]];
              h in pool ==> multiset(At(more, g))[t] == multiset(if t == x then ins + [h] else ins)[g]
      ensures h !in pool ==> multiset(ins + [h])[g] == multiset(ins)[g]
    {
      CountSnoc(ins, h, g);
      CountSnoc(At(deps, h), x, t);
    }
  }

  lemma AmongPut(pool: Pool, all: set<Hash>, deps: map<Hash, seq<Hash>>, h: Hash, x: Hash)
    requires Among(pool, all, deps) && x in all && x in pool && h in pool
    ensures Among(pool, all, deps[h := At(deps, h) + [x]])
  {
  }

  lemma PartNext(pool: Pool, seen: set<Hash>, tx: PoolTx, ins: seq<Hash>, deps: map<Hash, seq<Hash>>, h: Hash)
    requires PartLists(pool, seen, tx, ins, deps) && tx.hash in pool && tx.hash !in seen
    ensures PartLists(pool, seen, tx, ins + [h], if h in pool then deps[h := At(deps, h) + [tx.hash]] else deps)
  {
    hide Among, Counts, At;
    CountsPut(pool, tx.hash, ins, deps, h, tx.hash);
    if h in pool {
      AmongPut(pool, seen + {tx.hash}, deps, h, tx.hash);
      forall t | t in pool && t in seen
        ensures Counts(pool, t, pool[t].ins, deps[h := At(deps, h) + [tx.hash]])
      {
        CountsPut(pool, t, pool[t].ins, deps, h, tx.hash);
      }
    }
  }

  lemma PartEnds(pool: Pool, seen: set<Hash>, tx: PoolTx, deps: map<Hash, seq<Hash>>)
    requires PartLists(pool, seen, tx, tx.ins, deps) && tx.hash in pool && pool[tx.hash] == tx
    ensures Lists(pool, seen + {tx.hash}, deps)
  {
  }

  lemma NotListed(pool: Pool, seen: set<Hash>, deps: map<Hash, seq<Hash>>, t: Hash)
    requires Lists(pool, seen, deps) && t !in seen
    ensures forall h :: multiset(At(deps, h))[t] == 0
  {
    forall h
      ensures multiset(At(deps, h))[t] == 0
    {
      assert forall i :: 0 <= i < |At(deps, h)| ==> At(deps, h)[i] != t;
    }
  }

  lemma NoRepeatSnoc(list: seq<Hash>, h: Hash)
    ensures NoRepeat(list) && (forall i :: 0 <= i < |list| ==> list[i] != h) ==> NoRepeat(list + [h])
    ensures NoRepeat([])
  {
  }

  lemma {:induction false} SingleNoRepeat(list: seq<Hash>)
    requires forall t :: multiset(list)[t] <= 1
    ensures NoRepeat(list)
  {
    if list != [] {
      var n := |list| - 1;
      assert list == list[..n] + [list[n]];
      forall t
        ensures multiset(list[..n])[t] <= 1
      {
        assert multiset(list)[t] >= multiset(list[..n])[t];
      }
      SingleNoRepeat(list[..n]);
      assert multiset(list)[list[n]] == multiset(list[..n])[list[n]] + 1;
      forall i | 0 <= i < n
        ensures list[i] != list[n]
      {
        assert list[..n][i] in multiset(list[..n]);
      }
      NoRepeatSnoc(list[..n], list[n]);
    }
  }

  /** An input that is there once is counted once. */
  lemma {:induction false} CountOnce(ins: seq<Hash>, h: Hash)
    requires forall i, j :: 0 <= i < j < |ins| && ins[i] == h ==> ins[j] != h
    ensures multiset(ins)[h] <= 1
  {
    if ins != [] {
      var n := |ins| - 1;
      assert ins == ins[..n] + [ins[n]];
      CountOnce(ins[..n], h);
      assert ins[n] == h ==> forall i :: 0 <= i < n ==> ins[..n][i] != h;
    }
  }

  /** The state in which the loop starts: the queue has those that wait for nothing. */
  ghost predicate Prepared(pool: Pool, c: Choice)
  {
    && c.block == [] && c.fee == 0 && Lists(pool, pool.Keys, c.deps)
    && c.waits.Keys == pool.Keys && (forall h :: h in pool ==> c.waits[h] == Parents(pool, pool[h]))
    && NoRepeat(c.queue) && (forall i :: 0 <= i < |c.queue| ==> c.queue[i] in pool && c.waits[c.queue[i]] == {})
    && (forall h :: h in pool && c.waits[h] == {} ==> h in c.queue)
  }

  /** The loop over the pool that sets up the dependencies and fills the queue. */
  method Prepare(pool: Pool, txns: seq<Hash>, size0: uint32, sigOps0: nat, sortedByFee: bool) returns (c: Choice)
    requires Keyed(pool) && NoRepeat(txns) && Members(txns) == pool.Keys
    ensures Prepared(pool, c) && c.size == size0 && c.sigOps == sigOps0 && c.sortedByFee == sortedByFee
  {
    hide NoRepeat, Parents;
    var deps, queue, waits := map[], [], map[];
    NoRepeatSnoc([], 0);
    for i := 0 to |txns|
      invariant Lists(pool, Members(txns[..i]), deps)
      invariant waits.Keys == Members(txns[..i]) && forall h :: h in waits ==>
          h in pool && waits[h] == Parents(pool, pool[h])
      invariant NoRepeat(queue) && forall k :: 0 <= k < |queue| ==> queue[k] in waits && waits[queue[k]] == {}
      invariant forall h :: h in waits && waits[h] == {} ==> h in queue
    {
      var h := txns[i];
      assert h in Members(txns);
      assert txns[..i + 1] == txns[..i] + [h];
      MembersSnoc(txns[..i], h);
      NotSeen(txns, i);
      var w;
      deps, w := ListTx(pool, pool[h], Members(txns[..i]), deps);
      waits := waits[h := w];
      if w == {} {
        NoRepeatSnoc(queue, h);
        queue := queue + [h];
      }
    }
    assert txns[..|txns|] == txns;
    c := Choice(queue, deps, waits, [], size0, sigOps0, 0, sortedByFee);
  }

  lemma NotSeen(txns: seq<Hash>, i: nat)
    requires NoRepeat(txns) && i < |txns|
    ensures txns[i] !in Members(txns[..i])
  {
  }

  /** Who is on the list of a transaction refers to it, and once only if there is one input from each. */
  lemma ListsMean(pool: Pool, deps: map<Hash, seq<Hash>>, h: Hash)
    requires Lists(pool, pool.Keys, deps) && h in deps
    ensures forall i :: 0 <= i < |deps[h]| ==> deps[h][i] in pool && h in Parents(pool, pool[deps[h][i]])
    ensures SingleParents(pool) ==> NoRepeat(deps[h])
  {
    forall i | 0 <= i < |deps[h]|
      ensures deps[h][i] in pool && h in Parents(pool, pool[deps[h][i]])
    {
      var t := deps[h][i];
      assert t in multiset(At(deps, h));
      assert h in multiset(pool[t].ins);
      var j :| 0 <= j < |pool[t].ins| && pool[t].ins[j] == h;
    }
    if SingleParents(pool) {
      forall t
        ensures multiset(deps[h])[t] <= 1
      {
        if t in deps[h] {
          assert multiset(At(deps, h))[t] == multiset(pool[t].ins)[h];
          CountOnce(pool[t].ins, h);
        }
      }
      SingleNoRepeat(deps[h]);
    }
  }

  lemma PreparedOk(pool: Pool, lim: Limits, c: Choice)
    requires Prepared(pool, c)
    ensures Ordered(pool, c) && Counted(pool, lim, c.size, c.sigOps, c)
    ensures SingleParents(pool) ==> Once(c)
  {
    forall h | h in c.deps
      ensures forall i :: 0 <= i < |c.deps[h]| ==> c.deps[h][i] in pool && h in c.waits[c.deps[h][i]]
      ensures SingleParents(pool) ==> NoRepeat(c.deps[h])
    {
      ListsMean(pool, c.deps, h);
    }
    hide Parents, Lists, SingleParents;
  }

  /** One round, for a transaction that is highest in the queue. */
  ghost predicate OneRound(pool: Pool, lim: Limits, c: Choice, d: Choice)
  {
    exists k: nat ::
      k < |c.queue| && c.queue[k] in pool && Highest(pool, c.queue, c.sortedByFee, k) && d == Step(pool, lim, c, k)
  }

  /** A run of the loop, whichever of the highest ones the heap pops. */
  ghost predicate Rounds(pool: Pool, lim: Limits, run: seq<Choice>)
  {
    run != [] && forall i :: 0 < i < |run| ==> OneRound(pool, lim, run[i - 1], run[i])
  }

  /** The choice of the transactions for a new block. It ends; every transaction that is chosen comes
      after its parents in the pool; the fees, the size and the signature operations are the sums over
      the chosen ones, and within the limits; and none is chosen twice, if no transaction has two
      inputs from one transaction of the pool. The states of the loop are in `run`. */
  method SelectTxs(pool: Pool, txns: seq<Hash>, lim: Limits, size0: uint32, sigOps0: nat)
    returns (c: Choice, ghost run: seq<Choice>)
    requires Keyed(pool) && NoRepeat(txns) && Members(txns) == pool.Keys
    ensures forall i :: 0 <= i < |c.block| ==> c.block[i] in pool
    ensures ParentsFirst(pool, c.block)
    ensures Counted(pool, lim, size0, sigOps0, c)
    ensures SingleParents(pool) ==> NoRepeat(c.block)
    ensures Rounds(pool, lim, run) && Prepared(pool, run[0]) && run[|run| - 1] == c && c.queue == []
  {
    hide Ordered, Counted, Once, Step, Measure, Prepared, OneRound, Highest;
    c := Prepare(pool, txns, size0, sigOps0, lim.prioritySize == 0);
    PreparedOk(pool, lim, c);
    run := [c];
    while |c.queue| > 0
      invariant Ordered(pool, c) && Counted(pool, lim, size0, sigOps0, c) && (SingleParents(pool) ==> Once(c))
      invariant Rounds(pool, lim, run) && Prepared(pool, run[0]) && run[|run| - 1] == c
      decreases Measure(c)
    {
      AllInPool(pool, c);
      var k := PopIndex(pool, c.queue, c.sortedByFee);
      StepOrdered(pool, lim, c, k);
      StepCounted(pool, lim, size0, sigOps0, c, k);
      StepMeasure(pool, lim, c, k);
      if SingleParents(pool) {
        StepOnce(pool, lim, c, k);
      }
      RunsOn(pool, lim, run, k);
      c := Round(pool, lim, c, k);
      run := run + [c];
    }
    Finished(pool, c);
  }

  lemma RunsOn(pool: Pool, lim: Limits, run: seq<Choice>, k: nat)
    requires Rounds(pool, lim, run) && k < |run[|run| - 1].queue| && run[|run| - 1].queue[k] in pool
    requires Highest(pool, run[|run| - 1].queue, run[|run| - 1].sortedByFee, k)
    ensures Rounds(pool, lim, run + [Step(pool, lim, run[|run| - 1], k)])
  {
    hide Step, Highest;
    var c := run[|run| - 1];
    var more := run + [Step(pool, lim, c, k)];
    forall i | 0 < i < |more|
      ensures OneRound(pool, lim, more[i - 1], more[i])
    {
      if i < |run| {
        assert more[i] == run[i] && more[i - 1] == run[i - 1];
      } else {
        assert more[i - 1] == c;
      }
    }
  }

  lemma AllInPool(pool: Pool, c: Choice)
    requires Ordered(pool, c)
    ensures forall i :: 0 <= i < |c.queue| ==> c.queue[i] in pool
  {
  }

  lemma Finished(pool: Pool, c: Choice)
    requires Ordered(pool, c)
    ensures (forall i :: 0 <= i < |c.block| ==> c.block[i] in pool) && ParentsFirst(pool, c.block)
    ensures Once(c) ==> NoRepeat(c.block)
  {
  }

  /** The condition is needed: a transaction that spends two outputs of another one of the pool is
      released twice, and if there is room it is in the block twice. */
  lemma TwiceInBlock(lim: Limits, p: PoolTx, t: PoolTx, c: Choice)
    requires p.hash != t.hash && p.ins == [] && t.ins == [p.hash, p.hash] && t.fee >= 0 && p.fee >= 0
    requires p.fee + 2 * t.fee <= MAX_AMOUNT && p.size as int + 2 * t.size < lim.maxSize && p.sigOps +
        2 * t.sigOps <= lim.maxSigOps
    requires p.feePerKB >= MIN_RELAY_FEE && t.feePerKB >= MIN_RELAY_FEE
    requires c == Choice([p.hash], map[p.hash := [t.hash, t.hash]], map[p.hash := {}, t.hash := {p.hash}], [], 0, 0, 0,
        true)
    ensures var pool := map[p.hash := p, t.hash := t];
            var c1 := Step(pool, lim, c, 0);
            && c1.queue == [t.hash, t.hash]
            && Step(pool, lim, c1, 0).queue == [t.hash]
            && Step(pool, lim, Step(pool, lim, c1, 0), 0).block == [p.hash, t.hash, t.hash]
  {
    hide Step, Release;
    var pool := map[p.hash := p, t.hash := t];
    var c1 := Choice([t.hash, t.hash], map[], map[p.hash := {}, t.hash := {}], [p.hash], p.size, p.sigOps, p.fee, true);
    assert Step(pool, lim, c, 0) == c1 by {
      StepTakes(pool, lim, c);
      assert c.deps - {p.hash} == map[] && c.queue[1..] == [] && c.block + [p.hash] == [p.hash];
      assert [] + [t.hash, t.hash] == [t.hash, t.hash];
      ReleaseTwice(Choice([], map[], map[p.hash := {}, t.hash := {p.hash}], [p.hash], p.size, p.sigOps, p.fee, true),
          p.hash, t.hash);
      assert map[p.hash := {}, t.hash := {p.hash}][t.hash := {}] == map[p.hash := {}, t.hash := {}];
    }
    var c2 := c1.(queue := [t.hash], block := [p.hash, t.hash], size := p.size + t.size, sigOps := p.sigOps + t.sigOps,
        fee := p.fee + t.fee);
    assert Step(pool, lim, c1, 0) == c2 by {
      StepTakes(pool, lim, c1);
      ReleaseNone(c2, t.hash);
      assert c1.deps - {t.hash} == map[] && c1.queue[1..] == [t.hash] && c1.block + [t.hash] == [p.hash, t.hash];
    }
    StepTakes(pool, lim, c2);
    assert c2.deps - {t.hash} == map[] && c2.queue[1..] == [] && c2.block + [t.hash] == [p.hash, t.hash, t.hash];
    var c3 := c2.(queue := [], block := [p.hash, t.hash, t.hash], size := p.size + t.size + t.size,
        sigOps := p.sigOps + t.sigOps + t.sigOps, fee := p.fee + t.fee + t.fee);
    ReleaseNone(c3, t.hash);
  }

  lemma StepTakes(pool: Pool, lim: Limits, c: Choice)
    requires c.queue != [] && c.queue[0] in pool && c.sortedByFee && pool[c.queue[0]].hash == c.queue[0]
    requires var tx := pool[c.queue[0]];
             && c.size as int + tx.size < lim.maxSize && c.sigOps + tx.sigOps <= lim.maxSigOps
             && tx.feePerKB >= MIN_RELAY_FEE && 0 <= c.fee + tx.fee <= MAX_AMOUNT
    ensures var h := c.queue[0];
            var tx := pool[h];
            Step(pool, lim, c, 0) ==
              Release(c.(queue := c.queue[1..], deps := c.deps - {h}, block := c.block + [h], size := c.size + tx.size,
                  sigOps := c.sigOps + tx.sigOps, fee := c.fee + tx.fee),
                      h, if h in c.deps then c.deps[h] else [])
  {
    hide Release;
    assert c.queue[..0] + c.queue[1..] == c.queue[1..];
  }

  lemma ReleaseNone(c: Choice, h: Hash)
    ensures Release(c, h, []) == c
  {
  }

  lemma ReleaseTwice(c: Choice, h: Hash, d: Hash)
    requires d in c.waits && c.waits[d] == {h}
    ensures Release(c, h, [d, d]) == c.(queue := c.queue + [d, d], waits := c.waits[d := {}])
  {
    var ds := [d, d];
    assert ds[..1] == [d] && [d][..0] == [];
    var a := c.(queue := c.queue + [d], waits := c.waits[d := {}]);
    assert Release(c, h, [d]) == a;
    assert a.waits[d := {}] == a.waits && a.queue + [d] == c.queue + [d, d];
  }
}
