/** What filling a block template does with the transactions that wait for another one: when they are
    released and how often, when they are lost, and when all are chosen. */
module TxRelease {
  import opened Hashes
  import opened Money
  import opened TxSelect

  /** Who is listed as waiting does wait, and who is queued or chosen does not. */
  ghost predicate Waiting(c: Choice)
  {
    && (forall h, i :: h in c.deps && 0 <= i < |c.deps[h]| ==> c.deps[h][i] in c.waits && h in c.waits[c.deps[h][i]])
    && (forall t :: t in c.queue ==> t in c.waits && c.waits[t] == {})
    && (forall t :: t in c.block ==> t in c.waits && c.waits[t] == {})
  }

  /** What releasing does to the waits: those on the list no longer wait for `h`. */
  lemma {:induction false} ReleaseWaits(c: Choice, h: Hash, ds: seq<Hash>, t: Hash)
    requires t in c.waits
    ensures var r := Release(c, h, ds);
            && r.waits.Keys == c.waits.Keys && r.waits[t] == if t in ds then c.waits[t] - {h} else c.waits[t]
    decreases |ds|
  {
    if ds != [] {
      ReleaseWaits(c, h, ds[..|ds| - 1], t);
    }
  }

  /** How often releasing queues a transaction: as often as it is on the list, if `h` was the last it
      waited for, and not at all otherwise. */
  lemma {:induction false} ReleaseCount(c: Choice, h: Hash, ds: seq<Hash>, t: Hash)
    requires t in c.waits
    ensures multiset(Release(c, h, ds).queue)[t] ==
            multiset(c.queue)[t] + if c.waits[t] - {h} == {} then multiset(ds)[t] else 0
    decreases |ds|
  {
    if ds != [] {
      var n := |ds| - 1;
      assert ds == ds[..n] + [ds[n]];
      ReleaseCount(c, h, ds[..n], t);
      ReleaseWaits(c, h, ds[..n], t);
    }
  }

  lemma {:induction false} ReleaseKeeps(c: Choice, h: Hash, ds: seq<Hash>)
    requires Waiting(c) && h !in c.deps
    ensures Waiting(Release(c, h, ds))
    decreases |ds|
  {
    if ds != [] {
      ReleaseKeeps(c, h, ds[..|ds| - 1]);
      ReleaseSize(c, h, ds[..|ds| - 1]);
    }
  }

  lemma TakeKeeps(c: Choice, tx: PoolTx, ds: seq<Hash>)
    requires Waiting(c) && tx.hash !in c.deps && tx.hash in c.waits && c.waits[tx.hash] == {}
    ensures Waiting(Take(c, tx, ds))
  {
    hide Release;
    var fee := Checked(c.fee + tx.fee);
    if fee.Some? {
      ReleaseKeeps(Added(c, tx, fee.value), tx.hash, ds);
    }
  }

  /** The state once a transaction is in the block, before those that waited for it are released. */
  function Added(c: Choice, tx: PoolTx, fee: int): Choice
  {
    c.(block := c.block + [tx.hash], size := (c.size as int + tx.size) % 0x1_0000_0000,
       sigOps := c.sigOps + tx.sigOps, fee := fee)
  }

  /** The state without the popped transaction and its list. */
  function Popped(c: Choice, k: nat): Choice
    requires k < |c.queue|
  {
    c.(queue := c.queue[..k] + c.queue[k + 1..], deps := c.deps - {c.queue[k]})
  }

  lemma PoppedKeeps(c: Choice, k: nat)
    requires Waiting(c) && k < |c.queue|
    ensures Waiting(Popped(c, k)) && c.queue[k] !in Popped(c, k).deps
    ensures c.queue[k] in c.waits && c.waits[c.queue[k]] == {}
  {
    assert c.queue[k] in c.queue;
  }

  lemma BackKeeps(c: Choice, h: Hash)
    requires Waiting(c) && h in c.waits && c.waits[h] == {}
    ensures Waiting(c.(sortedByFee := true)) && Waiting(c.(sortedByFee := true, queue := c.queue + [h]))
  {
  }

  /** Each round keeps this. */
  lemma StepWaiting(pool: Pool, lim: Limits, c: Choice, k: nat)
    requires Keyed(pool) && Waiting(c) && k < |c.queue| && c.queue[k] in pool
    ensures Waiting(Step(pool, lim, c, k))
  {
    hide Waiting, Take;
    PoppedKeeps(c, k);
    var h, rest := c.queue[k], Popped(c, k);
    BackKeeps(rest, h);
    TakeKeeps(rest, pool[h], At(c.deps, h));
    TakeKeeps(rest.(sortedByFee := true), pool[h], At(c.deps, h));
    assert rest.(sortedByFee := true).(queue := rest.queue + [h]) == rest.(sortedByFee := true, queue := rest.queue +
        [h]);
  }

  lemma StartWaiting(pool: Pool, c: Choice)
    requires Prepared(pool, c)
    ensures Waiting(c)
  {
    forall h | h in c.deps
      ensures forall i :: 0 <= i < |c.deps[h]| ==> c.deps[h][i] in c.waits && h in c.waits[c.deps[h][i]]
    {
      ListsMean(pool, c.deps, h);
    }
  }

  /** The popped transaction passes the limits on size, signature operations and fee rate. */
  predicate Passes(lim: Limits, c: Choice, tx: PoolTx)
  {
    var plus := (c.size as int + tx.size) % 0x1_0000_0000;
    && c.size <= plus < lim.maxSize && c.sigOps + tx.sigOps <= lim.maxSigOps
    && (c.sortedByFee && tx.feePerKB < MIN_RELAY_FEE ==> plus < lim.minSize)
  }

  /** The guard of the branch that puts the popped transaction back and changes the order. */
  predicate PutsBack(lim: Limits, c: Choice, tx: PoolTx)
  {
    var plus := (c.size as int + tx.size) % 0x1_0000_0000;
    !c.sortedByFee && (plus > lim.prioritySize || tx.priority < MIN_HIGH_PRIORITY)
  }

  /** The order changes once the part of the block that is kept for priorities is full, or the priority
      is not high any more. */
  predicate TurnsOrder(lim: Limits, c: Choice, tx: PoolTx)
  {
    (c.size as int + tx.size) % 0x1_0000_0000 >= lim.prioritySize || tx.priority <= MIN_HIGH_PRIORITY
  }

  predicate Takes(lim: Limits, c: Choice, tx: PoolTx)
  {
    Passes(lim, c, tx) && !PutsBack(lim, c, tx) && Checked(c.fee + tx.fee).Some?
  }

  /** The three outcomes of a round: the transaction is taken, put back, or left. */
  lemma StepCases(pool: Pool, lim: Limits, c: Choice, k: nat)
    requires Keyed(pool) && k < |c.queue| && c.queue[k] in pool
    ensures var tx, rest, d := pool[c.queue[k]], Popped(c, k), Step(pool, lim, c, k);
            var turned := rest.(sortedByFee := d.sortedByFee);
            && (d.sortedByFee <==> c.sortedByFee || (Passes(lim, c, tx) && TurnsOrder(lim, c, tx)))
            && (Takes(lim, c, tx) ==> d == Release(Added(turned, tx, c.fee + tx.fee), tx.hash, At(c.deps, tx.hash)))
            && (Passes(lim, c, tx) && PutsBack(lim, c, tx) ==>
                  d.sortedByFee && d == turned.(queue := rest.queue + [tx.hash]))
            && (!Passes(lim, c, tx) || (!PutsBack(lim, c, tx) && !Takes(lim, c, tx)) ==> d == turned)
  {
    hide Release;
    var tx, rest := pool[c.queue[k]], Popped(c, k);
    var fee := Checked(c.fee + tx.fee);
    if fee.Some? {
      ReleaseSize(Added(rest, tx, fee.value), tx.hash, At(c.deps, tx.hash));
      ReleaseSize(Added(rest.(sortedByFee := true), tx, fee.value), tx.hash, At(c.deps, tx.hash));
    }
  }

  /** A transaction is added exactly if it passes, is not put back, and the fees stay an amount. */
  lemma TakenIff(pool: Pool, lim: Limits, c: Choice, k: nat)
    requires Keyed(pool) && k < |c.queue| && c.queue[k] in pool
    ensures var d := Step(pool, lim, c, k);
            && d.block == (if Takes(lim, c, pool[c.queue[k]]) then c.block + [c.queue[k]] else c.block)
            && d.deps == c.deps - {c.queue[k]}
  {
    hide Step, Release, Takes, Passes, PutsBack;
    StepCases(pool, lim, c, k);
    var tx, rest, d := pool[c.queue[k]], Popped(c, k), Step(pool, lim, c, k);
    ReleaseSize(Added(rest.(sortedByFee := d.sortedByFee), tx, c.fee + tx.fee), tx.hash, At(c.deps, tx.hash));
    TakesOr(lim, c, tx);
  }

  lemma TakesOr(lim: Limits, c: Choice, tx: PoolTx)
    ensures Takes(lim, c, tx) ==> Passes(lim, c, tx) && !PutsBack(lim, c, tx)
  {
  }

  /** Taking a transaction releases everyone who waits for it, and queues those who waited for nothing
      else: each as often as it has inputs from that transaction. So one is queued twice if and only if
      the transaction it waits for last occurs twice among its inputs. */
  lemma TakenReleases(pool: Pool, lim: Limits, c: Choice, k: nat, t: Hash)
    requires Keyed(pool) && Waiting(c) && k < |c.queue| && c.queue[k] in pool && Takes(lim, c, pool[c.queue[k]])
    requires Listing(pool, c) && c.queue[k] in c.deps && t in pool && t in c.waits && c.queue[k] in c.waits[t]
    ensures var h, d := c.queue[k], Step(pool, lim, c, k);
            && t in d.waits && h !in d.waits[t]
            && multiset(d.queue)[t] == if c.waits[t] == {h} then multiset(pool[t].ins)[h] else 0
  {
    hide Step, Release, Takes, Passes, PutsBack, Listing;
    var h, tx, rest, d := c.queue[k], pool[c.queue[k]], Popped(c, k), Step(pool, lim, c, k);
    StepCases(pool, lim, c, k);
    TakesOr(lim, c, tx);
    var a := Added(rest.(sortedByFee := d.sortedByFee), tx, c.fee + tx.fee);
    ListedTimes(pool, c, h, t);
    ReleaseWaits(a, h, At(c.deps, h), t);
    ReleaseCount(a, h, At(c.deps, h), t);
    assert t !in rest.queue;
    assert c.waits[t] - {h} == {} <==> c.waits[t] == {h};
  }

  /** The lists that are left are complete: everyone is there as often as it has inputs from the one. */
  ghost predicate Listing(pool: Pool, c: Choice)
  {
    && (forall h, t :: h in c.deps && t in pool ==> multiset(c.deps[h])[t] == multiset(pool[t].ins)[h])
    && (forall t, h :: t in pool && t in c.waits && h in c.waits[t] ==> h in pool[t].ins)
  }

  lemma ListedTimes(pool: Pool, c: Choice, h: Hash, t: Hash)
    requires Listing(pool, c) && h in c.deps && t in pool && t in c.waits && h in c.waits[t]
    ensures multiset(At(c.deps, h))[t] == multiset(pool[t].ins)[h] && t in At(c.deps, h)
  {
    assert h in multiset(pool[t].ins);
  }

  lemma StartListing(pool: Pool, c: Choice)
    requires Prepared(pool, c)
    ensures Listing(pool, c)
  {
    forall h, t | h in c.deps && t in pool
      ensures multiset(c.deps[h])[t] == multiset(pool[t].ins)[h]
    {
      assert At(c.deps, h) == c.deps[h];
    }
  }

  lemma StepListing(pool: Pool, lim: Limits, c: Choice, k: nat)
    requires Keyed(pool) && Listing(pool, c) && k < |c.queue| && c.queue[k] in pool
    ensures Listing(pool, Step(pool, lim, c, k))
  {
    hide Step;
    TakenIff(pool, lim, c, k);
    var d := Step(pool, lim, c, k);
    forall t | t in c.waits
      ensures t in d.waits && d.waits[t] <= c.waits[t] && d.waits.Keys == c.waits.Keys
    {
      StepWaits(pool, lim, c, k, t);
    }
    SameKeys(pool, lim, c, k);
  }

  lemma StepWaits(pool: Pool, lim: Limits, c: Choice, k: nat, t: Hash)
    requires Keyed(pool) && k < |c.queue| && c.queue[k] in pool && t in c.waits
    ensures var h, d := c.queue[k], Step(pool, lim, c, k);
            && d.waits.Keys == c.waits.Keys
            && d.waits[t] == if Takes(lim, c, pool[h]) && t in At(c.deps, h) then c.waits[t] - {h} else c.waits[t]
  {
    hide Step, Release, Takes, Passes, PutsBack;
    var tx, rest, d := pool[c.queue[k]], Popped(c, k), Step(pool, lim, c, k);
    StepCases(pool, lim, c, k);
    TakesOr(lim, c, tx);
    ReleaseWaits(Added(rest.(sortedByFee := d.sortedByFee), tx, c.fee + tx.fee), tx.hash, At(c.deps, tx.hash), t);
  }

  lemma {:induction false} ReleaseKeys(c: Choice, h: Hash, ds: seq<Hash>)
    ensures Release(c, h, ds).waits.Keys == c.waits.Keys
    decreases |ds|
  {
    if ds != [] {
      ReleaseKeys(c, h, ds[..|ds| - 1]);
    }
  }

  lemma SameKeys(pool: Pool, lim: Limits, c: Choice, k: nat)
    requires Keyed(pool) && k < |c.queue| && c.queue[k] in pool
    ensures Step(pool, lim, c, k).waits.Keys == c.waits.Keys
  {
    hide Step, Release, Takes, Passes, PutsBack;
    var tx, rest, d := pool[c.queue[k]], Popped(c, k), Step(pool, lim, c, k);
    StepCases(pool, lim, c, k);
    TakesOr(lim, c, tx);
    ReleaseKeys(Added(rest.(sortedByFee := d.sortedByFee), tx, c.fee + tx.fee), tx.hash, At(c.deps, tx.hash));
  }

  /** `t` waits for `h`, but is not on a list that will release it. */
  predicate Lost(c: Choice, h: Hash, t: Hash)
  {
    h !in c.deps && t in c.waits && h in c.waits[t] && t !in c.queue && t !in c.block
  }

  /** Putting a transaction back loses everyone who waits for it. */
  lemma PutBackLoses(pool: Pool, lim: Limits, c: Choice, k: nat, t: Hash)
    requires Keyed(pool) && Waiting(c) && k < |c.queue| && c.queue[k] in pool
    requires Passes(lim, c, pool[c.queue[k]]) && PutsBack(lim, c, pool[c.queue[k]])
    requires t in At(c.deps, c.queue[k])
    ensures Lost(Step(pool, lim, c, k), c.queue[k], t) && c.queue[k] in Step(pool, lim, c, k).queue
  {
    hide Step, Release;
    StepCases(pool, lim, c, k);
    var i :| 0 <= i < |c.deps[c.queue[k]]| && c.deps[c.queue[k]][i] == t;
  }

  lemma {:induction false} ReleaseLost(c: Choice, g: Hash, ds: seq<Hash>, h: Hash, t: Hash)
    requires Lost(c, h, t) && (g != h || ds == [])
    ensures Lost(Release(c, g, ds), h, t)
    decreases |ds|
  {
    if ds != [] {
      ReleaseLost(c, g, ds[..|ds| - 1], h, t);
      ReleaseSize(c, g, ds[..|ds| - 1]);
    }
  }

  /** Who is lost stays lost in every round. */
  lemma StepLost(pool: Pool, lim: Limits, c: Choice, k: nat, h: Hash, t: Hash)
    requires Keyed(pool) && k < |c.queue| && c.queue[k] in pool && Lost(c, h, t)
    ensures Lost(Step(pool, lim, c, k), h, t)
  {
    hide Step, Release, Passes, PutsBack;
    StepCases(pool, lim, c, k);
    var tx, rest, d := pool[c.queue[k]], Popped(c, k), Step(pool, lim, c, k);
    assert c.queue[k] in c.queue;
    if Takes(lim, c, tx) {
      ReleaseLost(Added(rest.(sortedByFee := d.sortedByFee), tx, c.fee + tx.fee), tx.hash, At(c.deps, tx.hash), h, t);
    }
  }

  /** So it is never chosen, even if the one it waits for is. */
  lemma {:induction false} LostForever(pool: Pool, lim: Limits, run: seq<Choice>, i: nat, j: nat, h: Hash, t: Hash)
    requires Keyed(pool) && Rounds(pool, lim, run) && i <= j < |run| && Lost(run[i], h, t)
    ensures Lost(run[j], h, t) && t !in run[j].block
    decreases j
  {
    hide Step, Highest;
    if i < j {
      LostForever(pool, lim, run, i, j - 1, h, t);
      assert OneRound(pool, lim, run[j - 1], run[j]);
      var k: nat :| k < |run[j - 1].queue| && run[j - 1].queue[k] in pool && run[j] == Step(pool, lim, run[j - 1], k);
      StepLost(pool, lim, run[j - 1], k, h, t);
    }
  }

  /** An example: the parent is put back and then taken, and the child, with any fee and in an empty
      block, is not chosen. */
  lemma PutBackExample(lim: Limits, p: PoolTx, t: PoolTx, c: Choice)
    requires p.hash != t.hash && p.ins == [] && t.ins == [p.hash] && p.size < lim.maxSize && p.sigOps <= lim.maxSigOps
    requires p.priority < MIN_HIGH_PRIORITY && p.feePerKB >= MIN_RELAY_FEE && 0 <= p.fee <= MAX_AMOUNT
    requires c == Choice([p.hash], map[p.hash := [t.hash]], map[p.hash := {}, t.hash := {p.hash}], [], 0, 0, 0, false)
    ensures var pool := map[p.hash := p, t.hash := t];
            var c1 := Step(pool, lim, c, 0);
            && c1.queue == [p.hash] && Step(pool, lim, c1, 0).block == [p.hash] && Step(pool, lim, c1, 0).queue == []
  {
    hide Step, Release;
    var pool := map[p.hash := p, t.hash := t];
    StepCases(pool, lim, c, 0);
    var c1 := Step(pool, lim, c, 0);
    assert c.queue[..0] + c.queue[1..] == [];
    assert c1.queue == [p.hash] && c1.deps == map[] && c1.block == [] by {
      assert [] + [p.hash] == [p.hash] && c.deps - {p.hash} == map[];
    }
    StepCases(pool, lim, c1, 0);
    assert c1.queue[..0] + c1.queue[1..] == [] && At(c1.deps, p.hash) == [];
    ReleaseNone(Added(Popped(c1, 0).(sortedByFee := Step(pool, lim, c1, 0).sortedByFee), p, p.fee), p.hash);
  }

  /** Nobody is forgotten: each is chosen, queued or waits, and waits only for parents that are still to
      come and have a list. */
  ghost predicate Complete(pool: Pool, c: Choice)
  {
    && c.waits.Keys == pool.Keys
    && (forall t :: t in pool ==> t in c.block || t in c.queue || c.waits[t] != {})
    && (forall t :: t in pool ==> WaitsForListed(pool, c, t))
    && (forall h :: h in c.deps ==> h !in c.block)
  }

  ghost predicate WaitsForListed(pool: Pool, c: Choice, t: Hash)
    requires t in pool && t in c.waits
  {
    forall h :: h in c.waits[t] ==> h in Parents(pool, pool[t]) && h in c.deps
  }

  lemma StartComplete(pool: Pool, c: Choice)
    requires Prepared(pool, c)
    ensures Complete(pool, c)
  {
    forall t | t in pool
      ensures WaitsForListed(pool, c, t)
    {
      forall h | h in c.waits[t]
        ensures h in c.deps
      {
        assert h in multiset(pool[t].ins);
        assert multiset(At(c.deps, h))[t] == multiset(pool[t].ins)[h];
      }
    }
  }

  /** A round that takes its transaction keeps this. */
  lemma StepComplete(pool: Pool, lim: Limits, c: Choice, k: nat)
    requires Keyed(pool) && Waiting(c) && Listing(pool, c) && Complete(pool, c)
    requires k < |c.queue| && c.queue[k] in pool && Takes(lim, c, pool[c.queue[k]])
    ensures Complete(pool, Step(pool, lim, c, k))
  {
    hide Step, Takes, Listing, Waiting, Parents;
    var h, d := c.queue[k], Step(pool, lim, c, k);
    TakenIff(pool, lim, c, k);
    SameKeys(pool, lim, c, k);
    forall t | t in pool
      ensures t in d.block || t in d.queue || d.waits[t] != {}
      ensures d.waits[t] <= c.waits[t] && (h in c.waits[t] ==> h !in d.waits[t])
    {
      StepWaits(pool, lim, c, k, t);
      StillThere(pool, lim, c, k, t);
      if h in c.waits[t] {
        TakenReleases(pool, lim, c, k, t);
        ListedTimes(pool, c, h, t);
      }
    }
    assert d.deps == c.deps - {h} && d.block == c.block + [h];
    forall g | g in d.deps
      ensures g !in d.block
    {
      assert g != h;
    }
    forall t | t in pool
      ensures WaitsForListed(pool, d, t)
    {
      assert WaitsForListed(pool, c, t);
    }
  }

  lemma {:induction false} ReleaseQueues(c: Choice, h: Hash, ds: seq<Hash>, t: Hash)
    requires t in c.queue
    ensures t in Release(c, h, ds).queue
    decreases |ds|
  {
    if ds != [] {
      ReleaseQueues(c, h, ds[..|ds| - 1], t);
    }
  }

  /** Who was chosen or queued is chosen or queued after a round that takes its transaction. */
  lemma StillThere(pool: Pool, lim: Limits, c: Choice, k: nat, t: Hash)
    requires Keyed(pool) && k < |c.queue| && c.queue[k] in pool && Takes(lim, c, pool[c.queue[k]])
    requires t in c.waits
    ensures var d := Step(pool, lim, c, k); t in c.block || t in c.queue ==> t in d.block || t in d.queue
  {
    hide Step, Release, Passes, PutsBack;
    StepCases(pool, lim, c, k);
    TakenIff(pool, lim, c, k);
    var tx, rest, d := pool[c.queue[k]], Popped(c, k), Step(pool, lim, c, k);
    var a := Added(rest.(sortedByFee := d.sortedByFee), tx, c.fee + tx.fee);
    if t in c.queue && t != c.queue[k] {
      var i :| 0 <= i < |c.queue| && c.queue[i] == t;
      assert rest.queue[if i < k then i else i - 1] == t;
      ReleaseQueues(a, tx.hash, At(c.deps, tx.hash), t);
    }
  }

  lemma {:induction false} RunComplete(pool: Pool, lim: Limits, run: seq<Choice>, i: nat)
    requires Keyed(pool) && Rounds(pool, lim, run) && Prepared(pool, run[0]) && i < |run|
    requires forall j :: 0 < j <= i ==> |run[j].block| > |run[j - 1].block|
    ensures Waiting(run[i]) && Listing(pool, run[i]) && Complete(pool, run[i])
    decreases i
  {
    hide Step, Highest, Waiting, Listing, Complete, Prepared, Takes;
    if i == 0 {
      StartWaiting(pool, run[0]);
      StartListing(pool, run[0]);
      StartComplete(pool, run[0]);
    } else {
      RunComplete(pool, lim, run, i - 1);
      var c := run[i - 1];
      assert OneRound(pool, lim, c, run[i]);
      var k: nat :| k < |c.queue| && c.queue[k] in pool && run[i] == Step(pool, lim, c, k);
      TakenIff(pool, lim, c, k);
      StepWaiting(pool, lim, c, k);
      StepListing(pool, lim, c, k);
      StepComplete(pool, lim, c, k);
    }
  }

  /** The parents of each transaction rank below it: no transaction of the pool relies on itself. */
  ghost predicate Ranked(pool: Pool, rank: Hash -> nat)
  {
    forall t, h :: t in pool && h in Parents(pool, pool[t]) ==> rank(h) < rank(t)
  }

  lemma ParentsPooled(pool: Pool, tx: PoolTx)
    ensures Parents(pool, tx) <= pool.Keys
  {
  }

  lemma {:induction false} NobodyLeft(pool: Pool, c: Choice, rank: Hash -> nat, t: Hash)
    requires Complete(pool, c) && c.queue == [] && Ranked(pool, rank) && t in pool
    ensures t in c.block
    decreases rank(t)
  {
    if t !in c.block {
      var h :| h in c.waits[t];
      assert WaitsForListed(pool, c, t);
      ParentsPooled(pool, pool[t]);
      hide Parents;
      NobodyLeft(pool, c, rank, h);
    }
  }

  /** In a run in which no limit bites and nothing is put back, every transaction is chosen. */
  lemma AllChosen(pool: Pool, lim: Limits, run: seq<Choice>, rank: Hash -> nat)
    requires Keyed(pool) && Rounds(pool, lim, run) && Prepared(pool, run[0]) && run[|run| - 1].queue == []
    requires forall j :: 0 < j < |run| ==> |run[j].block| > |run[j - 1].block|
    requires Ranked(pool, rank)
    ensures forall t :: t in pool ==> t in run[|run| - 1].block
  {
    hide Complete, Prepared, Ranked;
    RunComplete(pool, lim, run, |run| - 1);
    forall t | t in pool
      ensures t in run[|run| - 1].block
    {
      NobodyLeft(pool, run[|run| - 1], rank, t);
    }
  }
}
