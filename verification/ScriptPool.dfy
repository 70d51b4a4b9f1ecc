/** The pool of script-checking goroutines, as the steps that the dispatcher and the handlers can take
    in any order. The channels are unbuffered: sending and receiving are one step of two parties. */
module ScriptPool {

  /** A handler waits for an item, checks one, has a verdict to send, or has left. */
  datatype Handler = Idle | Busy(item: nat) | Sending(item: nat) | Exited

  /** Returning closes the quit channel. */
  datatype Dispatcher = Running | Returned(ok: bool)

  /** `checked` remembers every check that was made, `reported` the items whose verdict the dispatcher
      has received. */
  datatype State = State(current: nat, processed: nat, dispatcher: Dispatcher, handlers: seq<Handler>,
                         checked: multiset<nat>, reported: set<nat>)

  /** The start of `Validate` with at least one item: as many handlers as three per processor, but at
      least one and no more than there are items. */
  function Workers(items: nat, cpus: nat): nat
    requires items > 0
  {
    var most := if cpus * 3 <= 0 then 1 else cpus * 3;
    if most > items then items else most
  }

  function Start(items: nat, cpus: nat): State
    requires items > 0
  {
    State(0, 0, Running, seq(Workers(items, cpus), _ => Idle), multiset{}, {})
  }

  /** The dispatcher hands an item to a handler. */
  predicate Hand(s: State, t: State, verdicts: seq<bool>, h: nat)
  {
    && s.dispatcher == Running && s.processed < |verdicts| && s.current < |verdicts|
    && h < |s.handlers| && s.handlers[h] == Idle
    && t == s.(current := s.current + 1, handlers := s.handlers[h := Busy(s.current)])
  }

  /** A handler comes to its verdict. */
  predicate Finish(s: State, t: State, h: nat)
  {
    && h < |s.handlers| && s.handlers[h].Busy?
    && var i := s.handlers[h].item;
       t == s.(checked := s.checked + multiset{i}, handlers := s.handlers[h := Sending(i)])
  }

  /** The dispatcher receives a verdict; on a bad one it returns and the handler leaves. */
  predicate Report(s: State, t: State, verdicts: seq<bool>, h: nat)
  {
    && s.dispatcher == Running && s.processed < |verdicts| && h < |s.handlers| && s.handlers[h].Sending?
    && s.handlers[h].item < |verdicts|
    && var i := s.handlers[h].item;
       var u := s.(processed := s.processed + 1, reported := s.reported + {i});
       if verdicts[i] then t == u.(handlers := s.handlers[h := Idle])
       else t == u.(handlers := s.handlers[h := Exited], dispatcher := Returned(false))
  }

  /** All verdicts are in: the dispatcher returns without an error. */
  predicate Close(s: State, t: State, verdicts: seq<bool>)
  {
    s.dispatcher == Running && s.processed >= |verdicts| && t == s.(dispatcher := Returned(true))
  }

  /** A handler notices that the quit channel is closed. One that could not deliver a good verdict
      goes back to its loop, one with a bad verdict leaves. */
  predicate Quit(s: State, t: State, verdicts: seq<bool>, h: nat)
  {
    && s.dispatcher.Returned? && h < |s.handlers|
    && ((s.handlers[h] == Idle && t == s.(handlers := s.handlers[h := Exited]))
        || (s.handlers[h].Sending? && s.handlers[h].item < |verdicts|
            && t == s.(handlers := s.handlers[h := if verdicts[s.handlers[h].item] then Idle else Exited])))
  }

  ghost predicate Next(s: State, t: State, verdicts: seq<bool>)
  {
    || (exists h: nat :: Hand(s, t, verdicts, h))
    || (exists h: nat :: Finish(s, t, h))
    || (exists h: nat :: Report(s, t, verdicts, h))
    || Close(s, t, verdicts)
    || (exists h: nat :: Quit(s, t, verdicts, h))
  }

  /** The handler holds the item. */
  predicate Holds(h: Handler, i: nat)
  {
    (h.Busy? || h.Sending?) && h.item == i
  }

  predicate Held(handlers: seq<Handler>, i: nat)
  {
    exists h :: 0 <= h < |handlers| && Holds(handlers[h], i)
  }

  /** What a handler holds was handed out and not yet reported; it is checked when there is a verdict to send. */
  predicate HandlerOk(s: State, h: Handler)
  {
    match h
    case Idle => true
    case Busy(i) => i < s.current && i !in s.reported && s.checked[i] == 0
    case Sending(i) => i < s.current && i !in s.reported && s.checked[i] == 1
    case Exited => s.dispatcher.Returned?
  }

  /** No item is with two handlers, and while the dispatcher runs every item that was handed out is with
      a handler or was reported. */
  ghost predicate Shared(s: State)
  {
    && (forall g, h, i: nat :: 0 <= g < h < |s.handlers| && Holds(s.handlers[g], i) ==> !Holds(s.handlers[h], i))
    && (s.dispatcher.Running? ==> forall i: nat :: i < s.current && i !in s.reported ==> Held(s.handlers, i))
  }

  /** A reported item was checked once, and only the error that ends the run comes from a bad item. */
  ghost predicate Verdicts(s: State, verdicts: seq<bool>)
  {
    && (forall i :: i in s.reported ==> i < s.current && s.checked[i] == 1)
    && (forall i: nat :: s.checked[i] <= 1)
    && (forall i: nat :: i >= s.current ==> s.checked[i] == 0)
    && (s.dispatcher != Returned(false) ==> forall i :: i in s.reported ==> i < |verdicts| && verdicts[i])
    && (s.dispatcher == Returned(false) ==> exists i: nat :: i in s.reported && i < |verdicts| && !verdicts[i])
  }

  ghost predicate Inv(s: State, verdicts: seq<bool>)
  {
    && s.current <= |verdicts| && |s.handlers| > 0 && |s.reported| == s.processed
    && (s.dispatcher == Returned(true) ==> s.processed >= |verdicts|)
    && (forall h :: 0 <= h < |s.handlers| ==> HandlerOk(s, s.handlers[h]))
    && Shared(s) && Verdicts(s, verdicts)
  }

  lemma StartInv(verdicts: seq<bool>, cpus: nat)
    requires verdicts != []
    ensures Inv(Start(|verdicts|, cpus), verdicts)
  {
  }

  lemma HandInv(s: State, t: State, verdicts: seq<bool>, h: nat)
    requires Inv(s, verdicts) && Hand(s, t, verdicts, h)
    ensures Inv(t, verdicts)
  {
    assert Holds(t.handlers[h], s.current);
    forall i: nat | i < t.current && i !in t.reported
      ensures Held(t.handlers, i)
    {
      if i < s.current {
        var g :| 0 <= g < |s.handlers| && Holds(s.handlers[g], i);
        assert Holds(t.handlers[g], i);
      }
    }
  }

  lemma FinishInv(s: State, t: State, verdicts: seq<bool>, h: nat)
    requires Inv(s, verdicts) && Finish(s, t, h)
    ensures Inv(t, verdicts)
  {
    var item := s.handlers[h].item;
    assert Holds(s.handlers[h], item);
    assert forall g, i: nat :: 0 <= g < |s.handlers| ==> (Holds(t.handlers[g], i) <==> Holds(s.handlers[g], i));
    forall g | 0 <= g < |s.handlers|
      ensures HandlerOk(t, t.handlers[g])
    {
      assert HandlerOk(s, s.handlers[g]);
      assert g != h ==> !Holds(s.handlers[g], item);
    }
    if s.dispatcher.Running? {
      forall i: nat | i < t.current && i !in t.reported
        ensures Held(t.handlers, i)
      {
        var g :| 0 <= g < |s.handlers| && Holds(s.handlers[g], i);
        assert Holds(t.handlers[g], i);
      }
    }
  }

  lemma ReportInv(s: State, t: State, verdicts: seq<bool>, h: nat)
    requires Inv(s, verdicts) && Report(s, t, verdicts, h)
    ensures Inv(t, verdicts)
  {
    var item := s.handlers[h].item;
    assert HandlerOk(s, s.handlers[h]) && Holds(s.handlers[h], item);
    assert item in t.reported;
    assert forall g, i: nat :: 0 <= g < |s.handlers| && g != h ==>
        (Holds(t.handlers[g], i) <==> Holds(s.handlers[g], i));
    forall g | 0 <= g < |s.handlers|
      ensures HandlerOk(t, t.handlers[g])
    {
      assert HandlerOk(s, s.handlers[g]);
      assert g != h ==> !Holds(s.handlers[g], item);
    }
    if t.dispatcher.Running? {
      forall i: nat | i < t.current && i !in t.reported
        ensures Held(t.handlers, i)
      {
        var g :| 0 <= g < |s.handlers| && Holds(s.handlers[g], i);
        assert Holds(t.handlers[g], i);
      }
    }
  }

  lemma QuitInv(s: State, t: State, verdicts: seq<bool>, h: nat)
    requires Inv(s, verdicts) && Quit(s, t, verdicts, h)
    ensures Inv(t, verdicts)
  {
    assert forall g, i: nat :: 0 <= g < |t.handlers| && Holds(t.handlers[g], i) ==> Holds(s.handlers[g], i);
  }

  lemma CloseInv(s: State, t: State, verdicts: seq<bool>)
    requires Inv(s, verdicts) && Close(s, t, verdicts)
    ensures Inv(t, verdicts)
  {
  }

  /** Every step of every party keeps the invariant. */
  lemma NextInv(s: State, t: State, verdicts: seq<bool>)
    requires Inv(s, verdicts) && Next(s, t, verdicts)
    ensures Inv(t, verdicts)
  {
    hide Inv, Hand, Finish, Report, Quit, Close;
    if h: nat :| Hand(s, t, verdicts, h) {
      HandInv(s, t, verdicts, h);
    } else if h: nat :| Finish(s, t, h) {
      FinishInv(s, t, verdicts, h);
    } else if h: nat :| Report(s, t, verdicts, h) {
      ReportInv(s, t, verdicts, h);
    } else if h: nat :| Quit(s, t, verdicts, h) {
      QuitInv(s, t, verdicts, h);
    } else {
      CloseInv(s, t, verdicts);
    }
  }

  /** An interleaving: any finite run from the start. */
  ghost predicate Run(run: seq<State>, verdicts: seq<bool>, cpus: nat)
  {
    && verdicts != [] && run != [] && run[0] == Start(|verdicts|, cpus)
    && forall k :: 0 < k < |run| ==> Next(run[k - 1], run[k], verdicts)
  }

  lemma {:induction false} RunInv(run: seq<State>, verdicts: seq<bool>, cpus: nat, k: nat)
    requires Run(run, verdicts, cpus) && k < |run|
    ensures Inv(run[k], verdicts)
    decreases k
  {
    hide Inv, Next, Start;
    if k == 0 {
      StartInv(verdicts, cpus);
    } else {
      RunInv(run, verdicts, cpus, k - 1);
      NextInv(run[k - 1], run[k], verdicts);
    }
  }

  /** A set of `n` numbers below `n` has them all. */
  lemma {:induction false} AllBelow(s: set<nat>, n: nat)
    requires |s| >= n && forall i :: i in s ==> i < n
    ensures forall i: nat :: i < n ==> i in s
    decreases n
  {
    if n > 0 {
      assert n - 1 in s by {
        if n - 1 !in s {
          Fewer(s, n - 1);
        }
      }
      AllBelow(s - {n - 1}, n - 1);
      forall i: nat | i < n
        ensures i in s
      {
        assert i < n - 1 ==> i in s - {n - 1};
      }
    }
  }

  lemma {:induction false} Fewer(s: set<nat>, n: nat)
    requires forall i :: i in s ==> i < n
    ensures |s| <= n
    decreases n
  {
    if n == 0 {
      assert s == {};
    } else {
      var rest := s - {n - 1};
      Fewer(rest, n - 1);
    }
  }

  /** In every interleaving `Validate` answers nil exactly when it returns and every item is good; then
      every item was checked, and was checked once. No item is ever checked twice. */
  lemma Answers(run: seq<State>, verdicts: seq<bool>, cpus: nat, k: nat)
    requires Run(run, verdicts, cpus) && k < |run|
    ensures run[k].dispatcher == Returned(true) ==> forall i: nat :: i < |verdicts| ==>
        verdicts[i] && run[k].checked[i] == 1
    ensures run[k].dispatcher == Returned(false) ==>
        exists i :: 0 <= i < |verdicts| && !verdicts[i] && run[k].checked[i] == 1
    ensures forall i: nat :: run[k].checked[i] <= (if i < |verdicts| then 1 else 0)
  {
    hide Run;
    RunInv(run, verdicts, cpus, k);
    var s := run[k];
    if s.dispatcher == Returned(true) {
      AllBelow(s.reported, |verdicts|);
    }
  }

  /** While the dispatcher has not returned, some step is possible. */
  lemma Progress(s: State, verdicts: seq<bool>)
    requires Inv(s, verdicts) && s.dispatcher == Running
    ensures exists t :: Next(s, t, verdicts)
  {
    if s.processed >= |verdicts| {
      assert Close(s, s.(dispatcher := Returned(true)), verdicts);
      assert Next(s, s.(dispatcher := Returned(true)), verdicts);
    } else if h: nat :| h < |s.handlers| && !s.handlers[h].Idle? {
      BusyStep(s, verdicts, h);
    } else {
      assert s.handlers[0].Idle?;
      forall i: nat | i < s.current
        ensures i in s.reported
      {
        assert !Held(s.handlers, i);
      }
      if s.current == |verdicts| {
        Covers(s.reported, s.current);
      }
      var t := s.(current := s.current + 1, handlers := s.handlers[0 := Busy(s.current)]);
      assert Hand(s, t, verdicts, 0);
      assert Next(s, t, verdicts);
    }
  }

  /** A set with all numbers below `n` has at least `n` members. */
  lemma {:induction false} Covers(s: set<nat>, n: nat)
    requires forall i: nat :: i < n ==> i in s
    ensures |s| >= n
    decreases n
  {
    if n > 0 {
      Covers(s - {n - 1}, n - 1);
    }
  }

  lemma BusyStep(s: State, verdicts: seq<bool>, h: nat)
    requires Inv(s, verdicts) && s.dispatcher == Running && s.processed < |verdicts|
    requires h < |s.handlers| && !s.handlers[h].Idle?
    ensures exists t :: Next(s, t, verdicts)
  {
    assert HandlerOk(s, s.handlers[h]);
    var i := s.handlers[h].item;
    if s.handlers[h].Busy? {
      var t := s.(checked := s.checked + multiset{i}, handlers := s.handlers[h := Sending(i)]);
      assert Finish(s, t, h);
      assert Next(s, t, verdicts);
    } else {
      var u := s.(processed := s.processed + 1, reported := s.reported + {i});
      var t := if verdicts[i] then u.(handlers := s.handlers[h := Idle])
               else u.(handlers := s.handlers[h := Exited], dispatcher := Returned(false));
      assert Report(s, t, verdicts, h);
      assert Next(s, t, verdicts);
    }
  }

  /** After the dispatcher has returned, every handler that has not left can take a step of its own. */
  lemma CanLeave(s: State, verdicts: seq<bool>, h: nat)
    requires Inv(s, verdicts) && s.dispatcher.Returned? && h < |s.handlers| && !s.handlers[h].Exited?
    ensures exists t :: Next(s, t, verdicts) && |t.handlers| == |s.handlers| && t.handlers[h] != s.handlers[h]
  {
    assert HandlerOk(s, s.handlers[h]);
    match s.handlers[h]
    case Idle =>
      var t := s.(handlers := s.handlers[h := Exited]);
      assert Quit(s, t, verdicts, h);
      assert Next(s, t, verdicts);
    case Busy(i) =>
      var t := s.(checked := s.checked + multiset{i}, handlers := s.handlers[h := Sending(i)]);
      assert Finish(s, t, h);
      assert Next(s, t, verdicts);
    case Sending(i) =>
      var t := s.(handlers := s.handlers[h := if verdicts[i] then Idle else Exited]);
      assert Quit(s, t, verdicts, h);
      assert Next(s, t, verdicts);
  }

  function Rank(h: Handler): nat
  {
    match h
    case Idle => 1
    case Busy(_) => 4
    case Sending(_) => 3
    case Exited => 0
  }

  function Ranks(handlers: seq<Handler>): nat
  {
    if handlers == [] then 0 else Ranks(handlers[..|handlers| - 1]) + Rank(handlers[|handlers| - 1])
  }

  /** The steps that are left at most. */
  function Left(s: State, items: nat): int
  {
    5 * (items - s.current) + Ranks(s.handlers) + (if s.dispatcher.Running? then 1 else 0)
  }

  lemma {:induction false} RanksAt(handlers: seq<Handler>, h: nat, now: Handler)
    requires h < |handlers|
    ensures Ranks(handlers[h := now]) == Ranks(handlers) - Rank(handlers[h]) + Rank(now)
  {
    var last := |handlers| - 1;
    var changed := handlers[h := now];
    if h == last {
      assert changed[..last] == handlers[..last];
    } else {
      assert changed[..last] == handlers[..last][h := now];
      RanksAt(handlers[..last], h, now);
    }
  }

  /** Every step uses up some of what is left. */
  lemma StepsEnd(s: State, t: State, verdicts: seq<bool>)
    requires Inv(s, verdicts) && Next(s, t, verdicts)
    ensures 0 <= Left(t, |verdicts|) < Left(s, |verdicts|)
  {
    hide Ranks, Shared, Verdicts;
    NextInv(s, t, verdicts);
    if h: nat :| Hand(s, t, verdicts, h) {
      RanksAt(s.handlers, h, t.handlers[h]);
    } else if h: nat :| Finish(s, t, h) {
      RanksAt(s.handlers, h, t.handlers[h]);
    } else if h: nat :| Report(s, t, verdicts, h) {
      RanksAt(s.handlers, h, t.handlers[h]);
    } else if h: nat :| Quit(s, t, verdicts, h) {
      RanksAt(s.handlers, h, t.handlers[h]);
    }
  }

  lemma {:induction false} StartRanks(n: nat)
    ensures Ranks(seq(n, _ => Idle)) == n
  {
    if n > 0 {
      assert seq(n, _ => Idle)[..n - 1] == seq(n - 1, _ => Idle);
      StartRanks(n - 1);
    }
  }

  lemma {:induction false} RunLength(run: seq<State>, verdicts: seq<bool>, cpus: nat, k: nat)
    requires Run(run, verdicts, cpus) && k < |run|
    ensures 0 <= Left(run[k], |verdicts|) <= 5 * |verdicts| + Workers(|verdicts|, cpus) + 1 - k
    decreases k
  {
    hide Next, Ranks, Inv, Workers;
    RunInv(run, verdicts, cpus, k);
    if k == 0 {
      StartRanks(Workers(|verdicts|, cpus));
    } else {
      RunLength(run, verdicts, cpus, k - 1);
      RunInv(run, verdicts, cpus, k - 1);
      StepsEnd(run[k - 1], run[k], verdicts);
    }
  }

  /** Every interleaving ends, within a bound known at the start. One that cannot go on has returned, all
      its handlers have left, and the answer is nil if and only if every item is good. */
  lemma RunEnds(run: seq<State>, verdicts: seq<bool>, cpus: nat)
    requires Run(run, verdicts, cpus)
    ensures |run| <= 5 * |verdicts| + Workers(|verdicts|, cpus) + 2
    ensures var last := run[|run| - 1];
      (forall t :: !Next(last, t, verdicts)) ==>
        && last.dispatcher == Returned(forall i :: 0 <= i < |verdicts| ==> verdicts[i])
        && forall h :: 0 <= h < |last.handlers| ==> last.handlers[h] == Exited
  {
    hide Run, Next, Workers, Inv;
    var k := |run| - 1;
    assert run != [] && verdicts != [] by { RunParts(run, verdicts, cpus); }
    RunLength(run, verdicts, cpus, k);
    RunInv(run, verdicts, cpus, k);
    var last := run[k];
    if forall t :: !Next(last, t, verdicts) {
      if last.dispatcher == Running {
        Progress(last, verdicts);
      }
      Answers(run, verdicts, cpus, k);
      forall h | 0 <= h < |last.handlers|
        ensures last.handlers[h] == Exited
      {
        if last.handlers[h] != Exited {
          CanLeave(last, verdicts, h);
        }
      }
    }
  }

  lemma RunParts(run: seq<State>, verdicts: seq<bool>, cpus: nat)
    requires Run(run, verdicts, cpus)
    ensures run != [] && verdicts != []
  {
  }
}
