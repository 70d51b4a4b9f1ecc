/** The binding state: which plots are bound with which amounts, which coinbase each pool has, and the
    total that is bound. Three pieces of code carry it from block to block. */
module Binding {
  import opened Hashes
  import opened MachineTypes
  import opened Wrappers
  import opened Ledger
  import opened Money

  const WARM_UP: nat := 1398801
  const NONCE_GAP: nat := 5

  /** A public-key script as the code sees it: what it binds, whether it pays to a script hash, or
      neither. The bad ones are those whose parts cannot be parsed. */
  datatype Script = Binds(target: seq<byte>) | BadBinding | Pays | BadPays | Other

  datatype Output = Output(value: int, script: Script)

  /** An input with the output it spends, and the height of the block that has it. */
  datatype Input = Input(op: OutPoint, height: nat, out: Output) | Missing

  /** The payload of a transaction that sets the coinbase of a pool. */
  datatype Payload = Payload(pool: seq<byte>, nonce: uint32, coinbase: seq<byte>)

  datatype BindTx = BindTx(id: Hash, coinbase: bool, ins: seq<Input>, outs: seq<Output>, payload: Option<Payload>)

  datatype BindError =
    | NoSuchTx
    | InvalidBindingScript
    | NotBound
    | AlreadyBound
    | BadTotal
    | ZeroNonce
    | BadScript
    | MismatchedRoot

  /** The state while a block is processed, with the running total. */
  datatype State = State(plots: map<seq<byte>, int>, pools: Pools, total: int)

  /** Spending a binding of the new kind. */
  function Unbind(s: State, target: seq<byte>, value: int): Result<State, BindError>
  {
    if |target| != 22 then Err(InvalidBindingScript)
    else if target !in s.plots then Err(NotBound)
    else
      match Checked(s.total - value)
      case None => Err(BadTotal)
      case Some(t) => Ok(s.(plots := s.plots - {target}, total := t))
  }

  function Bind(s: State, target: seq<byte>, value: int): Result<State, BindError>
  {
    if |target| != 22 then Err(InvalidBindingScript)
    else if target in s.plots then Err(AlreadyBound)
    else
      match Checked(s.total + value)
      case None => Err(BadTotal)
      case Some(t) => Ok(s.(plots := s.plots[target := value], total := t))
  }

  /** A binding of the new kind: an input from the warm-up on. */
  predicate SpendsBinding(i: Input)
  {
    i.Input? && i.height >= WARM_UP && i.out.script.Binds?
  }

  function InStep(s: State, i: Input): Result<State, BindError>
  {
    if i.Missing? then Err(NoSuchTx)
    else if i.height < WARM_UP then Ok(s)
    else
      match i.out.script
      case Binds(target) => Unbind(s, target, i.out.value)
      case BadBinding => Err(BadScript)
      case _ => Ok(s)
  }

  function OutStep(s: State, o: Output): Result<State, BindError>
  {
    match o.script
    case Binds(target) => Bind(s, target, o.value)
    case BadBinding => Err(BadScript)
    case _ => Ok(s)
  }

  /** `CheckNonceAndSetPoolPkCoinbase`: a nonce that does not follow the last one is ignored. The sum in
      the test wraps. */
  function PayloadStep(s: State, p: Option<Payload>): Result<State, BindError>
  {
    match p
    case None => Ok(s)
    case Some(Payload(pool, nonce, coinbase)) =>
      if pool in s.pools then
        var last := s.pools[pool].0;
        if nonce <= last || nonce > (last + NONCE_GAP) % 0x1_0000_0000 then Ok(s)
        else Ok(s.(pools := s.pools[pool := (nonce, coinbase)]))
      else if nonce == 0 then Err(ZeroNonce)
      else Ok(s.(pools := s.pools[pool := (nonce, coinbase)]))
  }

  type Pools = map<seq<byte>, (uint32, seq<byte>)>

  /** Whether a nonce takes effect: the first one of a pool must not be zero, and any other must be
      above the last one by at most the gap. Near the end of its range the sum wraps, and no nonce
      takes effect any more. */
  predicate Follows(pools: Pools, pool: seq<byte>, nonce: uint32)
  {
    if pool in pools then
      var last := pools[pool].0;
      1 <= nonce as int - last as int <= NONCE_GAP && last as int + NONCE_GAP < 0x1_0000_0000
    else nonce != 0
  }

  function InSteps(s: State, ins: seq<Input>): Result<State, BindError>
  {
    if ins == [] then Ok(s)
    else
      match InSteps(s, ins[..|ins| - 1])
      case Err(e) => Err(e)
      case Ok(t) => InStep(t, ins[|ins| - 1])
  }

  function OutSteps(s: State, outs: seq<Output>): Result<State, BindError>
  {
    if outs == [] then Ok(s)
    else
      match OutSteps(s, outs[..|outs| - 1])
      case Err(e) => Err(e)
      case Ok(t) => OutStep(t, outs[|outs| - 1])
  }

  /** A transaction: what it unbinds, what it binds, and its payload. A coinbase only binds. */
  function TxStep(s: State, tx: BindTx): Result<State, BindError>
  {
    match InSteps(s, if tx.coinbase then [] else tx.ins)
    case Err(e) => Err(e)
    case Ok(t) =>
      match OutSteps(t, tx.outs)
      case Err(e) => Err(e)
      case Ok(u) => PayloadStep(u, if tx.coinbase then None else tx.payload)
  }

  /** What a block does to the state. */
  function BlockStep(s: State, txs: seq<BindTx>): Result<State, BindError>
  {
    if txs == [] then Ok(s)
    else
      match BlockStep(s, txs[..|txs| - 1])
      case Err(e) => Err(e)
      case Ok(t) => TxStep(t, txs[|txs| - 1])
  }

  /** All that the trie holds. A total that was never stored counts as zero, but is not the same as one. */
  datatype Contents = Contents(plots: map<seq<byte>, int>, pools: Pools,
      network: Option<int>)

  function StateOf(c: Contents): State
  {
    State(c.plots, c.pools, if c.network.Some? then c.network.value else 0)
  }

  /** The contents once the state is stored: the total is written only if it changed. */
  function Stored(c: Contents, s: State): Contents
  {
    Contents(s.plots, s.pools, if StateOf(c).total == s.total then c.network else Some(s.total))
  }

  /** The stored state. */
  class BindingState {
    var plots: map<seq<byte>, int>
    var pools: Pools
    var network: Option<int>

    function Trie(): Contents
      reads this
    {
      Contents(plots, pools, network)
    }

    ghost function Value(): State
      reads this
    {
      StateOf(Trie())
    }

    /** `GetNetworkBinding`. */
    method GetNetworkBinding() returns (total: int)
      ensures total == Value().total
    {
      total := if network.Some? then network.value else 0;
    }

    /** The entry of a plot that is spent is deleted, and its amount taken off the total. */
    method Spend(out: Output, total: int) returns (r: Result<int, BindError>)
      modifies this`plots
      ensures out.script.Binds? ==>
                match Unbind(State(old(plots), pools, total), out.script.target, out.value)
                case Ok(s) => r == Ok(s.total) && plots == s.plots
                case Err(e) => r == Err(e)
      ensures !out.script.Binds? ==> plots == old(plots) && (r == Ok(total) || r == Err(BadScript))
      ensures !out.script.Binds? ==> (r.Ok? <==> out.script.Pays? || out.script.Other?)
    {
      match out.script
      case Binds(target) =>
        if |target| != 22 {
          return Err(InvalidBindingScript);
        }
        if target !in plots {
          return Err(NotBound);
        }
        plots := plots - {target};
        var t := Checked(total - out.value);
        if t.None? {
          return Err(BadTotal);
        }
        return Ok(t.value);
      case BadBinding => return Err(BadScript);
      case Pays => return Ok(total);
      case BadPays => return Err(BadScript);
      case Other => return Ok(total);
    }

    /** A plot that is not bound is bound with the value of the output. */
    method Create(out: Output, total: int) returns (r: Result<int, BindError>)
      modifies this`plots
      ensures out.script.Binds? ==>
                match Bind(State(old(plots), pools, total), out.script.target, out.value)
                case Ok(s) => r == Ok(s.total) && plots == s.plots
                case Err(e) => r == Err(e)
      ensures !out.script.Binds? ==> plots == old(plots) && (r == Ok(total) || r == Err(BadScript))
      ensures !out.script.Binds? ==> (r.Ok? <==> out.script.Pays? || out.script.Other?)
    {
      match out.script
      case Binds(target) =>
        if |target| != 22 {
          return Err(InvalidBindingScript);
        }
        if target in plots {
          return Err(AlreadyBound);
        }
        plots := plots[target := out.value];
        var t := Checked(total + out.value);
        if t.None? {
          return Err(BadTotal);
        }
        return Ok(t.value);
      case BadBinding => return Err(BadScript);
      case Pays => return Ok(total);
      case BadPays => return Err(BadScript);
      case Other => return Ok(total);
    }

    /** `CheckNonceAndSetPoolPkCoinbase`. */
    method SetPoolCoinbase(p: Option<Payload>, ghost total: int) returns (e: Option<BindError>)
      modifies this`pools
      ensures match PayloadStep(State(plots, old(pools), total), p)
              case Ok(s) => e == None && State(plots, pools, total) == s
              case Err(x) => e == Some(x)
      ensures e.Some? <==> p.Some? && p.value.pool !in old(pools) && p.value.nonce == 0
      ensures pools == if p.Some? && Follows(old(pools), p.value.pool, p.value.nonce)
                       then old(pools)[p.value.pool := (p.value.nonce, p.value.coinbase)]
                       else old(pools)
    {
      if p.Some? {
        var key := p.value.pool;
        if key in pools {
          var last := pools[key].0;
          if p.value.nonce <= last || p.value.nonce > (last + NONCE_GAP) % 0x1_0000_0000 {
            return None;
          }
        } else if p.value.nonce == 0 {
          return Some(ZeroNonce);
        }
        pools := pools[key := (p.value.nonce, p.value.coinbase)];
      }
      return None;
    }

    /** The total is stored only if it changed. */
    method PutNetworkBinding(was: int, total: int)
      requires was == if network.Some? then network.value else 0
      modifies this`network
      ensures Trie() == Stored(old(Trie()), State(plots, pools, total)) && Value().total == total
    {
      if was != total {
        network := Some(total);
      }
    }
  }

  /** The checks that the address index makes of scripts of the old kind. */
  function IndexOld(s: Script): Option<BindError>
  {
    match s
    case Binds(target) => if |target| != 20 then Some(InvalidBindingScript) else None
    case BadBinding => Some(BadScript)
    case BadPays => Some(BadScript)
    case _ => None
  }

  lemma InNext(s: State, ins: seq<Input>, i: nat)
    requires i < |ins|
    ensures InSteps(s, ins[..i + 1]) ==
            match InSteps(s, ins[..i]) { case Err(e) => Err(e) case Ok(t) => InStep(t, ins[i]) }
  {
    assert ins[..i + 1][..i] == ins[..i];
  }

  lemma OutNext(s: State, outs: seq<Output>, i: nat)
    requires i < |outs|
    ensures OutSteps(s, outs[..i + 1]) ==
            match OutSteps(s, outs[..i]) { case Err(e) => Err(e) case Ok(t) => OutStep(t, outs[i]) }
  {
    assert outs[..i + 1][..i] == outs[..i];
  }

  lemma TxNext(s: State, txs: seq<BindTx>, i: nat)
    requires i < |txs|
    ensures BlockStep(s, txs[..i + 1]) ==
            match BlockStep(s, txs[..i]) { case Err(e) => Err(e) case Ok(t) => TxStep(t, txs[i]) }
  {
    assert txs[..i + 1][..i] == txs[..i];
  }

  /** The index can read the script of an input: a binding of the old kind names 20 bytes. */
  predicate ReadableIn(i: Input)
  {
    i.Input? ==>
      if i.height < WARM_UP then
        match i.out.script { case Binds(target) => |target| == 20 case Pays => true case Other => true case _ => false }
      else i.out.script != BadPays
  }

  predicate ReadableOuts(outs: seq<Output>)
  {
    forall i :: 0 <= i < |outs| ==> outs[i].script != BadPays
  }

  predicate Readable(txs: seq<BindTx>)
  {
    forall i :: 0 <= i < |txs| ==>
      && ReadableOuts(txs[i].outs)
      && (txs[i].coinbase || forall j :: 0 <= j < |txs[i].ins| ==> ReadableIn(txs[i].ins[j]))
  }

  /** The inputs of a transaction, as `indexBlockAddrs` goes through them. */
  method IndexInputs(st: BindingState, ins: seq<Input>, total: int) returns (r: Result<int, BindError>)
    modifies st`plots
    ensures r.Ok? <==> InSteps(State(old(st.plots), st.pools, total), ins).Ok? && forall j :: 0 <= j < |ins| ==>
        ReadableIn(ins[j])
    ensures r.Ok? ==> InSteps(State(old(st.plots), st.pools, total), ins) == Ok(State(st.plots, st.pools, r.value))
  {
    hide InSteps;
    ghost var s := State(st.plots, st.pools, total);
    var sum := total;
    assert InSteps(s, ins[..0]) == Ok(s) by { NoSteps(s, ins, []); }
    for i := 0 to |ins|
      invariant InSteps(s, ins[..i]) == Ok(State(st.plots, st.pools, sum))
      invariant forall j :: 0 <= j < i ==> ReadableIn(ins[j])
    {
      InNext(s, ins, i);
      InFails(s, ins, i + 1);
      if ins[i].Missing? {
        return Err(NoSuchTx);
      }
      if ins[i].height < WARM_UP {
        var e := IndexOld(ins[i].out.script);
        if e.Some? {
          return Err(e.value);
        }
      } else {
        var t := st.Spend(ins[i].out, sum);
        if t.Err? {
          return t;
        }
        sum := t.value;
      }
    }
    assert ins[..|ins|] == ins;
    r := Ok(sum);
  }

  lemma NoSteps(s: State, ins: seq<Input>, outs: seq<Output>)
    ensures ins[..0] == [] && outs[..0] == [] && InSteps(s, []) == Ok(s) && OutSteps(s, []) == Ok(s)
  {
  }

  /** The outputs of a transaction from the warm-up on. */
  method IndexOutputs(st: BindingState, outs: seq<Output>, total: int) returns (r: Result<int, BindError>)
    modifies st`plots
    ensures r.Ok? <==> OutSteps(State(old(st.plots), st.pools, total), outs).Ok? && ReadableOuts(outs)
    ensures r.Ok? ==> OutSteps(State(old(st.plots), st.pools, total), outs) == Ok(State(st.plots, st.pools, r.value))
  {
    hide OutSteps;
    ghost var s := State(st.plots, st.pools, total);
    var sum := total;
    NoSteps(s, [], outs);
    for i := 0 to |outs|
      invariant OutSteps(s, outs[..i]) == Ok(State(st.plots, st.pools, sum))
      invariant forall j :: 0 <= j < i ==> outs[j].script != BadPays
    {
      OutNext(s, outs, i);
      OutFails(s, outs, i + 1);
      var t := st.Create(outs[i], sum);
      if t.Err? {
        return t;
      }
      sum := t.value;
    }
    assert outs[..|outs|] == outs;
    r := Ok(sum);
  }

  /** The binding part of `indexBlockAddrs`, for a block from the warm-up on: it succeeds exactly when
      the block can be applied and its scripts can be read. */
  method IndexBlockAddrs(st: BindingState, txs: seq<BindTx>) returns (e: Option<BindError>)
    modifies st
    ensures e.None? <==> BlockStep(old(st.Value()), txs).Ok? && Readable(txs)
    ensures e.None? ==> BlockStep(old(st.Value()), txs) == Ok(st.Value())
    ensures e.None? ==> st.Trie() == Stored(old(st.Trie()), st.Value())
  {
    hide BlockStep, InSteps, OutSteps, PayloadStep, ReadableOuts, ReadableIn;
    ghost var s := st.Value();
    var total := st.GetNetworkBinding();
    var was := total;
    NoTxs(s, txs);
    for i := 0 to |txs|
      invariant BlockStep(s, txs[..i]) == Ok(State(st.plots, st.pools, total))
      invariant st.network == old(st.network) && Readable(txs[..i])
    {
      TxNext(s, txs, i);
      BlockFails(s, txs, i + 1);
      var tx := txs[i];
      NoSteps(State(st.plots, st.pools, total), [], []);
      if !tx.coinbase {
        var r := IndexInputs(st, tx.ins, total);
        if r.Err? {
          return Some(r.error);
        }
        total := r.value;
      }
      var r := IndexOutputs(st, tx.outs, total);
      if r.Err? {
        return Some(r.error);
      }
      total := r.value;
      NoPayload(State(st.plots, st.pools, total));
      if !tx.coinbase {
        e := st.SetPoolCoinbase(tx.payload, total);
        if e.Some? {
          return;
        }
      }
    }
    assert txs[..|txs|] == txs;
    st.PutNetworkBinding(was, total);
    e := None;
  }

  lemma NoTxs(s: State, txs: seq<BindTx>)
    ensures txs[..0] == [] && BlockStep(s, []) == Ok(s)
  {
  }

  lemma NoPayload(s: State)
    ensures PayloadStep(s, None) == Ok(s)
  {
  }

  /** The closure `update` of `buildBlockTemplateBindingRoot`. */
  method Update(st: BindingState, target: seq<byte>, amount: int, isBind: bool, total: int)
      returns (r: Result<int, BindError>)
    requires |target| == 22
    modifies st`plots
    ensures match (if isBind then Bind(State(old(st.plots), st.pools, total), target, amount)
                   else Unbind(State(old(st.plots), st.pools, total), target, amount))
            case Ok(s) => r == Ok(s.total) && st.plots == s.plots
            case Err(e) => r == Err(e)
  {
    if !isBind {
      if target !in st.plots {
        return Err(NotBound);
      }
      var t := Checked(total - amount);
      if t.None? {
        return Err(BadTotal);
      }
      st.plots := st.plots - {target};
      return Ok(t.value);
    }
    if target in st.plots {
      return Err(AlreadyBound);
    }
    var t := Checked(total + amount);
    if t.None? {
      return Err(BadTotal);
    }
    st.plots := st.plots[target := amount];
    return Ok(t.value);
  }

  method TemplateInputs(st: BindingState, ins: seq<Input>, total: int) returns (r: Result<int, BindError>)
    modifies st`plots
    ensures match InSteps(State(old(st.plots), st.pools, total), ins)
            case Ok(s) => r == Ok(s.total) && s == State(st.plots, st.pools, s.total)
            case Err(_) => r.Err?
  {
    hide InSteps;
    ghost var s := State(st.plots, st.pools, total);
    var sum := total;
    NoSteps(s, ins, []);
    for i := 0 to |ins|
      invariant InSteps(s, ins[..i]) == Ok(State(st.plots, st.pools, sum))
    {
      InNext(s, ins, i);
      InFails(s, ins, i + 1);
      if ins[i].Missing? {
        return Err(NoSuchTx);
      }
      if ins[i].height >= WARM_UP {
        match ins[i].out.script
        case BadBinding =>
          return Err(BadScript);
        case Binds(target) =>
          if |target| != 22 {
            return Err(InvalidBindingScript);
          }
          var t := Update(st, target, ins[i].out.value, false, sum);
          if t.Err? {
            return t;
          }
          sum := t.value;
        case _ =>
      }
    }
    assert ins[..|ins|] == ins;
    r := Ok(sum);
  }

  /** Once it fails, it stays failed. */
  lemma {:induction false} InFails(s: State, ins: seq<Input>, i: nat)
    requires i <= |ins|
    ensures InSteps(s, ins[..i]).Err? ==> InSteps(s, ins).Err?
    decreases |ins|
  {
    if i < |ins| {
      InFails(s, ins[..|ins| - 1], i);
      assert ins[..|ins| - 1][..i] == ins[..i];
    } else {
      assert ins[..i] == ins;
    }
  }

  lemma {:induction false} OutFails(s: State, outs: seq<Output>, i: nat)
    requires i <= |outs|
    ensures OutSteps(s, outs[..i]).Err? ==> OutSteps(s, outs).Err?
    decreases |outs|
  {
    if i < |outs| {
      OutFails(s, outs[..|outs| - 1], i);
      assert outs[..|outs| - 1][..i] == outs[..i];
    } else {
      assert outs[..i] == outs;
    }
  }

  lemma {:induction false} BlockFails(s: State, txs: seq<BindTx>, i: nat)
    requires i <= |txs|
    ensures BlockStep(s, txs[..i]).Err? ==> BlockStep(s, txs).Err?
    decreases |txs|
  {
    if i < |txs| {
      BlockFails(s, txs[..|txs| - 1], i);
      assert txs[..|txs| - 1][..i] == txs[..i];
    } else {
      assert txs[..i] == txs;
    }
  }

  method TemplateOutputs(st: BindingState, outs: seq<Output>, total: int) returns (r: Result<int, BindError>)
    modifies st`plots
    ensures match OutSteps(State(old(st.plots), st.pools, total), outs)
            case Ok(s) => r == Ok(s.total) && s == State(st.plots, st.pools, s.total)
            case Err(_) => r.Err?
  {
    hide OutSteps;
    ghost var s := State(st.plots, st.pools, total);
    var sum := total;
    NoSteps(s, [], outs);
    for i := 0 to |outs|
      invariant OutSteps(s, outs[..i]) == Ok(State(st.plots, st.pools, sum))
    {
      OutNext(s, outs, i);
      OutFails(s, outs, i + 1);
      match outs[i].script
      case BadBinding =>
        return Err(BadScript);
      case Binds(target) =>
        if |target| != 22 {
          return Err(InvalidBindingScript);
        }
        var t := Update(st, target, outs[i].value, true, sum);
        if t.Err? {
          return t;
        }
        sum := t.value;
      case _ =>
    }
    assert outs[..|outs|] == outs;
    r := Ok(sum);
  }

  /** `buildBlockTemplateBindingRoot`, on a copy of the parent's state: it succeeds exactly when the
      block can be applied. */
  method BuildTemplateState(st: BindingState, txs: seq<BindTx>) returns (e: Option<BindError>)
    modifies st
    ensures e.None? ==> BlockStep(old(st.Value()), txs) == Ok(st.Value())
    ensures e.None? ==> st.Trie() == Stored(old(st.Trie()), st.Value())
    ensures e.Some? ==> BlockStep(old(st.Value()), txs).Err?
  {
    hide BlockStep, InSteps, OutSteps, PayloadStep;
    ghost var s := st.Value();
    var total := st.GetNetworkBinding();
    var was := total;
    NoTxs(s, txs);
    for i := 0 to |txs|
      invariant BlockStep(s, txs[..i]) == Ok(State(st.plots, st.pools, total))
      invariant st.network == old(st.network)
    {
      TxNext(s, txs, i);
      BlockFails(s, txs, i + 1);
      var tx := txs[i];
      NoSteps(State(st.plots, st.pools, total), [], []);
      if !tx.coinbase {
        var r := TemplateInputs(st, tx.ins, total);
        if r.Err? {
          return Some(r.error);
        }
        total := r.value;
      }
      var r := TemplateOutputs(st, tx.outs, total);
      if r.Err? {
        return Some(r.error);
      }
      total := r.value;
      NoPayload(State(st.plots, st.pools, total));
      if !tx.coinbase {
        e := st.SetPoolCoinbase(tx.payload, total);
        if e.Some? {
          return;
        }
      }
    }
    assert txs[..|txs|] == txs;
    st.PutNetworkBinding(was, total);
    e := None;
  }

  /** One output as `connectState` handles it: with the payload of its transaction once more. */
  function ConnectOut(s: State, o: Output, p: Option<Payload>): Result<State, BindError>
  {
    match OutStep(s, o)
    case Err(e) => Err(e)
    case Ok(t) => PayloadStep(t, p)
  }

  function ConnectOuts(s: State, outs: seq<Output>, p: Option<Payload>): Result<State, BindError>
  {
    if outs == [] then Ok(s)
    else
      match ConnectOuts(s, outs[..|outs| - 1], p)
      case Err(e) => Err(e)
      case Ok(t) => ConnectOut(t, outs[|outs| - 1], p)
  }

  /** What `connectState` does with a block: it does not look at inputs. */
  function ConnectStep(s: State, txs: seq<BindTx>): Result<State, BindError>
  {
    if txs == [] then Ok(s)
    else
      match ConnectStep(s, txs[..|txs| - 1])
      case Err(e) => Err(e)
      case Ok(t) => ConnectOuts(t, txs[|txs| - 1].outs, if txs[|txs| - 1].coinbase then None
          else txs[|txs| - 1].payload)
  }

  lemma ConnectOutNext(s: State, outs: seq<Output>, p: Option<Payload>, i: nat)
    requires i < |outs|
    ensures ConnectOuts(s, outs[..i + 1], p) ==
            match ConnectOuts(s, outs[..i], p) { case Err(e) => Err(e) case Ok(t) => ConnectOut(t, outs[i], p) }
  {
    assert outs[..i + 1][..i] == outs[..i];
  }

  lemma ConnectNext(s: State, txs: seq<BindTx>, i: nat)
    requires i < |txs|
    ensures ConnectStep(s, txs[..i + 1]) ==
            match ConnectStep(s, txs[..i])
            case Err(e) => Err(e)
            case Ok(t) => ConnectOuts(t, txs[i].outs, if txs[i].coinbase then None else txs[i].payload)
  {
    assert txs[..i + 1][..i] == txs[..i];
  }

  lemma NoConnects(s: State, txs: seq<BindTx>, outs: seq<Output>, p: Option<Payload>)
    ensures txs[..0] == [] && outs[..0] == [] && ConnectStep(s, []) == Ok(s) && ConnectOuts(s, [], p) == Ok(s)
  {
  }

  lemma {:induction false} ConnectOutFails(s: State, outs: seq<Output>, p: Option<Payload>, i: nat)
    requires i <= |outs|
    ensures ConnectOuts(s, outs[..i], p).Err? ==> ConnectOuts(s, outs, p).Err?
    decreases |outs|
  {
    if i < |outs| {
      ConnectOutFails(s, outs[..|outs| - 1], p, i);
      assert outs[..|outs| - 1][..i] == outs[..i];
    } else {
      assert outs[..i] == outs;
    }
  }

  lemma {:induction false} ConnectFails(s: State, txs: seq<BindTx>, i: nat)
    requires i <= |txs|
    ensures ConnectStep(s, txs[..i]).Err? ==> ConnectStep(s, txs).Err?
    decreases |txs|
  {
    if i < |txs| {
      ConnectFails(s, txs[..|txs| - 1], i);
      assert txs[..|txs| - 1][..i] == txs[..i];
    } else {
      assert txs[..i] == txs;
    }
  }

  /** The outputs of a transaction in `connectState`. */
  method ConnectOutputs(st: BindingState, outs: seq<Output>, p: Option<Payload>, total: int)
    returns (r: Result<int, BindError>)
    modifies st`plots, st`pools
    ensures r.Ok? <==> ConnectOuts(State(old(st.plots), old(st.pools), total), outs, p).Ok? && ReadableOuts(outs)
    ensures r.Ok? ==>
        ConnectOuts(State(old(st.plots), old(st.pools), total), outs, p) == Ok(State(st.plots, st.pools, r.value))
  {
    hide ConnectOuts, PayloadStep;
    ghost var t := State(st.plots, st.pools, total);
    var sum := total;
    NoConnects(t, [], outs, p);
    for j := 0 to |outs|
      invariant ConnectOuts(t, outs[..j], p) == Ok(State(st.plots, st.pools, sum))
      invariant forall i :: 0 <= i < j ==> outs[i].script != BadPays
    {
      ConnectOutNext(t, outs, p, j);
      ConnectOutFails(t, outs, p, j + 1);
      var next := st.Create(outs[j], sum);
      if next.Err? {
        return next;
      }
      sum := next.value;
      var e := st.SetPoolCoinbase(p, sum);
      if e.Some? {
        return Err(e.value);
      }
    }
    assert outs[..|outs|] == outs;
    r := Ok(sum);
  }

  /** `connectState`, used while a reorganisation is tried out: the state it reaches must have the root
      in the header of the block. Here the contents stand for the root. */
  method ConnectState(st: BindingState, txs: seq<BindTx>, root: Contents) returns (e: Option<BindError>)
    modifies st
    ensures e.None? <==>
        ConnectStep(old(st.Value()), txs).Ok? && (forall i :: 0 <= i < |txs| ==> ReadableOuts(txs[i].outs)) &&
                         Stored(old(st.Trie()), ConnectStep(old(st.Value()), txs).value) == root
    ensures e.None? ==> ConnectStep(old(st.Value()), txs) == Ok(st.Value()) && st.Trie() == root
  {
    hide ConnectStep, ConnectOuts, PayloadStep, ReadableOuts;
    ghost var s := st.Value();
    var total := st.GetNetworkBinding();
    var was := total;
    NoConnects(s, txs, [], None);
    for i := 0 to |txs|
      invariant ConnectStep(s, txs[..i]) == Ok(State(st.plots, st.pools, total))
      invariant st.network == old(st.network) && forall j :: 0 <= j < i ==> ReadableOuts(txs[j].outs)
    {
      ConnectNext(s, txs, i);
      ConnectFails(s, txs, i + 1);
      var r := ConnectOutputs(st, txs[i].outs, if txs[i].coinbase then None else txs[i].payload, total);
      if r.Err? {
        return Some(r.error);
      }
      total := r.value;
    }
    assert txs[..|txs|] == txs;
    st.PutNetworkBinding(was, total);
    e := if st.Trie() == root then None else Some(MismatchedRoot);
  }
}
