/** The nodes of a Merkle Patricia trie as they are held in memory, and their stored form. */
module TrieNode {
  import opened MachineTypes
  import opened Wrappers
  import opened HexKey
  import opened ProtoWire

  /** Caching data of a node: its hash when known, and whether it still has to be written. */
  datatype Flag = Flag(hash: Option<seq<byte>>, dirty: bool)

  /** `Nil` is Go's nil. A full node has seventeen children. `Value([])` is `nilValueNode`. */
  datatype Node =
    | Nil
    | Short(key: seq<byte>, val: Node, flag: Flag)
    | Full(children: seq<Node>, flag: Flag)
    | Hash(hash: seq<byte>)
    | Value(value: seq<byte>)

  datatype NodeError =
    | InvalidArgument
    | UnknownChildTypeOfFull
    | UnknownChildTypeOfShort
    | UnknownChildrenType
    | NotAShortNode
    | BadWireFormat

  const HASH: uint32 := 0
  const VALUE: uint32 := 1
  const ENC_SHORT: uint32 := 2
  const SHORT_KEY: uint32 := 3

  /** `toProto` of a short node. */
  function ShortToProto(n: Node): Result<seq<Child>, NodeError>
    requires n.Short?
  {
    match n.val
    case Hash(h) => Ok([Child(SHORT_KEY, n.key), Child(HASH, h)])
    case Value(v) => Ok([Child(SHORT_KEY, n.key), Child(VALUE, v)])
    case _ => Err(UnknownChildTypeOfShort)
  }

  /** One step of the loop over the children of a full node. */
  function ChildToProto(n: Node): Result<Child, NodeError>
  {
    match n
    case Hash(h) => Ok(Child(HASH, h))
    case Value(v) => Ok(Child(VALUE, v))
    case Nil => Ok(Child(VALUE, []))
    case Short(_, _, _) => (
      match ShortToProto(n)
      case Ok(pb) => Ok(Child(ENC_SHORT, Marshal(pb)))
      case Err(e) => Err(e)
    )
    case Full(_, _) => Err(UnknownChildTypeOfFull)
  }

  function ChildrenToProto(cs: seq<Node>): (r: Result<seq<Child>, NodeError>)
    ensures r.Ok? ==> |r.value| == |cs|
  {
    if cs == [] then Ok([])
    else
      match ChildToProto(cs[0])
      case Err(e) => Err(e)
      case Ok(c) =>
        match ChildrenToProto(cs[1..])
        case Err(e) => Err(e)
        case Ok(rest) => Ok([c] + rest)
  }

  function EncodeNode(n: Node): Result<seq<byte>, NodeError>
  {
    match n
    case Nil => Err(InvalidArgument)
    case Hash(h) => Ok(Marshal([Child(HASH, h)]))
    case Value(v) => Ok(Marshal([Child(VALUE, v)]))
    case Short(_, _, _) => (
      match ShortToProto(n)
      case Ok(pb) => Ok(Marshal(pb))
      case Err(e) => Err(e)
    )
    case Full(cs, _) =>
      match ChildrenToProto(cs)
      case Ok(pb) => Ok(Marshal(pb))
      case Err(e) => Err(e)
  }

  function DecodeChild(c: Child): Result<Node, NodeError>
    decreases |c.val|, 2, 0
  {
    if c.val == [] then Ok(Nil)
    else if c.kind == HASH then Ok(Hash(c.val))
    else if c.kind == VALUE then Ok(Value(c.val))
    else if c.kind == ENC_SHORT then
      match DecodeNode(None, c.val)
      case Err(e) => Err(e)
      case Ok(n) => if n.Short? then Ok(n) else Err(NotAShortNode)
    else Err(UnknownChildTypeOfFull)
  }

  function DecodeChildren(cs: seq<Child>, bound: nat): (r: Result<seq<Node>, NodeError>)
    requires forall i :: 0 <= i < |cs| ==> |cs[i].val| < bound
    ensures r.Ok? ==> |r.value| == |cs|
    decreases bound, 0, |cs|
  {
    if cs == [] then Ok([])
    else
      match DecodeChild(cs[0])
      case Err(e) => Err(e)
      case Ok(n) =>
        match DecodeChildren(cs[1..], bound)
        case Err(e) => Err(e)
        case Ok(rest) => Ok([n] + rest)
  }

  function DecodeNode(hash: Option<seq<byte>>, buf: seq<byte>): Result<Node, NodeError>
    decreases |buf|, 1, 0
  {
    match Unmarshal(buf)
    case None => Err(BadWireFormat)
    case Some(pb) =>
      if |pb| == 17 then
        match DecodeChildren(pb, |buf|)
        case Err(e) => Err(e)
        case Ok(cs) => Ok(Full(cs, Flag(hash, false)))
      else if |pb| == 2 then
        var key := Expand(pb[0].val);
        if pb[1].kind == HASH then Ok(Short(key, Hash(pb[1].val), Flag(hash, false)))
        else if pb[1].kind == VALUE then Ok(Short(key, Value(pb[1].val), Flag(hash, false)))
        else Err(UnknownChildTypeOfShort)
      else if |pb| == 1 && pb[0].kind == HASH then Ok(Hash(pb[0].val))
      else if |pb| == 1 && pb[0].kind == VALUE then Ok(Value(pb[0].val))
      else Err(UnknownChildrenType)
  }
}
