/** The protobuf wire form of trie nodes: a `node` message is a list of `child` messages, and a
    child is a type number and a byte string. Zero and empty fields are left out, as proto3 does. */
module ProtoWire {
  import opened MachineTypes
  import opened Wrappers

  /** An empty `val` stands for Go's nil: proto3 does not transmit an empty byte string. */
  datatype Child = Child(kind: uint32, val: seq<byte>)

  function Varint(n: nat): (b: seq<byte>)
    ensures b != []
  {
    if n < 128 then [n] else [128 + n % 128] + Varint(n / 128)
  }

  function ReadVarint(b: seq<byte>): (r: Option<(nat, seq<byte>)>)
    ensures r.Some? ==> |r.value.1| < |b|
  {
    if b == [] then None
    else if b[0] < 128 then Some((b[0], b[1..]))
    else
      match ReadVarint(b[1..])
      case None => None
      case Some((n, rest)) => Some((b[0] - 128 + 128 * n, rest))
  }

  lemma {:induction false} ReadVarintOf(n: nat, rest: seq<byte>)
    ensures ReadVarint(Varint(n) + rest) == Some((n, rest))
  {
    var b := Varint(n) + rest;
    if n < 128 {
      assert b[1..] == rest;
    } else {
      ReadVarintOf(n / 128, rest);
      assert b[1..] == Varint(n / 128) + rest;
    }
  }

  /** A length-delimited field. */
  function Field(tag: byte, val: seq<byte>): seq<byte>
  {
    [tag] + Varint(|val|) + val
  }

  function ReadField(b: seq<byte>): (r: Option<(seq<byte>, seq<byte>)>)
    ensures r.Some? ==> |r.value.0| + |r.value.1| < |b|
  {
    match ReadVarint(b)
    case None => None
    case Some((n, rest)) => if n <= |rest| then Some((rest[..n], rest[n..])) else None
  }

  lemma ReadFieldOf(val: seq<byte>, rest: seq<byte>)
    ensures ReadField(Varint(|val|) + val + rest) == Some((val, rest))
  {
    ReadVarintOf(|val|, val + rest);
    assert Varint(|val|) + val + rest == Varint(|val|) + (val + rest);
    assert (val + rest)[..|val|] == val && (val + rest)[|val|..] == rest;
  }

  function MarshalChild(c: Child): seq<byte>
  {
    (if c.kind == 0 then [] else [8] + Varint(c.kind)) + (if c.val == [] then [] else Field(18, c.val))
  }

  function Marshal(cs: seq<Child>): seq<byte>
  {
    if cs == [] then [] else Field(10, MarshalChild(cs[0])) + Marshal(cs[1..])
  }

  /** Fields may come in any order and the last one of a kind wins; other fields are refused. */
  function UnmarshalChild(b: seq<byte>, c: Child): (r: Option<Child>)
    ensures r.Some? ==> |r.value.val| <= |b| + |c.val|
    decreases |b|
  {
    if b == [] then Some(c)
    else if b[0] == 8 then
      match ReadVarint(b[1..])
      case None => None
      case Some((n, rest)) => UnmarshalChild(rest, c.(kind := n % 0x1_0000_0000))
    else if b[0] == 18 then
      match ReadField(b[1..])
      case None => None
      case Some((val, rest)) => UnmarshalChild(rest, c.(val := val))
    else None
  }

  function Unmarshal(b: seq<byte>): (r: Option<seq<Child>>)
    ensures r.Some? ==> forall i :: 0 <= i < |r.value| ==> |r.value[i].val| < |b|
    decreases |b|
  {
    if b == [] then Some([])
    else if b[0] != 10 then None
    else
      match ReadField(b[1..])
      case None => None
      case Some((val, rest)) =>
        match UnmarshalChild(val, Child(0, []))
        case None => None
        case Some(c) =>
          match Unmarshal(rest)
          case None => None
          case Some(cs) => Some([c] + cs)
  }

  lemma UnmarshalVal(c: Child)
    ensures UnmarshalChild(if c.val == [] then [] else Field(18, c.val), c.(val := [])) == Some(c)
  {
    if c.val != [] {
      var b := Field(18, c.val);
      ReadFieldOf(c.val, []);
      assert b[1..] == Varint(|c.val|) + c.val + [];
    }
  }

  lemma UnmarshalKind(n: uint32, rest: seq<byte>, c: Child)
    ensures UnmarshalChild([8] + Varint(n) + rest, c) == UnmarshalChild(rest, c.(kind := n))
  {
    hide Varint, ReadVarint, ReadField;
    var b := [8] + Varint(n) + rest;
    ReadVarintOf(n, rest);
    assert n % 0x1_0000_0000 == n;
    assert b[1..] == Varint(n) + rest;
  }

  lemma UnmarshalMarshalChild(c: Child)
    ensures UnmarshalChild(MarshalChild(c), Child(0, [])) == Some(c)
  {
    hide UnmarshalChild, Field, Varint;
    var tail := if c.val == [] then [] else Field(18, c.val);
    UnmarshalVal(c);
    if c.kind == 0 {
      assert MarshalChild(c) == tail;
    } else {
      assert MarshalChild(c) == [8] + Varint(c.kind) + tail;
      UnmarshalKind(c.kind, tail, Child(0, []));
      assert Child(0, []).(kind := c.kind) == c.(val := []);
    }
  }

  lemma UnmarshalField(val: seq<byte>, rest: seq<byte>)
    requires UnmarshalChild(val, Child(0, [])).Some? && Unmarshal(rest).Some?
    ensures Unmarshal(Field(10, val) + rest) == Some([UnmarshalChild(val, Child(0, [])).value] + Unmarshal(rest).value)
  {
    hide Varint, ReadVarint, ReadField, UnmarshalChild;
    var b := Field(10, val) + rest;
    ReadFieldOf(val, rest);
    assert b[1..] == Varint(|val|) + val + rest;
  }

  /** Unmarshalling undoes marshalling, for every list of children. */
  lemma {:induction false} UnmarshalMarshal(cs: seq<Child>)
    ensures Unmarshal(Marshal(cs)) == Some(cs)
  {
    hide UnmarshalChild, MarshalChild, Field;
    if cs != [] {
      UnmarshalMarshalChild(cs[0]);
      UnmarshalMarshal(cs[1..]);
      UnmarshalField(MarshalChild(cs[0]), Marshal(cs[1..]));
      assert cs == [cs[0]] + cs[1..];
    }
  }

  /** Every child costs at least a tag and a length, so seventeen of them exceed a hash. */
  lemma {:induction false} MarshalLength(cs: seq<Child>)
    ensures |Marshal(cs)| >= 2 * |cs|
    ensures forall i :: 0 <= i < |cs| ==> |Marshal(cs)| >= |cs[i].val|
  {
    if cs != [] {
      MarshalLength(cs[1..]);
      assert |MarshalChild(cs[0])| >= |cs[0].val|;
      assert forall i :: 1 <= i < |cs| ==> cs[i] == cs[1..][i - 1];
    }
  }

  /** The varint at the front is as short as it can be: it does not end in a zero byte unless that is all of it. */
  predicate ShortVarint(b: seq<byte>)
  {
    b != [] && (b[0] < 128 || (|b| > 1 && b[1] != 0 && ShortVarint(b[1..])))
  }

  /** Nothing, or a value field that is not empty and fills the string. */
  predicate CanonicalVal(b: seq<byte>)
  {
    b == [] ||
    (b[0] == 18 && ShortVarint(b[1..]) &&
      match ReadField(b[1..])
      case None => false
      case Some((val, rest)) => val != [] && rest == [])
  }

  /** A type field that is not zero or none, and after it a value field that is not empty or none. */
  predicate CanonicalChild(b: seq<byte>)
  {
    if b == [] || b[0] != 8 then CanonicalVal(b)
    else
      ShortVarint(b[1..]) &&
      match ReadVarint(b[1..])
      case None => false
      case Some((n, rest)) => 0 < n < 0x1_0000_0000 && CanonicalVal(rest)
  }

  /** A byte string in the form that proto3 marshallers write: children one after the other, and in each
      the type before the value, each at most once and never zero or empty, no other field, and every
      number in its shortest form. */
  predicate Canonical(b: seq<byte>)
    decreases |b|
  {
    b == [] ||
    (b[0] == 10 && ShortVarint(b[1..]) &&
      match ReadField(b[1..])
      case None => false
      case Some((val, rest)) => CanonicalChild(val) && Canonical(rest))
  }

  lemma {:induction false} VarintShort(n: nat, rest: seq<byte>)
    ensures ShortVarint(Varint(n) + rest) && (n > 0 ==> Varint(n)[0] != 0)
  {
    var b := Varint(n) + rest;
    if n >= 128 {
      VarintShort(n / 128, rest);
      assert b[1..] == Varint(n / 128) + rest;
    }
  }

  lemma {:induction false} ShortIsVarint(b: seq<byte>)
    requires ShortVarint(b)
    ensures ReadVarint(b).Some? && b == Varint(ReadVarint(b).value.0) + ReadVarint(b).value.1
    ensures ReadVarint(b).value.0 == 0 ==> b[0] == 0
  {
    if b[0] < 128 {
      assert b == [b[0]] + b[1..];
    } else {
      ShortIsVarint(b[1..]);
      var (n, rest) := ReadVarint(b[1..]).value;
      var m := b[0] - 128 + 128 * n;
      assert m / 128 == n && m % 128 == b[0] - 128;
      assert b == [b[0]] + b[1..];
      assert Varint(m) == [b[0]] + Varint(n);
    }
  }

  lemma ShortIsField(tag: byte, b: seq<byte>)
    requires b != [] && b[0] == tag && ShortVarint(b[1..]) && ReadField(b[1..]).Some?
    ensures b == Field(tag, ReadField(b[1..]).value.0) + ReadField(b[1..]).value.1
  {
    hide Varint, ReadVarint, ShortVarint;
    ShortIsVarint(b[1..]);
    var (n, rest) := ReadVarint(b[1..]).value;
    assert b == [tag] + b[1..];
    assert rest == rest[..n] + rest[n..];
  }

  lemma FieldIsShort(tag: byte, val: seq<byte>, rest: seq<byte>)
    ensures var b := Field(tag, val) + rest;
            b[0] == tag && ShortVarint(b[1..]) && ReadField(b[1..]) == Some((val, rest))
  {
    hide Varint, ReadVarint, ShortVarint, ReadField;
    var b := Field(tag, val) + rest;
    assert b[1..] == Varint(|val|) + val + rest == Varint(|val|) + (val + rest);
    VarintShort(|val|, val + rest);
    ReadFieldOf(val, rest);
  }

  lemma CanonicalValIs(b: seq<byte>)
    requires CanonicalVal(b)
    ensures b == [] || (ReadField(b[1..]).Some? && ReadField(b[1..]).value.0 != [] &&
                        b == Field(18, ReadField(b[1..]).value.0))
  {
    hide ReadField, Field, ShortVarint;
    if b != [] {
      ShortIsField(18, b);
      assert Field(18, ReadField(b[1..]).value.0) + [] == b;
    }
  }

  lemma ValIsCanonical(val: seq<byte>)
    ensures CanonicalVal(if val == [] then [] else Field(18, val))
  {
    hide ReadField, Field, ShortVarint;
    if val != [] {
      FieldIsShort(18, val, []);
      assert Field(18, val) + [] == Field(18, val);
    }
  }

  lemma ChildIsCanonical(c: Child)
    ensures CanonicalChild(MarshalChild(c))
  {
    hide ReadVarint, Varint, Field, ShortVarint, CanonicalVal;
    var tail := if c.val == [] then [] else Field(18, c.val);
    ValIsCanonical(c.val);
    var b := MarshalChild(c);
    if c.kind == 0 {
      assert b == tail;
      assert b == [] || b[0] == 18 by { FieldIsShort(18, c.val, []); assert Field(18, c.val) + [] == Field(18, c.val); }
    } else {
      assert b == [8] + (Varint(c.kind) + tail);
      assert b[1..] == Varint(c.kind) + tail;
      VarintShort(c.kind, tail);
      ReadVarintOf(c.kind, tail);
    }
  }

  lemma CanonicalChildIs(b: seq<byte>)
    requires CanonicalChild(b)
    ensures exists c :: b == MarshalChild(c)
  {
    hide ReadVarint, Varint, Field, ShortVarint, CanonicalVal, ReadField;
    if b == [] || b[0] != 8 {
      CanonicalValIs(b);
      var c := Child(0, if b == [] then [] else ReadField(b[1..]).value.0);
      assert b == MarshalChild(c);
    } else {
      ShortIsVarint(b[1..]);
      var (n, rest) := ReadVarint(b[1..]).value;
      CanonicalValIs(rest);
      var c := Child(n, if rest == [] then [] else ReadField(rest[1..]).value.0);
      assert b == [8] + b[1..];
      assert b == MarshalChild(c);
    }
  }

  lemma {:induction false} MarshalIsCanonical(cs: seq<Child>)
    ensures Canonical(Marshal(cs))
  {
    hide ReadField, Field, ShortVarint, CanonicalChild, MarshalChild;
    if cs != [] {
      ChildIsCanonical(cs[0]);
      MarshalIsCanonical(cs[1..]);
      FieldIsShort(10, MarshalChild(cs[0]), Marshal(cs[1..]));
    }
  }

  lemma {:induction false} CanonicalIs(b: seq<byte>)
    requires Canonical(b)
    ensures exists cs :: b == Marshal(cs)
    decreases |b|
  {
    hide ReadField, Field, ShortVarint, CanonicalChild, MarshalChild;
    if b == [] {
      assert b == Marshal([]);
    } else {
      ShortIsField(10, b);
      var (val, rest) := ReadField(b[1..]).value;
      CanonicalChildIs(val);
      CanonicalIs(rest);
      var c :| val == MarshalChild(c);
      var cs :| rest == Marshal(cs);
      assert ([c] + cs)[1..] == cs;
      assert b == Marshal([c] + cs);
    }
  }

  /** Which bytes are marshalled: of all the strings that unmarshal to these children it is the canonical
      one, and there is one for every canonical string. */
  lemma MarshalUnmarshal(b: seq<byte>)
    ensures Canonical(b) ==> Unmarshal(b).Some?
    ensures Unmarshal(b).Some? ==> (Canonical(b) <==> b == Marshal(Unmarshal(b).value))
  {
    hide Canonical, Unmarshal, Marshal;
    if Canonical(b) {
      CanonicalIs(b);
      var cs :| b == Marshal(cs);
      UnmarshalMarshal(cs);
    }
    if Unmarshal(b).Some? {
      MarshalIsCanonical(Unmarshal(b).value);
    }
  }

  lemma ValThenKind(c: Child)
    ensures UnmarshalChild(Field(18, c.val) + ([8] + Varint(c.kind)), Child(0, [])) == Some(c)
  {
    hide ReadVarint, ReadField, Varint, Field;
    var tail := [8] + Varint(c.kind);
    FieldIsShort(18, c.val, tail);
    UnmarshalKind(c.kind, [], Child(0, c.val));
    assert tail + [] == tail;
  }

  /** A string with the value before the type reads as the same child, and is not what is written. */
  lemma ValueFirst(c: Child)
    requires c.kind != 0 && c.val != []
    ensures var b := Field(10, Field(18, c.val) + ([8] + Varint(c.kind)));
            Unmarshal(b) == Some([c]) && b != Marshal([c]) && !Canonical(b)
  {
    hide ReadVarint, ReadField, Varint, Field, MarshalChild, UnmarshalChild, ShortVarint, CanonicalVal;
    var x := Field(18, c.val) + ([8] + Varint(c.kind));
    ValThenKind(c);
    UnmarshalField(x, []);
    assert [c] + [] == [c];
    FieldIsShort(10, x, []);
    FieldIsShort(18, c.val, [8] + Varint(c.kind));
    assert Field(10, x) + [] == Field(10, x);
    assert !CanonicalVal(x) by { ValRest(x); }
    MarshalUnmarshal(Field(10, x));
  }

  lemma ValRest(b: seq<byte>)
    requires b != [] && b[0] == 18 && ReadField(b[1..]).Some? && ReadField(b[1..]).value.1 != []
    ensures !CanonicalVal(b)
  {
  }

  /** The bytes of a child with a short type number and a short value. */
  lemma ChildBytes(c: Child)
    requires c.kind < 128 && |c.val| < 128
    ensures MarshalChild(c) ==
            (if c.kind == 0 then [] else [8, c.kind]) + if c.val == [] then [] else [18, |c.val|] + c.val
  {
  }
}
