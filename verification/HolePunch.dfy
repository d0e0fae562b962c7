/** The DCUtR `HolePunch` protobuf message (crates/dcutr/src/message.rs). */
module HolePunch {
  import opened Bytes
  import V = Varint

  datatype Kind = Connect | Sync

  function KindCode(k: Kind): U64 {
    match k
    case Connect => 100
    case Sync => 300
  }

  function KindOf(value: nat): Option<Kind> {
    if value == 100 then Some(Connect) else if value == 300 then Some(Sync) else None
  }

  datatype Message = Message(kind: Kind, obsAddrs: seq<seq<Byte>>)

  datatype MessageError =
    | VarintFault(error: V.VarintError)
    | FieldOverflow(offset: nat, length: nat, remaining: nat)
    | UnsupportedWireType(wireType: nat, offset: nat)
    | MissingType
    | InvalidType(value: nat)

  /** A field body and the bytes that follow it. */
  datatype Field = Field(value: seq<Byte>, rest: seq<Byte>)

  function AddrField(addr: seq<Byte>): seq<Byte> {
    [0x12] + (V.Encode(|addr|) + addr)
  }

  function EncodeAddrs(addrs: seq<seq<Byte>>): seq<Byte> {
    if addrs == [] then [] else AddrField(addrs[0]) + EncodeAddrs(addrs[1..])
  }

  function Encode(m: Message): seq<Byte> {
    [0x08] + (V.Encode(KindCode(m.kind)) + EncodeAddrs(m.obsAddrs))
  }

  /** Reads a length and that many bytes; `total` is the size of the whole message, for error offsets. */
  function ReadLenDelimited(input: seq<Byte>, total: nat): (r: Result<Field, MessageError>)
    requires |input| <= total
    ensures r.Ok? ==> |r.value.rest| < |input|
  {
    match V.Read(input)
    case Err(e) => Err(VarintFault(e))
    case Ok(d) =>
      var body := input[d.used..];
      if d.value > |body| then Err(FieldOverflow(total - |body|, d.value, |body|))
      else Ok(Field(body[..d.value], body[d.value..]))
  }

  function SkipFixed(input: seq<Byte>, width: nat, total: nat): (r: Result<seq<Byte>, MessageError>)
    requires |input| <= total
    ensures r.Ok? ==> |r.value| <= |input|
  {
    if width > |input| then Err(FieldOverflow(total - |input|, width, |input|)) else Ok(input[width..])
  }

  /** The unread bytes, the type seen so far and the addresses seen so far. */
  datatype Progress = Progress(rest: seq<Byte>, kind: Option<Kind>, addrs: seq<seq<Byte>>)

  function DecodeField(p: Progress, total: nat): (r: Result<Progress, MessageError>)
    requires 0 < |p.rest| <= total
    ensures r.Ok? ==> |r.value.rest| < |p.rest|
  {
    match V.Read(p.rest)
    case Err(e) => Err(VarintFault(e))
    case Ok(tag) =>
      var input := p.rest[tag.used..];
      var wire, field := tag.value % 8, tag.value / 8;
      if wire == 0 then
        match V.Read(input)
        case Err(e) => Err(VarintFault(e))
        case Ok(d) =>
          if field == 1 then
            if KindOf(d.value).None? then Err(InvalidType(d.value))
            else Ok(p.(rest := input[d.used..], kind := KindOf(d.value)))
          else Ok(p.(rest := input[d.used..]))
      else if wire == 2 then
        match ReadLenDelimited(input, total)
        case Err(e) => Err(e)
        case Ok(f) => Ok(p.(rest := f.rest, addrs := if field == 2 then p.addrs + [f.value] else p.addrs))
      else if wire == 1 || wire == 5 then
        match SkipFixed(input, if wire == 1 then 8 else 4, total)
        case Err(e) => Err(e)
        case Ok(rest) => Ok(p.(rest := rest))
      else Err(UnsupportedWireType(wire, total - |input|))
  }

  function DecodeFrom(p: Progress, total: nat): Result<Message, MessageError>
    requires |p.rest| <= total
    decreases |p.rest|
  {
    if p.rest == [] then
      if p.kind.None? then Err(MissingType) else Ok(Message(p.kind.value, p.addrs))
    else
      match DecodeField(p, total)
      case Err(e) => Err(e)
      case Ok(p') => DecodeFrom(p', total)
  }

  function Decode(input: seq<Byte>): Result<Message, MessageError> {
    DecodeFrom(Progress(input, None, []), |input|)
  }

  /** Address lengths that fit the 64-bit length field. */
  predicate Encodable(addrs: seq<seq<Byte>>) {
    forall a | a in addrs :: |a| <= U64_MAX
  }

  lemma ReadLenEncoded(body: seq<Byte>, rest: seq<Byte>, total: nat)
    requires |body| <= U64_MAX
    requires |V.Encode(|body|) + (body + rest)| <= total
    ensures ReadLenDelimited(V.Encode(|body|) + (body + rest), total) == Ok(Field(body, rest))
  {
    V.ReadEncode(|body|, body + rest);
  }

  lemma DecodeAddrField(p: Progress, addr: seq<Byte>, rest: seq<Byte>, total: nat)
    requires |addr| <= U64_MAX && |p.rest| <= total
    requires p.rest == AddrField(addr) + rest
    ensures DecodeField(p, total) == Ok(p.(rest := rest, addrs := p.addrs + [addr]))
  {
    var input := V.Encode(|addr|) + (addr + rest);
    assert p.rest == V.Encode(0x12) + input;
    V.ReadEncode(0x12, input);
    ReadLenEncoded(addr, rest, total);
  }

  lemma DecodeAddrStep(p: Progress, addr: seq<Byte>, rest: seq<Byte>, total: nat)
    requires |addr| <= U64_MAX && |p.rest| <= total
    requires p.rest == AddrField(addr) + rest
    ensures DecodeFrom(p, total) == DecodeFrom(Progress(rest, p.kind, p.addrs + [addr]), total)
  {
    DecodeAddrField(p, addr, rest, total);
  }

  lemma {:induction false} DecodeAddrs(p: Progress, addrs: seq<seq<Byte>>, total: nat)
    requires p.kind.Some? && Encodable(addrs) && |p.rest| <= total
    requires p.rest == EncodeAddrs(addrs)
    ensures DecodeFrom(p, total) == Ok(Message(p.kind.value, p.addrs + addrs))
    decreases |addrs|
  {
    hide DecodeField;
    if addrs == [] {
      assert p.addrs + addrs == p.addrs;
    } else {
      var p' := Progress(EncodeAddrs(addrs[1..]), p.kind, p.addrs + [addrs[0]]);
      DecodeAddrStep(p, addrs[0], p'.rest, total);
      DecodeAddrs(p', addrs[1..], total);
      assert p'.addrs + addrs[1..] == p.addrs + addrs;
    }
  }

  /** Every message decodes to itself. */
  lemma DecodeEncode(m: Message)
    requires Encodable(m.obsAddrs)
    ensures Decode(Encode(m)) == Ok(m)
  {
    var input := Encode(m);
    var body := EncodeAddrs(m.obsAddrs);
    assert input == V.Encode(0x08) + (V.Encode(KindCode(m.kind)) + body);
    V.ReadEncode(0x08, V.Encode(KindCode(m.kind)) + body);
    V.ReadEncode(KindCode(m.kind), body);
    var p := Progress(body, Some(m.kind), []);
    assert DecodeField(Progress(input, None, []), |input|) == Ok(p);
    DecodeAddrs(p, m.obsAddrs, |input|);
    assert p.addrs + m.obsAddrs == m.obsAddrs;
  }

  /** The cursor loop of `HolePunch::decode`. */
  method DecodeLoop(input: seq<Byte>) returns (r: Result<Message, MessageError>)
    ensures r == Decode(input)
  {
    var p := Progress(input, None, []);
    while p.rest != []
      invariant |p.rest| <= |input|
      invariant DecodeFrom(p, |input|) == Decode(input)
      decreases |p.rest|
    {
      var step := DecodeField(p, |input|);
      if step.Err? {
        return Err(step.error);
      }
      p := step.value;
    }
    if p.kind.None? {
      return Err(MissingType);
    }
    return Ok(Message(p.kind.value, p.addrs));
  }

  lemma {:induction false} EncodeAddrsSnoc(addrs: seq<seq<Byte>>, addr: seq<Byte>)
    ensures EncodeAddrs(addrs + [addr]) == EncodeAddrs(addrs) + AddrField(addr)
  {
    if addrs == [] {
      assert EncodeAddrs([addr]) == AddrField(addr) + EncodeAddrs([]);
    } else {
      assert (addrs + [addr])[1..] == addrs[1..] + [addr];
      EncodeAddrsSnoc(addrs[1..], addr);
    }
  }

  method PushAddr(addr: seq<Byte>, out: seq<Byte>) returns (r: seq<Byte>)
    requires |addr| <= U64_MAX
    ensures r == out + AddrField(addr)
  {
    r := V.WriteUvarint(|addr|, out + [0x12]);
    r := r + addr;
  }

  lemma EncodeParts(m: Message)
    ensures EncodeAddrs([]) == [] && Encode(m) == [0x08] + V.Encode(KindCode(m.kind)) + EncodeAddrs(m.obsAddrs)
  {
  }

  /** The appending loop of `HolePunch::encode`. */
  method EncodeLoop(m: Message) returns (out: seq<Byte>)
    requires Encodable(m.obsAddrs)
    ensures out == Encode(m)
  {
    hide EncodeAddrs, AddrField, V.Encode, KindCode;
    EncodeParts(m);
    out := V.WriteUvarint(KindCode(m.kind), [0x08]);
    ghost var head := out;
    var i := 0;
    assert m.obsAddrs[..0] == [] && head + [] == head;
    while i < |m.obsAddrs|
      invariant 0 <= i <= |m.obsAddrs|
      invariant out == head + EncodeAddrs(m.obsAddrs[..i])
    {
      out := PushAddr(m.obsAddrs[i], out);
      assert m.obsAddrs[..i + 1] == m.obsAddrs[..i] + [m.obsAddrs[i]];
      EncodeAddrsSnoc(m.obsAddrs[..i], m.obsAddrs[i]);
      i := i + 1;
    }
    assert m.obsAddrs[..i] == m.obsAddrs;
  }
}
