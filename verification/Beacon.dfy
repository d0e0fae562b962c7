/** The signed presence beacon's protobuf (crates/discovery/src/message.rs). */
module Beacon {
  import opened Bytes
  import V = Varint

  const MAX_BEACON: nat := 8192
  const MAX_ADDRS: nat := 64
  const MAX_ADDR: nat := 1024
  const MAX_KEY: nat := 8189
  const MAX_FIELD: nat := 0x1FFF_FFFF

  datatype Beacon = Beacon(publicKey: seq<Byte>, addrs: seq<seq<Byte>>)

  datatype WireError =
    | BeaconTooLarge | InvalidVarint | FieldZero | InvalidFieldNumber | Truncated | UnsupportedWireType(wire: nat)
    | PublicKeyTooLarge | AddressTooLarge | TooManyAddresses

  // ---- encoding ----

  function LenField(tag: Byte, value: seq<Byte>): seq<Byte>
    requires tag < 128
  {
    [tag] + (V.Encode(|value|) + value)
  }

  function EncodeAddrs(addrs: seq<seq<Byte>>): seq<Byte> {
    if addrs == [] then [] else LenField(0x12, addrs[0]) + EncodeAddrs(addrs[1..])
  }

  function Encode(b: Beacon): seq<Byte> {
    (if b.publicKey == [] then [] else LenField(0x0a, b.publicKey)) + EncodeAddrs(b.addrs)
  }

  function FieldSize(n: nat): nat {
    1 + V.Len(n) + n
  }

  function AddrsSize(addrs: seq<seq<Byte>>): nat {
    if addrs == [] then 0 else FieldSize(|addrs[0]|) + AddrsSize(addrs[1..])
  }

  /** `encoded_len`. */
  function EncodedLen(b: Beacon): nat {
    (if b.publicKey == [] then 0 else FieldSize(|b.publicKey|)) + AddrsSize(b.addrs)
  }

  lemma {:induction false} AddrsSizeExact(addrs: seq<seq<Byte>>)
    ensures |EncodeAddrs(addrs)| == AddrsSize(addrs)
  {
    if addrs != [] {
      AddrsSizeExact(addrs[1..]);
    }
  }

  /** The predicted length is the encoded length. */
  lemma EncodedLenExact(b: Beacon)
    ensures |Encode(b)| == EncodedLen(b)
  {
    hide V.Encode, V.Len;
    AddrsSizeExact(b.addrs);
  }

  // ---- decoding ----

  datatype Cut = Cut(value: seq<Byte>, rest: seq<Byte>)

  function ReadLen(input: seq<Byte>): (r: Result<Cut, WireError>)
    ensures r.Ok? ==> |r.value.rest| < |input|
  {
    match V.Parse(input, 0)
    case Err(_) => Err(InvalidVarint)
    case Ok(d) =>
      var body := input[d.used..];
      if d.value > |body| then Err(Truncated) else Ok(Cut(body[..d.value], body[d.value..]))
  }

  /** Skips an unknown field of the given wire type. */
  function Skip(input: seq<Byte>, wire: nat): (r: Result<seq<Byte>, WireError>)
    ensures r.Ok? ==> |r.value| <= |input|
  {
    if wire == 0 then
      match V.Parse(input, 0)
      case Err(_) => Err(InvalidVarint)
      case Ok(d) => Ok(input[d.used..])
    else if wire == 1 then (if |input| < 8 then Err(Truncated) else Ok(input[8..]))
    else if wire == 2 then
      match ReadLen(input)
      case Err(e) => Err(e)
      case Ok(cut) => Ok(cut.rest)
    else if wire == 5 then (if |input| < 4 then Err(Truncated) else Ok(input[4..]))
    else Err(UnsupportedWireType(wire))
  }

  datatype Progress = Progress(beacon: Beacon, rest: seq<Byte>)

  function DecodeField(p: Progress): (r: Result<Progress, WireError>)
    requires p.rest != []
    ensures r.Ok? ==> |r.value.rest| < |p.rest|
  {
    match V.Parse(p.rest, 0)
    case Err(_) => Err(InvalidVarint)
    case Ok(tag) =>
      var input, field, wire := p.rest[tag.used..], tag.value / 8, tag.value % 8;
      if field == 0 then Err(FieldZero)
      else if field > MAX_FIELD then Err(InvalidFieldNumber)
      else if field == 1 && wire == 2 then
        match ReadLen(input)
        case Err(e) => Err(e)
        case Ok(cut) =>
          if |cut.value| > MAX_KEY then Err(PublicKeyTooLarge)
          else Ok(Progress(p.beacon.(publicKey := cut.value), cut.rest))
      else if field == 2 && wire == 2 then
        if |p.beacon.addrs| == MAX_ADDRS then Err(TooManyAddresses)
        else
          match ReadLen(input)
          case Err(e) => Err(e)
          case Ok(cut) =>
            if |cut.value| > MAX_ADDR then Err(AddressTooLarge)
            else Ok(Progress(p.beacon.(addrs := p.beacon.addrs + [cut.value]), cut.rest))
      else
        match Skip(input, wire)
        case Err(e) => Err(e)
        case Ok(rest) => Ok(p.(rest := rest))
  }

  function DecodeFrom(p: Progress): Result<Beacon, WireError>
    decreases |p.rest|
  {
    if p.rest == [] then Ok(p.beacon)
    else
      match DecodeField(p)
      case Err(e) => Err(e)
      case Ok(next) => DecodeFrom(next)
  }

  function Decode(input: seq<Byte>): Result<Beacon, WireError> {
    if |input| > MAX_BEACON then Err(BeaconTooLarge) else DecodeFrom(Progress(Beacon([], []), input))
  }

  // ---- the round trip ----

  lemma ParseEncoded(v: nat, rest: seq<Byte>)
    requires v <= U64_MAX
    ensures V.Parse(V.Encode(v) + rest, 0) == Ok(V.Decoded(v, V.Len(v)))
    ensures (V.Encode(v) + rest)[V.Len(v)..] == rest
  {
    V.CapIsU64();
    V.ParseEncode(v, 0, rest);
  }

  lemma ReadLenEncoded(value: seq<Byte>, rest: seq<Byte>)
    requires |value| <= U64_MAX
    ensures ReadLen(V.Encode(|value|) + (value + rest)) == Ok(Cut(value, rest))
  {
    hide V.Parse, V.Encode;
    ParseEncoded(|value|, value + rest);
  }

  /** What follows the tag of a length-delimited field. */
  lemma FieldEncoded(tag: Byte, value: seq<Byte>, rest: seq<Byte>)
    requires tag < 128 && |value| <= U64_MAX
    ensures var input := LenField(tag, value) + rest;
            && V.Parse(input, 0) == Ok(V.Decoded(tag, 1))
            && ReadLen(input[1..]) == Ok(Cut(value, rest))
  {
    var input := LenField(tag, value) + rest;
    assert input[1..] == V.Encode(|value|) + (value + rest);
    hide V.Encode;
    ReadLenEncoded(value, rest);
  }

  lemma DecodeKeyField(p: Progress, key: seq<Byte>, rest: seq<Byte>)
    requires |key| <= MAX_KEY && p.rest == LenField(0x0a, key) + rest
    ensures DecodeFrom(p) == DecodeFrom(Progress(p.beacon.(publicKey := key), rest))
  {
    hide V.Parse, V.Encode, ReadLen, Skip;
    FieldEncoded(0x0a, key, rest);
  }

  lemma DecodeAddrField(p: Progress, addr: seq<Byte>, rest: seq<Byte>)
    requires |addr| <= MAX_ADDR && |p.beacon.addrs| < MAX_ADDRS && p.rest == LenField(0x12, addr) + rest
    ensures DecodeFrom(p) == DecodeFrom(Progress(p.beacon.(addrs := p.beacon.addrs + [addr]), rest))
  {
    hide V.Parse, V.Encode, ReadLen, Skip;
    FieldEncoded(0x12, addr, rest);
  }

  predicate AddrsFit(addrs: seq<seq<Byte>>) {
    forall i | 0 <= i < |addrs| :: |addrs[i]| <= MAX_ADDR
  }

  lemma {:induction false} DecodeAddrs(b: Beacon, addrs: seq<seq<Byte>>)
    requires AddrsFit(addrs) && |b.addrs| + |addrs| <= MAX_ADDRS
    ensures DecodeFrom(Progress(b, EncodeAddrs(addrs))) == Ok(b.(addrs := b.addrs + addrs))
    decreases |addrs|
  {
    hide LenField, DecodeField;
    if addrs == [] {
      assert b.addrs + [] == b.addrs;
    } else {
      DecodeAddrField(Progress(b, EncodeAddrs(addrs)), addrs[0], EncodeAddrs(addrs[1..]));
      DecodeAddrs(b.(addrs := b.addrs + [addrs[0]]), addrs[1..]);
      assert (b.addrs + [addrs[0]]) + addrs[1..] == b.addrs + addrs;
    }
  }

  /** A beacon within the wire's caps decodes to itself. */
  lemma DecodeEncode(b: Beacon)
    requires |b.publicKey| <= MAX_KEY && AddrsFit(b.addrs) && |b.addrs| <= MAX_ADDRS && |Encode(b)| <= MAX_BEACON
    ensures Decode(Encode(b)) == Ok(b)
  {
    hide LenField, DecodeField, DecodeFrom, EncodeAddrs;
    var blank := Beacon([], []);
    assert [] + EncodeAddrs(b.addrs) == EncodeAddrs(b.addrs);
    if b.publicKey != [] {
      DecodeKeyField(Progress(blank, Encode(b)), b.publicKey, EncodeAddrs(b.addrs));
    }
    DecodeAddrs(Beacon(b.publicKey, []), b.addrs);
    assert [] + b.addrs == b.addrs;
  }

  method DecodeLoop(input: seq<Byte>) returns (r: Result<Beacon, WireError>)
    ensures r == Decode(input)
  {
    hide DecodeField;
    if |input| > MAX_BEACON {
      return Err(BeaconTooLarge);
    }
    var p := Progress(Beacon([], []), input);
    while p.rest != []
      invariant DecodeFrom(Progress(Beacon([], []), input)) == DecodeFrom(p)
      decreases |p.rest|
    {
      var next := DecodeField(p);
      if next.Err? {
        return Err(next.error);
      }
      p := next.value;
    }
    return Ok(p.beacon);
  }
}
