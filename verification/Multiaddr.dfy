/**
 Binary multiaddrs (crates/core/src/protocol.rs, crates/core/src/multiaddr.rs).

 A peer id is its multihash.  The multihash crate is not part of the repository; its
 published layout, `<uvarint code><uvarint length><digest>`, stands for it here.
 Text is held as its UTF-8 bytes.
 */
module Multiaddr {
  import opened Bytes
  import V = Varint
  import Utf8

  datatype PeerId = PeerId(code: nat, digest: seq<Byte>)

  const SHA256_CODE := 0x12
  const MAX_DIGEST := 64

  /** What `PeerMultihash` can hold and `validate_multihash` lets through. */
  predicate ValidPeer(p: PeerId) {
    p.code <= U64_MAX && |p.digest| <= MAX_DIGEST && (p.code == SHA256_CODE ==> |p.digest| == 32)
  }

  function PeerBytes(p: PeerId): seq<Byte> {
    V.Encode(p.code) + (V.Encode(|p.digest|) + p.digest)
  }

  datatype PeerIdError = InvalidMultihash | InvalidSha256DigestLength(actual: nat)

  function PeerFromBytes(bytes: seq<Byte>): Result<PeerId, PeerIdError> {
    match V.Read(bytes)
    case Err(_) => Err(InvalidMultihash)
    case Ok(code) =>
      var rest := bytes[code.used..];
      match V.Read(rest)
      case Err(_) => Err(InvalidMultihash)
      case Ok(size) =>
        var digest := rest[size.used..];
        if size.value > MAX_DIGEST || size.value != |digest| then Err(InvalidMultihash)
        else if code.value == SHA256_CODE && size.value != 32 then Err(InvalidSha256DigestLength(size.value))
        else Ok(PeerId(code.value, digest))
  }

  lemma PeerRoundTrip(p: PeerId)
    requires ValidPeer(p)
    ensures PeerFromBytes(PeerBytes(p)) == Ok(p)
  {
    V.ReadEncode(p.code, V.Encode(|p.digest|) + p.digest);
    V.ReadEncode(|p.digest|, p.digest);
  }

  lemma PeerExact(bytes: seq<Byte>)
    requires PeerFromBytes(bytes).Ok?
    ensures var p := PeerFromBytes(bytes).value; ValidPeer(p) && PeerBytes(p) == bytes
  {
    V.ReadCanonical(bytes);
    V.ReadCanonical(bytes[V.Read(bytes).value.used..]);
  }

  datatype Protocol =
    | Ip4(ip4: seq<Byte>)
    | Ip6(ip6: seq<Byte>)
    | Dns(name: seq<Byte>)
    | Dns4(name: seq<Byte>)
    | Dns6(name: seq<Byte>)
    | Tcp(port: nat)
    | Udp(port: nat)
    | QuicV1
    | P2p(peer: PeerId)
    | P2pCircuit

  predicate ValidDns(name: seq<Byte>) {
    name != [] && Utf8.Valid(name) && Utf8.Printable(name)
  }

  /** What the Rust types guarantee of a component, together with the name check both codecs apply. */
  predicate ValidProtocol(p: Protocol) {
    match p
    case Ip4(b) => |b| == 4
    case Ip6(b) => |b| == 16
    case Dns(n) => ValidDns(n) && |n| <= U64_MAX
    case Dns4(n) => ValidDns(n) && |n| <= U64_MAX
    case Dns6(n) => ValidDns(n) && |n| <= U64_MAX
    case Tcp(port) => port < 0x1_0000
    case Udp(port) => port < 0x1_0000
    case P2p(peer) => ValidPeer(peer)
    case _ => true
  }

  function Code(p: Protocol): (c: U64)
    ensures c < 0x4000
  {
    match p
    case Ip4(_) => 0x04
    case Ip6(_) => 0x29
    case Dns(_) => 0x35
    case Dns4(_) => 0x36
    case Dns6(_) => 0x37
    case Tcp(_) => 0x06
    case Udp(_) => 0x0111
    case QuicV1 => 0x01cd
    case P2p(_) => 0x01a5
    case P2pCircuit => 0x0122
  }

  function PortOf(b: seq<Byte>): nat
    requires |b| == 2
  {
    b[0] as int * 256 + b[1]
  }

  function PortBytes(port: nat): (b: seq<Byte>)
    requires port < 0x1_0000
    ensures |b| == 2 && PortOf(b) == port
  {
    [port / 256, port % 256]
  }

  function LengthPrefixed(body: seq<Byte>): seq<Byte> {
    V.Encode(|body|) + body
  }

  function Value(p: Protocol): seq<Byte>
    requires ValidProtocol(p)
  {
    match p
    case Ip4(b) => b
    case Ip6(b) => b
    case Dns(n) => LengthPrefixed(n)
    case Dns4(n) => LengthPrefixed(n)
    case Dns6(n) => LengthPrefixed(n)
    case Tcp(port) => PortBytes(port)
    case Udp(port) => PortBytes(port)
    case P2p(peer) => LengthPrefixed(PeerBytes(peer))
    case _ => []
  }

  /** `write_binary`. */
  function WriteBinary(p: Protocol): (out: seq<Byte>)
    requires ValidProtocol(p)
    ensures out != []
  {
    V.Encode(Code(p)) + Value(p)
  }

  datatype MultiaddrError =
    | VarintFault(error: V.VarintError)
    | TruncatedBinaryValue(code: nat)
    | InvalidBinaryValue(code: nat)
    | UnknownProtocolCode(code: nat)

  /** Bytes taken from the front and the bytes left. */
  datatype Cut = Cut(value: seq<Byte>, rest: seq<Byte>)

  function TakeFixed(bytes: seq<Byte>, n: nat, code: nat): (r: Result<Cut, MultiaddrError>)
    ensures r.Ok? ==> |r.value.value| == n && bytes == r.value.value + r.value.rest
  {
    if |bytes| < n then Err(TruncatedBinaryValue(code)) else Ok(Cut(bytes[..n], bytes[n..]))
  }

  function TakePrefixed(bytes: seq<Byte>, code: nat): Result<Cut, MultiaddrError> {
    match V.Read(bytes)
    case Err(e) => Err(VarintFault(e))
    case Ok(d) =>
      var rest := bytes[d.used..];
      if d.value > |rest| then Err(TruncatedBinaryValue(code)) else Ok(Cut(rest[..d.value], rest[d.value..]))
  }

  /** A component and the bytes left. */
  datatype Component = Component(protocol: Protocol, rest: seq<Byte>)

  function DnsProtocol(code: nat, name: seq<Byte>): Protocol {
    if code == 0x35 then Dns(name) else if code == 0x36 then Dns4(name) else Dns6(name)
  }

  function ReadValue(code: nat, rest: seq<Byte>): Result<Component, MultiaddrError> {
    if code == 0x04 then
      match TakeFixed(rest, 4, code)
      case Err(e) => Err(e)
      case Ok(cut) => Ok(Component(Ip4(cut.value), cut.rest))
    else if code == 0x29 then
      match TakeFixed(rest, 16, code)
      case Err(e) => Err(e)
      case Ok(cut) => Ok(Component(Ip6(cut.value), cut.rest))
    else if code == 0x06 || code == 0x0111 then
      match TakeFixed(rest, 2, code)
      case Err(e) => Err(e)
      case Ok(cut) =>
        var port := PortOf(cut.value);
        Ok(Component(if code == 0x06 then Tcp(port) else Udp(port), cut.rest))
    else if code == 0x01cd then Ok(Component(QuicV1, rest))
    else if code == 0x0122 then Ok(Component(P2pCircuit, rest))
    else if code == 0x35 || code == 0x36 || code == 0x37 then
      match TakePrefixed(rest, code)
      case Err(e) => Err(e)
      case Ok(cut) =>
        if !ValidDns(cut.value) then Err(InvalidBinaryValue(code))
        else Ok(Component(DnsProtocol(code, cut.value), cut.rest))
    else if code == 0x01a5 then
      match TakePrefixed(rest, code)
      case Err(e) => Err(e)
      case Ok(cut) =>
        match PeerFromBytes(cut.value)
        case Err(_) => Err(InvalidBinaryValue(code))
        case Ok(peer) => Ok(Component(P2p(peer), cut.rest))
    else Err(UnknownProtocolCode(code))
  }

  /** `read_binary`. */
  function ReadBinary(bytes: seq<Byte>): Result<Component, MultiaddrError> {
    match V.Read(bytes)
    case Err(e) => Err(VarintFault(e))
    case Ok(d) => ReadValue(d.value, bytes[d.used..])
  }

  lemma TakePrefixedEncoded(body: seq<Byte>, rest: seq<Byte>, code: nat)
    requires |body| <= U64_MAX
    ensures TakePrefixed(LengthPrefixed(body) + rest, code) == Ok(Cut(body, rest))
  {
    V.ReadEncode(|body|, body + rest);
    assert LengthPrefixed(body) + rest == V.Encode(|body|) + (body + rest);
  }

  lemma TakePrefixedExact(bytes: seq<Byte>, code: nat)
    requires TakePrefixed(bytes, code).Ok?
    ensures var cut := TakePrefixed(bytes, code).value;
            |cut.value| <= U64_MAX && bytes == LengthPrefixed(cut.value) + cut.rest
  {
    V.ReadCanonical(bytes);
    var cut := TakePrefixed(bytes, code).value;
    assert cut.value + cut.rest == bytes[V.Read(bytes).value.used..];
  }

  lemma PeerBytesShort(p: PeerId)
    requires ValidPeer(p)
    ensures |PeerBytes(p)| <= 75
  {
    V.CapIsU64();
    V.ParseEncode(p.code, 0, []);
    LenOfU64(p.code, 0);
  }

  lemma {:induction false} LenOfU64(v: nat, idx: nat)
    requires idx <= 9 && v < V.Cap(idx)
    ensures V.Len(v) <= 10 - idx
    decreases v
  {
    if v >= 128 {
      LenOfU64(v / 128, idx + 1);
    }
  }

  lemma TakeFixedEncoded(value: seq<Byte>, rest: seq<Byte>, code: nat)
    ensures TakeFixed(value + rest, |value|, code) == Ok(Cut(value, rest))
  {
  }

  lemma ReadPeerEncoded(peer: PeerId, rest: seq<Byte>)
    requires ValidPeer(peer)
    ensures ReadValue(0x01a5, LengthPrefixed(PeerBytes(peer)) + rest) == Ok(Component(P2p(peer), rest))
  {
    PeerRoundTrip(peer);
    PeerBytesShort(peer);
    TakePrefixedEncoded(PeerBytes(peer), rest, 0x01a5);
    hide PeerFromBytes, PeerBytes, TakePrefixed, LengthPrefixed;
  }

  lemma ReadDnsEncoded(code: nat, name: seq<Byte>, rest: seq<Byte>)
    requires code == 0x35 || code == 0x36 || code == 0x37
    requires ValidDns(name) && |name| <= U64_MAX
    ensures ReadValue(code, LengthPrefixed(name) + rest) == Ok(Component(DnsProtocol(code, name), rest))
  {
    TakePrefixedEncoded(name, rest, code);
    hide ValidDns, TakePrefixed, LengthPrefixed;
  }

  lemma ReadValueEncoded(p: Protocol, rest: seq<Byte>)
    requires ValidProtocol(p)
    ensures ReadValue(Code(p), Value(p) + rest) == Ok(Component(p, rest))
  {
    hide PeerFromBytes, PeerBytes, TakePrefixed, LengthPrefixed, ValidDns;
    if p.P2p? {
      ReadPeerEncoded(p.peer, rest);
    } else if p.Dns? || p.Dns4? || p.Dns6? {
      ReadDnsEncoded(Code(p), p.name, rest);
    } else {
      TakeFixedEncoded(Value(p), rest, Code(p));
    }
  }

  lemma ReadValueExact(code: nat, bytes: seq<Byte>)
    requires ReadValue(code, bytes).Ok?
    ensures var c := ReadValue(code, bytes).value;
            ValidProtocol(c.protocol) && Code(c.protocol) == code && bytes == Value(c.protocol) + c.rest
  {
    if code == 0x01a5 {
      TakePrefixedExact(bytes, code);
      PeerExact(TakePrefixed(bytes, code).value.value);
    } else if code == 0x35 || code == 0x36 || code == 0x37 {
      TakePrefixedExact(bytes, code);
    } else if code == 0x06 || code == 0x0111 {
      PortExact(TakeFixed(bytes, 2, code).value.value);
    }
  }

  lemma PortExact(b: seq<Byte>)
    requires |b| == 2
    ensures PortOf(b) < 0x1_0000 && PortBytes(PortOf(b)) == b
  {
  }

  lemma ReadBinaryEncoded(p: Protocol, rest: seq<Byte>)
    requires ValidProtocol(p)
    ensures ReadBinary(WriteBinary(p) + rest) == Ok(Component(p, rest))
  {
    hide ReadValue, Value;
    V.ReadEncode(Code(p), Value(p) + rest);
    assert WriteBinary(p) + rest == V.Encode(Code(p)) + (Value(p) + rest);
    ReadValueEncoded(p, rest);
  }

  lemma ReadBinaryExact(bytes: seq<Byte>)
    requires ReadBinary(bytes).Ok?
    ensures var c := ReadBinary(bytes).value;
            ValidProtocol(c.protocol) && bytes == WriteBinary(c.protocol) + c.rest && |c.rest| < |bytes|
  {
    hide ReadValue, Value;
    V.ReadCanonical(bytes);
    var d := V.Read(bytes).value;
    ReadValueExact(d.value, bytes[d.used..]);
  }

  type Addr = seq<Protocol>

  predicate ValidAddr(a: Addr) {
    forall p | p in a :: ValidProtocol(p)
  }

  function ToBytes(a: Addr): seq<Byte>
    requires ValidAddr(a)
  {
    if a == [] then [] else WriteBinary(a[0]) + ToBytes(a[1..])
  }

  function FromBytes(bytes: seq<Byte>): Result<Addr, MultiaddrError>
    decreases |bytes|
  {
    if bytes == [] then Ok([])
    else
      match ReadBinary(bytes)
      case Err(e) => Err(e)
      case Ok(c) =>
        ReadBinaryExact(bytes);
        match FromBytes(c.rest)
        case Err(e) => Err(e)
        case Ok(a) => Ok([c.protocol] + a)
  }

  /** Decoding undoes encoding. */
  lemma {:induction false} FromToBytes(a: Addr)
    requires ValidAddr(a)
    ensures FromBytes(ToBytes(a)) == Ok(a)
  {
    hide ReadBinary, WriteBinary;
    if a != [] {
      ReadBinaryEncoded(a[0], ToBytes(a[1..]));
      FromToBytes(a[1..]);
      assert [a[0]] + a[1..] == a;
    }
  }

  /** Every accepted byte string is the one encoding of its result. */
  lemma {:induction false} ToFromBytes(bytes: seq<Byte>)
    requires FromBytes(bytes).Ok?
    ensures ValidAddr(FromBytes(bytes).value) && ToBytes(FromBytes(bytes).value) == bytes
    decreases |bytes|
  {
    hide ReadBinary, WriteBinary;
    if bytes != [] {
      ReadBinaryExact(bytes);
      ToFromBytes(ReadBinary(bytes).value.rest);
    }
  }

  /** The components already read, put in front of what the rest decodes to. */
  function Prepend(protocols: Addr, tail: Result<Addr, MultiaddrError>): Result<Addr, MultiaddrError> {
    match tail
    case Err(e) => Err(e)
    case Ok(a) => Ok(protocols + a)
  }

  lemma PrependStep(protocols: Addr, remaining: seq<Byte>)
    requires remaining != [] && ReadBinary(remaining).Ok?
    ensures var c := ReadBinary(remaining).value;
            Prepend(protocols, FromBytes(remaining)) == Prepend(protocols + [c.protocol], FromBytes(c.rest))
  {
    var c := ReadBinary(remaining).value;
    ReadBinaryExact(remaining);
    if FromBytes(c.rest).Ok? {
      var a := FromBytes(c.rest).value;
      assert protocols + ([c.protocol] + a) == (protocols + [c.protocol]) + a;
    }
  }

  /** The loop of `Multiaddr::from_bytes`. */
  method FromBytesLoop(bytes: seq<Byte>) returns (r: Result<Addr, MultiaddrError>)
    ensures r == FromBytes(bytes)
    ensures r.Ok? ==> ValidAddr(r.value) && ToBytes(r.value) == bytes
  {
    hide ReadBinary;
    var protocols: Addr, remaining := [], bytes;
    assert FromBytes(bytes).Ok? ==> protocols + FromBytes(bytes).value == FromBytes(bytes).value;
    while remaining != []
      invariant FromBytes(bytes) == Prepend(protocols, FromBytes(remaining))
      decreases |remaining|
    {
      var c := ReadBinary(remaining);
      if c.Err? {
        return Err(c.error);
      }
      PrependStep(protocols, remaining);
      ReadBinaryExact(remaining);
      protocols, remaining := protocols + [c.value.protocol], c.value.rest;
    }
    assert protocols + [] == protocols;
    r := Ok(protocols);
    ToFromBytes(bytes);
  }

  // ---- address classification ----

  predicate IsHost(p: Protocol) {
    p.Ip4? || p.Ip6? || p.Dns? || p.Dns4? || p.Dns6?
  }

  /** `transport_kind_of(..).is_some()`: host + tcp, or host + udp + quic-v1. */
  predicate IsTransport(a: Addr) {
    || (|a| == 2 && IsHost(a[0]) && a[1].Tcp?)
    || (|a| == 3 && IsHost(a[0]) && a[1].Udp? && a[2].QuicV1?)
  }

  predicate IsRelayCircuit(a: Addr) {
    |a| >= 2 && a[|a| - 1].P2pCircuit? && a[|a| - 2].P2p? && IsTransport(a[..|a| - 2])
  }

  predicate IsWildcardHost(a: Addr) {
    a != [] && (
      || (a[0].Ip4? && forall b | b in a[0].ip4 :: b == 0)
      || (a[0].Ip6? && forall b | b in a[0].ip6 :: b == 0))
  }
}
