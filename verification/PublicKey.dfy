/** The public-key protobuf and the peer id derived from it (crates/identity/src/key.rs, crates/identity/src/peer_id.rs). */
module PublicKey {
  import opened Bytes
  import V = Varint
  import M = Multiaddr

  const MAX_INLINE_KEY := 42

  /** `kind` is the protobuf key type, 0 to 3. */
  datatype PublicKey = PublicKey(kind: nat, data: seq<Byte>)

  predicate ValidKey(k: PublicKey) {
    k.kind <= 3 && |k.data| <= U64_MAX
  }

  datatype KeyError = EmptyInput | InvalidFieldTag(expected: nat) | VarintFault(error: V.VarintError) | UnknownKeyType(value: nat) | InvalidLength

  function Encode(k: PublicKey): seq<Byte> {
    [0x08] + (V.Encode(k.kind) + ([0x12] + (V.Encode(|k.data|) + k.data)))
  }

  /** The data field, after its tag. */
  function DecodeBody(kind: nat, input: seq<Byte>): Result<PublicKey, KeyError> {
    match V.Read(input)
    case Err(e) => Err(VarintFault(e))
    case Ok(len) => if len.value != |input| - len.used then Err(InvalidLength) else Ok(PublicKey(kind, input[len.used..]))
  }

  /** `decode_protobuf`: only the deterministic layout is accepted. */
  function Decode(input: seq<Byte>): Result<PublicKey, KeyError> {
    if input == [] then Err(EmptyInput)
    else if input[0] != 0x08 then Err(InvalidFieldTag(0x08))
    else
      match V.Read(input[1..])
      case Err(e) => Err(VarintFault(e))
      case Ok(kind) =>
        var rest := input[1..][kind.used..];
        if kind.value > 3 then Err(UnknownKeyType(kind.value))
        else if rest == [] || rest[0] != 0x12 then Err(InvalidFieldTag(0x12))
        else DecodeBody(kind.value, rest[1..])
  }

  /** Decoding undoes encoding. */
  lemma DecodeEncode(k: PublicKey)
    requires ValidKey(k)
    ensures Decode(Encode(k)) == Ok(k)
  {
    hide V.Read, V.Encode;
    var body := V.Encode(|k.data|) + k.data;
    var rest := [0x12] + body;
    assert Encode(k)[1..] == V.Encode(k.kind) + rest;
    V.ReadEncode(k.kind, rest);
    assert rest[1..] == body;
    V.ReadEncode(|k.data|, k.data);
  }

  /** Every accepted input is the one encoding of its key. */
  lemma EncodeDecode(input: seq<Byte>)
    requires Decode(input).Ok?
    ensures ValidKey(Decode(input).value) && Encode(Decode(input).value) == input
  {
    hide V.Read, V.Encode, DecodeBody;
    var tail := input[1..];
    V.ReadCanonical(tail);
    var kind := V.Read(tail).value;
    var rest := tail[kind.used..];
    BodyExact(kind.value, rest[1..]);
    assert rest == [0x12] + rest[1..];
    assert input == [0x08] + tail;
  }

  lemma BodyExact(kind: nat, input: seq<Byte>)
    requires DecodeBody(kind, input).Ok?
    ensures var k := DecodeBody(kind, input).value;
            k.kind == kind && |k.data| <= U64_MAX && input == V.Encode(|k.data|) + k.data
  {
    hide V.Read, V.Encode;
    V.ReadCanonical(input);
  }

  /** `from_public_key_protobuf`; `digest` is SHA-256. */
  function PeerOf(encoded: seq<Byte>, digest: seq<Byte> -> seq<Byte>): M.PeerId {
    if |encoded| <= MAX_INLINE_KEY then M.PeerId(0, encoded) else M.PeerId(M.SHA256_CODE, digest(encoded))
  }

  lemma PeerOfValid(encoded: seq<Byte>, digest: seq<Byte> -> seq<Byte>)
    requires |digest(encoded)| == 32
    ensures M.ValidPeer(PeerOf(encoded, digest))
  {
  }
}
