/** Length-prefixed frames (crates/core/src/frame.rs). */
module Frame {
  import opened Bytes
  import V = Varint

  datatype FrameDecode =
    | Complete(payload: seq<Byte>, consumed: nat)
    | Incomplete
    | TooLarge(len: nat)
    | Error(error: V.VarintError)

  function Decode(input: seq<Byte>, maxLen: nat): FrameDecode {
    if input == [] then Incomplete
    else
      match V.Read(input)
      case Err(BufferTooShort) => Incomplete
      case Err(e) => Error(e)
      case Ok(d) =>
        if d.value > maxLen then TooLarge(d.value)
        else if d.used + d.value > |input| then Incomplete
        else Complete(input[d.used..d.used + d.value], d.used + d.value)
  }

  function Encode(payload: seq<Byte>): seq<Byte> {
    V.Encode(|payload|) + payload
  }

  /** A frame the limit admits decodes to its payload and leaves exactly what followed it. */
  lemma DecodeEncode(payload: seq<Byte>, maxLen: U64, rest: seq<Byte>)
    requires |payload| <= maxLen
    ensures Decode(Encode(payload) + rest, maxLen) == Complete(payload, |Encode(payload)|)
    ensures (Encode(payload) + rest)[|Encode(payload)|..] == rest
  {
    V.ReadEncode(|payload|, payload + rest);
    assert Encode(payload) + rest == V.Encode(|payload|) + (payload + rest);
  }

  /** Conversely every accepted frame is the encoding of its payload. */
  lemma DecodeExact(input: seq<Byte>, maxLen: nat)
    requires Decode(input, maxLen).Complete?
    ensures var c := Decode(input, maxLen);
            0 < c.consumed <= |input| && |c.payload| <= maxLen
            && input == Encode(c.payload) + input[c.consumed..]
            && c.consumed == |Encode(c.payload)|
  {
    V.ReadCanonical(input);
    var d := V.Read(input).value;
    var c := Decode(input, maxLen);
    assert input == input[..d.used] + input[d.used..c.consumed] + input[c.consumed..];
    assert input[..d.used] == V.Encode(d.value);
  }

  /** Once decided, a verdict does not depend on bytes that arrive later. */
  lemma DecodeExtends(input: seq<Byte>, maxLen: nat, more: seq<Byte>)
    requires Decode(input, maxLen) != Incomplete
    ensures Decode(input + more, maxLen) == Decode(input, maxLen)
  {
    V.ReadExtends(input, more);
    if Decode(input, maxLen).Complete? {
      var d := V.Read(input).value;
      assert (input + more)[d.used..d.used + d.value] == input[d.used..d.used + d.value];
    }
  }

  /** A stalled buffer holds less than one maximal frame. */
  lemma IncompleteIsShort(input: seq<Byte>, maxLen: nat)
    requires Decode(input, maxLen) == Incomplete
    ensures |input| <= 9 || |input| < V.Len(maxLen) + maxLen
  {
    if input != [] {
      if V.Read(input).Ok? {
        var d := V.Read(input).value;
        V.LenMonotone(d.value, maxLen);
      } else {
        V.ReadShort(input);
      }
    }
  }
}
