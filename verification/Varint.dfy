/**
 Canonical unsigned varints (crates/identity/src/peer_id.rs).

 `Encode` and `Parse` are the specification; the methods are the shift loops of the
 source.  The theorems say that `Read` accepts exactly the minimal encodings of 64-bit
 values, and that its verdict never changes when more bytes arrive.
 */
module Varint {
  import opened Bytes

  datatype VarintError = BufferTooShort | Overflow | NonCanonical

  /** A decoded value and the number of bytes it took. */
  datatype Decoded = Decoded(value: nat, used: nat)

  function Len(v: nat): (n: nat)
    ensures n >= 1
  {
    if v < 128 then 1 else 1 + Len(v / 128)
  }

  function Encode(v: nat): (out: seq<Byte>)
    ensures |out| == Len(v)
  {
    if v < 128 then [v] else [v % 128 + 128] + Encode(v / 128)
  }

  /** Reads groups of seven bits from byte number `idx` on, without the minimality check. */
  function Parse(input: seq<Byte>, idx: nat): (r: Result<Decoded, VarintError>)
    ensures r.Ok? ==> 1 <= r.value.used <= |input|
    decreases |input|
  {
    if input == [] then Err(BufferTooShort)
    else if idx >= 10 then Err(Overflow)
    else if idx == 9 && input[0] > 1 then Err(Overflow)
    else if input[0] < 128 then Ok(Decoded(input[0], 1))
    else
      match Parse(input[1..], idx + 1)
      case Err(e) => Err(e)
      case Ok(d) => Ok(Decoded(input[0] - 128 + 128 * d.value, d.used + 1))
  }

  /** `read_uvarint`: the value and its length, minimal encodings only. */
  function Read(input: seq<Byte>): (r: Result<Decoded, VarintError>)
    ensures r.Ok? ==> 1 <= r.value.used <= |input|
  {
    match Parse(input, 0)
    case Err(e) => Err(e)
    case Ok(d) => if d.used == Len(d.value) then Ok(d) else Err(NonCanonical)
  }

  /** One more than the largest value that bytes `idx..9` can hold. */
  function Cap(idx: nat): (c: nat)
    requires idx <= 9
    ensures c >= 2
    decreases 9 - idx
  {
    if idx == 9 then 2 else 128 * Cap(idx + 1)
  }

  lemma CapIsU64()
    ensures Cap(0) == U64_MAX + 1
  {
  }

  lemma {:induction false} ParseEncode(v: nat, idx: nat, rest: seq<Byte>)
    requires idx <= 9 && v < Cap(idx)
    ensures Parse(Encode(v) + rest, idx) == Ok(Decoded(v, Len(v)))
    decreases v
  {
    if v >= 128 {
      assert (Encode(v) + rest)[1..] == Encode(v / 128) + rest;
      ParseEncode(v / 128, idx + 1, rest);
    }
  }

  lemma {:induction false} ParseBounded(input: seq<Byte>, idx: nat)
    requires idx <= 9
    ensures Parse(input, idx).Ok? ==> Parse(input, idx).value.value < Cap(idx)
    decreases |input|
  {
    if input != [] && input[0] >= 128 && idx < 9 {
      ParseBounded(input[1..], idx + 1);
    } else if idx < 9 {
      assert Cap(idx) >= 256;
    }
  }

  lemma {:induction false} ParseMinimal(input: seq<Byte>, idx: nat)
    requires Parse(input, idx).Ok?
    requires var d := Parse(input, idx).value; d.used == Len(d.value)
    ensures var d := Parse(input, idx).value; input == Encode(d.value) + input[d.used..]
    decreases |input|
  {
    var d := Parse(input, idx).value;
    if input[0] >= 128 {
      var tail := Parse(input[1..], idx + 1).value;
      assert d.value / 128 == tail.value && d.value % 128 == input[0] - 128;
      ParseMinimal(input[1..], idx + 1);
      assert input == [input[0]] + input[1..];
      assert input[1..][tail.used..] == input[d.used..];
    }
  }

  lemma {:induction false} ParseExtends(input: seq<Byte>, idx: nat, more: seq<Byte>)
    requires Parse(input, idx) != Err(BufferTooShort)
    ensures Parse(input + more, idx) == Parse(input, idx)
    decreases |input|
  {
    if input[0] >= 128 && idx < 9 {
      assert (input + more)[1..] == input[1..] + more;
      ParseExtends(input[1..], idx + 1, more);
    }
  }

  lemma {:induction false} ParseShort(input: seq<Byte>, idx: nat)
    requires idx <= 9 && Parse(input, idx) == Err(BufferTooShort)
    ensures |input| + idx <= 9
    decreases |input|
  {
    if input != [] {
      ParseShort(input[1..], idx + 1);
    }
  }

  /** Every 64-bit value reads back from its encoding, whatever follows it. */
  lemma ReadEncode(v: U64, rest: seq<Byte>)
    ensures Read(Encode(v) + rest) == Ok(Decoded(v, Len(v)))
    ensures (Encode(v) + rest)[..Len(v)] == Encode(v) && (Encode(v) + rest)[Len(v)..] == rest
  {
    CapIsU64();
    ParseEncode(v, 0, rest);
  }

  /** Nothing but the minimal encoding of a 64-bit value is accepted. */
  lemma ReadCanonical(input: seq<Byte>)
    requires Read(input).Ok?
    ensures var d := Read(input).value;
            d.value <= U64_MAX && d.used == Len(d.value) && input == Encode(d.value) + input[d.used..]
  {
    CapIsU64();
    ParseBounded(input, 0);
    ParseMinimal(input, 0);
  }

  /** A verdict other than "too short" is final. */
  lemma ReadExtends(input: seq<Byte>, more: seq<Byte>)
    requires Read(input) != Err(BufferTooShort)
    ensures Read(input + more) == Read(input)
  {
    ParseExtends(input, 0, more);
  }

  /** "Too short" is only ever said of fewer than ten bytes. */
  lemma ReadShort(input: seq<Byte>)
    requires Read(input) == Err(BufferTooShort)
    ensures |input| <= 9
  {
    ParseShort(input, 0);
  }

  lemma {:induction false} LenMonotone(a: nat, b: nat)
    requires a <= b
    ensures Len(a) <= Len(b)
    decreases b
  {
    if a >= 128 {
      LenMonotone(a / 128, b / 128);
    }
  }

  // ---- the loops of the source ----

  method UvarintLen(value: U64) returns (len: nat)
    ensures len == Len(value)
  {
    len := 1;
    var v: nat := value;
    while v >= 128
      invariant len + Len(v) == 1 + Len(value)
    {
      v := v / 128;
      len := len + 1;
    }
  }

  method WriteUvarint(value: U64, out: seq<Byte>) returns (r: seq<Byte>)
    ensures r == out + Encode(value)
  {
    r := out;
    var v: nat := value;
    var done := false;
    while !done
      invariant done ==> r == out + Encode(value)
      invariant !done ==> r + Encode(v) == out + Encode(value)
      decreases !done, v
    {
      var byte: Byte := v % 128;
      var next := v / 128;
      if next != 0 {
        byte := byte + 128;
      }
      assert Encode(v) == [byte] + if next == 0 then [] else Encode(next);
      r := r + [byte];
      v := next;
      done := v == 0;
    }
  }

  /** What is left to read, folded onto the bits gathered so far. */
  function Resume(value: nat, weight: nat, idx: nat, tail: Result<Decoded, VarintError>): Result<Decoded, VarintError> {
    match tail
    case Err(e) => Err(e)
    case Ok(d) => Ok(Decoded(value + weight * d.value, idx + d.used))
  }

  /** The product of a weight and a digit; named so that proofs treat it as one term. */
  function Shifted(low: nat, weight: nat): (r: nat)
    ensures r == low * weight
  {
    low * weight
  }

  lemma ResumeStep(input: seq<Byte>, idx: nat, value: nat, weight: nat)
    requires idx < |input| && idx < 10 && (idx == 9 ==> input[idx] <= 1)
    ensures Resume(value, weight, idx, Parse(input[idx..], idx))
         == var value' := value + Shifted(input[idx] % 128, weight);
            if input[idx] < 128 then Ok(Decoded(value', idx + 1))
            else Resume(value', weight * 128, idx + 1, Parse(input[idx + 1..], idx + 1))
  {
    var tail := input[idx..];
    assert tail[1..] == input[idx + 1..];
    var low := input[idx] % 128;
    if input[idx] >= 128 && Parse(tail[1..], idx + 1).Ok? {
      var d := Parse(tail[1..], idx + 1).value;
      calc {
        weight * (low + 128 * d.value);
        weight * low + weight * (128 * d.value);
        weight * low + (weight * 128) * d.value;
      }
    }
  }

  /** `read_uvarint_with_remainder`; setting the bits at `shift` adds, since they are still clear. */
  method ReadUvarintWithRemainder(input: seq<Byte>) returns (r: Result<Decoded, VarintError>, rest: seq<Byte>)
    ensures r == Read(input)
    ensures r.Ok? ==> r.value.value <= U64_MAX && rest == input[r.value.used..]
  {
    rest := [];
    var value: nat, weight: nat, idx: nat := 0, 1, 0;
    assert input[0..] == input;
    while idx < |input|
      invariant 0 <= idx <= |input| && idx <= 9
      invariant Parse(input, 0) == Resume(value, weight, idx, Parse(input[idx..], idx))
    {
      var byte := input[idx];
      if idx >= 10 || (idx == 9 && byte > 1) {
        return Err(Overflow), [];
      }
      ResumeStep(input, idx, value, weight);
      value := value + Shifted(byte % 128, weight);
      if byte < 128 {
        if idx + 1 != Len(value) {
          return Err(NonCanonical), [];
        }
        ReadCanonical(input);
        return Ok(Decoded(value, idx + 1)), input[idx + 1..];
      }
      weight, idx := weight * 128, idx + 1;
    }
    return Err(BufferTooShort), [];
  }
}
