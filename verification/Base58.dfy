/**
 Base58btc text (crates/identity/src/peer_id.rs).

 `Encode` and `Decode` say what the text means: leading zero bytes are leading `1`s and the
 rest is one number in two bases.  The methods are the digit-vector loops of the source.
 */
module Base58 {
  import opened Bytes
  import opened Radix

  const NUMERALS: string := "123456789"
  const UPPER: string := "ABCDEFGHJKLMNPQRSTUVWXYZ"
  const LOWER: string := "abcdefghijkmnopqrstuvwxyz"

  datatype TextError = EmptyInput | InvalidCharacter(character: char, index: nat)

  /** The ASCII code of digit `d`; `0`, `O`, `I` and `l` are left out. */
  function LetterCode(d: nat): nat {
    if d < 9 then 49 + d
    else if d < 17 then 56 + d
    else if d < 22 then 57 + d
    else if d < 33 then 58 + d
    else if d < 44 then 64 + d
    else 65 + d
  }

  /** Entry `d` of the 58-letter alphabet. */
  function Letter(d: nat): (c: char)
    requires d < 58
    ensures c as int == LetterCode(d)
  {
    if d < 9 then NUMERALS[d] else if d < 33 then UPPER[d - 9] else LOWER[d - 33]
  }

  /** The position of `c` in the alphabet, from entry `i` on. */
  function Position(c: char, i: nat): (r: Option<nat>)
    ensures r.Some? ==> i <= r.value < 58 && Letter(r.value) == c
    ensures r.None? ==> forall j | i <= j < 58 :: Letter(j) != c
    decreases 58 - i
  {
    if i >= 58 then None else if Letter(i) == c then Some(i) else Position(c, i + 1)
  }

  /** `base58_value`: the character is narrowed to eight bits before it is looked up. */
  function CharValue(c: char): (r: Option<nat>)
    ensures r.Some? ==> r.value < 58
  {
    Position((c as int % 256) as char, 0)
  }

  lemma LetterCodeInjective(d: nat, e: nat)
    requires LetterCode(d) == LetterCode(e)
    ensures d == e
  {
  }

  lemma LetterValue(d: nat)
    requires d < 58
    ensures CharValue(Letter(d)) == Some(d)
    ensures Letter(d) == '1' <==> d == 0
  {
    hide Letter, Position;
    var c := Letter(d);
    assert (c as int % 256) as char == c;
    LetterCodeInjective(Position(c, 0).value, d);
  }

  predicate InAlphabet(c: char) {
    exists d :: 0 <= d < 58 && Letter(d) == c
  }

  lemma AlphabetValue(c: char)
    requires InAlphabet(c)
    ensures CharValue(c).Some? && Letter(CharValue(c).value) == c
    ensures CharValue(c).value == 0 <==> c == '1'
  {
    hide Letter, Position, CharValue;
    var d :| 0 <= d < 58 && Letter(d) == c;
    LetterValue(d);
  }

  function LeadingZeros(s: seq<nat>): (n: nat)
    ensures n <= |s| && (forall i | 0 <= i < n :: s[i] == 0) && (n < |s| ==> s[n] != 0)
  {
    if s == [] || s[0] != 0 then 0 else 1 + LeadingZeros(s[1..])
  }

  lemma LeadingZerosIs(s: seq<nat>, n: nat)
    requires n <= |s| && (forall i | 0 <= i < n :: s[i] == 0) && (n < |s| ==> s[n] != 0)
    ensures LeadingZeros(s) == n
  {
  }

  function LeadingOnes(s: string): (n: nat)
    ensures n <= |s| && (forall i | 0 <= i < n :: s[i] == '1') && (n < |s| ==> s[n] != '1')
  {
    if s == [] || s[0] != '1' then 0 else 1 + LeadingOnes(s[1..])
  }

  lemma LeadingOnesIs(s: string, n: nat)
    requires n <= |s| && (forall i | 0 <= i < n :: s[i] == '1') && (n < |s| ==> s[n] != '1')
    ensures LeadingOnes(s) == n
  {
  }

  function Repeat<T>(x: T, n: nat): (r: seq<T>)
    ensures |r| == n && forall i | 0 <= i < n :: r[i] == x
  {
    seq(n, _ => x)
  }

  function Letters(d: seq<nat>): (s: string)
    requires Digits(d, 58)
    ensures |s| == |d| && forall i | 0 <= i < |d| :: s[i] == Letter(d[i])
  {
    seq(|d|, i requires 0 <= i < |d| => Letter(d[i]))
  }

  lemma ReverseDigits(d: seq<nat>, base: nat)
    requires Digits(d, base)
    ensures Digits(Reverse(d), base)
  {
  }

  function Encode(input: seq<Byte>): string {
    var z := LeadingZeros(input);
    ConvertValue(input[z..], 256, 58);
    ReverseDigits(Convert(input[z..], 256, 58), 58);
    Repeat('1', z) + Letters(Reverse(Convert(input[z..], 256, 58)))
  }

  /** The digit values of the text from `index` on, or the first character that has none. */
  function Values(s: string, index: nat): (r: Result<seq<nat>, TextError>)
    ensures r.Ok? ==> |r.value| == |s| && Digits(r.value, 58)
    ensures r.Ok? ==> forall i | 0 <= i < |s| :: CharValue(s[i]) == Some(r.value[i])
  {
    if s == [] then Ok([])
    else if CharValue(s[0]).None? then Err(InvalidCharacter(s[0], index))
    else
      match Values(s[1..], index + 1)
      case Err(e) => Err(e)
      case Ok(rest) => Ok([CharValue(s[0]).value] + rest)
  }

  /** The byte vector the decoder builds; it starts from a single zero byte. */
  function Accumulate(values: seq<nat>): seq<nat> {
    if values == [] then []
    else
      var before := Accumulate(values[..|values| - 1]);
      MulAdd(if before == [] then [0] else before, 58, values[|values| - 1], 256)
  }

  lemma {:induction false} AccumulateDigits(values: seq<nat>)
    ensures Digits(Accumulate(values), 256)
  {
    if values != [] {
      var before := Accumulate(values[..|values| - 1]);
      MulAddValue(if before == [] then [0] else before, 58, values[|values| - 1], 256);
    }
  }

  /** For a number without leading zero digit the initial zero byte leaves no trace. */
  lemma {:induction false} AccumulateConvert(values: seq<nat>)
    requires Significant(values, 58)
    ensures Accumulate(values) == Convert(values, 58, 256)
  {
    if |values| == 1 {
      assert values[..0] == [];
      var v := values[0];
      assert MulAdd([0], 58, v, 256) == [v] + MulAdd([], 58, 0, 256);
      assert MulAdd([], 58, v, 256) == [v] + ToDigits(0, 256);
    } else if values != [] {
      AccumulateConvert(values[..|values| - 1]);
      ConvertCanonical(values[..|values| - 1], 58, 256);
    }
  }

  function AsBytes(d: seq<nat>): (b: seq<Byte>)
    requires Digits(d, 256)
    ensures b == d
  {
    seq(|d|, i requires 0 <= i < |d| => d[i])
  }

  function Decode(s: string): Result<seq<Byte>, TextError> {
    if s == [] then Err(EmptyInput)
    else
      var z := LeadingOnes(s);
      match Values(s[z..], z)
      case Err(e) => Err(e)
      case Ok(values) =>
        AccumulateDigits(values);
        ReverseDigits(Accumulate(values), 256);
        Ok(Repeat(0, z) + AsBytes(Reverse(Accumulate(values))))
  }

  lemma {:induction false} ValuesOfLetters(d: seq<nat>, index: nat)
    requires Digits(d, 58)
    ensures Values(Letters(d), index) == Ok(d)
  {
    if d != [] {
      LetterValue(d[0]);
      assert Letters(d)[1..] == Letters(d[1..]);
      ValuesOfLetters(d[1..], index + 1);
      assert [d[0]] + d[1..] == d;
    }
  }

  lemma {:induction false} LettersOfValues(s: string, index: nat)
    requires forall c | c in s :: InAlphabet(c)
    ensures Values(s, index).Ok? && Letters(Values(s, index).value) == s
  {
    if s != [] {
      AlphabetValue(s[0]);
      LettersOfValues(s[1..], index + 1);
    }
  }

  /** Decoding the text of any non-empty byte string gives the bytes back. */
  lemma DecodeEncode(input: seq<Byte>)
    requires input != []
    ensures Decode(Encode(input)) == Ok(input)
  {
    hide Encode, Values, Accumulate, Convert, Letters, Reverse;
    var z := LeadingZeros(input);
    var body := input[z..];
    var digits := Reverse(Convert(body, 256, 58));
    EncodedText(input, z, body, digits);
    ConvertCanonical(body, 256, 58);
    AccumulateConvert(digits);
    ConvertInverse(body, 256, 58);
    assert Repeat(0, z) + body == input;
  }

  lemma EncodedText(input: seq<Byte>, z: nat, body: seq<nat>, digits: seq<nat>)
    requires input != [] && z == LeadingZeros(input) && body == input[z..] && digits == Reverse(Convert(body, 256, 58))
    ensures Significant(body, 256) && Significant(digits, 58)
    ensures Encode(input) != [] && LeadingOnes(Encode(input)) == z && Values(Encode(input)[z..], z) == Ok(digits)
  {
    ConvertValue(body, 256, 58);
    ConvertCanonical(body, 256, 58);
    ReverseDigits(Convert(body, 256, 58), 58);
    var text := Encode(input);
    hide Convert;
    assert text[z..] == Letters(digits);
    if digits != [] {
      LetterValue(digits[0]);
    }
    LeadingOnesIs(text, z);
    ValuesOfLetters(digits, z);
  }

  /** An accepted text is the encoding of its bytes exactly when it stays inside the alphabet. */
  lemma EncodeDecode(s: string)
    requires Decode(s).Ok?
    ensures Encode(Decode(s).value) == s <==> forall c | c in s :: InAlphabet(c)
  {
    if forall c | c in s :: InAlphabet(c) {
      EncodeDecodeAlphabet(s);
    } else {
      EncodedInAlphabet(Decode(s).value);
    }
  }

  lemma EncodedInAlphabet(input: seq<Byte>)
    ensures forall c | c in Encode(input) :: InAlphabet(c)
  {
    LetterValue(0);
    var z := LeadingZeros(input);
    var digits := Reverse(Convert(input[z..], 256, 58));
    ConvertValue(input[z..], 256, 58);
    ReverseDigits(Convert(input[z..], 256, 58), 58);
    forall i | 0 <= i < |Encode(input)|
      ensures InAlphabet(Encode(input)[i])
    {
      assert Encode(input)[i] == if i < z then Letter(0) else Letter(digits[i - z]);
    }
  }

  /** Every non-empty text over the alphabet is accepted, and is the encoding of its bytes. */
  lemma EncodeDecodeAlphabet(s: string)
    requires s != [] && forall c | c in s :: InAlphabet(c)
    ensures Decode(s).Ok? && Encode(Decode(s).value) == s
  {
    hide Encode, Decode, Values, Accumulate, Convert, Letter, InAlphabet, CharValue, Reverse;
    var z := LeadingOnes(s);
    var tail := s[z..];
    LettersOfValues(tail, z);
    var values := Values(tail, z).value;
    FirstSignificant(s, z, values);
    DecodedBytes(s, z, values);
    EncodeBack(Decode(s).value, z, values);
    assert s == Repeat('1', z) + tail;
  }

  lemma FirstSignificant(s: string, z: nat, values: seq<nat>)
    requires z == LeadingOnes(s) && (forall c | c in s :: InAlphabet(c)) && Values(s[z..], z) == Ok(values)
    ensures Significant(values, 58)
  {
    hide Values, Letter, CharValue, InAlphabet;
    if z < |s| {
      assert s[z..][0] == s[z];
      AlphabetValue(s[z]);
    }
  }

  lemma DecodedBytes(s: string, z: nat, values: seq<nat>)
    requires s != [] && z == LeadingOnes(s) && Values(s[z..], z) == Ok(values) && Significant(values, 58)
    ensures Decode(s).Ok? && Decode(s).value == Repeat(0, z) + Reverse(Convert(values, 58, 256))
  {
    hide Convert, Accumulate, Values, Reverse;
    AccumulateConvert(values);
  }

  lemma EncodeBack(out: seq<Byte>, z: nat, values: seq<nat>)
    requires Significant(values, 58) && out == Repeat(0, z) + Reverse(Convert(values, 58, 256))
    ensures Encode(out) == Repeat('1', z) + Letters(values)
  {
    hide Convert, Letter, Reverse;
    ConvertCanonical(values, 58, 256);
    ConvertInverse(values, 58, 256);
    LeadingZerosIs(out, z);
    assert out[z..] == Reverse(Convert(values, 58, 256));
  }

  /** Outside ASCII the decoder aliases: U+0131 narrows to the byte of `1` and is accepted as a zero digit. */
  lemma NonAsciiAliases()
    ensures Decode("\U{0131}") == Ok([0]) && Decode("1") == Ok([0]) && Encode([0]) != "\U{0131}"
  {
    LetterValue(0);
    assert ('\U{0131}' as int % 256) as char == '1';
    SingleZero('\U{0131}');
    assert LeadingOnes("\U{0131}") == 0;
    SingleOne();
    var s := Encode([0]);
    assert s[0] == '1';
  }

  lemma SingleOne()
    ensures Decode("1") == Ok([0])
  {
    var s := "1";
    assert s[1..] == [];
    assert LeadingOnes(s) == 1 + LeadingOnes(s[1..]);
    var out: seq<Byte> := Repeat(0, 1) + AsBytes(Reverse(Accumulate([])));
    assert out == [0];
    assert Decode(s) == Ok(out);
  }

  lemma SingleZero(c: char)
    requires CharValue(c) == Some(0) && c != '1'
    ensures Decode([c]) == Ok([0])
  {
    hide CharValue, Values, Accumulate;
    var s := [c];
    assert s[0..] == s;
    ZeroDigit(c);
    assert Reverse([0]) == [0];
    assert Repeat(0, 0) + AsBytes([0]) == [0];
  }

  lemma ZeroDigit(c: char)
    requires CharValue(c) == Some(0)
    ensures Values([c], 0) == Ok([0]) && Accumulate([0]) == [0]
  {
    hide CharValue, MulAdd;
    assert [c][1..] == [] && Values([], 1) == Ok([]);
    assert [0] + [] == [0];
    var values := [0];
    assert values[..0] == [] && Accumulate([]) == [];
    MulAddZero();
  }

  lemma MulAddZero()
    ensures MulAdd([0], 58, 0, 256) == [0]
  {
    assert MulAdd([0][1..], 58, 0, 256) == [];
  }

  // ---- the loops of the source ----

  method EncodeBase58(input: seq<Byte>) returns (out: string)
    ensures out == Encode(input)
  {
    hide Convert, Letter, LetterCode, Reverse;
    if input == [] {
      EncodeEmpty();
      return "";
    }
    var leading := 0;
    while leading < |input| && input[leading] == 0
      invariant 0 <= leading <= |input| && forall i | 0 <= i < leading :: input[i] == 0
    {
      leading := leading + 1;
    }
    LeadingZerosIs(input, leading);
    var digits := ConvertLoop(input[leading..], 256, 58);
    ConvertValue(input[leading..], 256, 58);
    ReverseDigits(digits, 58);
    out := Repeat('1', leading);
    ghost var text := Reverse(digits);
    var i := |digits|;
    while i > 0
      invariant 0 <= i <= |digits|
      invariant out == Repeat('1', leading) + Letters(text)[..|digits| - i]
    {
      i := i - 1;
      assert Letters(text)[..|digits| - i] == Letters(text)[..|digits| - i - 1] + [Letter(text[|digits| - i - 1])];
      out := out + [Letter(digits[i])];
    }
    assert Letters(text)[..|digits|] == Letters(text);
  }

  lemma EncodeEmpty()
    ensures Encode([]) == ""
  {
    assert Convert([], 256, 58) == [];
  }

  method CountOnes(input: string) returns (leading: nat)
    ensures leading == LeadingOnes(input)
  {
    leading := 0;
    while leading < |input| && input[leading] == '1'
      invariant 0 <= leading <= |input| && forall i | 0 <= i < leading :: input[i] == '1'
    {
      leading := leading + 1;
    }
    LeadingOnesIs(input, leading);
  }

  method DecodeBase58(input: string) returns (r: Result<seq<Byte>, TextError>)
    ensures r == Decode(input)
  {
    if input == [] {
      return Err(EmptyInput);
    }
    var leading := CountOnes(input);
    var bytes := DecodeTail(input, leading);
    if bytes.Err? {
      return Err(bytes.error);
    }
    ReverseDigits(bytes.value, 256);
    return Ok(Repeat(0, leading) + AsBytes(Reverse(bytes.value)));
  }

  /** Multiplies the byte vector by 58 and adds the digit, character after character. */
  method DecodeTail(input: string, leading: nat) returns (r: Result<seq<nat>, TextError>)
    requires leading <= |input|
    ensures r == match Values(input[leading..], leading) case Err(e) => Err(e) case Ok(v) => Ok(Accumulate(v))
    ensures r.Ok? ==> Digits(r.value, 256)
  {
    hide CharValue, MulAdd, Accumulate, Values, Joined;
    ghost var tail := input[leading..];
    var bytes: seq<nat>, index := [], leading;
    ghost var values: seq<nat> := [];
    AccumulateEmpty();
    JoinedEnds(Values(tail, leading), values);
    while index < |input|
      invariant leading <= index <= |input|
      invariant bytes == Accumulate(values) && Digits(bytes, 256)
      invariant Values(tail, leading) == Joined(values, Values(input[index..], index))
    {
      var value := CharValue(input[index]);
      ValuesStep(input, index, values);
      if value.None? {
        return Err(InvalidCharacter(input[index], index));
      }
      if bytes == [] {
        bytes := [0];
      }
      AccumulateStep(values, value.value);
      bytes := MulAddInPlace(bytes, 58, value.value, 256);
      values := values + [value.value];
      index := index + 1;
    }
    assert input[index..] == [];
    JoinedEnds(Values([], index), values);
    return Ok(bytes);
  }

  lemma AccumulateEmpty()
    ensures Accumulate([]) == []
  {
  }

  lemma AccumulateStep(values: seq<nat>, v: nat)
    ensures Accumulate(values + [v]) == MulAdd(if Accumulate(values) == [] then [0] else Accumulate(values), 58, v, 256)
    ensures Digits(Accumulate(values + [v]), 256)
  {
    assert (values + [v])[..|values|] == values;
    AccumulateDigits(values + [v]);
  }

  ghost function Joined(done: seq<nat>, rest: Result<seq<nat>, TextError>): Result<seq<nat>, TextError> {
    match rest
    case Err(e) => Err(e)
    case Ok(v) => Ok(done + v)
  }

  lemma JoinedEnds(rest: Result<seq<nat>, TextError>, done: seq<nat>)
    ensures Joined([], rest) == rest
    ensures forall index :: Joined(done, Values([], index)) == Ok(done)
  {
    if rest.Ok? {
      assert [] + rest.value == rest.value;
    }
    assert done + [] == done;
  }

  /** One character of the tail. */
  lemma ValuesStep(input: string, index: nat, done: seq<nat>)
    requires index < |input|
    ensures var v := CharValue(input[index]);
            Joined(done, Values(input[index..], index))
            == if v.None? then Err(InvalidCharacter(input[index], index))
               else Joined(done + [v.value], Values(input[index + 1..], index + 1))
  {
    hide CharValue;
    var v := CharValue(input[index]);
    assert input[index..][1..] == input[index + 1..];
    var rest := Values(input[index + 1..], index + 1);
    if v.Some? && rest.Ok? {
      assert done + ([v.value] + rest.value) == (done + [v.value]) + rest.value;
    }
  }
}
