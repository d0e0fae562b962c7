/**
 The bounded DNS codec of the mDNS agent (crates/mdns/src/dns.rs): names with compression
 pointers (section 4.1.4 of RFC 1035), size limits (section 2.3.4 of RFC 1035), messages.
 */
module Dns {
  import opened Bytes
  import Utf8

  const MAX_DECODE_BYTES: nat := 9000
  const MAX_POINTER_JUMPS: nat := 32
  const TYPE_PTR: nat := 12
  const TYPE_TXT: nat := 16
  const DOT: Byte := 0x2e

  datatype Question = Question(name: seq<Byte>, qtype: nat, class_: nat)
  datatype Data = Ptr(name: seq<Byte>) | Txt(strings: seq<seq<Byte>>)
  datatype Record = Record(name: seq<Byte>, rrType: nat, class_: nat, ttl: nat, data: Data)

  datatype Message = Message(
    id: nat,
    flags: nat,
    questions: seq<Question>,
    answers: seq<Record>,
    authorities: seq<Record>,
    additionals: seq<Record>)

  datatype Error =
    | PacketTooLarge | Truncated | NameTooLong | InvalidLabel | ForwardPointer | PointerOutOfBounds
    | ReservedLabelEncoding | TooManyPointerJumps | InvalidRecordData | TrailingBytes

  // ---- bytes at a place ----

  /** `bytes` lies in the packet at `pos`. */
  predicate At(packet: seq<Byte>, pos: nat, bytes: seq<Byte>) {
    pos + |bytes| <= |packet| && packet[pos..pos + |bytes|] == bytes
  }

  lemma AtSplit(packet: seq<Byte>, pos: nat, a: seq<Byte>, b: seq<Byte>)
    requires At(packet, pos, a + b)
    ensures At(packet, pos, a) && At(packet, pos + |a|, b)
  {
    var s := packet[pos..pos + |a + b|];
    assert s[..|a|] == a && s[|a|..] == b;
    assert s[..|a|] == packet[pos..pos + |a|] && s[|a|..] == packet[pos + |a|..pos + |a| + |b|];
  }

  lemma AtIndex(packet: seq<Byte>, pos: nat, bytes: seq<Byte>, i: nat)
    requires At(packet, pos, bytes) && i < |bytes|
    ensures packet[pos + i] == bytes[i]
  {
    assert packet[pos..pos + |bytes|][i] == packet[pos + i];
  }

  // ---- big-endian integers ----

  function U16(n: nat): (r: seq<Byte>)
    requires n < 0x1_0000
    ensures |r| == 2
  {
    [n / 256, n % 256]
  }

  function U32(n: nat): (r: seq<Byte>)
    requires n < 0x1_0000_0000
    ensures |r| == 4
  {
    U16(n / 0x1_0000) + U16(n % 0x1_0000)
  }

  function Big(high: Byte, low: Byte): (n: nat)
    ensures n < 0x1_0000
  {
    high as int * 256 + low
  }

  function Read16(packet: seq<Byte>, pos: nat): (r: Result<nat, Error>)
    ensures r.Ok? ==> r.value < 0x1_0000 && pos + 2 <= |packet|
  {
    if pos + 2 <= |packet| then Ok(Big(packet[pos], packet[pos + 1])) else Err(Truncated)
  }

  function Read32(packet: seq<Byte>, pos: nat): (r: Result<nat, Error>)
    ensures r.Ok? ==> r.value < 0x1_0000_0000 && pos + 4 <= |packet|
  {
    if pos + 4 > |packet| then Err(Truncated)
    else
      var high, low := Read16(packet, pos), Read16(packet, pos + 2);
      Ok(high.value * 0x1_0000 + low.value)
  }

  lemma Read16At(packet: seq<Byte>, pos: nat, n: nat)
    requires n < 0x1_0000 && At(packet, pos, U16(n))
    ensures Read16(packet, pos) == Ok(n)
  {
    AtIndex(packet, pos, U16(n), 0);
    AtIndex(packet, pos, U16(n), 1);
  }

  lemma Read32At(packet: seq<Byte>, pos: nat, n: nat)
    requires n < 0x1_0000_0000 && At(packet, pos, U32(n))
    ensures Read32(packet, pos) == Ok(n)
  {
    hide U16, Read16;
    AtSplit(packet, pos, U16(n / 0x1_0000), U16(n % 0x1_0000));
    Read16At(packet, pos, n / 0x1_0000);
    Read16At(packet, pos + 2, n % 0x1_0000);
  }

  // ---- names ----

  function FirstDot(s: seq<Byte>): (i: nat)
    ensures i <= |s| && (forall j | 0 <= j < i :: s[j] != DOT) && (i < |s| ==> s[i] == DOT)
  {
    if s == [] || s[0] == DOT then 0 else 1 + FirstDot(s[1..])
  }

  function Split(s: seq<Byte>): seq<seq<Byte>>
    decreases |s|
  {
    var i := FirstDot(s);
    if i == |s| then [s] else [s[..i]] + Split(s[i + 1..])
  }

  function Join(labels: seq<seq<Byte>>): seq<Byte> {
    if labels == [] then []
    else if |labels| == 1 then labels[0]
    else labels[0] + [DOT] + Join(labels[1..])
  }

  lemma {:induction false} JoinSplit(s: seq<Byte>)
    ensures Join(Split(s)) == s && Split(s) != []
    decreases |s|
  {
    var i := FirstDot(s);
    if i < |s| {
      JoinSplit(s[i + 1..]);
      assert Split(s)[1..] == Split(s[i + 1..]);
      assert s == s[..i] + [DOT] + s[i + 1..];
    }
  }

  lemma {:induction false} SplitValid(s: seq<Byte>)
    requires Utf8.Valid(s)
    ensures forall i | 0 <= i < |Split(s)| :: Utf8.Valid(Split(s)[i])
    decreases |s|
  {
    hide Utf8.Valid;
    var i := FirstDot(s);
    if i < |s| {
      assert s == s[..i] + [DOT] + s[i + 1..];
      Utf8.ValidSplit(s[..i], DOT, s[i + 1..]);
      SplitValid(s[i + 1..]);
    }
  }

  predicate LabelOk(text: seq<Byte>) {
    0 < |text| <= 63
  }

  function LabelBytes(labels: seq<seq<Byte>>): seq<Byte> {
    if labels == [] || |labels[0]| > 255 then [] else [|labels[0]|] + labels[0] + LabelBytes(labels[1..])
  }

  /** Octets of the uncompressed wire form, the root included. */
  function WireLen(labels: seq<seq<Byte>>): nat {
    if labels == [] then 1 else WireLen(labels[..|labels| - 1]) + |labels[|labels| - 1]| + 1
  }

  /** `write_name`: uncompressed, `None` when a label or the whole name has a bad length. */
  function EncodeName(name: seq<Byte>): Option<seq<Byte>> {
    if name == [] then Some([0])
    else
      var labels := Split(name);
      if exists i | 0 <= i < |labels| :: !LabelOk(labels[i]) then None
      else
        var out := LabelBytes(labels) + [0];
        if |out| <= 255 then Some(out) else None
  }

  datatype Named = Named(labels: seq<seq<Byte>>, next: nat)

  /**
   `decode_name` from `pos` on, with the labels read, their length, the jumps made and the
   place to go on from after the first pointer.
   */
  function DecodeName(packet: seq<Byte>, pos: nat, labels: seq<seq<Byte>>, len: nat, jumps: nat, resume: Option<nat>)
    : Result<Named, Error>
    decreases MAX_POINTER_JUMPS + 1 - jumps, |packet| - pos
  {
    if pos >= |packet| then Err(Truncated)
    else
      var first := packet[pos];
      if first == 0 then Ok(Named(labels, if resume.Some? then resume.value else pos + 1))
      else if first < 64 then
        if pos + 1 + first > |packet| then Err(Truncated)
        else if len + first + 1 > 255 then Err(NameTooLong)
        else
          var text := packet[pos + 1..pos + 1 + first];
          if !Utf8.Valid(text) then Err(InvalidLabel)
          else DecodeName(packet, pos + 1 + first, labels + [text], len + first + 1, jumps, resume)
      else if first < 0xc0 then Err(ReservedLabelEncoding)
      else if pos + 1 >= |packet| then Err(Truncated)
      else
        var target := Big(first - 0xc0, packet[pos + 1]);
        if target >= |packet| then Err(PointerOutOfBounds)
        else if target >= pos then Err(ForwardPointer)
        else if jumps + 1 > MAX_POINTER_JUMPS then Err(TooManyPointerJumps)
        else DecodeName(packet, target, labels, len, jumps + 1, if resume.Some? then resume else Some(pos + 2))
  }

  function NameAt(packet: seq<Byte>, pos: nat): Result<Named, Error> {
    DecodeName(packet, pos, [], 1, 0, None)
  }

  /** The cursor ends strictly further on and in bounds, and the expanded name is within 255 octets. */
  lemma {:induction false} DecodeNameBounds(packet: seq<Byte>, pos: nat, labels: seq<seq<Byte>>, len: nat, jumps: nat, resume: Option<nat>)
    requires len == WireLen(labels) <= 255
    requires resume.Some? ==> resume.value <= |packet|
    ensures var r := DecodeName(packet, pos, labels, len, jumps, resume);
            r.Ok? ==>
              && WireLen(r.value.labels) <= 255
              && (if resume.Some? then r.value.next == resume.value else pos < r.value.next <= |packet|)
    decreases MAX_POINTER_JUMPS + 1 - jumps, |packet| - pos
  {
    hide Utf8.Valid, Big, WireLen;
    if pos < |packet| && packet[pos] != 0 {
      var first := packet[pos];
      if first < 64 && pos + 1 + first <= |packet| && len + first + 1 <= 255 {
        var text := packet[pos + 1..pos + 1 + first];
        WireLenSnoc(labels, text);
        DecodeNameBounds(packet, pos + 1 + first, labels + [text], len + first + 1, jumps, resume);
      } else if first >= 0xc0 && pos + 1 < |packet| && jumps < MAX_POINTER_JUMPS {
        var target := Big(first - 0xc0, packet[pos + 1]);
        if target < pos {
          DecodeNameBounds(packet, target, labels, len, jumps + 1, if resume.Some? then resume else Some(pos + 2));
        }
      }
    }
  }

  lemma NameAtBounds(packet: seq<Byte>, pos: nat)
    ensures NameAt(packet, pos).Ok? ==>
              pos < NameAt(packet, pos).value.next <= |packet| && WireLen(NameAt(packet, pos).value.labels) <= 255
  {
    hide DecodeName;
    DecodeNameBounds(packet, pos, [], 1, 0, None);
  }

  lemma {:induction false} JoinLen(labels: seq<seq<Byte>>)
    requires labels != []
    ensures |Join(labels)| + 2 == WireLen(labels)
  {
    if |labels| > 1 {
      JoinLen(labels[1..]);
      WireLenCons(labels);
    } else {
      assert labels[..0] == [];
    }
  }

  lemma {:induction false} WireLenCons(labels: seq<seq<Byte>>)
    requires labels != []
    ensures WireLen(labels) == |labels[0]| + 1 + WireLen(labels[1..])
  {
    var n := |labels| - 1;
    if n > 0 {
      assert labels[1..][..n - 1] == labels[..n][1..];
      WireLenCons(labels[..n]);
    } else {
      assert labels[..0] == [];
    }
  }

  /** Labels that are valid text of a valid length. */
  predicate GoodLabels(labels: seq<seq<Byte>>) {
    forall i | 0 <= i < |labels| :: LabelOk(labels[i]) && Utf8.Valid(labels[i])
  }

  lemma {:induction false} LabelBytesLen(labels: seq<seq<Byte>>)
    requires GoodLabels(labels)
    ensures |LabelBytes(labels)| + 1 == WireLen(labels)
  {
    hide Utf8.Valid;
    if labels != [] {
      LabelBytesLen(labels[1..]);
      WireLenCons(labels);
    }
  }

  lemma LabelStep(packet: seq<Byte>, pos: nat, done: seq<seq<Byte>>, len: nat, text: seq<Byte>, rest: seq<Byte>)
    requires LabelOk(text) && Utf8.Valid(text) && At(packet, pos, [|text|] + (text + rest)) && len + |text| + 1 <= 255
    ensures DecodeName(packet, pos, done, len, 0, None)
            == DecodeName(packet, pos + 1 + |text|, done + [text], len + |text| + 1, 0, None)
    ensures At(packet, pos + 1 + |text|, rest)
  {
    hide Utf8.Valid;
    AtSplit(packet, pos, [|text|], text + rest);
    AtIndex(packet, pos, [|text|], 0);
    AtSplit(packet, pos + 1, text, rest);
  }

  lemma LabelEnd(packet: seq<Byte>, pos: nat, done: seq<seq<Byte>>, len: nat)
    requires At(packet, pos, [0])
    ensures DecodeName(packet, pos, done, len, 0, None) == Ok(Named(done, pos + 1))
  {
    AtIndex(packet, pos, [0], 0);
  }

  lemma WireLenSnoc(done: seq<seq<Byte>>, text: seq<Byte>)
    ensures WireLen(done + [text]) == WireLen(done) + |text| + 1
  {
    assert (done + [text])[..|done|] == done;
  }

  lemma {:induction false} DecodeLabels(packet: seq<Byte>, pos: nat, done: seq<seq<Byte>>, labels: seq<seq<Byte>>)
    requires GoodLabels(labels) && At(packet, pos, LabelBytes(labels) + [0])
    requires WireLen(done) + |LabelBytes(labels)| <= 255
    ensures DecodeName(packet, pos, done, WireLen(done), 0, None)
            == Ok(Named(done + labels, pos + |LabelBytes(labels)| + 1))
    decreases |labels|
  {
    hide Utf8.Valid, DecodeName, WireLen, At;
    if labels == [] {
      assert [] + [0] == [0] && done + labels == done;
      LabelEnd(packet, pos, done, WireLen(done));
    } else {
      var text, rest := labels[0], LabelBytes(labels[1..]) + [0];
      assert LabelBytes(labels) + [0] == [|text|] + (text + rest);
      LabelStep(packet, pos, done, WireLen(done), text, rest);
      WireLenSnoc(done, text);
      DecodeLabels(packet, pos + 1 + |text|, done + [text], labels[1..]);
      assert (done + [text]) + labels[1..] == done + labels;
    }
  }

  /** A written name reads back as itself, wherever it lies. */
  lemma DecodeEncodedName(packet: seq<Byte>, pos: nat, name: seq<Byte>)
    requires Utf8.Valid(name) && EncodeName(name).Some? && At(packet, pos, EncodeName(name).value)
    ensures NameAt(packet, pos).Ok?
    ensures Join(NameAt(packet, pos).value.labels) == name
    ensures NameAt(packet, pos).value.next == pos + |EncodeName(name).value|
  {
    hide Utf8.Valid, LabelBytes, Split, Join, DecodeName;
    if name == [] {
      EmptyName(packet, pos);
    } else {
      var labels := Split(name);
      SplitValid(name);
      JoinSplit(name);
      LabelBytesLen(labels);
      DecodeLabels(packet, pos, [], labels);
      assert [] + labels == labels;
    }
  }

  lemma EmptyName(packet: seq<Byte>, pos: nat)
    requires At(packet, pos, [0])
    ensures NameAt(packet, pos) == Ok(Named([], pos + 1)) && Join([]) == []
  {
    AtIndex(packet, pos, [0], 0);
  }
}
