/** The loops of the DNS codec (crates/mdns/src/dns.rs), proved against `Dns`, `DnsMessages` and `DnsSegments`. */
module DnsCodec {
  import opened Bytes
  import opened Dns
  import opened DnsMessages
  import opened DnsSegments
  import Utf8

  // ---- decoding ----

  method DecodeNameLoop(packet: seq<Byte>, cursor: nat) returns (r: Result<Named, Error>)
    ensures r == NameAt(packet, cursor)
    ensures r.Ok? ==> cursor < r.value.next <= |packet|
  {
    hide Utf8.Valid;
    NameAtBounds(packet, cursor);
    var pos: nat, labels, len: nat, jumps: nat := cursor, [], 1, 0;
    var resume: Option<nat> := None;
    while true
      invariant jumps <= MAX_POINTER_JUMPS
      invariant NameAt(packet, cursor) == DecodeName(packet, pos, labels, len, jumps, resume)
      decreases MAX_POINTER_JUMPS + 1 - jumps, |packet| - pos
    {
      if pos >= |packet| {
        return Err(Truncated);
      }
      var first := packet[pos];
      if first < 64 {
        pos := pos + 1;
        if first == 0 {
          return Ok(Named(labels, if resume.Some? then resume.value else pos));
        }
        if pos + first > |packet| {
          return Err(Truncated);
        }
        if len + first + 1 > 255 {
          return Err(NameTooLong);
        }
        var text := packet[pos..pos + first];
        if !Utf8.Valid(text) {
          return Err(InvalidLabel);
        }
        labels, len, pos := labels + [text], len + first + 1, pos + first;
      } else if first >= 0xc0 {
        if pos + 1 >= |packet| {
          return Err(Truncated);
        }
        var target := Big(first - 0xc0, packet[pos + 1]);
        if target >= |packet| {
          return Err(PointerOutOfBounds);
        }
        if target >= pos {
          return Err(ForwardPointer);
        }
        if jumps + 1 > MAX_POINTER_JUMPS {
          return Err(TooManyPointerJumps);
        }
        if resume.None? {
          resume := Some(pos + 2);
        }
        jumps, pos := jumps + 1, target;
      } else {
        return Err(ReservedLabelEncoding);
      }
    }
  }

  function PrependAll<T>(done: seq<T>, tail: Result<seq<T>, Error>): Result<seq<T>, Error> {
    match tail
    case Err(e) => Err(e)
    case Ok(rest) => Ok(done + rest)
  }

  method DecodeStringsLoop(packet: seq<Byte>, start: nat, end: nat) returns (r: Result<seq<seq<Byte>>, Error>)
    requires end <= |packet|
    ensures r == DecodeStrings(packet, start, end)
  {
    var strings: seq<seq<Byte>>, pos: nat := [], start;
    PrependNone(DecodeStrings(packet, start, end));
    while pos < end
      invariant DecodeStrings(packet, start, end) == PrependAll(strings, DecodeStrings(packet, pos, end))
    {
      var stop := pos + 1 + packet[pos];
      if stop > end {
        return Err(InvalidRecordData);
      }
      StringsUnfold(packet, pos, end, strings);
      strings, pos := strings + [packet[pos + 1..stop]], stop;
    }
    assert strings + [] == strings;
    return Ok(strings);
  }

  lemma PrependNone(tail: Result<seq<seq<Byte>>, Error>)
    ensures PrependAll([], tail) == tail
  {
    if tail.Ok? {
      assert [] + tail.value == tail.value;
    }
  }

  lemma StringsUnfold(packet: seq<Byte>, pos: nat, end: nat, strings: seq<seq<Byte>>)
    requires pos < end <= |packet| && pos + 1 + packet[pos] <= end
    ensures var stop := pos + 1 + packet[pos];
            PrependAll(strings, DecodeStrings(packet, pos, end))
            == PrependAll(strings + [packet[pos + 1..stop]], DecodeStrings(packet, stop, end))
  {
    var stop := pos + 1 + packet[pos];
    var item, tail := packet[pos + 1..stop], DecodeStrings(packet, stop, end);
    if tail.Ok? {
      assert strings + ([item] + tail.value) == (strings + [item]) + tail.value;
    }
  }

  method DecodeRecordAt(packet: seq<Byte>, cursor: nat) returns (r: Result<Step<Option<Record>>, Error>)
    ensures r == DecodeRecord(packet, cursor)
  {
    hide NameAt, Read16, Read32, DecodeStrings, Join;
    var named := DecodeNameLoop(packet, cursor);
    if named.Err? {
      return Err(named.error);
    }
    var at := named.value.next;
    var t, c, ttl, len := Read16(packet, at), Read16(packet, at + 2), Read32(packet, at + 4), Read16(packet, at + 8);
    if t.Err? {
      return Err(t.error);
    }
    if c.Err? {
      return Err(c.error);
    }
    if ttl.Err? {
      return Err(ttl.error);
    }
    if len.Err? {
      return Err(len.error);
    }
    var start, end := at + 10, at + 10 + len.value;
    if end > |packet| {
      return Err(Truncated);
    }
    var data: Option<Data> := None;
    if t.value == TYPE_PTR {
      var target := DecodeNameLoop(packet, start);
      if target.Err? {
        return Err(target.error);
      }
      if target.value.next != end {
        return Err(InvalidRecordData);
      }
      data := Some(Ptr(Join(target.value.labels)));
    } else if t.value == TYPE_TXT {
      var strings := DecodeStringsLoop(packet, start, end);
      if strings.Err? {
        return Err(strings.error);
      }
      data := Some(Txt(strings.value));
    }
    if data.None? {
      return Ok(Step(None, end));
    }
    return Ok(Step(Some(Record(Join(named.value.labels), t.value, c.value, ttl.value, data.value)), end));
  }

  /** What the record loop still has to add. */
  function PrependRecords(done: seq<Record>, tail: Result<Step<seq<Record>>, Error>): Result<Step<seq<Record>>, Error> {
    match tail
    case Err(e) => Err(e)
    case Ok(rest) => Ok(Step(done + rest.item, rest.next))
  }

  method DecodeRecordsLoop(packet: seq<Byte>, cursor: nat, count: nat) returns (r: Result<Step<seq<Record>>, Error>)
    ensures r == DecodeRecords(packet, cursor, count)
  {
    hide DecodeRecord;
    var records: seq<Record>, pos := [], cursor;
    PrependNothing(DecodeRecords(packet, cursor, count));
    for i := 0 to count
      invariant DecodeRecords(packet, cursor, count) == PrependRecords(records, DecodeRecords(packet, pos, count - i))
    {
      var step := DecodeRecordAt(packet, pos);
      if step.Err? {
        return Err(step.error);
      }
      RecordsUnfold(packet, pos, count - i, records);
      if step.value.item.Some? {
        records := records + [step.value.item.value];
      }
      pos := step.value.next;
    }
    assert records + [] == records;
    return Ok(Step(records, pos));
  }

  lemma PrependNothing(tail: Result<Step<seq<Record>>, Error>)
    ensures PrependRecords([], tail) == tail
  {
    if tail.Ok? {
      assert [] + tail.value.item == tail.value.item;
    }
  }

  lemma RecordsUnfold(packet: seq<Byte>, pos: nat, count: nat, records: seq<Record>)
    requires count > 0 && DecodeRecord(packet, pos).Ok?
    ensures var step := DecodeRecord(packet, pos).value;
            PrependRecords(records, DecodeRecords(packet, pos, count))
            == PrependRecords(if step.item.Some? then records + [step.item.value] else records, DecodeRecords(packet, step.next, count - 1))
  {
    hide DecodeRecord;
    var step := DecodeRecord(packet, pos).value;
    var item := if step.item.Some? then [step.item.value] else [];
    var tail := DecodeRecords(packet, step.next, count - 1);
    if tail.Ok? {
      assert records + (item + tail.value.item) == (records + item) + tail.value.item;
      assert records + [] == records;
    }
  }

  // ---- encoding ----

  /** Appends a name, or leaves the buffer to be abandoned. */
  method WriteName(out: seq<Byte>, name: seq<Byte>) returns (r: Option<seq<Byte>>)
    ensures r == if EncodeName(name).Some? then Some(out + EncodeName(name).value) else None
  {
    hide Split;
    if name == [] {
      return Some(out + [0]);
    }
    var labels := Split(name);
    var buf := out;
    for i := 0 to |labels|
      invariant forall j | 0 <= j < i :: LabelOk(labels[j])
      invariant buf == out + LabelBytes(labels[..i])
    {
      if |labels[i]| == 0 || |labels[i]| > 63 {
        assert !LabelOk(labels[i]);
        return None;
      }
      LabelBytesSnoc(labels[..i], labels[i]);
      assert labels[..i + 1] == labels[..i] + [labels[i]];
      assert out + (LabelBytes(labels[..i]) + ([|labels[i]|] + labels[i])) == buf + [|labels[i]|] + labels[i];
      buf := buf + [|labels[i]|] + labels[i];
    }
    assert labels[..|labels|] == labels;
    assert buf + [0] == out + (LabelBytes(labels) + [0]);
    buf := buf + [0];
    if |buf| - |out| > 255 {
      return None;
    }
    return Some(buf);
  }

  lemma {:induction false} LabelBytesSnoc(labels: seq<seq<Byte>>, text: seq<Byte>)
    requires LabelOk(text) && forall i | 0 <= i < |labels| :: LabelOk(labels[i])
    ensures LabelBytes(labels + [text]) == LabelBytes(labels) + ([|text|] + text)
    decreases |labels|
  {
    if labels == [] {
      assert labels + [text] == [text] && [text][1..] == [];
      assert [|text|] + text + [] == [] + ([|text|] + text);
    } else {
      assert (labels + [text])[1..] == labels[1..] + [text];
      LabelBytesSnoc(labels[1..], text);
      var head := [|labels[0]|] + labels[0];
      assert head + (LabelBytes(labels[1..]) + ([|text|] + text)) == (head + LabelBytes(labels[1..])) + ([|text|] + text);
    }
  }

  method WriteStrings(out: seq<Byte>, strings: seq<seq<Byte>>) returns (r: Option<seq<Byte>>)
    ensures r == if EncodeStrings(strings).Some? then Some(out + EncodeStrings(strings).value) else None
  {
    var buf: seq<Byte> := out;
    var i := 0;
    while i < |strings|
      invariant 0 <= i <= |strings|
      invariant Extends(out, EncodeStrings(strings)) == Extends(buf, EncodeStrings(strings[i..]))
    {
      assert strings[i..][1..] == strings[i + 1..];
      if |strings[i]| > 255 {
        return None;
      }
      var item: seq<Byte> := [|strings[i]|] + strings[i];
      if EncodeStrings(strings[i + 1..]).Some? {
        var rest := EncodeStrings(strings[i + 1..]).value;
        assert buf + ([|strings[i]|] + (strings[i] + rest)) == (buf + item) + rest;
      }
      buf := buf + item;
      i := i + 1;
    }
    assert strings[i..] == [] && buf + [] == buf;
    return Some(buf);
  }

  function Extends(out: seq<Byte>, tail: Option<seq<Byte>>): Option<seq<Byte>> {
    if tail.Some? then Some(out + tail.value) else None
  }

  /** Appends a record; the length is written as zero first and patched afterwards. */
  method WriteRecord(out: seq<Byte>, record: Record) returns (r: Option<seq<Byte>>)
    requires ValidRecord(record)
    ensures r == Extends(out, EncodeRecord(record))
  {
    hide EncodeName, EncodeStrings, U16, U32, Utf8.Valid;
    var named := WriteName(out, record.name);
    if named.None? {
      return None;
    }
    var fields := named.value + U16(record.rrType) + U16(record.class_) + U32(record.ttl);
    var lenPos := |fields|;
    var start := lenPos + 2;
    var buf := fields + U16(0);
    var body: Option<seq<Byte>>;
    if record.data.Ptr? {
      body := WriteName(buf, record.data.name);
    } else {
      body := WriteStrings(buf, record.data.strings);
    }
    if body.None? || |body.value| - start >= 0x1_0000 {
      return None;
    }
    var data := body.value[start..];
    assert data == EncodeData(record.data).value && body.value[..lenPos] == fields;
    buf := body.value[..lenPos] + U16(|body.value| - start) + body.value[start..];
    Patched(out, named.value[|out|..], record, data);
    assert named.value == out + named.value[|out|..];
    return Some(buf);
  }

  lemma Patched(out: seq<Byte>, name: seq<Byte>, record: Record, data: seq<Byte>)
    requires ValidRecord(record) && |data| < 0x1_0000
    ensures out + name + U16(record.rrType) + U16(record.class_) + U32(record.ttl) + U16(|data|) + data
            == out + (name + (U16(record.rrType) + (U16(record.class_) + (U32(record.ttl) + (U16(|data|) + data)))))
  {
    hide U16, U32, Utf8.Valid;
    Nest(out, name, U16(record.rrType), U16(record.class_), U32(record.ttl), U16(|data|), data);
  }

  lemma Nest<T>(a: seq<T>, b: seq<T>, c: seq<T>, d: seq<T>, e: seq<T>, f: seq<T>, g: seq<T>)
    ensures a + b + c + d + e + f + g == a + (b + (c + (d + (e + (f + g)))))
  {
  }

  // ---- segmentation ----

  method GroupLoop(s: Spec) returns (groups: seq<seq<seq<Byte>>>)
    requires ValidSpec(s)
    ensures groups == Groups(s)
  {
    hide Fits;
    groups := [];
    var current: seq<seq<Byte>> := [];
    var i := 0;
    while i < |s.txt|
      invariant 0 <= i <= |s.txt|
      invariant Groups(s) == Group(s, s.txt[i..], current, groups)
    {
      var value := s.txt[i];
      assert s.txt[i..][1..] == s.txt[i + 1..];
      i := i + 1;
      if |value| > 255 {
        continue;
      }
      if Fits(s, current + [value]) {
        current := current + [value];
        continue;
      }
      if current != [] {
        groups := groups + [current];
      }
      current := if Fits(s, [value]) then [value] else [];
    }
    assert s.txt[i..] == [];
    if current != [] {
      groups := groups + [current];
    }
  }

  /** Encodes each group and keeps what is within the limit. */
  method PacketsLoop(s: Spec, groups: seq<seq<seq<Byte>>>, flush: bool) returns (packets: seq<seq<Byte>>)
    requires ValidSpec(s)
    ensures packets == PacketsOf(s, groups, flush)
  {
    hide Packet, ValidSpec;
    packets := [];
    var i := 0;
    while i < |groups|
      invariant 0 <= i <= |groups|
      invariant PacketsOf(s, groups, flush) == packets + PacketsOf(s, groups[i..], flush)
    {
      PacketsUnfold(s, groups, i, flush, packets);
      var p := Packet(s, groups[i], flush);
      if p.Some? && |p.value| <= s.maxBytes {
        packets := packets + [p.value];
      }
      i := i + 1;
    }
    assert groups[i..] == [] && packets + [] == packets;
  }

  lemma PacketsUnfold(s: Spec, groups: seq<seq<seq<Byte>>>, i: nat, flush: bool, packets: seq<seq<Byte>>)
    requires ValidSpec(s) && i < |groups|
    ensures var p := Packet(s, groups[i], flush);
            packets + PacketsOf(s, groups[i..], flush)
            == (if p.Some? && |p.value| <= s.maxBytes then packets + [p.value] else packets) + PacketsOf(s, groups[i + 1..], flush)
  {
    hide Packet, ValidSpec;
    assert groups[i..][1..] == groups[i + 1..];
    var p, rest := Packet(s, groups[i], flush), PacketsOf(s, groups[i + 1..], flush);
    if p.Some? && |p.value| <= s.maxBytes {
      assert packets + ([p.value] + rest) == (packets + [p.value]) + rest;
    } else {
      assert [] + rest == rest;
    }
  }

  method EncodeSegments(s: Spec) returns (packets: seq<seq<Byte>>)
    requires ValidSpec(s)
    ensures packets == Segments(s)
  {
    if s.txt == [] {
      packets := PacketsLoop(s, [[]], false);
    } else {
      var groups := GroupLoop(s);
      packets := PacketsLoop(s, groups, s.flush && |groups| == 1);
    }
  }
}
