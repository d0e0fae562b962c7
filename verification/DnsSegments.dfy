/**
 Greedy segmentation of a response into packets (crates/mdns/src/dns.rs), its losslessness,
 and what a cache that honours the flush bit (section 10.2 of RFC 6762) ends up holding.
 */
module DnsSegments {
  import opened Bytes
  import opened Dns
  import opened DnsMessages
  import Utf8

  const CLASS_IN: nat := 1
  const FLUSH: nat := 0x8000
  const RESPONSE_FLAGS: nat := 0x8400

  datatype Spec = Spec(
    id: nat,
    question: Option<Question>,
    ptrOwner: seq<Byte>,
    ptrTarget: seq<Byte>,
    txt: seq<seq<Byte>>,
    ttl: nat,
    flush: bool,
    maxBytes: nat)

  predicate ValidSpec(s: Spec) {
    && s.id < 0x1_0000 && s.ttl < 0x1_0000_0000 && Utf8.Valid(s.ptrOwner) && Utf8.Valid(s.ptrTarget)
    && (s.question.Some? ==> ValidQuestion(s.question.value))
  }

  function PtrRecord(s: Spec): Record {
    Record(s.ptrOwner, TYPE_PTR, CLASS_IN, s.ttl, Ptr(s.ptrTarget))
  }

  function TxtRecord(s: Spec, value: seq<Byte>, flush: bool): Record {
    Record(s.ptrTarget, TYPE_TXT, CLASS_IN + (if flush then FLUSH else 0), s.ttl, Txt([value]))
  }

  function TxtRecords(s: Spec, values: seq<seq<Byte>>, flush: bool): (rs: seq<Record>)
    ensures |rs| == |values|
  {
    if values == [] then [] else [TxtRecord(s, values[0], flush)] + TxtRecords(s, values[1..], flush)
  }

  /** One packet: the PTR record as answer and the values as additional TXT records. */
  function Base(s: Spec, values: seq<seq<Byte>>, flush: bool): Message {
    Message(s.id, RESPONSE_FLAGS, if s.question.Some? then [s.question.value] else [],
            [PtrRecord(s)], [], TxtRecords(s, values, flush))
  }

  lemma {:induction false} TxtRecordsValid(s: Spec, values: seq<seq<Byte>>, flush: bool)
    requires ValidSpec(s)
    ensures ValidRecords(TxtRecords(s, values, flush)) && AllTyped(TxtRecords(s, values, flush))
  {
    hide Utf8.Valid;
    if values != [] {
      TxtRecordsValid(s, values[1..], flush);
    }
  }

  function BaseMessage(s: Spec, values: seq<seq<Byte>>, flush: bool): (m: Message)
    requires ValidSpec(s)
    ensures ValidMessage(m) && TypedMessage(m) && m == Base(s, values, flush)
  {
    TxtRecordsValid(s, values, flush);
    Base(s, values, flush)
  }

  function Packet(s: Spec, values: seq<seq<Byte>>, flush: bool): Option<seq<Byte>>
    requires ValidSpec(s)
  {
    EncodeMessage(BaseMessage(s, values, flush))
  }

  /** The values fit one packet. */
  predicate Fits(s: Spec, values: seq<seq<Byte>>)
    requires ValidSpec(s)
  {
    Packet(s, values, false).Some? && |Packet(s, values, false).value| <= s.maxBytes
  }

  // ---- grouping ----

  /** The grouping loop, from the values not yet placed. */
  function Group(s: Spec, values: seq<seq<Byte>>, current: seq<seq<Byte>>, groups: seq<seq<seq<Byte>>>)
    : seq<seq<seq<Byte>>>
    requires ValidSpec(s)
    decreases |values|
  {
    if values == [] then Closed(current, groups)
    else
      var v, rest := values[0], values[1..];
      if |v| > 255 then Group(s, rest, current, groups)
      else if Fits(s, current + [v]) then Group(s, rest, current + [v], groups)
      else Group(s, rest, if Fits(s, [v]) then [v] else [], Closed(current, groups))
  }

  function Closed(current: seq<seq<Byte>>, groups: seq<seq<seq<Byte>>>): seq<seq<seq<Byte>>> {
    if current == [] then groups else groups + [current]
  }

  function Groups(s: Spec): seq<seq<seq<Byte>>>
    requires ValidSpec(s)
  {
    Group(s, s.txt, [], [])
  }

  function Flat(groups: seq<seq<seq<Byte>>>): seq<seq<Byte>> {
    if groups == [] then [] else Flat(groups[..|groups| - 1]) + groups[|groups| - 1]
  }

  /** The values that fit a packet alone, in order. */
  function Fitting(s: Spec, values: seq<seq<Byte>>): seq<seq<Byte>>
    requires ValidSpec(s)
  {
    if values == [] then []
    else (if Fits(s, [values[0]]) then [values[0]] else []) + Fitting(s, values[1..])
  }

  // ---- sizes ----

  lemma TxtRecordSize(s: Spec, v: seq<Byte>, flush: bool)
    requires ValidSpec(s)
    ensures ValidRecord(TxtRecord(s, v, flush))
    ensures EncodeRecord(TxtRecord(s, v, flush)).Some? <==> EncodeName(s.ptrTarget).Some? && |v| <= 255
    ensures EncodeRecord(TxtRecord(s, v, flush)).Some?
            ==> |EncodeRecord(TxtRecord(s, v, flush)).value| == |EncodeName(s.ptrTarget).value| + 11 + |v|
  {
    hide Utf8.Valid, EncodeName;
    assert [v][1..] == [];
    assert EncodeStrings([]) == Some([]);
  }

  predicate ValuesOk(values: seq<seq<Byte>>) {
    forall i | 0 <= i < |values| :: |values[i]| <= 255
  }

  function TxtLen(name: nat, values: seq<seq<Byte>>): nat {
    if values == [] then 0 else name + 11 + |values[0]| + TxtLen(name, values[1..])
  }

  lemma {:induction false} TxtRecordsSize(s: Spec, values: seq<seq<Byte>>, flush: bool)
    requires ValidSpec(s) && EncodeName(s.ptrTarget).Some? && ValidRecords(TxtRecords(s, values, flush))
    ensures EncodeRecords(TxtRecords(s, values, flush)).Some? <==> ValuesOk(values)
    ensures ValuesOk(values) ==>
              |EncodeRecords(TxtRecords(s, values, flush)).value| == TxtLen(|EncodeName(s.ptrTarget).value|, values)
  {
    hide Utf8.Valid, EncodeName, EncodeRecord, ValidRecord;
    if values != [] {
      TxtRecordSize(s, values[0], flush);
      TxtRecordsValid(s, values[1..], flush);
      assert TxtRecords(s, values, flush)[1..] == TxtRecords(s, values[1..], flush);
      TxtRecordsSize(s, values[1..], flush);
      assert values == [values[0]] + values[1..];
    }
  }

  /** Everything but the values encodes. */
  predicate HeadOk(s: Spec)
    requires ValidSpec(s)
  {
    var m := BaseMessage(s, [], false);
    EncodeQuestions(m.questions).Some? && EncodeRecords(m.answers).Some?
  }

  function HeadLen(s: Spec): nat
    requires ValidSpec(s) && HeadOk(s)
  {
    var m := BaseMessage(s, [], false);
    12 + |EncodeQuestions(m.questions).value| + |EncodeRecords(m.answers).value|
  }

  function NameLen(s: Spec): nat {
    if EncodeName(s.ptrTarget).Some? then |EncodeName(s.ptrTarget).value| else 0
  }

  lemma HeadNames(s: Spec)
    requires ValidSpec(s) && HeadOk(s)
    ensures EncodeName(s.ptrTarget).Some?
  {
    hide Utf8.Valid, EncodeName;
    assert EncodeRecords([PtrRecord(s)]).Some?;
    assert EncodeRecord(PtrRecord(s)).Some?;
  }

  /** A packet's size is its head plus each value's record; the flush bit does not matter. */
  lemma PacketSize(s: Spec, values: seq<seq<Byte>>, flush: bool)
    requires ValidSpec(s)
    ensures Packet(s, values, flush).Some? <==> HeadOk(s) && ValuesOk(values) && |values| < 0x1_0000
    ensures Packet(s, values, flush).Some? ==> |Packet(s, values, flush).value| == HeadLen(s) + TxtLen(NameLen(s), values)
  {
    hide EncodeName, EncodeRecord, EncodeQuestions, Utf8.Valid, TxtLen, ValuesOk;
    var m := BaseMessage(s, values, flush);
    if HeadOk(s) {
      HeadNames(s);
      TxtRecordsSize(s, values, flush);
    }
    assert EncodeRecords([]) == Some([]);
  }

  lemma {:induction false} TxtLenLast(name: nat, current: seq<seq<Byte>>, v: seq<Byte>)
    ensures TxtLen(name, [v]) <= TxtLen(name, current + [v])
  {
    assert [v][1..] == [];
    if current == [] {
      assert current + [v] == [v];
    } else {
      assert (current + [v])[1..] == current[1..] + [v];
      TxtLenLast(name, current[1..], v);
    }
  }

  /** A value that fits after others fits alone. */
  lemma FitsAlone(s: Spec, current: seq<seq<Byte>>, v: seq<Byte>)
    requires ValidSpec(s) && Fits(s, current + [v])
    ensures Fits(s, [v])
  {
    hide Packet, TxtLen;
    PacketSize(s, current + [v], false);
    PacketSize(s, [v], false);
    TxtLenLast(NameLen(s), current, v);
    assert (current + [v])[|current|] == v;
  }

  lemma LongNeverFits(s: Spec, v: seq<Byte>)
    requires ValidSpec(s) && |v| > 255
    ensures !Fits(s, [v])
  {
    hide Packet;
    PacketSize(s, [v], false);
    assert [v][0] == v;
  }

  // ---- losslessness ----

  predicate GroupsOk(s: Spec, groups: seq<seq<seq<Byte>>>)
    requires ValidSpec(s)
  {
    forall i | 0 <= i < |groups| :: groups[i] != [] && Fits(s, groups[i])
  }

  lemma FlatClosed(current: seq<seq<Byte>>, groups: seq<seq<seq<Byte>>>)
    ensures Flat(Closed(current, groups)) == Flat(groups) + current
  {
    if current != [] {
      assert (groups + [current])[..|groups|] == groups;
    }
  }

  lemma ClosedOk(s: Spec, current: seq<seq<Byte>>, groups: seq<seq<seq<Byte>>>)
    requires ValidSpec(s) && GroupsOk(s, groups) && (current == [] || Fits(s, current))
    ensures GroupsOk(s, Closed(current, groups))
  {
    hide Fits;
  }

  lemma Regroup<T>(a: seq<T>, b: seq<T>, c: seq<T>, d: seq<T>)
    ensures a + (b + c) + d == a + b + (c + d) && a + b + c + d == a + b + (c + d)
  {
  }

  lemma FittingCons(s: Spec, values: seq<seq<Byte>>)
    requires ValidSpec(s) && values != []
    ensures Fits(s, [values[0]]) ==> Fitting(s, values) == [values[0]] + Fitting(s, values[1..])
    ensures !Fits(s, [values[0]]) ==> Fitting(s, values) == Fitting(s, values[1..])
  {
    hide Fits;
    assert [] + Fitting(s, values[1..]) == Fitting(s, values[1..]);
  }

  /** Grouping keeps exactly the fitting values, in order, in packets that fit. */
  lemma {:induction false} GroupIsLossless(s: Spec, values: seq<seq<Byte>>, current: seq<seq<Byte>>, groups: seq<seq<seq<Byte>>>)
    requires ValidSpec(s) && GroupsOk(s, groups) && (current == [] || Fits(s, current))
    ensures GroupsOk(s, Group(s, values, current, groups))
    ensures Flat(Group(s, values, current, groups)) == Flat(groups) + current + Fitting(s, values)
    decreases |values|
  {
    hide Fits, Flat, GroupsOk, Closed;
    FlatClosed(current, groups);
    ClosedOk(s, current, groups);
    if values == [] {
      assert Flat(groups) + current + [] == Flat(groups) + current;
    } else {
      hide Fitting;
      FittingCons(s, values);
      var v, rest := values[0], values[1..];
      if |v| > 255 {
        LongNeverFits(s, v);
        GroupIsLossless(s, rest, current, groups);
      } else if Fits(s, current + [v]) {
        FitsAlone(s, current, v);
        GroupIsLossless(s, rest, current + [v], groups);
        Regroup(Flat(groups), current, [v], Fitting(s, rest));
      } else {
        var next := if Fits(s, [v]) then [v] else [];
        GroupIsLossless(s, rest, next, Closed(current, groups));
        Regroup(Flat(groups), current, next, Fitting(s, rest));
        assert [] + Fitting(s, rest) == Fitting(s, rest);
      }
    }
  }

  // ---- packets ----

  /** The flush bit is set only on a set that is not split. */
  predicate Flushes(s: Spec)
    requires ValidSpec(s)
  {
    s.flush && |Groups(s)| == 1
  }

  /** Encodes each group and keeps the packets within the limit. */
  function PacketsOf(s: Spec, groups: seq<seq<seq<Byte>>>, flush: bool): seq<seq<Byte>>
    requires ValidSpec(s)
  {
    if groups == [] then []
    else
      var p := Packet(s, groups[0], flush);
      (if p.Some? && |p.value| <= s.maxBytes then [p.value] else []) + PacketsOf(s, groups[1..], flush)
  }

  /** `encode_response_segments`. */
  function Segments(s: Spec): seq<seq<Byte>>
    requires ValidSpec(s)
  {
    if s.txt == [] then PacketsOf(s, [[]], false) else PacketsOf(s, Groups(s), Flushes(s))
  }

  lemma FitsEither(s: Spec, values: seq<seq<Byte>>, flush: bool)
    requires ValidSpec(s)
    ensures Packet(s, values, flush).Some? && |Packet(s, values, flush).value| <= s.maxBytes <==> Fits(s, values)
  {
    hide Packet;
    PacketSize(s, values, flush);
    PacketSize(s, values, false);
  }

  /** The final size filter drops nothing: one packet per group, each within the limit. */
  lemma {:induction false} PacketsMatchGroups(s: Spec, groups: seq<seq<seq<Byte>>>, flush: bool)
    requires ValidSpec(s) && GroupsOk(s, groups)
    ensures |PacketsOf(s, groups, flush)| == |groups|
    ensures forall i | 0 <= i < |groups| ::
              && Packet(s, groups[i], flush) == Some(PacketsOf(s, groups, flush)[i])
              && |PacketsOf(s, groups, flush)[i]| <= s.maxBytes
  {
    hide Packet, Fits;
    if groups != [] {
      assert groups[0] != [] && Fits(s, groups[0]);
      FitsEither(s, groups[0], flush);
      PacketsMatchGroups(s, groups[1..], flush);
      assert groups == [groups[0]] + groups[1..];
    }
  }

  /** The TXT values of a decoded packet. */
  function Values(rs: seq<Record>): seq<seq<Byte>> {
    if rs == [] then []
    else (if rs[0].data.Txt? && |rs[0].data.strings| == 1 then [rs[0].data.strings[0]] else []) + Values(rs[1..])
  }

  lemma {:induction false} ValuesOfTxt(s: Spec, values: seq<seq<Byte>>, flush: bool)
    ensures Values(TxtRecords(s, values, flush)) == values
  {
    if values != [] {
      ValuesOfTxt(s, values[1..], flush);
      assert TxtRecords(s, values, flush)[1..] == TxtRecords(s, values[1..], flush);
      assert values == [values[0]] + values[1..];
    }
  }

  /** A packet within the decoder's cap decodes to the PTR record and its group's values. */
  lemma PacketDecodes(s: Spec, values: seq<seq<Byte>>, flush: bool)
    requires ValidSpec(s) && Packet(s, values, flush).Some? && |Packet(s, values, flush).value| <= MAX_DECODE_BYTES
    ensures var m := Decode(Packet(s, values, flush).value);
            && m == Ok(Base(s, values, flush))
            && m.value.answers == [PtrRecord(s)]
            && Values(m.value.additionals) == values
  {
    hide Decode, EncodeMessage, Utf8.Valid;
    DecodeEncode(BaseMessage(s, values, flush));
    ValuesOfTxt(s, values, flush);
  }

  /** All TXT values found by decoding the packets in order. */
  function DecodedValues(packets: seq<seq<Byte>>): seq<seq<Byte>> {
    if packets == [] then []
    else
      var n := |packets| - 1;
      DecodedValues(packets[..n])
      + (if Decode(packets[n]).Ok? then Values(Decode(packets[n]).value.additionals) else [])
  }

  lemma {:induction false} DecodedGroups(s: Spec, groups: seq<seq<seq<Byte>>>, packets: seq<seq<Byte>>, flush: bool)
    requires ValidSpec(s) && s.maxBytes <= MAX_DECODE_BYTES && |packets| == |groups|
    requires forall i | 0 <= i < |groups| :: Packet(s, groups[i], flush) == Some(packets[i]) && |packets[i]| <= s.maxBytes
    ensures DecodedValues(packets) == Flat(groups)
  {
    hide Packet, Decode;
    if groups != [] {
      var n := |groups| - 1;
      DecodedGroups(s, groups[..n], packets[..n], flush);
      PacketDecodes(s, groups[n], flush);
    }
  }

  /**
   Segmentation is lossless: decoding the packets yields, in order and without repeats of
   its own, exactly the TXT values that fit a packet alone; every packet is within the
   limit and carries the PTR record.
   */
  lemma SegmentsAreLossless(s: Spec)
    requires ValidSpec(s) && s.txt != [] && s.maxBytes <= MAX_DECODE_BYTES
    ensures DecodedValues(Segments(s)) == Fitting(s, s.txt)
    ensures |Segments(s)| == |Groups(s)|
    ensures forall i | 0 <= i < |Segments(s)| ::
              && |Segments(s)[i]| <= s.maxBytes
              && Decode(Segments(s)[i]) == Ok(Base(s, Groups(s)[i], Flushes(s)))
  {
    hide Packet, Decode, Group, Fits, PacketsOf;
    GroupIsLossless(s, s.txt, [], []);
    assert [] + [] + Fitting(s, s.txt) == Fitting(s, s.txt);
    PacketsMatchGroups(s, Groups(s), Flushes(s));
    DecodedGroups(s, Groups(s), Segments(s), Flushes(s));
    forall i | 0 <= i < |Segments(s)|
      ensures Decode(Segments(s)[i]) == Ok(Base(s, Groups(s)[i], Flushes(s)))
    {
      PacketDecodes(s, Groups(s)[i], Flushes(s));
    }
  }

  /** With no values the PTR record alone is sent, when it fits. */
  lemma BareSegment(s: Spec)
    requires ValidSpec(s) && s.txt == [] && s.maxBytes <= MAX_DECODE_BYTES
    ensures if Fits(s, []) then |Segments(s)| == 1 && Decode(Segments(s)[0]) == Ok(Base(s, [], false)) else Segments(s) == []
  {
    hide Packet, Decode;
    var only: seq<seq<seq<Byte>>> := [[]];
    assert only[1..] == [] && PacketsOf(s, [], false) == [];
    var p := Packet(s, [], false);
    var kept := if Fits(s, []) then [p.value] else [];
    assert PacketsOf(s, only, false) == kept + [];
    assert kept + [] == kept;
    if Fits(s, []) {
      PacketDecodes(s, [], false);
    }
  }

  // ---- caches ----

  function Elements(values: seq<seq<Byte>>): set<seq<Byte>> {
    set i | 0 <= i < |values| :: values[i]
  }

  /** A cache of the TXT values: a packet with the flush bit replaces what came before it. */
  function Receive(cache: set<seq<Byte>>, group: seq<seq<Byte>>, flush: bool): set<seq<Byte>> {
    (if flush then {} else cache) + Elements(group)
  }

  function ReceiveAll(cache: set<seq<Byte>>, groups: seq<seq<seq<Byte>>>, flush: bool): set<seq<Byte>> {
    if groups == [] then cache
    else Receive(ReceiveAll(cache, groups[..|groups| - 1], flush), groups[|groups| - 1], flush)
  }

  lemma ElementsConcat(a: seq<seq<Byte>>, b: seq<seq<Byte>>)
    ensures Elements(a + b) == Elements(a) + Elements(b)
  {
    assert forall i | 0 <= i < |a| :: (a + b)[i] == a[i];
    assert forall i | 0 <= i < |b| :: (a + b)[|a| + i] == b[i];
    forall x | x in Elements(a) + Elements(b)
      ensures x in Elements(a + b)
    {
      if x in Elements(a) {
        var i :| 0 <= i < |a| && a[i] == x;
        assert (a + b)[i] == x;
      } else {
        var i :| 0 <= i < |b| && b[i] == x;
        assert (a + b)[|a| + i] == x;
      }
    }
  }

  lemma {:induction false} ReceivePlain(cache: set<seq<Byte>>, groups: seq<seq<seq<Byte>>>)
    ensures ReceiveAll(cache, groups, false) == cache + Elements(Flat(groups))
  {
    if groups != [] {
      var n := |groups| - 1;
      ReceivePlain(cache, groups[..n]);
      ElementsConcat(Flat(groups[..n]), groups[n]);
    }
  }

  /** Whatever the cache held, it ends holding every value that could be sent; flushed, nothing else. */
  lemma CacheEndsComplete(s: Spec, cache: set<seq<Byte>>)
    requires ValidSpec(s)
    ensures var final := ReceiveAll(cache, Groups(s), Flushes(s));
            && Elements(Fitting(s, s.txt)) <= final
            && (Flushes(s) ==> final == Elements(Fitting(s, s.txt)))
            && (!Flushes(s) ==> final == cache + Elements(Fitting(s, s.txt)))
  {
    hide Group, Fits, Elements;
    GroupIsLossless(s, s.txt, [], []);
    assert [] + [] + Fitting(s, s.txt) == Fitting(s, s.txt);
    ReceivePlain(cache, Groups(s));
    if Flushes(s) {
      var g := Groups(s);
      assert g[..0] == [] && Flat(g) == [] + g[0];
      assert [] + g[0] == g[0];
    }
  }

  /**
   Flushing on every fragment leaves only the last fragment's values, so a split set survives
   it if and only if the last fragment repeats all the others.
   */
  lemma FlushingFragmentsForgets(s: Spec, cache: set<seq<Byte>>)
    requires ValidSpec(s) && Groups(s) != []
    ensures var g := Groups(s);
            Elements(Fitting(s, s.txt)) <= ReceiveAll(cache, g, true) <==> Elements(Fitting(s, s.txt)) == Elements(g[|g| - 1])
  {
    hide Group, Fits, Elements;
    GroupIsLossless(s, s.txt, [], []);
    assert [] + [] + Fitting(s, s.txt) == Fitting(s, s.txt);
    var g := Groups(s);
    ElementsConcat(Flat(g[..|g| - 1]), g[|g| - 1]);
  }

  // ---- every message the crate encodes ----

  const P2P: seq<Byte> := [0x5f, 0x70, 0x32, 0x70]
  const UDP: seq<Byte> := [0x5f, 0x75, 0x64, 0x70]
  const LOCAL: seq<Byte> := [0x6c, 0x6f, 0x63, 0x61, 0x6c]
  const SERVICE_NAME: seq<Byte> := P2P + [DOT] + (UDP + [DOT] + LOCAL)

  /** The message of `encode_query`. */
  const QUERY: Message := Message(0, 0, [Question(SERVICE_NAME, TYPE_PTR, CLASS_IN)], [], [], [])

  lemma {:induction false} AsciiValid(s: seq<Byte>)
    requires forall i | 0 <= i < |s| :: s[i] < 0x80
    ensures Utf8.Valid(s)
    decreases |s|
  {
    if s != [] {
      AsciiValid(s[1..]);
    }
  }

  lemma SplitAt(a: seq<Byte>, b: seq<Byte>)
    requires forall i | 0 <= i < |a| :: a[i] != DOT
    ensures Split(a + [DOT] + b) == [a] + Split(b) && Split(a) == [a]
  {
    var s := a + [DOT] + b;
    assert s[|a|] == DOT && forall i | 0 <= i < |a| :: s[i] == a[i];
    assert s[..|a|] == a && s[|a| + 1..] == b;
  }

  lemma ServiceNameEncodes()
    ensures EncodeName(SERVICE_NAME) == Some([4] + P2P + ([4] + UDP + ([5] + LOCAL + [])) + [0])
  {
    hide Split;
    SplitAt(P2P, UDP + [DOT] + LOCAL);
    SplitAt(UDP, LOCAL);
    SplitAt(LOCAL, []);
    var labels := [P2P, UDP, LOCAL];
    assert Split(SERVICE_NAME) == labels;
    assert labels[1..] == [UDP, LOCAL] && [UDP, LOCAL][1..] == [LOCAL] && [LOCAL][1..] == [];
    assert LabelBytes([LOCAL]) == [5] + LOCAL + [];
    assert LabelBytes([UDP, LOCAL]) == [4] + UDP + LabelBytes([LOCAL]);
    assert LabelBytes(labels) == [4] + P2P + LabelBytes([UDP, LOCAL]);
    assert forall i | 0 <= i < |labels| :: LabelOk(labels[i]);
  }

  /** The constant query always encodes, to 33 bytes, and decodes to itself. */
  lemma QueryDecodes()
    ensures ValidMessage(QUERY) && TypedMessage(QUERY)
    ensures EncodeMessage(QUERY).Some? && |EncodeMessage(QUERY).value| == 33
    ensures Decode(EncodeMessage(QUERY).value) == Ok(QUERY)
  {
    hide Decode, EncodeName, Utf8.Valid;
    AsciiValid(SERVICE_NAME);
    ServiceNameEncodes();
    assert QUERY.questions[1..] == [];
    assert EncodeQuestions([]) == Some([]) && EncodeRecords([]) == Some([]);
    DecodeEncode(QUERY);
  }

  /** The messages the crate builds: the query, and a response with any values. */
  ghost predicate Built(m: Message) {
    m == QUERY || exists s, values, flush :: ValidSpec(s) && m == Base(s, values, flush)
  }

  /** Every message the crate encodes decodes to itself if and only if it is within the decoder's cap. */
  lemma BuiltDecodes(m: Message)
    requires Built(m)
    ensures ValidMessage(m) && TypedMessage(m)
    ensures EncodeMessage(m).Some? ==>
              (Decode(EncodeMessage(m).value) == Ok(m) <==> |EncodeMessage(m).value| <= MAX_DECODE_BYTES)
  {
    hide EncodeMessage, ValidMessage, TypedMessage, DecodeQuestions, DecodeSections;
    if m == QUERY {
      QueryDecodes();
    } else {
      var s, values, flush :| ValidSpec(s) && m == Base(s, values, flush);
      assert m == BaseMessage(s, values, flush);
    }
    if EncodeMessage(m).Some? && |EncodeMessage(m).value| <= MAX_DECODE_BYTES {
      DecodeEncode(m);
    }
  }
}
