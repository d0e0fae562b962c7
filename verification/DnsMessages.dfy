/** DNS messages: the decoder inverts the encoder exactly on well-typed messages (crates/mdns/src/dns.rs). */
module DnsMessages {
  import opened Bytes
  import opened Dns
  import Utf8

  // ---- what the field types already guarantee ----

  predicate ValidQuestion(q: Question) {
    Utf8.Valid(q.name) && q.qtype < 0x1_0000 && q.class_ < 0x1_0000
  }

  predicate ValidRecord(r: Record) {
    && Utf8.Valid(r.name) && r.rrType < 0x1_0000 && r.class_ < 0x1_0000 && r.ttl < 0x1_0000_0000
    && (r.data.Ptr? ==> Utf8.Valid(r.data.name))
  }

  predicate ValidRecords(rs: seq<Record>) {
    forall i | 0 <= i < |rs| :: ValidRecord(rs[i])
  }

  predicate ValidMessage(m: Message) {
    && m.id < 0x1_0000 && m.flags < 0x1_0000
    && (forall i | 0 <= i < |m.questions| :: ValidQuestion(m.questions[i]))
    && ValidRecords(m.answers) && ValidRecords(m.authorities) && ValidRecords(m.additionals)
  }

  /** The type number names the kind of data the record carries. */
  predicate Typed(r: Record) {
    if r.data.Ptr? then r.rrType == TYPE_PTR else r.rrType == TYPE_TXT
  }

  predicate AllTyped(rs: seq<Record>) {
    forall i | 0 <= i < |rs| :: Typed(rs[i])
  }

  predicate TypedMessage(m: Message) {
    AllTyped(m.answers) && AllTyped(m.authorities) && AllTyped(m.additionals)
  }

  // ---- encoding ----

  function EncodeStrings(strings: seq<seq<Byte>>): Option<seq<Byte>> {
    if strings == [] then Some([])
    else if |strings[0]| > 255 || EncodeStrings(strings[1..]).None? then None
    else Some([|strings[0]|] + (strings[0] + EncodeStrings(strings[1..]).value))
  }

  function EncodeData(d: Data): Option<seq<Byte>> {
    if d.Ptr? then EncodeName(d.name) else EncodeStrings(d.strings)
  }

  /** `write_record`. */
  function EncodeRecord(r: Record): Option<seq<Byte>>
    requires ValidRecord(r)
  {
    var name, data := EncodeName(r.name), EncodeData(r.data);
    if name.None? || data.None? || |data.value| >= 0x1_0000 then None
    else Some(name.value + (U16(r.rrType) + (U16(r.class_) + (U32(r.ttl) + (U16(|data.value|) + data.value)))))
  }

  function EncodeRecords(rs: seq<Record>): Option<seq<Byte>>
    requires ValidRecords(rs)
  {
    if rs == [] then Some([])
    else
      var first, rest := EncodeRecord(rs[0]), EncodeRecords(rs[1..]);
      if first.None? || rest.None? then None else Some(first.value + rest.value)
  }

  function EncodeQuestions(qs: seq<Question>): Option<seq<Byte>>
    requires forall i | 0 <= i < |qs| :: ValidQuestion(qs[i])
  {
    if qs == [] then Some([])
    else
      var name, rest := EncodeName(qs[0].name), EncodeQuestions(qs[1..]);
      assert ValidQuestion(qs[0]);
      if name.None? || rest.None? then None
      else Some(name.value + (U16(qs[0].qtype) + (U16(qs[0].class_) + rest.value)))
  }

  function Header(m: Message): (h: seq<Byte>)
    requires ValidMessage(m) && CountsFit(m)
    ensures |h| == 12
  {
    U16(m.id) + (U16(m.flags) + (U16(|m.questions|) + (U16(|m.answers|) + (U16(|m.authorities|) + U16(|m.additionals|)))))
  }

  predicate CountsFit(m: Message) {
    |m.questions| < 0x1_0000 && |m.answers| < 0x1_0000 && |m.authorities| < 0x1_0000 && |m.additionals| < 0x1_0000
  }

  /** `encode_message`. */
  function EncodeMessage(m: Message): Option<seq<Byte>>
    requires ValidMessage(m)
  {
    if !CountsFit(m) then None
    else
      var q, a, u, d := EncodeQuestions(m.questions), EncodeRecords(m.answers), EncodeRecords(m.authorities), EncodeRecords(m.additionals);
      if q.None? || a.None? || u.None? || d.None? then None
      else Some(Header(m) + (q.value + (a.value + (u.value + d.value))))
  }

  // ---- decoding ----

  datatype Step<T> = Step(item: T, next: nat)

  function DecodeStrings(packet: seq<Byte>, pos: nat, end: nat): Result<seq<seq<Byte>>, Error>
    requires end <= |packet|
    decreases end - pos
  {
    if pos >= end then Ok([])
    else
      var stop := pos + 1 + packet[pos];
      if stop > end then Err(InvalidRecordData)
      else
        match DecodeStrings(packet, stop, end)
        case Err(e) => Err(e)
        case Ok(rest) => Ok([packet[pos + 1..stop]] + rest)
  }

  /** The record data, `None` for a type the decoder skips. */
  function DecodeData(packet: seq<Byte>, rrType: nat, start: nat, end: nat): Result<Option<Data>, Error>
    requires end <= |packet|
  {
    if rrType == TYPE_PTR then
      match NameAt(packet, start)
      case Err(e) => Err(e)
      case Ok(named) => if named.next != end then Err(InvalidRecordData) else Ok(Some(Ptr(Join(named.labels))))
    else if rrType == TYPE_TXT then
      match DecodeStrings(packet, start, end)
      case Err(e) => Err(e)
      case Ok(strings) => Ok(Some(Txt(strings)))
    else Ok(None)
  }

  /** One record; skipped types leave only the cursor. */
  function DecodeRecord(packet: seq<Byte>, pos: nat): Result<Step<Option<Record>>, Error> {
    match NameAt(packet, pos)
    case Err(e) => Err(e)
    case Ok(named) =>
      var at := named.next;
      var t, c, ttl, len := Read16(packet, at), Read16(packet, at + 2), Read32(packet, at + 4), Read16(packet, at + 8);
      if t.Err? then Err(t.error) else if c.Err? then Err(c.error) else if ttl.Err? then Err(ttl.error)
      else if len.Err? then Err(len.error)
      else if at + 10 + len.value > |packet| then Err(Truncated)
      else
        match DecodeData(packet, t.value, at + 10, at + 10 + len.value)
        case Err(e) => Err(e)
        case Ok(None) => Ok(Step(None, at + 10 + len.value))
        case Ok(Some(d)) => Ok(Step(Some(Record(Join(named.labels), t.value, c.value, ttl.value, d)), at + 10 + len.value))
  }

  function DecodeRecords(packet: seq<Byte>, pos: nat, count: nat): Result<Step<seq<Record>>, Error>
    decreases count
  {
    if count == 0 then Ok(Step([], pos))
    else
      match DecodeRecord(packet, pos)
      case Err(e) => Err(e)
      case Ok(first) =>
        match DecodeRecords(packet, first.next, count - 1)
        case Err(e) => Err(e)
        case Ok(rest) => Ok(Step((if first.item.Some? then [first.item.value] else []) + rest.item, rest.next))
  }

  function DecodeQuestions(packet: seq<Byte>, pos: nat, count: nat): Result<Step<seq<Question>>, Error>
    decreases count
  {
    if count == 0 then Ok(Step([], pos))
    else
      match NameAt(packet, pos)
      case Err(e) => Err(e)
      case Ok(named) =>
        var t, c := Read16(packet, named.next), Read16(packet, named.next + 2);
        if t.Err? then Err(t.error) else if c.Err? then Err(c.error)
        else
          match DecodeQuestions(packet, named.next + 4, count - 1)
          case Err(e) => Err(e)
          case Ok(rest) => Ok(Step([Question(Join(named.labels), t.value, c.value)] + rest.item, rest.next))
  }

  function DecodeSections(packet: seq<Byte>, pos: nat, na: nat, nu: nat, nd: nat)
    : Result<(seq<Record>, seq<Record>, seq<Record>), Error>
  {
    match DecodeRecords(packet, pos, na)
    case Err(e) => Err(e)
    case Ok(a) =>
      match DecodeRecords(packet, a.next, nu)
      case Err(e) => Err(e)
      case Ok(u) =>
        match DecodeRecords(packet, u.next, nd)
        case Err(e) => Err(e)
        case Ok(d) => if d.next != |packet| then Err(TrailingBytes) else Ok((a.item, u.item, d.item))
  }

  /** The six header words. */
  function Word(packet: seq<Byte>, i: nat): (n: nat)
    requires |packet| >= 12 && i < 6
    ensures n < 0x1_0000
  {
    Read16(packet, 2 * i).value
  }

  /** `DnsMessage::decode`. */
  function Decode(packet: seq<Byte>): Result<Message, Error> {
    if |packet| > MAX_DECODE_BYTES then Err(PacketTooLarge)
    else if |packet| < 12 then Err(Truncated)
    else
      match DecodeQuestions(packet, 12, Word(packet, 2))
      case Err(e) => Err(e)
      case Ok(q) =>
        match DecodeSections(packet, q.next, Word(packet, 3), Word(packet, 4), Word(packet, 5))
        case Err(e) => Err(e)
        case Ok(s) => Ok(Message(Word(packet, 0), Word(packet, 1), q.item, s.0, s.1, s.2))
  }

  // ---- decoding what was encoded ----

  lemma {:induction false} DecodeStringsEncoded(packet: seq<Byte>, pos: nat, strings: seq<seq<Byte>>)
    requires EncodeStrings(strings).Some? && At(packet, pos, EncodeStrings(strings).value)
    ensures DecodeStrings(packet, pos, pos + |EncodeStrings(strings).value|) == Ok(strings)
    decreases |strings|
  {
    hide At;
    AtFits(packet, pos, EncodeStrings(strings).value);
    if strings != [] {
      var text, rest := strings[0], EncodeStrings(strings[1..]).value;
      StringHead(packet, pos, text, rest);
      DecodeStringsEncoded(packet, pos + 1 + |text|, strings[1..]);
      assert strings == [text] + strings[1..];
    }
  }

  lemma AtFits(packet: seq<Byte>, pos: nat, bytes: seq<Byte>)
    requires At(packet, pos, bytes)
    ensures pos + |bytes| <= |packet|
  {
  }

  lemma StringHead(packet: seq<Byte>, pos: nat, text: seq<Byte>, rest: seq<Byte>)
    requires |text| <= 255 && At(packet, pos, [|text|] + (text + rest))
    ensures packet[pos] == |text| && pos + 1 + |text| <= |packet| && packet[pos + 1..pos + 1 + |text|] == text
    ensures At(packet, pos + 1 + |text|, rest)
  {
    AtSplit(packet, pos, [|text|], text + rest);
    AtIndex(packet, pos, [|text|], 0);
    AtSplit(packet, pos + 1, text, rest);
  }

  lemma DecodeDataEncoded(packet: seq<Byte>, r: Record, pos: nat)
    requires ValidRecord(r) && Typed(r) && EncodeData(r.data).Some? && At(packet, pos, EncodeData(r.data).value)
    ensures var end := pos + |EncodeData(r.data).value|;
            end <= |packet| && DecodeData(packet, r.rrType, pos, end) == Ok(Some(r.data))
  {
    hide At, NameAt, EncodeName, EncodeStrings, DecodeStrings, Utf8.Valid;
    AtFits(packet, pos, EncodeData(r.data).value);
    if r.data.Ptr? {
      DecodeEncodedName(packet, pos, r.data.name);
    } else {
      DecodeStringsEncoded(packet, pos, r.data.strings);
    }
  }

  /** The fixed fields after an owner name. */
  lemma FieldsAt(packet: seq<Byte>, at: nat, r: Record, data: seq<Byte>)
    requires ValidRecord(r) && |data| < 0x1_0000
    requires At(packet, at, U16(r.rrType) + (U16(r.class_) + (U32(r.ttl) + (U16(|data|) + data))))
    ensures Read16(packet, at) == Ok(r.rrType) && Read16(packet, at + 2) == Ok(r.class_)
    ensures Read32(packet, at + 4) == Ok(r.ttl) && Read16(packet, at + 8) == Ok(|data|)
    ensures At(packet, at + 10, data)
  {
    hide At, U16, U32, Read16, Read32, Utf8.Valid;
    var d4 := U16(|data|) + data;
    var d3 := U32(r.ttl) + d4;
    var d2 := U16(r.class_) + d3;
    AtSplit(packet, at, U16(r.rrType), d2);
    AtSplit(packet, at + 2, U16(r.class_), d3);
    AtSplit(packet, at + 4, U32(r.ttl), d4);
    AtSplit(packet, at + 8, U16(|data|), data);
    Read16At(packet, at, r.rrType);
    Read16At(packet, at + 2, r.class_);
    Read32At(packet, at + 4, r.ttl);
    Read16At(packet, at + 8, |data|);
  }

  lemma DecodeRecordEncoded(packet: seq<Byte>, pos: nat, r: Record)
    requires ValidRecord(r) && Typed(r) && EncodeRecord(r).Some? && At(packet, pos, EncodeRecord(r).value)
    ensures DecodeRecord(packet, pos) == Ok(Step(Some(r), pos + |EncodeRecord(r).value|))
  {
    hide At, NameAt, EncodeName, EncodeData, DecodeData, U16, U32, Read16, Read32, Utf8.Valid;
    var name, data := EncodeName(r.name).value, EncodeData(r.data).value;
    AtSplit(packet, pos, name, U16(r.rrType) + (U16(r.class_) + (U32(r.ttl) + (U16(|data|) + data))));
    DecodeEncodedName(packet, pos, r.name);
    var at := pos + |name|;
    FieldsAt(packet, at, r, data);
    DecodeDataEncoded(packet, r, at + 10);
  }

  lemma {:induction false} DecodeRecordsEncoded(packet: seq<Byte>, pos: nat, rs: seq<Record>)
    requires ValidRecords(rs) && AllTyped(rs) && EncodeRecords(rs).Some? && At(packet, pos, EncodeRecords(rs).value)
    ensures DecodeRecords(packet, pos, |rs|) == Ok(Step(rs, pos + |EncodeRecords(rs).value|))
    decreases |rs|
  {
    hide At, EncodeRecord, DecodeRecord, ValidRecord, Typed;
    if rs != [] {
      var first, rest := EncodeRecord(rs[0]).value, EncodeRecords(rs[1..]).value;
      AtSplit(packet, pos, first, rest);
      DecodeRecordEncoded(packet, pos, rs[0]);
      DecodeRecordsEncoded(packet, pos + |first|, rs[1..]);
      assert [rs[0]] + rs[1..] == rs;
    }
  }

  lemma QuestionAt(packet: seq<Byte>, pos: nat, q: Question, rest: seq<Byte>)
    requires ValidQuestion(q) && EncodeName(q.name).Some?
    requires At(packet, pos, EncodeName(q.name).value + (U16(q.qtype) + (U16(q.class_) + rest)))
    ensures NameAt(packet, pos).Ok? && Join(NameAt(packet, pos).value.labels) == q.name
    ensures var at := NameAt(packet, pos).value.next;
            && at == pos + |EncodeName(q.name).value|
            && Read16(packet, at) == Ok(q.qtype) && Read16(packet, at + 2) == Ok(q.class_)
            && At(packet, at + 4, rest)
  {
    hide At, NameAt, EncodeName, U16, Read16, Join, Utf8.Valid;
    var name := EncodeName(q.name).value;
    AtSplit(packet, pos, name, U16(q.qtype) + (U16(q.class_) + rest));
    DecodeEncodedName(packet, pos, q.name);
    var at := pos + |name|;
    AtSplit(packet, at, U16(q.qtype), U16(q.class_) + rest);
    AtSplit(packet, at + 2, U16(q.class_), rest);
    Read16At(packet, at, q.qtype);
    Read16At(packet, at + 2, q.class_);
  }

  lemma {:induction false} DecodeQuestionsEncoded(packet: seq<Byte>, pos: nat, qs: seq<Question>)
    requires (forall i | 0 <= i < |qs| :: ValidQuestion(qs[i])) && EncodeQuestions(qs).Some?
    requires At(packet, pos, EncodeQuestions(qs).value)
    ensures DecodeQuestions(packet, pos, |qs|) == Ok(Step(qs, pos + |EncodeQuestions(qs).value|))
    decreases |qs|
  {
    hide At, EncodeName, NameAt, Read16, U16, Join;
    if qs != [] {
      QuestionAt(packet, pos, qs[0], EncodeQuestions(qs[1..]).value);
      var at := NameAt(packet, pos).value.next;
      DecodeQuestionsEncoded(packet, at + 4, qs[1..]);
      assert [qs[0]] + qs[1..] == qs;
      assert qs[0] == Question(qs[0].name, qs[0].qtype, qs[0].class_);
    }
  }

  lemma HeaderAt(m: Message, packet: seq<Byte>)
    requires ValidMessage(m) && CountsFit(m) && |packet| >= 12 && At(packet, 0, Header(m))
    ensures Word(packet, 0) == m.id && Word(packet, 1) == m.flags && Word(packet, 2) == |m.questions|
    ensures Word(packet, 3) == |m.answers| && Word(packet, 4) == |m.authorities| && Word(packet, 5) == |m.additionals|
  {
    hide At, U16, Read16, ValidRecords, ValidQuestion;
    var h5 := U16(|m.additionals|);
    var h4 := U16(|m.authorities|) + h5;
    var h3 := U16(|m.answers|) + h4;
    var h2 := U16(|m.questions|) + h3;
    var h1 := U16(m.flags) + h2;
    AtSplit(packet, 0, U16(m.id), h1);
    AtSplit(packet, 2, U16(m.flags), h2);
    AtSplit(packet, 4, U16(|m.questions|), h3);
    AtSplit(packet, 6, U16(|m.answers|), h4);
    AtSplit(packet, 8, U16(|m.authorities|), h5);
    Read16At(packet, 0, m.id);
    Read16At(packet, 2, m.flags);
    Read16At(packet, 4, |m.questions|);
    Read16At(packet, 6, |m.answers|);
    Read16At(packet, 8, |m.authorities|);
    Read16At(packet, 10, |m.additionals|);
  }

  lemma DecodeSectionsEncoded(packet: seq<Byte>, pos: nat, m: Message)
    requires ValidMessage(m) && TypedMessage(m)
    requires EncodeRecords(m.answers).Some? && EncodeRecords(m.authorities).Some? && EncodeRecords(m.additionals).Some?
    requires var tail := EncodeRecords(m.answers).value + (EncodeRecords(m.authorities).value + EncodeRecords(m.additionals).value);
             At(packet, pos, tail) && pos + |tail| == |packet|
    ensures DecodeSections(packet, pos, |m.answers|, |m.authorities|, |m.additionals|)
            == Ok((m.answers, m.authorities, m.additionals))
  {
    hide At, EncodeRecords, DecodeRecords, ValidRecords, AllTyped;
    var a, u, d := EncodeRecords(m.answers).value, EncodeRecords(m.authorities).value, EncodeRecords(m.additionals).value;
    AtSplit(packet, pos, a, u + d);
    AtSplit(packet, pos + |a|, u, d);
    DecodeRecordsEncoded(packet, pos, m.answers);
    DecodeRecordsEncoded(packet, pos + |a|, m.authorities);
    DecodeRecordsEncoded(packet, pos + |a| + |u|, m.additionals);
  }

  /** Every well-typed message that encodes within the decoder's cap decodes to itself. */
  lemma DecodeEncode(m: Message)
    requires ValidMessage(m) && TypedMessage(m) && EncodeMessage(m).Some? && |EncodeMessage(m).value| <= MAX_DECODE_BYTES
    ensures Decode(EncodeMessage(m).value) == Ok(m)
  {
    hide At, EncodeRecords, DecodeRecords, EncodeQuestions, DecodeQuestions, DecodeSections, Word, TypedMessage, ValidRecords, ValidQuestion;
    var packet := EncodeMessage(m).value;
    var q := EncodeQuestions(m.questions).value;
    var tail := EncodeRecords(m.answers).value + (EncodeRecords(m.authorities).value + EncodeRecords(m.additionals).value);
    WholeAt(packet);
    AtSplit(packet, 0, Header(m), q + tail);
    AtSplit(packet, 12, q, tail);
    HeaderAt(m, packet);
    DecodeQuestionsEncoded(packet, 12, m.questions);
    DecodeSectionsEncoded(packet, 12 + |q|, m);
  }

  lemma WholeAt(packet: seq<Byte>)
    ensures At(packet, 0, packet)
  {
  }

  // ---- what the decoder returns is always well typed ----

  lemma {:induction false} DecodedRecordsTyped(packet: seq<Byte>, pos: nat, count: nat)
    ensures DecodeRecords(packet, pos, count).Ok? ==> AllTyped(DecodeRecords(packet, pos, count).value.item)
    decreases count
  {
    hide NameAt, DecodeStrings, Read16, Read32, Join;
    if count > 0 && DecodeRecord(packet, pos).Ok? {
      DecodedRecordsTyped(packet, DecodeRecord(packet, pos).value.next, count - 1);
    }
  }

  lemma DecodedTyped(packet: seq<Byte>)
    ensures Decode(packet).Ok? ==> TypedMessage(Decode(packet).value)
  {
    hide DecodeRecords, DecodeQuestions, AllTyped, Word;
    if |packet| >= 12 && DecodeQuestions(packet, 12, Word(packet, 2)).Ok? {
      var pos := DecodeQuestions(packet, 12, Word(packet, 2)).value.next;
      DecodedRecordsTyped(packet, pos, Word(packet, 3));
      if DecodeRecords(packet, pos, Word(packet, 3)).Ok? {
        var pos2 := DecodeRecords(packet, pos, Word(packet, 3)).value.next;
        DecodedRecordsTyped(packet, pos2, Word(packet, 4));
        if DecodeRecords(packet, pos2, Word(packet, 4)).Ok? {
          DecodedRecordsTyped(packet, DecodeRecords(packet, pos2, Word(packet, 4)).value.next, Word(packet, 5));
        }
      }
    }
  }

  /** An encodable message within the cap survives the round trip exactly when its records are well typed. */
  lemma DecodeEncodeIff(m: Message)
    requires ValidMessage(m) && EncodeMessage(m).Some? && |EncodeMessage(m).value| <= MAX_DECODE_BYTES
    ensures Decode(EncodeMessage(m).value) == Ok(m) <==> TypedMessage(m)
  {
    hide Decode, EncodeMessage, TypedMessage;
    DecodedTyped(EncodeMessage(m).value);
    if TypedMessage(m) {
      DecodeEncode(m);
    }
  }

  /** A record that says TXT and carries a name: the decoder reads the name as strings. */
  lemma MistypedRecord()
    ensures var m := Message(0, 0, [], [Record([], TYPE_TXT, 1, 0, Ptr([]))], [], []);
            && ValidMessage(m) && EncodeMessage(m).Some? && |EncodeMessage(m).value| <= MAX_DECODE_BYTES
            && Decode(EncodeMessage(m).value) != Ok(m)
  {
    var r := Record([], TYPE_TXT, 1, 0, Ptr([]));
    var m := Message(0, 0, [], [r], [], []);
    assert Utf8.Valid([]) && ValidRecord(r) && ValidRecords([r]) && [r][1..] == [];
    assert EncodeRecords([]) == Some([]) && EncodeRecords([r]).Some?;
    assert m.answers[0] == r && !Typed(r);
    DecodeEncodeIff(m);
  }
}
