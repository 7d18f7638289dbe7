/** Only canonical messages come back: the converse of the message round trip. */
module DnsCanonical {
  import opened MachineTypes
  import opened Endian
  import opened Slices
  import opened DnsName
  import opened DnsWire
  import opened DnsRoundTrip
  import Utf8

  // ----- Record data -----

  lemma {:induction false} DecodedPartsWellFormed(buf: Bytes, pos: nat, end: nat)
    requires pos <= end <= |buf| && DecodeParts(buf, pos, end).Ok?
    ensures forall p :: p in DecodeParts(buf, pos, end).value ==> |p| <= 255 && Utf8.WellFormed(p)
    decreases end - pos
  {
    hide Utf8.WellFormed;
    if pos < end { DecodedPartsWellFormed(buf, pos + 1 + buf[pos], end); }
  }

  lemma NameReturns(buf: Bytes, pos: nat, n: Name, name: Bytes)
    requires EncodeName(n) == Ok(name) && At(buf, pos, name)
    ensures
      var r := DecodeName(buf, pos);
      r.Ok? && r.value.1 == pos + |name| && (r.value.0 == n ==> KeptName(n))
  {
    hide DecodeName, EncodeName, Text, Labels;
    NameReadsBack(buf, pos, n);
    NameRoundTrip(buf, pos, n);
  }

  /** Data that reads back as itself belongs to its type. */
  lemma DataReturns(buf: Bytes, pos: nat, qtype: QType, d: RData, bytes: Bytes, class_: u16, ttl: u32)
    requires qtype != Opt && EncodeRData(d) == Ok(bytes) && At(buf, pos, bytes)
    requires DecodeRData(buf, pos, |bytes|, TypeCode(qtype), class_, ttl) == Ok(d)
    ensures CanonicalData(qtype, d)
  {
    hide KeptName, EncodeName, DecodeName, EncodeParts, DecodeParts, Utf8.WellFormed, Text, Labels;
    TypeRoundTrip(qtype);
    match qtype
    case A =>
    case Aaaa =>
    case Ptr => NameReturns(buf, pos, d.name, bytes);
    case Cname => NameReturns(buf, pos, d.name, bytes);
    case Txt => DecodedPartsWellFormed(buf, pos, pos + |bytes|);
    case Any =>
  }

  // ----- Records -----

  /** What a record that decodes is made of. */
  lemma RecordIs(buf: Bytes, pos: nat, n: Name, at: nat, qtype: QType, qclass: u16, ttl: u32, rdlen: u16)
    requires DecodeName(buf, pos) == Ok((n, at)) && At(buf, at, RecordHead(TypeCode(qtype), qclass, ttl, rdlen))
    requires at + 10 + rdlen <= |buf|
    ensures
      match DecodeRData(buf, at + 10, rdlen, TypeCode(qtype), qclass, ttl)
      case Ok(d) => DecodeRecord(buf, pos) == Ok((Record(n, qtype, ttl, d), at + 10 + rdlen))
      case Err(e) => DecodeRecord(buf, pos) == Err(e)
  {
    hide At, DecodeName, DecodeRData, RecordHead, TypeCode, TypeFrom, U16At, U32At;
    HeadReads(buf, at, TypeCode(qtype), qclass, ttl, rdlen);
    TypeRoundTrip(qtype);
  }

  lemma OptReturns(buf: Bytes, pos: nat, rr: Record, bytes: Bytes)
    requires rr.qtype == Opt && EncodeRecord(rr) == Ok(bytes) && At(buf, pos, bytes)
    requires DecodeRecord(buf, pos).Ok?
    ensures
      var (back, next) := DecodeRecord(buf, pos).value;
      next == pos + |bytes| && (back == rr ==> CanonicalRecord(rr))
  {
    hide DecodeName, DecodeRData, DecodeRecord, RecordHead;
    var d := rr.data;
    var head := RecordHead(TypeCode(Opt), d.udpPayloadSize, OptTtl(d), |d.options|);
    AtSplit(buf, pos, [0] + head, d.options);
    AtSplit(buf, pos, [0], head);
    RootReads(buf, pos);
    RecordIs(buf, pos, ROOT, pos + 1, Opt, d.udpPayloadSize, OptTtl(d), |d.options|);
  }

  lemma PlainReturns(buf: Bytes, pos: nat, rr: Record, name: Bytes, rdata: Bytes)
    requires rr.qtype != Opt && |rdata| <= 0xFFFF
    requires EncodeName(rr.name) == Ok(name) && EncodeRData(rr.data) == Ok(rdata)
    requires At(buf, pos, name) && At(buf, pos + |name|, RecordHead(TypeCode(rr.qtype), CLASS_IN, rr.ttl, |rdata|))
    requires At(buf, pos + |name| + 10, rdata)
    requires DecodeRecord(buf, pos).Ok?
    ensures
      var (back, next) := DecodeRecord(buf, pos).value;
      next == pos + |name| + 10 + |rdata| && (back == rr ==> CanonicalRecord(rr))
  {
    hide DecodeName, DecodeRData, DecodeRecord, EncodeName, EncodeRData, KeptName, CanonicalData, RecordHead;
    NameReturns(buf, pos, rr.name, name);
    RecordIs(buf, pos, DecodeName(buf, pos).value.0, pos + |name|, rr.qtype, CLASS_IN, rr.ttl, |rdata|);
    if DecodeRecord(buf, pos).value.0 == rr {
      DataReturns(buf, pos + |name| + 10, rr.qtype, rr.data, rdata, CLASS_IN, rr.ttl);
    }
  }

  /** A record that decodes ends where its bytes end, and is itself only if it is canonical. */
  lemma RecordReturns(buf: Bytes, pos: nat, rr: Record, bytes: Bytes)
    requires EncodeRecord(rr) == Ok(bytes) && At(buf, pos, bytes) && DecodeRecord(buf, pos).Ok?
    ensures
      var (back, next) := DecodeRecord(buf, pos).value;
      next == pos + |bytes| && (back == rr ==> CanonicalRecord(rr))
  {
    hide DecodeRecord, EncodeName, EncodeRData, CanonicalRecord;
    if rr.qtype == Opt {
      OptReturns(buf, pos, rr, bytes);
    } else {
      var name, rdata := EncodeName(rr.name).value, EncodeRData(rr.data).value;
      ThreeParts(buf, pos, name, RecordHead(TypeCode(rr.qtype), CLASS_IN, rr.ttl, |rdata|), rdata);
      PlainReturns(buf, pos, rr, name, rdata);
    }
  }

  lemma {:induction false} RecordsReturn(buf: Bytes, pos: nat, rrs: seq<Record>, bytes: Bytes)
    requires EncodeRecords(rrs) == Ok(bytes) && At(buf, pos, bytes)
    requires DecodeRecords(buf, pos, |rrs|).Ok? && DecodeRecords(buf, pos, |rrs|).value.0 == rrs
    ensures CanonicalRecords(rrs) && DecodeRecords(buf, pos, |rrs|).value.1 == pos + |bytes|
    decreases |rrs|
  {
    hide CanonicalRecord, EncodeRecord, DecodeRecord;
    if rrs != [] {
      var first, rest := EncodeRecord(rrs[0]).value, EncodeRecords(rrs[1..]).value;
      AtSplit(buf, pos, first, rest);
      RecordReturns(buf, pos, rrs[0], first);
      var back := DecodeRecord(buf, pos).value;
      var tail := DecodeRecords(buf, back.1, |rrs| - 1).value.0;
      assert ([back.0] + tail)[0] == rrs[0] && ([back.0] + tail)[1..] == tail == rrs[1..];
      RecordsReturn(buf, pos + |first|, rrs[1..], rest);
      CanonicalCons(rrs);
    }
  }

  lemma CanonicalCons(rrs: seq<Record>)
    requires rrs != [] && CanonicalRecord(rrs[0]) && CanonicalRecords(rrs[1..])
    ensures CanonicalRecords(rrs)
  {
    hide CanonicalRecord;
    forall k | 0 <= k < |rrs| ensures CanonicalRecord(rrs[k]) {
      if k > 0 { assert rrs[k] == rrs[1..][k - 1]; }
    }
  }

  lemma {:induction false} RecordsPieces(a: seq<Record>, b: seq<Record>)
    requires EncodeRecords(a + b).Ok?
    ensures EncodeRecords(a).Ok? && EncodeRecords(b).Ok?
    decreases |a|
  {
    hide EncodeRecord;
    if a == [] {
      assert a + b == b;
    } else {
      assert (a + b)[1..] == a[1..] + b;
      RecordsPieces(a[1..], b);
    }
  }

  // ----- Questions -----

  lemma QuestionReturns(buf: Bytes, pos: nat, q: Question, bytes: Bytes)
    requires EncodeQuestion(q) == Ok(bytes) && At(buf, pos, bytes)
    ensures
      var r := DecodeQuestion(buf, pos);
      r.Ok? && r.value.1 == pos + |bytes| && (r.value.0 == q ==> KeptName(q.name))
  {
    hide KeptName, EncodeName, DecodeName;
    var name := EncodeName(q.name).value;
    AtSplit(buf, pos, name + U16Bytes(TypeCode(q.qtype)), U16Bytes(CLASS_IN));
    AtSplit(buf, pos, name, U16Bytes(TypeCode(q.qtype)));
    NameReturns(buf, pos, q.name, name);
    AtU16(buf, pos + |name|, TypeCode(q.qtype));
  }

  lemma {:induction false} QuestionsReturn(buf: Bytes, pos: nat, qs: seq<Question>, bytes: Bytes)
    requires EncodeQuestions(qs) == Ok(bytes) && At(buf, pos, bytes)
    requires DecodeQuestions(buf, pos, |qs|).Ok? && DecodeQuestions(buf, pos, |qs|).value.0 == qs
    ensures CanonicalQuestions(qs) && DecodeQuestions(buf, pos, |qs|).value.1 == pos + |bytes|
    decreases |qs|
  {
    hide KeptName, EncodeQuestion, DecodeQuestion;
    if qs != [] {
      var first, rest := EncodeQuestion(qs[0]).value, EncodeQuestions(qs[1..]).value;
      AtSplit(buf, pos, first, rest);
      QuestionReturns(buf, pos, qs[0], first);
      var back := DecodeQuestion(buf, pos).value;
      var tail := DecodeQuestions(buf, back.1, |qs| - 1).value.0;
      assert ([back.0] + tail)[0] == qs[0] && ([back.0] + tail)[1..] == tail == qs[1..];
      QuestionsReturn(buf, pos + |first|, qs[1..], rest);
      forall k | 0 <= k < |qs| ensures KeptName(qs[k].name) {
        if k > 0 { assert qs[k] == qs[1..][k - 1]; }
      }
    }
  }

  // ----- Messages -----

  lemma SectionPieces(an: seq<Record>, ns: seq<Record>, ar: seq<Record>)
    requires EncodeRecords(an + ns + ar).Ok?
    ensures EncodeRecords(an).Ok? && EncodeRecords(ns).Ok? && EncodeRecords(ar).Ok?
    ensures EncodeRecords(an + ns + ar)
            == Ok(EncodeRecords(an).value + EncodeRecords(ns).value + EncodeRecords(ar).value)
  {
    hide EncodeRecords;
    RecordsPieces(an + ns, ar);
    RecordsPieces(an, ns);
    RecordsAppend(an, ns);
    RecordsAppend(an + ns, ar);
  }

  lemma SectionsReturn(buf: Bytes, pos: nat, an: seq<Record>, ns: seq<Record>, ar: seq<Record>,
                       a: Bytes, b: Bytes, c: Bytes, p1: nat, p2: nat, p3: nat)
    requires EncodeRecords(an) == Ok(a) && EncodeRecords(ns) == Ok(b) && EncodeRecords(ar) == Ok(c)
    requires At(buf, pos, a + b + c)
    requires DecodeRecords(buf, pos, |an|) == Ok((an, p1)) && DecodeRecords(buf, p1, |ns|) == Ok((ns, p2))
    requires DecodeRecords(buf, p2, |ar|) == Ok((ar, p3))
    ensures CanonicalRecords(an) && CanonicalRecords(ns) && CanonicalRecords(ar)
  {
    hide *;
    ThreeParts(buf, pos, a, b, c);
    RecordsReturn(buf, pos, an, a);
    RecordsReturn(buf, pos + |a|, ns, b);
    RecordsReturn(buf, pos + |a| + |b|, ar, c);
  }

  lemma OnlyCanonicalReturns(m: Message, tail: Bytes, bytes: Bytes)
    requires EncodeMessage(m) == Ok(bytes) && DecodeMessage(bytes + tail) == Ok(m)
    ensures CanonicalMessage(m)
  {
    hide CanonicalQuestions, CanonicalRecords, EncodeRecords, EncodeQuestions, EncodeHeader;
    hide DecodeRecords, DecodeQuestions;
    var buf := bytes + tail;
    var head := EncodeHeader(m.header.id, m.header.flags, |m.questions|, |m.answers|, |m.authorities|, |m.additionals|);
    var qs := EncodeQuestions(m.questions).value;
    var rrs := EncodeRecords(m.answers + m.authorities + m.additionals).value;
    assert At(buf, 0, head + qs + rrs);
    AtSplit(buf, 0, head + qs, rrs);
    AtSplit(buf, 0, head, qs);
    HeaderReads(buf, m.header.id, m.header.flags, |m.questions|, |m.answers|, |m.authorities|, |m.additionals|);
    QuestionsReturn(buf, 12, m.questions, qs);
    SectionPieces(m.answers, m.authorities, m.additionals);
    var p1 := DecodeRecords(buf, 12 + |qs|, |m.answers|).value.1;
    var p2 := DecodeRecords(buf, p1, |m.authorities|).value.1;
    var p3 := DecodeRecords(buf, p2, |m.additionals|).value.1;
    SectionsReturn(buf, 12 + |qs|, m.answers, m.authorities, m.additionals, EncodeRecords(m.answers).value,
                   EncodeRecords(m.authorities).value, EncodeRecords(m.additionals).value, p1, p2, p3);
  }

  /** An encodable message comes back from its own bytes, whatever follows them, if and only if it is canonical. */
  lemma MessageReturnsIff(m: Message, tail: Bytes)
    requires EncodeMessage(m).Ok?
    ensures DecodeMessage(EncodeMessage(m).value + tail) == Ok(m) <==> CanonicalMessage(m)
  {
    hide EncodeMessage, DecodeMessage, CanonicalMessage;
    if CanonicalMessage(m) {
      MessageRoundTrip(m, tail);
    }
    if DecodeMessage(EncodeMessage(m).value + tail) == Ok(m) {
      OnlyCanonicalReturns(m, tail, EncodeMessage(m).value);
    }
  }
}
