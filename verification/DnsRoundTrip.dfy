/** Decoding undoes encoding on canonical messages, and decoding always moves forward. */
module DnsRoundTrip {
  import opened MachineTypes
  import opened Arithmetic
  import opened Endian
  import opened Slices
  import opened DnsName
  import opened DnsWire
  import Utf8

  // ----- Canonical messages -----

  /** A name the wire form keeps: labels of at most 63, none of them empty. */
  predicate KeptName(n: Name) {
    EncodeName(n).Ok? && (n == ROOT || NoEmptyLabel(n))
  }

  /** Data that belongs to its record type. */
  predicate CanonicalData(qtype: QType, d: RData) {
    match qtype
    case A => d.AData? && |d.ip| == 4
    case Aaaa => d.AaaaData? && |d.ip| == 16
    case Ptr => d.PtrData? && KeptName(d.name)
    case Cname => d.CnameData? && KeptName(d.name)
    case Txt => d.TxtData? && forall k :: 0 <= k < |d.parts| ==> |d.parts[k]| <= 255 && Utf8.WellFormed(d.parts[k])
    case Opt => d.OptData?
    case Any => d.OpaqueData? && d.qtype == TypeCode(Any)
  }

  predicate CanonicalRecord(rr: Record) {
    && CanonicalData(rr.qtype, rr.data)
    && (if rr.qtype == Opt then rr.name == ROOT && rr.ttl == OptTtl(rr.data) && |rr.data.options| <= 0xFFFF
        else KeptName(rr.name) && EncodeRData(rr.data).Ok? && |EncodeRData(rr.data).value| <= 0xFFFF)
  }

  predicate CanonicalRecords(rrs: seq<Record>) {
    forall k :: 0 <= k < |rrs| ==> CanonicalRecord(rrs[k])
  }

  predicate CanonicalQuestions(qs: seq<Question>) {
    forall k :: 0 <= k < |qs| ==> KeptName(qs[k].name)
  }

  predicate CanonicalMessage(m: Message) {
    && CountsFit(m)
    && m.header.qd == |m.questions| && m.header.an == |m.answers|
    && m.header.ns == |m.authorities| && m.header.ar == |m.additionals|
    && CanonicalQuestions(m.questions) && CanonicalRecords(m.answers)
    && CanonicalRecords(m.authorities) && CanonicalRecords(m.additionals)
  }

  // ----- Record data -----

  lemma TypeRoundTrip(t: QType)
    ensures TypeFrom(TypeCode(t)) == Some(t)
  {
  }

  lemma PartStep(buf: Bytes, pos: nat, end: nat, part: Bytes, rest: seq<Bytes>)
    requires |part| <= 255 && Utf8.WellFormed(part) && At(buf, pos, [|part|] + part)
    requires pos + 1 + |part| <= end <= |buf| && DecodeParts(buf, pos + 1 + |part|, end) == Ok(rest)
    ensures DecodeParts(buf, pos, end) == Ok([part] + rest)
  {
    hide Utf8.WellFormed;
    AtSplit(buf, pos, [|part|], part);
    AtIndex(buf, pos, [|part|], 0);
  }

  lemma EmptyParts(buf: Bytes, pos: nat)
    requires pos <= |buf|
    ensures DecodeParts(buf, pos, pos) == Ok([])
  {
  }

  lemma {:induction false} PartsRoundTrip(buf: Bytes, pos: nat, parts: seq<Bytes>, bytes: Bytes)
    requires forall k :: 0 <= k < |parts| ==> |parts[k]| <= 255 && Utf8.WellFormed(parts[k])
    requires EncodeParts(parts) == Ok(bytes) && At(buf, pos, bytes)
    ensures DecodeParts(buf, pos, pos + |bytes|) == Ok(parts)
    decreases |parts|
  {
    hide DecodeParts, Utf8.WellFormed;
    if parts == [] {
      EmptyParts(buf, pos);
    } else {
      var head, rest := parts[0], EncodeParts(parts[1..]).value;
      AtSplit(buf, pos, [|head|] + head, rest);
      PartsRoundTrip(buf, pos + 1 + |head|, parts[1..], rest);
      PartStep(buf, pos, pos + |bytes|, head, parts[1..]);
      assert [head] + parts[1..] == parts;
    }
  }

  lemma KeptNameReads(buf: Bytes, pos: nat, n: Name)
    requires KeptName(n) && At(buf, pos, EncodeName(n).value)
    ensures DecodeName(buf, pos) == Ok((n, pos + |EncodeName(n).value|))
  {
    NameRoundTrip(buf, pos, n);
  }

  lemma NameDataRoundTrip(buf: Bytes, pos: nat, n: Name, len: nat, class_: u16, ttl: u32)
    requires DecodeName(buf, pos) == Ok((n, pos + len)) && pos + len <= |buf|
    ensures DecodeRData(buf, pos, len, TypeCode(Ptr), class_, ttl) == Ok(PtrData(n))
    ensures DecodeRData(buf, pos, len, TypeCode(Cname), class_, ttl) == Ok(CnameData(n))
  {
  }

  lemma TextDataRoundTrip(buf: Bytes, pos: nat, parts: seq<Bytes>, len: nat, class_: u16, ttl: u32)
    requires pos + len <= |buf| && DecodeParts(buf, pos, pos + len) == Ok(parts)
    ensures DecodeRData(buf, pos, len, TypeCode(Txt), class_, ttl) == Ok(TxtData(parts))
  {
  }

  lemma RawDataRoundTrip(buf: Bytes, pos: nat, raw: Bytes, class_: u16, ttl: u32)
    requires At(buf, pos, raw)
    ensures |raw| == 4 ==> DecodeRData(buf, pos, |raw|, TypeCode(A), class_, ttl) == Ok(AData(raw))
    ensures |raw| == 16 ==> DecodeRData(buf, pos, |raw|, TypeCode(Aaaa), class_, ttl) == Ok(AaaaData(raw))
    ensures DecodeRData(buf, pos, |raw|, TypeCode(Any), class_, ttl) == Ok(OpaqueData(TypeCode(Any), raw))
  {
  }

  lemma DataRoundTrip(buf: Bytes, pos: nat, qtype: QType, d: RData, bytes: Bytes, class_: u16, ttl: u32)
    requires qtype != Opt && CanonicalData(qtype, d) && EncodeRData(d) == Ok(bytes) && At(buf, pos, bytes)
    ensures DecodeRData(buf, pos, |bytes|, TypeCode(qtype), class_, ttl) == Ok(d)
  {
    hide KeptName, EncodeName, EncodeParts, DecodeName, DecodeParts, DecodeRData, Utf8.WellFormed;
    match d
    case PtrData(n) => KeptNameReads(buf, pos, n); NameDataRoundTrip(buf, pos, n, |bytes|, class_, ttl);
    case CnameData(n) => KeptNameReads(buf, pos, n); NameDataRoundTrip(buf, pos, n, |bytes|, class_, ttl);
    case TxtData(parts) =>
      PartsRoundTrip(buf, pos, parts, bytes);
      TextDataRoundTrip(buf, pos, parts, |bytes|, class_, ttl);
    case AData(raw) => RawDataRoundTrip(buf, pos, raw, class_, ttl);
    case AaaaData(raw) => RawDataRoundTrip(buf, pos, raw, class_, ttl);
    case OpaqueData(_, raw) => RawDataRoundTrip(buf, pos, raw, class_, ttl);
  }

  lemma OptBytes(ext: byte, version: byte, flags: u16)
    ensures
      var ttl := ext as int * 0x100_0000 + version as int * 0x1_0000 + flags;
      && ttl / 0x100_0000 == ext && ttl / 0x1_0000 % 256 == version
      && ttl / 256 % 256 == flags / 256 && ttl % 256 == flags % 256 && ttl % 0x1_0000 == flags
  {
    var high := ext as int * 256 + version;
    var ttl := high * 0x1_0000 + flags;
    DivModUnique(ttl, ext, version as int * 0x1_0000 + flags, 0x100_0000);
    DivModUnique(ttl, high, flags, 0x1_0000);
    DivModUnique(high, ext, version, 256);
    DivModUnique(ttl, high * 256 + flags / 256, flags % 256, 256);
    DivModUnique(high * 256 + flags / 256, high, flags / 256, 256);
  }

  lemma OptFields(d: RData)
    requires d.OptData?
    ensures
      var ttl := OptTtl(d);
      ttl / 0x100_0000 == d.extRcode && ttl / 0x1_0000 % 256 == d.ednsVersion && ttl % 0x1_0000 == d.flags
  {
    OptBytes(d.extRcode, d.ednsVersion, d.flags);
  }

  // ----- Records -----

  lemma HeadReads(buf: Bytes, at: nat, qtype: u16, qclass: u16, ttl: u32, rdlen: u16)
    requires At(buf, at, RecordHead(qtype, qclass, ttl, rdlen))
    ensures at + 10 <= |buf|
    ensures U16At(buf, at) == qtype && U16At(buf, at + 2) == qclass
    ensures U32At(buf, at + 4) == ttl && U16At(buf, at + 8) == rdlen
  {
    AtSplit(buf, at, U16Bytes(qtype) + U16Bytes(qclass) + U32Bytes(ttl), U16Bytes(rdlen));
    AtSplit(buf, at, U16Bytes(qtype) + U16Bytes(qclass), U32Bytes(ttl));
    AtSplit(buf, at, U16Bytes(qtype), U16Bytes(qclass));
    AtU16(buf, at, qtype);
    AtU16(buf, at + 2, qclass);
    AtU32(buf, at + 4, ttl);
    AtU16(buf, at + 8, rdlen);
  }

  /** A record is read from a readable name, its fixed fields and readable data. */
  lemma RecordReads(buf: Bytes, pos: nat, n: Name, at: nat, qtype: QType, qclass: u16, ttl: u32, rdlen: u16, d: RData)
    requires DecodeName(buf, pos) == Ok((n, at)) && At(buf, at, RecordHead(TypeCode(qtype), qclass, ttl, rdlen))
    requires at + 10 + rdlen <= |buf|
    requires DecodeRData(buf, at + 10, rdlen, TypeCode(qtype), qclass, ttl) == Ok(d)
    ensures DecodeRecord(buf, pos) == Ok((Record(n, qtype, ttl, d), at + 10 + rdlen))
  {
    hide At, DecodeName, DecodeRData, RecordHead, TypeCode, TypeFrom, U16At, U32At;
    HeadReads(buf, at, TypeCode(qtype), qclass, ttl, rdlen);
    TypeRoundTrip(qtype);
  }

  lemma RootReads(buf: Bytes, pos: nat)
    requires At(buf, pos, [0])
    ensures DecodeName(buf, pos) == Ok((ROOT, pos + 1))
  {
    AtIndex(buf, pos, [0], 0);
    FromAsciiKeeps(ROOT);
  }

  lemma OptDataReads(buf: Bytes, pos: nat, d: RData)
    requires d.OptData? && At(buf, pos, d.options)
    ensures DecodeRData(buf, pos, |d.options|, TypeCode(Opt), d.udpPayloadSize, OptTtl(d)) == Ok(d)
  {
    OptFields(d);
  }

  lemma OptRoundTrip(buf: Bytes, pos: nat, rr: Record, bytes: Bytes)
    requires rr.qtype == Opt && CanonicalRecord(rr) && EncodeRecord(rr) == Ok(bytes) && At(buf, pos, bytes)
    ensures DecodeRecord(buf, pos) == Ok((rr, pos + |bytes|))
  {
    hide DecodeName, DecodeRData, DecodeRecord, RecordHead;
    var d := rr.data;
    var head := RecordHead(TypeCode(Opt), d.udpPayloadSize, OptTtl(d), |d.options|);
    AtSplit(buf, pos, [0] + head, d.options);
    AtSplit(buf, pos, [0], head);
    RootReads(buf, pos);
    OptDataReads(buf, pos + 11, d);
    RecordReads(buf, pos, ROOT, pos + 1, Opt, d.udpPayloadSize, OptTtl(d), |d.options|, d);
  }

  lemma ThreeParts(buf: Bytes, pos: nat, a: Bytes, b: Bytes, c: Bytes)
    requires At(buf, pos, a + b + c)
    ensures At(buf, pos, a) && At(buf, pos + |a|, b) && At(buf, pos + |a| + |b|, c)
  {
    AtSplit(buf, pos, a + b, c);
    AtSplit(buf, pos, a, b);
  }

  lemma PlainRoundTrip(buf: Bytes, pos: nat, rr: Record, name: Bytes, rdata: Bytes)
    requires rr.qtype != Opt && KeptName(rr.name) && CanonicalData(rr.qtype, rr.data) && |rdata| <= 0xFFFF
    requires EncodeName(rr.name) == Ok(name) && EncodeRData(rr.data) == Ok(rdata)
    requires At(buf, pos, name) && At(buf, pos + |name|, RecordHead(TypeCode(rr.qtype), CLASS_IN, rr.ttl, |rdata|))
    requires At(buf, pos + |name| + 10, rdata)
    ensures DecodeRecord(buf, pos) == Ok((rr, pos + |name| + 10 + |rdata|))
  {
    hide DecodeName, DecodeRData, DecodeRecord, EncodeName, EncodeRData, KeptName, CanonicalData;
    KeptNameReads(buf, pos, rr.name);
    DataRoundTrip(buf, pos + |name| + 10, rr.qtype, rr.data, rdata, CLASS_IN, rr.ttl);
    RecordReads(buf, pos, rr.name, pos + |name|, rr.qtype, CLASS_IN, rr.ttl, |rdata|, rr.data);
  }

  lemma RecordRoundTrip(buf: Bytes, pos: nat, rr: Record, bytes: Bytes)
    requires CanonicalRecord(rr) && EncodeRecord(rr) == Ok(bytes) && At(buf, pos, bytes)
    ensures DecodeRecord(buf, pos) == Ok((rr, pos + |bytes|))
  {
    hide DecodeRecord, EncodeName, EncodeRData, KeptName, CanonicalData;
    if rr.qtype == Opt {
      OptRoundTrip(buf, pos, rr, bytes);
    } else {
      var name, rdata := EncodeName(rr.name).value, EncodeRData(rr.data).value;
      ThreeParts(buf, pos, name, RecordHead(TypeCode(rr.qtype), CLASS_IN, rr.ttl, |rdata|), rdata);
      PlainRoundTrip(buf, pos, rr, name, rdata);
    }
  }

  lemma CanonicalRecordEncodes(rr: Record)
    requires CanonicalRecord(rr)
    ensures EncodeRecord(rr).Ok?
  {
    hide EncodeName, EncodeRData;
  }

  lemma RecordsCons(buf: Bytes, pos: nat, first: Record, mid: nat, rest: seq<Record>, end: nat)
    requires DecodeRecord(buf, pos) == Ok((first, mid)) && DecodeRecords(buf, mid, |rest|) == Ok((rest, end))
    ensures DecodeRecords(buf, pos, |rest| + 1) == Ok(([first] + rest, end))
  {
    hide DecodeRecord;
  }

  lemma {:induction false} RecordsRoundTrip(buf: Bytes, pos: nat, rrs: seq<Record>, bytes: Bytes)
    requires CanonicalRecords(rrs) && EncodeRecords(rrs) == Ok(bytes) && At(buf, pos, bytes)
    ensures DecodeRecords(buf, pos, |rrs|) == Ok((rrs, pos + |bytes|))
    decreases |rrs|
  {
    hide CanonicalRecord, EncodeRecord, DecodeRecord, DecodeRecords;
    if rrs == [] {
      NoRecords(buf, pos);
    } else {
      var first, rest := EncodeRecord(rrs[0]).value, EncodeRecords(rrs[1..]).value;
      AtSplit(buf, pos, first, rest);
      RecordRoundTrip(buf, pos, rrs[0], first);
      RecordsRoundTrip(buf, pos + |first|, rrs[1..], rest);
      RecordsCons(buf, pos, rrs[0], pos + |first|, rrs[1..], pos + |bytes|);
      assert [rrs[0]] + rrs[1..] == rrs;
    }
  }

  lemma NoRecords(buf: Bytes, pos: nat)
    ensures DecodeRecords(buf, pos, 0) == Ok(([], pos))
  {
  }

  lemma {:induction false} RecordsEncode(rrs: seq<Record>)
    requires CanonicalRecords(rrs)
    ensures EncodeRecords(rrs).Ok?
  {
    hide CanonicalRecord, EncodeRecord;
    if rrs != [] {
      CanonicalRecordEncodes(rrs[0]);
      RecordsEncode(rrs[1..]);
    }
  }

  lemma {:induction false} RecordsAppend(a: seq<Record>, b: seq<Record>)
    requires EncodeRecords(a).Ok? && EncodeRecords(b).Ok?
    ensures EncodeRecords(a + b) == Ok(EncodeRecords(a).value + EncodeRecords(b).value)
    decreases |a|
  {
    hide EncodeRecord;
    if a == [] {
      assert a + b == b;
      assert [] + EncodeRecords(b).value == EncodeRecords(b).value;
    } else {
      RecordsAppend(a[1..], b);
      assert (a + b)[1..] == a[1..] + b;
      var first, rest, tail := EncodeRecord(a[0]).value, EncodeRecords(a[1..]).value, EncodeRecords(b).value;
      assert first + (rest + tail) == (first + rest) + tail;
    }
  }

  lemma ThreeSections(an: seq<Record>, ns: seq<Record>, ar: seq<Record>)
    requires CanonicalRecords(an) && CanonicalRecords(ns) && CanonicalRecords(ar)
    ensures EncodeRecords(an).Ok? && EncodeRecords(ns).Ok? && EncodeRecords(ar).Ok?
    ensures EncodeRecords(an + ns + ar)
            == Ok(EncodeRecords(an).value + EncodeRecords(ns).value + EncodeRecords(ar).value)
  {
    hide CanonicalRecords, EncodeRecords;
    RecordsEncode(an);
    RecordsEncode(ns);
    RecordsEncode(ar);
    RecordsAppend(an, ns);
    RecordsAppend(an + ns, ar);
  }

  // ----- Questions -----

  lemma QuestionRoundTrip(buf: Bytes, pos: nat, q: Question, bytes: Bytes)
    requires KeptName(q.name) && EncodeQuestion(q) == Ok(bytes) && At(buf, pos, bytes)
    ensures DecodeQuestion(buf, pos) == Ok((q, pos + |bytes|))
  {
    hide KeptName, EncodeName, DecodeName;
    var name := EncodeName(q.name).value;
    AtSplit(buf, pos, name + U16Bytes(TypeCode(q.qtype)), U16Bytes(CLASS_IN));
    AtSplit(buf, pos, name, U16Bytes(TypeCode(q.qtype)));
    KeptNameReads(buf, pos, q.name);
    AtU16(buf, pos + |name|, TypeCode(q.qtype));
    AtU16(buf, pos + |name| + 2, CLASS_IN);
    TypeRoundTrip(q.qtype);
  }

  lemma QuestionsCons(buf: Bytes, pos: nat, first: Question, mid: nat, rest: seq<Question>, end: nat)
    requires DecodeQuestion(buf, pos) == Ok((first, mid)) && DecodeQuestions(buf, mid, |rest|) == Ok((rest, end))
    ensures DecodeQuestions(buf, pos, |rest| + 1) == Ok(([first] + rest, end))
  {
    hide DecodeQuestion;
  }

  lemma {:induction false} QuestionsRoundTrip(buf: Bytes, pos: nat, qs: seq<Question>, bytes: Bytes)
    requires CanonicalQuestions(qs) && EncodeQuestions(qs) == Ok(bytes) && At(buf, pos, bytes)
    ensures DecodeQuestions(buf, pos, |qs|) == Ok((qs, pos + |bytes|))
    decreases |qs|
  {
    hide KeptName, EncodeQuestion, DecodeQuestion;
    if qs != [] {
      var first, rest := EncodeQuestion(qs[0]).value, EncodeQuestions(qs[1..]).value;
      AtSplit(buf, pos, first, rest);
      QuestionRoundTrip(buf, pos, qs[0], first);
      QuestionsRoundTrip(buf, pos + |first|, qs[1..], rest);
      QuestionsCons(buf, pos, qs[0], pos + |first|, qs[1..], pos + |bytes|);
      assert [qs[0]] + qs[1..] == qs;
    }
  }

  lemma QuestionEncodes(q: Question)
    requires KeptName(q.name)
    ensures EncodeQuestion(q).Ok?
  {
    hide EncodeName;
  }

  lemma {:induction false} QuestionsEncode(qs: seq<Question>)
    requires CanonicalQuestions(qs)
    ensures EncodeQuestions(qs).Ok?
  {
    hide KeptName, EncodeQuestion;
    if qs != [] {
      QuestionEncodes(qs[0]);
      QuestionsEncode(qs[1..]);
    }
  }

  // ----- Messages -----

  lemma HeaderReads(buf: Bytes, id: u16, flags: u16, qd: u16, an: u16, ns: u16, ar: u16)
    requires At(buf, 0, EncodeHeader(id, flags, qd, an, ns, ar))
    ensures |buf| >= 12
    ensures U16At(buf, 0) == id && U16At(buf, 2) == flags && U16At(buf, 4) == qd
    ensures U16At(buf, 6) == an && U16At(buf, 8) == ns && U16At(buf, 10) == ar
  {
    var h := EncodeHeader(id, flags, qd, an, ns, ar);
    assert forall i :: 0 <= i < 12 ==> buf[0..12][i] == buf[i];
    assert h[0..2] == U16Bytes(id) && h[2..4] == U16Bytes(flags) && h[4..6] == U16Bytes(qd);
    assert h[6..8] == U16Bytes(an) && h[8..10] == U16Bytes(ns) && h[10..12] == U16Bytes(ar);
    assert At(buf, 0, h[0..2]) && At(buf, 2, h[2..4]) && At(buf, 4, h[4..6]);
    assert At(buf, 6, h[6..8]) && At(buf, 8, h[8..10]) && At(buf, 10, h[10..12]);
    AtU16(buf, 0, id);
    AtU16(buf, 2, flags);
    AtU16(buf, 4, qd);
    AtU16(buf, 6, an);
    AtU16(buf, 8, ns);
    AtU16(buf, 10, ar);
  }

  lemma SectionsRoundTrip(buf: Bytes, pos: nat, an: seq<Record>, ns: seq<Record>, ar: seq<Record>,
                          a: Bytes, b: Bytes, c: Bytes)
    requires CanonicalRecords(an) && CanonicalRecords(ns) && CanonicalRecords(ar)
    requires EncodeRecords(an) == Ok(a) && EncodeRecords(ns) == Ok(b) && EncodeRecords(ar) == Ok(c)
    requires At(buf, pos, a + b + c)
    ensures DecodeRecords(buf, pos, |an|) == Ok((an, pos + |a|))
    ensures DecodeRecords(buf, pos + |a|, |ns|) == Ok((ns, pos + |a| + |b|))
    ensures DecodeRecords(buf, pos + |a| + |b|, |ar|) == Ok((ar, pos + |a| + |b| + |c|))
  {
    hide *;
    ThreeParts(buf, pos, a, b, c);
    RecordsRoundTrip(buf, pos, an, a);
    RecordsRoundTrip(buf, pos + |a|, ns, b);
    RecordsRoundTrip(buf, pos + |a| + |b|, ar, c);
  }

  lemma CanonicalMessageEncodes(m: Message)
    requires CanonicalMessage(m)
    ensures EncodeMessage(m).Ok?
  {
    hide CanonicalQuestions, CanonicalRecords, EncodeRecords, EncodeQuestions;
    QuestionsEncode(m.questions);
    ThreeSections(m.answers, m.authorities, m.additionals);
  }

  /** Every canonical message encodes, and decoding those bytes, followed by anything, gives it back. */
  lemma MessageRoundTrip(m: Message, tail: Bytes)
    requires CanonicalMessage(m)
    ensures EncodeMessage(m).Ok?
    ensures DecodeMessage(EncodeMessage(m).value + tail) == Ok(m)
  {
    hide CanonicalQuestions, CanonicalRecords, EncodeRecords, EncodeQuestions, EncodeHeader;
    hide DecodeRecords, DecodeQuestions;
    CanonicalMessageEncodes(m);
    var buf := EncodeMessage(m).value + tail;
    var head := EncodeHeader(m.header.id, m.header.flags, m.header.qd, m.header.an, m.header.ns, m.header.ar);
    var qs := EncodeQuestions(m.questions).value;
    var rrs := EncodeRecords(m.answers + m.authorities + m.additionals).value;
    assert At(buf, 0, head + qs + rrs);
    AtSplit(buf, 0, head + qs, rrs);
    AtSplit(buf, 0, head, qs);
    HeaderReads(buf, m.header.id, m.header.flags, m.header.qd, m.header.an, m.header.ns, m.header.ar);
    QuestionsRoundTrip(buf, 12, m.questions, qs);
    ThreeSections(m.answers, m.authorities, m.additionals);
    SectionsRoundTrip(buf, 12 + |qs|, m.answers, m.authorities, m.additionals, EncodeRecords(m.answers).value,
                      EncodeRecords(m.authorities).value, EncodeRecords(m.additionals).value);
  }

  // ----- Progress -----

  /** A decoded record starts where it was asked for and ends later, inside the buffer. */
  lemma RecordProgress(buf: Bytes, pos: nat)
    ensures DecodeRecord(buf, pos).Ok? ==> pos < DecodeRecord(buf, pos).value.1 <= |buf|
  {
    hide DecodeName, DecodeRData;
    NameProgress(buf, pos);
  }

  lemma {:induction false} RecordsProgress(buf: Bytes, pos: nat, count: nat)
    requires pos <= |buf|
    ensures DecodeRecords(buf, pos, count).Ok? ==>
              && pos + count <= DecodeRecords(buf, pos, count).value.1 <= |buf|
              && |DecodeRecords(buf, pos, count).value.0| == count
    decreases count
  {
    hide DecodeRecord;
    if count > 0 {
      RecordProgress(buf, pos);
      if DecodeRecord(buf, pos).Ok? { RecordsProgress(buf, DecodeRecord(buf, pos).value.1, count - 1); }
    }
  }
}
