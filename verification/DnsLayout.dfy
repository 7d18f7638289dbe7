/**
 * DNS messages byte for byte: where every field stands (section 4.1 of RFC
 * 1035), stated against literal octets, for writing and for reading.
 */
module DnsLayout {
  import opened MachineTypes
  import opened Arithmetic
  import opened Ascii
  import opened Endian
  import opened Slices
  import opened DnsName
  import opened DnsWire
  import DnsRoundTrip
  import Utf8

  // ----- Numbers and type codes -----

  lemma NumberLayout(n: u16, m: u32)
    ensures U16Bytes(n) == [n / 256, n % 256]
    ensures U32Bytes(m) == [m / 0x100_0000, m / 0x1_0000 % 256, m / 256 % 256, m % 256]
  {
    var high, low := m / 0x1_0000, m % 0x1_0000;
    DivModUnique(m, high / 256, high % 256 * 0x1_0000 + low, 0x100_0000);
    DivModUnique(m, high * 256 + low / 256, low % 256, 256);
    DivModUnique(high * 256 + low / 256, high, low / 256, 256);
  }

  const CODES: map<QType, byte> := map[A := 1, Cname := 5, Ptr := 12, Txt := 16, Aaaa := 28, Opt := 41, Any := 255]

  lemma CodeOf(t: QType)
    ensures t in CODES && U16Bytes(TypeCode(t)) == [0, CODES[t]]
  {
  }

  lemma TypeOf(v: u16, t: QType)
    ensures TypeFrom(v) == Some(t) <==> CODES[t] == v
    ensures TypeFrom(v).None? <==> v !in CODES.Values
  {
    assert CODES.Values == {1, 5, 12, 16, 28, 41, 255} by {
      assert forall q :: q in CODES ==> CODES[q] in {1, 5, 12, 16, 28, 41, 255};
      assert CODES[A] == 1 && CODES[Cname] == 5 && CODES[Ptr] == 12 && CODES[Txt] == 16 && CODES[Aaaa] == 28;
      assert CODES[Opt] == 41 && CODES[Any] == 255;
    }
  }

  // ----- Names -----

  /** Each label behind its length. */
  function Prefixed(parts: seq<Bytes>): Bytes
    requires forall k :: 0 <= k < |parts| ==> |parts[k]| <= 255
  {
    if parts == [] then [] else [|parts[0]|] + parts[0] + Prefixed(parts[1..])
  }

  /** Labels of ASCII octets, none empty and none beyond 63. */
  predicate Plain(parts: seq<Bytes>) {
    forall k :: 0 <= k < |parts| ==> 0 < |parts[k]| <= 63 && IsPlain(parts[k])
  }

  predicate IsPlain(part: Bytes) {
    forall i :: 0 <= i < |part| ==> part[i] < 128
  }

  function LowerText(part: Bytes): (r: string)
    requires IsPlain(part)
    ensures |r| == |part|
  {
    seq(|part|, i requires 0 <= i < |part| => Lower(part[i] as char))
  }

  /** Every label in lower case and followed by a dot. */
  function Spelled(parts: seq<Bytes>): string
    requires Plain(parts)
  {
    if parts == [] then [] else LowerText(parts[0]) + "." + Spelled(parts[1..])
  }

  function NameText(parts: seq<Bytes>): string
    requires Plain(parts)
  {
    if parts == [] then "." else Spelled(parts)
  }

  lemma {:induction false} SpelledCanonical(parts: seq<Bytes>)
    requires Plain(parts)
    ensures parts != [] ==> Canonical(Spelled(parts))
    ensures Canonical(NameText(parts)) && FromAscii(NameText(parts)) == Ok(NameText(parts))
  {
    if parts != [] {
      SpelledCanonical(parts[1..]);
      var rest := Spelled(parts[1..]);
      assert forall i :: 0 <= i < |LowerText(parts[0])| ==>
        IsAscii(LowerText(parts[0])[i]) && Lower(LowerText(parts[0])[i]) == LowerText(parts[0])[i];
    }
    FromAsciiKeeps(NameText(parts));
  }

  lemma WalkOne(buf: Bytes, pos: nat, part: Bytes, hops: nat, rest: Walked)
    requires hops <= 16 && 0 < |part| <= 63 && IsPlain(part) && At(buf, pos, [|part|] + part)
    requires Walk(buf, pos + 1 + |part|, hops) == Ok(rest)
    ensures Walk(buf, pos, hops) == Ok(Walked(LowerText(part) + "." + rest.text, rest.next))
  {
    AtSplit(buf, pos, [|part|], part);
    AtIndex(buf, pos, [|part|], 0);
    forall i | 0 <= i < |part| ensures buf[pos + 1 + i] == part[i] { AtIndex(buf, pos + 1, part, i); }
    forall i | pos + 1 <= i < pos + 1 + |part| ensures buf[i] < 128 { assert buf[pos + 1 + (i - pos - 1)] < 128; }
    assert LabelAt(buf, pos + 1, |part|) == LowerText(part);
  }

  /** Labels on the wire spell out in lower case in front of whatever follows them. */
  lemma {:induction false} WalkLabels(buf: Bytes, pos: nat, parts: seq<Bytes>, hops: nat, rest: Walked)
    requires hops <= 16 && Plain(parts) && At(buf, pos, Prefixed(parts))
    requires Walk(buf, pos + |Prefixed(parts)|, hops) == Ok(rest)
    ensures Walk(buf, pos, hops) == Ok(Walked(Spelled(parts) + rest.text, rest.next))
    decreases |parts|
  {
    hide Walk;
    if parts == [] {
      assert [] + rest.text == rest.text;
    } else {
      var part, tail := parts[0], parts[1..];
      AtSplit(buf, pos, [|part|] + part, Prefixed(tail));
      WalkLabels(buf, pos + 1 + |part|, tail, hops, rest);
      WalkOne(buf, pos, part, hops, Walked(Spelled(tail) + rest.text, rest.next));
      assert LowerText(part) + "." + (Spelled(tail) + rest.text) == Spelled(parts) + rest.text;
    }
  }

  lemma WalkStops(buf: Bytes, pos: nat, hops: nat)
    requires hops <= 16 && At(buf, pos, [0])
    ensures Walk(buf, pos, hops) == Ok(Walked([], pos + 1))
  {
    AtIndex(buf, pos, [0], 0);
  }

  lemma WalkName(buf: Bytes, pos: nat, parts: seq<Bytes>, hops: nat)
    requires hops <= 16 && Plain(parts) && At(buf, pos, Prefixed(parts) + [0])
    ensures Walk(buf, pos, hops) == Ok(Walked(Spelled(parts), pos + |Prefixed(parts)| + 1))
  {
    hide Walk;
    AtSplit(buf, pos, Prefixed(parts), [0]);
    WalkStops(buf, pos + |Prefixed(parts)|, hops);
    WalkLabels(buf, pos, parts, hops, Walked([], pos + |Prefixed(parts)| + 1));
    assert Spelled(parts) + [] == Spelled(parts);
  }

  lemma NameFromWalk(buf: Bytes, pos: nat, parts: seq<Bytes>, next: nat)
    requires Plain(parts) && Walk(buf, pos, 0) == Ok(Walked(Spelled(parts), next))
    ensures Canonical(NameText(parts)) && DecodeName(buf, pos) == Ok((NameText(parts), next))
  {
    hide Walk;
    SpelledCanonical(parts);
  }

  /** Length-prefixed labels and a zero octet read as the labels, in lower case. */
  lemma NameReads(buf: Bytes, pos: nat, parts: seq<Bytes>)
    requires Plain(parts) && At(buf, pos, Prefixed(parts) + [0])
    ensures Canonical(NameText(parts))
    ensures DecodeName(buf, pos) == Ok((NameText(parts), pos + |Prefixed(parts)| + 1))
  {
    hide Walk, Prefixed, Spelled, DecodeName, NameText, Canonical;
    WalkName(buf, pos, parts, 0);
    NameFromWalk(buf, pos, parts, pos + |Prefixed(parts)| + 1);
  }

  function Pointer(to: nat): Bytes
    requires to < 0x4000
  {
    [0xC0 + to / 256, to % 256]
  }

  lemma WalkPointer(buf: Bytes, pos: nat, to: nat, hops: nat, text: string, next: nat)
    requires hops < 16 && to < pos && to < 0x4000 && At(buf, pos, Pointer(to))
    requires Walk(buf, to, hops + 1) == Ok(Walked(text, next))
    ensures Walk(buf, pos, hops) == Ok(Walked(text, pos + 2))
  {
    AtIndex(buf, pos, Pointer(to), 0);
    AtIndex(buf, pos, Pointer(to), 1);
  }

  /** Labels followed by a pointer to an earlier name read as the labels of both. */
  lemma CompressedReads(buf: Bytes, pos: nat, front: seq<Bytes>, to: nat, back: seq<Bytes>)
    requires Plain(front) && Plain(back) && to < pos + |Prefixed(front)| && to < 0x4000
    requires At(buf, pos, Prefixed(front) + Pointer(to)) && At(buf, to, Prefixed(back) + [0])
    ensures Plain(front + back) && Canonical(NameText(front + back))
    ensures DecodeName(buf, pos) == Ok((NameText(front + back), pos + |Prefixed(front)| + 2))
  {
    hide Walk, Prefixed, Spelled, DecodeName, NameText, At, Canonical;
    var mid := pos + |Prefixed(front)|;
    AtSplit(buf, pos, Prefixed(front), Pointer(to));
    WalkName(buf, to, back, 1);
    WalkPointer(buf, mid, to, 0, Spelled(back), to + |Prefixed(back)| + 1);
    WalkLabels(buf, pos, front, 0, Walked(Spelled(back), mid + 2));
    SpelledAppend(front, back);
    NameFromWalk(buf, pos, front + back, mid + 2);
  }

  lemma {:induction false} SpelledAppend(a: seq<Bytes>, b: seq<Bytes>)
    requires Plain(a) && Plain(b)
    ensures Plain(a + b) && Spelled(a + b) == Spelled(a) + Spelled(b)
  {
    if a == [] {
      assert a + b == b;
    } else {
      SpelledAppend(a[1..], b);
      assert (a + b)[1..] == a[1..] + b;
    }
  }

  /** Pointers that lead backwards from the first position to the last. */
  predicate Chain(buf: Bytes, ps: seq<nat>) {
    |ps| <= 1
    || (ps[1] < ps[0] && ps[1] < 0x4000 && At(buf, ps[0], Pointer(ps[1])) && Chain(buf, ps[1..]))
  }

  lemma {:induction false} WalkChain(buf: Bytes, ps: seq<nat>, parts: seq<Bytes>, hops: nat)
    requires ps != [] && Chain(buf, ps) && hops + |ps| - 1 <= 16 && Plain(parts)
    requires At(buf, ps[|ps| - 1], Prefixed(parts) + [0])
    ensures
      Walk(buf, ps[0], hops) ==
      Ok(Walked(Spelled(parts), if |ps| == 1 then ps[0] + |Prefixed(parts)| + 1 else ps[0] + 2))
    decreases |ps|
  {
    hide Walk;
    if |ps| == 1 {
      WalkName(buf, ps[0], parts, hops);
    } else {
      WalkChain(buf, ps[1..], parts, hops + 1);
      var w := Walk(buf, ps[1], hops + 1).value;
      WalkPointer(buf, ps[0], ps[1], hops, w.text, w.next);
    }
  }

  /** A name reached through one to sixteen backward pointers reads as its labels, and two octets are taken. */
  lemma ChainReads(buf: Bytes, ps: seq<nat>, parts: seq<Bytes>)
    requires 2 <= |ps| <= 17 && Chain(buf, ps) && Plain(parts) && At(buf, ps[|ps| - 1], Prefixed(parts) + [0])
    ensures Canonical(NameText(parts)) && DecodeName(buf, ps[0]) == Ok((NameText(parts), ps[0] + 2))
  {
    hide Walk, Chain;
    WalkChain(buf, ps, parts, 0);
    NameFromWalk(buf, ps[0], parts, ps[0] + 2);
  }

  lemma WalkPointerFails(buf: Bytes, pos: nat, to: nat, hops: nat)
    requires hops <= 16 && to < 0x4000 && At(buf, pos, Pointer(to))
    requires hops == 16 || to >= pos || Walk(buf, to, hops + 1) == Err(CompressionLoop)
    ensures Walk(buf, pos, hops) == Err(CompressionLoop)
  {
    AtIndex(buf, pos, Pointer(to), 0);
    AtIndex(buf, pos, Pointer(to), 1);
  }

  lemma {:induction false} WalkLongChain(buf: Bytes, ps: seq<nat>, hops: nat)
    requires Chain(buf, ps) && hops <= 16 && hops + |ps| - 1 >= 17
    ensures Walk(buf, ps[0], hops) == Err(CompressionLoop)
    decreases |ps|
  {
    hide Walk;
    if hops < 16 { WalkLongChain(buf, ps[1..], hops + 1); }
    WalkPointerFails(buf, ps[0], ps[1], hops);
  }

  /** Seventeen pointers are refused as a loop, even if they end in a name. */
  lemma LongChainIsRefused(buf: Bytes, ps: seq<nat>)
    requires 18 <= |ps| && Chain(buf, ps)
    ensures DecodeName(buf, ps[0]) == Err(CompressionLoop)
  {
    hide Walk, Chain;
    WalkLongChain(buf, ps, 0);
  }

  /** A pointer that does not lead backwards is refused as a loop. */
  lemma ForwardPointerIsRefused(buf: Bytes, pos: nat, to: nat)
    requires pos <= to < 0x4000 && At(buf, pos, Pointer(to))
    ensures DecodeName(buf, pos) == Err(CompressionLoop)
  {
    hide Walk;
    WalkPointerFails(buf, pos, to, 0);
  }

  function LabelOctets(labels: seq<string>): (r: seq<Bytes>)
    requires AllLabelText(labels)
    ensures |r| == |labels| && forall k :: 0 <= k < |r| ==> r[k] == LabelBytes(labels[k])
  {
    seq(|labels|, k requires 0 <= k < |labels| => LabelBytes(labels[k]))
  }

  lemma {:induction false} LabelsLayout(labels: seq<string>)
    requires Writable(labels)
    ensures Written(labels) == Prefixed(LabelOctets(labels)) + [0]
  {
    if labels != [] {
      LabelsLayout(labels[1..]);
      assert LabelOctets(labels)[1..] == LabelOctets(labels[1..]);
      var front := [|labels[0]|] + LabelBytes(labels[0]);
      assert front + (Prefixed(LabelOctets(labels[1..])) + [0]) == front + Prefixed(LabelOctets(labels[1..])) + [0];
    }
  }

  /** A written name is its labels, each behind its length, and a zero octet. */
  lemma NameLayout(n: Name)
    requires EncodeName(n).Ok?
    ensures Writable(Labels(n)) && EncodeName(n).value == Prefixed(LabelOctets(Labels(n))) + [0]
  {
    NameWritten(n);
    LabelsLayout(Labels(n));
  }

  // ----- Questions and records, written -----

  /** A question is its name, its type code and class 1. */
  lemma QuestionLayout(q: Question)
    requires EncodeQuestion(q).Ok?
    ensures EncodeName(q.name).Ok? && EncodeQuestion(q).value == EncodeName(q.name).value + [0, CODES[q.qtype], 0, 1]
  {
    CodeOf(q.qtype);
    var name := EncodeName(q.name).value;
    assert name + [0, CODES[q.qtype]] + [0, 1] == name + [0, CODES[q.qtype], 0, 1];
  }

  /** The ten octets between a record's name and its data. */
  function Fixed(hi: byte, lo: byte, qclass: u16, ttl: u32, len: u16): Bytes {
    [hi, lo, qclass / 256, qclass % 256, ttl / 0x100_0000, ttl / 0x1_0000 % 256, ttl / 256 % 256, ttl % 256,
     len / 256, len % 256]
  }

  lemma FixedLayout(qtype: u16, qclass: u16, ttl: u32, len: u16)
    ensures RecordHead(qtype, qclass, ttl, len) == Fixed(qtype / 256, qtype % 256, qclass, ttl, len)
  {
    NumberLayout(qtype, ttl);
    NumberLayout(qclass, ttl);
    NumberLayout(len, ttl);
  }

  /** A record is its name, type code, class 1, time to live, length and data, numbers high octet first. */
  lemma RecordLayout(rr: Record)
    requires rr.qtype != Opt && EncodeRecord(rr).Ok?
    ensures EncodeName(rr.name).Ok? && EncodeRData(rr.data).Ok? && |EncodeRData(rr.data).value| <= 0xFFFF
    ensures
      var rdata := EncodeRData(rr.data).value;
      EncodeRecord(rr).value == EncodeName(rr.name).value + Fixed(0, CODES[rr.qtype], 1, rr.ttl, |rdata|) + rdata
  {
    hide EncodeName, EncodeRData, RecordHead;
    var rdata := EncodeRData(rr.data).value;
    CodeOf(rr.qtype);
    FixedLayout(TypeCode(rr.qtype), CLASS_IN, rr.ttl, |rdata|);
  }

  lemma {:induction false} PartsLayout(parts: seq<Bytes>)
    ensures EncodeParts(parts).Ok? <==> forall k :: 0 <= k < |parts| ==> |parts[k]| <= 255
    ensures EncodeParts(parts).Ok? ==> EncodeParts(parts).value == Prefixed(parts)
  {
    if parts != [] { PartsLayout(parts[1..]); }
  }

  /** Record data: the address itself, a name, length-prefixed texts, or the raw octets. */
  lemma DataLayout(d: RData)
    requires !d.OptData? && EncodeRData(d).Ok?
    ensures d.AData? ==> EncodeRData(d).value == d.ip
    ensures d.AaaaData? ==> EncodeRData(d).value == d.ip
    ensures d.PtrData? ==> EncodeName(d.name) == EncodeRData(d)
    ensures d.CnameData? ==> EncodeName(d.name) == EncodeRData(d)
    ensures d.TxtData? ==>
      (forall k :: 0 <= k < |d.parts| ==> |d.parts[k]| <= 255) && EncodeRData(d).value == Prefixed(d.parts)
    ensures d.OpaqueData? ==> EncodeRData(d).value == d.raw
  {
    hide EncodeName;
    if d.TxtData? { PartsLayout(d.parts); }
  }

  /** The data can be written: names of labels up to 63, texts up to 255, and no OPT data. */
  predicate Writes(d: RData) {
    match d
    case PtrData(n) => forall l :: l in Labels(n) ==> |l| <= 63
    case CnameData(n) => forall l :: l in Labels(n) ==> |l| <= 63
    case TxtData(parts) => forall p :: p in parts ==> |p| <= 255
    case OptData(_, _, _, _, _) => false
    case _ => true
  }

  lemma NameEncodesIff(n: Name)
    ensures EncodeName(n).Ok? <==> forall l :: l in Labels(n) ==> |l| <= 63
  {
    LabelsAreText(n);
    EncodeLabelsOk(Labels(n));
  }

  lemma DataEncodesIff(d: RData)
    ensures EncodeRData(d).Ok? <==> Writes(d)
  {
    hide EncodeName;
    match d
    case PtrData(n) => NameEncodesIff(n);
    case CnameData(n) => NameEncodesIff(n);
    case TxtData(parts) => PartsLayout(parts);
    case _ =>
  }

  /** Exactly the records that fit the format are written. */
  lemma RecordEncodesIff(rr: Record)
    ensures
      EncodeRecord(rr).Ok? <==>
        if rr.qtype == Opt then rr.data.OptData? && |rr.data.options| <= 65535
        else
          && (forall l :: l in Labels(rr.name) ==> |l| <= 63)
          && Writes(rr.data) && EncodeRData(rr.data).Ok? && |EncodeRData(rr.data).value| <= 65535
  {
    hide EncodeName, EncodeRData, Writes, Labels;
    NameEncodesIff(rr.name);
    DataEncodesIff(rr.data);
  }

  lemma {:induction false} RecordsEncodeIff(rrs: seq<Record>)
    ensures EncodeRecords(rrs).Ok? <==> forall i :: 0 <= i < |rrs| ==> EncodeRecord(rrs[i]).Ok?
  {
    hide EncodeRecord;
    if rrs != [] { RecordsEncodeIff(rrs[1..]); }
  }

  lemma {:induction false} QuestionsEncodeIff(qs: seq<Question>)
    ensures EncodeQuestions(qs).Ok? <==> forall i :: 0 <= i < |qs| ==> EncodeName(qs[i].name).Ok?
  {
    hide EncodeName;
    if qs != [] { QuestionsEncodeIff(qs[1..]); }
  }

  /** A message is written if and only if no section has more than 65535 entries and every entry is written. */
  lemma MessageEncodesIff(m: Message)
    ensures
      EncodeMessage(m).Ok? <==>
        && |m.questions| <= 65535 && |m.answers| <= 65535 && |m.authorities| <= 65535 && |m.additionals| <= 65535
        && (forall q :: q in m.questions ==> EncodeName(q.name).Ok?)
        && forall rr :: rr in m.answers || rr in m.authorities || rr in m.additionals ==> EncodeRecord(rr).Ok?
  {
    hide EncodeName, EncodeRecord, EncodeQuestions, EncodeRecords;
    var all := m.answers + m.authorities + m.additionals;
    QuestionsEncodeIff(m.questions);
    RecordsEncodeIff(all);
    assert forall rr :: rr in all <==> rr in m.answers || rr in m.authorities || rr in m.additionals;
  }

  /** An OPT record: root name, type 41, then payload size, extended code, version, flags and options. */
  lemma OptLayout(rr: Record)
    requires rr.qtype == Opt && EncodeRecord(rr).Ok?
    ensures rr.data.OptData? && |rr.data.options| <= 0xFFFF
    ensures
      var d := rr.data;
      EncodeRecord(rr).value ==
      [0, 0, 41, d.udpPayloadSize / 256, d.udpPayloadSize % 256, d.extRcode, d.ednsVersion,
       d.flags / 256, d.flags % 256, |d.options| / 256, |d.options| % 256] + d.options
  {
    var d := rr.data;
    FixedLayout(41, d.udpPayloadSize, OptTtl(d), |d.options|);
    DnsRoundTrip.OptBytes(d.extRcode, d.ednsVersion, d.flags);
  }

  /** Octets 0 to 11: id, flags and the four counts, each high octet first. */
  lemma HeaderLayout(m: Message)
    requires EncodeMessage(m).Ok?
    ensures
      var b := EncodeMessage(m).value;
      && |b| >= 12 && b[0] == m.header.id / 256 && b[1] == m.header.id % 256
      && b[2] == m.header.flags / 256 && b[3] == m.header.flags % 256
      && b[4] == |m.questions| / 256 && b[5] == |m.questions| % 256
      && b[6] == |m.answers| / 256 && b[7] == |m.answers| % 256
      && b[8] == |m.authorities| / 256 && b[9] == |m.authorities| % 256
      && b[10] == |m.additionals| / 256 && b[11] == |m.additionals| % 256
      && EncodeQuestions(m.questions).Ok? && EncodeRecords(m.answers + m.authorities + m.additionals).Ok?
      && b[12..] == EncodeQuestions(m.questions).value
                    + EncodeRecords(m.answers + m.authorities + m.additionals).value
  {
    hide EncodeQuestions, EncodeRecords;
    var h := EncodeHeader(m.header.id, m.header.flags, |m.questions|, |m.answers|, |m.authorities|, |m.additionals|);
    var qs, rrs := EncodeQuestions(m.questions).value, EncodeRecords(m.answers + m.authorities + m.additionals).value;
    assert (h + qs + rrs)[..12] == h;
    assert (h + qs + rrs)[12..] == qs + rrs;
  }

  // ----- Questions and records, read -----

  /** The ten octets stand at `at` and are taken apart, high octet first. */
  lemma FixedReads(buf: Bytes, at: nat, qtype: u16, qclass: u16, ttl: u32, len: u16)
    requires At(buf, at, Fixed(qtype / 256, qtype % 256, qclass, ttl, len))
    ensures at + 10 <= |buf| && U16At(buf, at) == qtype && U16At(buf, at + 2) == qclass
    ensures U32At(buf, at + 4) == ttl && U16At(buf, at + 8) == len
  {
    hide Fixed, RecordHead;
    FixedLayout(qtype, qclass, ttl, len);
    DnsRoundTrip.HeadReads(buf, at, qtype, qclass, ttl, len);
  }

  /** The type a code stands for; a code the codec does not know is kept as type A. */
  function Known(code: u16): QType {
    if code == 5 then Cname else if code == 12 then Ptr else if code == 16 then Txt
    else if code == 28 then Aaaa else if code == 41 then Opt else if code == 255 then Any else A
  }

  /** A question is read from its name, a type code and a class, whatever the class. */
  lemma QuestionReads(buf: Bytes, pos: nat, parts: seq<Bytes>, code: u16, qclass: u16)
    requires Plain(parts)
    requires At(buf, pos, Prefixed(parts) + [0] + [code / 256, code % 256, qclass / 256, qclass % 256])
    ensures Canonical(NameText(parts))
    ensures
      DecodeQuestion(buf, pos) == Ok((Question(NameText(parts), Known(code)), pos + |Prefixed(parts)| + 5))
  {
    hide DecodeName, Prefixed, NameText;
    var at := pos + |Prefixed(parts)| + 1;
    var tail: Bytes := [code / 256, code % 256, qclass / 256, qclass % 256];
    AtSplit(buf, pos, Prefixed(parts) + [0], tail);
    NameReads(buf, pos, parts);
    AtIndex(buf, at, tail, 0);
    AtIndex(buf, at, tail, 1);
  }

  /** A record is read from its name, the ten octets and as many octets of data as they say. */
  lemma RecordReads(buf: Bytes, pos: nat, parts: seq<Bytes>, code: u16, qclass: u16, ttl: u32, len: u16)
    requires Plain(parts)
    requires At(buf, pos, Prefixed(parts) + [0] + Fixed(code / 256, code % 256, qclass, ttl, len))
    ensures Canonical(NameText(parts))
    ensures
      var at := pos + |Prefixed(parts)| + 11;
      DecodeRecord(buf, pos) ==
      if at + len > |buf| then Err(Truncated(at))
      else match DecodeRData(buf, at, len, code, qclass, ttl)
           case Err(e) => Err(e)
           case Ok(d) => Ok((Record(NameText(parts), Known(code), ttl, d), at + len))
  {
    hide DecodeName, Prefixed, NameText, DecodeRData, Fixed;
    var at := pos + |Prefixed(parts)| + 1;
    AtSplit(buf, pos, Prefixed(parts) + [0], Fixed(code / 256, code % 256, qclass, ttl, len));
    NameReads(buf, pos, parts);
    FixedReads(buf, at, code, qclass, ttl, len);
  }

  /** Code 1 holds four octets of address, 28 sixteen; 41 splits class and time to live; unknown codes stay raw. */
  lemma DataReads(buf: Bytes, pos: nat, len: u16, code: u16, qclass: u16, ttl: u32)
    requires pos + len <= |buf|
    ensures
      var r, raw := DecodeRData(buf, pos, len, code, qclass, ttl), buf[pos..pos + len];
      && (code == 1 ==> r == if len == 4 then Ok(AData(raw)) else Err(InvalidRData(1)))
      && (code == 28 ==> r == if len == 16 then Ok(AaaaData(raw)) else Err(InvalidRData(28)))
      && (code == 41 ==>
            r == Ok(OptData(qclass, ttl / 0x100_0000, ttl / 0x1_0000 % 256, ttl % 0x1_0000, raw)))
      && (code !in {1, 5, 12, 16, 28, 41} ==> r == Ok(OpaqueData(code, raw)))
  {
  }

  /** Codes 5 and 12 hold a name, which may point back into the message. */
  lemma NameDataReads(buf: Bytes, pos: nat, len: u16, qclass: u16, ttl: u32, n: Name, next: nat)
    requires pos + len <= |buf| && DecodeName(buf, pos) == Ok((n, next))
    ensures DecodeRData(buf, pos, len, 5, qclass, ttl) == Ok(CnameData(n))
    ensures DecodeRData(buf, pos, len, 12, qclass, ttl) == Ok(PtrData(n))
  {
    hide DecodeName;
  }

  /** Code 16 holds texts, each behind its length. */
  lemma TextDataReads(buf: Bytes, pos: nat, parts: seq<Bytes>, qclass: u16, ttl: u32)
    requires forall k :: 0 <= k < |parts| ==> |parts[k]| <= 255 && Utf8.WellFormed(parts[k])
    requires At(buf, pos, Prefixed(parts))
    ensures DecodeRData(buf, pos, |Prefixed(parts)|, 16, qclass, ttl) == Ok(TxtData(parts))
  {
    PartsLayout(parts);
    DnsRoundTrip.PartsRoundTrip(buf, pos, parts, Prefixed(parts));
  }

  lemma {:induction false} CountsRead(buf: Bytes, pos: nat, count: nat)
    ensures DecodeRecords(buf, pos, count).Ok? ==> |DecodeRecords(buf, pos, count).value.0| == count
    ensures DecodeQuestions(buf, pos, count).Ok? ==> |DecodeQuestions(buf, pos, count).value.0| == count
    decreases count
  {
    hide DecodeRecord, DecodeQuestion;
    if count > 0 {
      if DecodeRecord(buf, pos).Ok? { CountsRead(buf, DecodeRecord(buf, pos).value.1, count - 1); }
      if DecodeQuestion(buf, pos).Ok? { CountsRead(buf, DecodeQuestion(buf, pos).value.1, count - 1); }
    }
  }

  /** A decoded message carries the header of the first twelve octets, and as many entries as it counts. */
  lemma HeaderReads(buf: Bytes)
    ensures |buf| < 12 ==> DecodeMessage(buf).Err?
    ensures DecodeMessage(buf).Ok? ==>
      var m := DecodeMessage(buf).value;
      && m.header.id == buf[0] as int * 256 + buf[1] && m.header.flags == buf[2] as int * 256 + buf[3]
      && m.header.qd == |m.questions| == buf[4] as int * 256 + buf[5]
      && m.header.an == |m.answers| == buf[6] as int * 256 + buf[7]
      && m.header.ns == |m.authorities| == buf[8] as int * 256 + buf[9]
      && m.header.ar == |m.additionals| == buf[10] as int * 256 + buf[11]
  {
    hide DecodeQuestions, DecodeRecords;
    if DecodeMessage(buf).Ok? {
      var m := DecodeMessage(buf).value;
      CountsRead(buf, 12, m.header.qd);
      var an := DecodeQuestions(buf, 12, m.header.qd).value.1;
      CountsRead(buf, an, m.header.an);
      var ns := DecodeRecords(buf, an, m.header.an).value.1;
      CountsRead(buf, ns, m.header.ns);
      CountsRead(buf, DecodeRecords(buf, ns, m.header.ns).value.1, m.header.ar);
    }
  }
}
