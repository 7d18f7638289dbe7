/** DNS messages: records, sections, and their wire form. */
module DnsWire {
  import opened MachineTypes
  import opened Endian
  import opened DnsName
  import Utf8

  // ----- Messages -----

  datatype QType = A | Cname | Ptr | Txt | Aaaa | Opt | Any

  function TypeCode(t: QType): u16 {
    match t
    case A => 1 case Cname => 5 case Ptr => 12 case Txt => 16 case Aaaa => 28 case Opt => 41 case Any => 255
  }

  function TypeFrom(v: u16): Option<QType> {
    match v
    case 1 => Some(A) case 5 => Some(Cname) case 12 => Some(Ptr) case 16 => Some(Txt)
    case 28 => Some(Aaaa) case 41 => Some(Opt) case 255 => Some(Any)
    case _ => None
  }

  const CLASS_IN: u16 := 1

  datatype RData =
    | AData(ip: seq<byte>)
    | AaaaData(ip: seq<byte>)
    | PtrData(name: Name)
    | CnameData(name: Name)
    | TxtData(parts: seq<seq<byte>>)
    | OptData(udpPayloadSize: u16, extRcode: byte, ednsVersion: byte, flags: u16, options: seq<byte>)
    | OpaqueData(qtype: u16, raw: seq<byte>)

  datatype Record = Record(name: Name, qtype: QType, ttl: u32, data: RData)

  datatype Question = Question(name: Name, qtype: QType)

  datatype Header = Header(id: u16, flags: u16, qd: u16, an: u16, ns: u16, ar: u16)

  datatype Message = Message(
    header: Header, questions: seq<Question>, answers: seq<Record>, authorities: seq<Record>, additionals: seq<Record>)

  type Bytes = seq<byte>

  // ----- Writing -----

  /** The fixed fields between the owner name and the record data. */
  function RecordHead(qtype: u16, qclass: u16, ttl: u32, rdlen: u16): (r: Bytes)
    ensures |r| == 10
  {
    U16Bytes(qtype) + U16Bytes(qclass) + U32Bytes(ttl) + U16Bytes(rdlen)
  }

  function OptTtl(d: RData): u32
    requires d.OptData?
  {
    d.extRcode as int * 0x100_0000 + d.ednsVersion as int * 0x1_0000 + d.flags
  }

  function EncodeOpt(d: RData): Result<Bytes, DecodeError>
    requires d.OptData?
  {
    if |d.options| > 0xFFFF then Err(Oversize(OptOptions))
    else Ok([0] + RecordHead(TypeCode(Opt), d.udpPayloadSize, OptTtl(d), |d.options|) + d.options)
  }

  function EncodeParts(parts: seq<Bytes>): Result<Bytes, DecodeError> {
    if parts == [] then Ok([])
    else if |parts[0]| > 255 then Err(Oversize(TxtSegment))
    else
      var rest :- EncodeParts(parts[1..]);
      Ok([|parts[0]|] + parts[0] + rest)
  }

  /** meshbus calls the OPT arm unreachable; it is given an error here. */
  function EncodeRData(d: RData): Result<Bytes, DecodeError> {
    match d
    case AData(ip) => Ok(ip)
    case AaaaData(ip) => Ok(ip)
    case PtrData(n) => EncodeName(n)
    case CnameData(n) => EncodeName(n)
    case TxtData(parts) => EncodeParts(parts)
    case OptData(_, _, _, _, _) => Err(InvalidRData(TypeCode(Opt)))
    case OpaqueData(_, raw) => Ok(raw)
  }

  function EncodeRecord(rr: Record): Result<Bytes, DecodeError> {
    if rr.qtype == Opt then
      if !rr.data.OptData? then Err(InvalidRData(TypeCode(Opt))) else EncodeOpt(rr.data)
    else
      var name :- EncodeName(rr.name);
      var rdata :- EncodeRData(rr.data);
      if |rdata| > 0xFFFF then Err(Oversize(RecordData))
      else Ok(name + RecordHead(TypeCode(rr.qtype), CLASS_IN, rr.ttl, |rdata|) + rdata)
  }

  function EncodeRecords(rrs: seq<Record>): Result<Bytes, DecodeError> {
    if rrs == [] then Ok([])
    else
      var first :- EncodeRecord(rrs[0]);
      var rest :- EncodeRecords(rrs[1..]);
      Ok(first + rest)
  }

  function EncodeQuestion(q: Question): Result<Bytes, DecodeError> {
    var name :- EncodeName(q.name);
    Ok(name + U16Bytes(TypeCode(q.qtype)) + U16Bytes(CLASS_IN))
  }

  function EncodeQuestions(qs: seq<Question>): Result<Bytes, DecodeError> {
    if qs == [] then Ok([])
    else
      var first :- EncodeQuestion(qs[0]);
      var rest :- EncodeQuestions(qs[1..]);
      Ok(first + rest)
  }

  function EncodeHeader(id: u16, flags: u16, qd: u16, an: u16, ns: u16, ar: u16): (r: Bytes)
    ensures |r| == 12
  {
    U16Bytes(id) + U16Bytes(flags) + U16Bytes(qd) + U16Bytes(an) + U16Bytes(ns) + U16Bytes(ar)
  }

  predicate CountsFit(m: Message) {
    |m.questions| <= 0xFFFF && |m.answers| <= 0xFFFF && |m.authorities| <= 0xFFFF && |m.additionals| <= 0xFFFF
  }

  function EncodeMessage(m: Message): Result<Bytes, DecodeError> {
    if !CountsFit(m) then Err(Oversize(SectionCount))
    else
      var qs :- EncodeQuestions(m.questions);
      var rrs :- EncodeRecords(m.answers + m.authorities + m.additionals);
      Ok(EncodeHeader(m.header.id, m.header.flags, |m.questions|, |m.answers|, |m.authorities|, |m.additionals|)
         + qs + rrs)
  }

  // ----- Reading -----

  function DecodeParts(buf: Bytes, pos: nat, end: nat): Result<seq<Bytes>, DecodeError>
    requires pos <= end <= |buf|
    decreases end - pos
  {
    if pos == end then Ok([])
    else
      var len := buf[pos];
      if pos + 1 + len > end then Err(InvalidRData(TypeCode(Txt)))
      else if !Utf8.WellFormed(buf[pos + 1..pos + 1 + len]) then Err(NotUtf8)
      else
        var rest :- DecodeParts(buf, pos + 1 + len, end);
        Ok([buf[pos + 1..pos + 1 + len]] + rest)
  }

  function DecodeRData(buf: Bytes, pos: nat, len: nat, qtype: u16, qclass: u16, ttl: u32): Result<RData, DecodeError>
    requires pos + len <= |buf|
  {
    var slice := buf[pos..pos + len];
    match TypeFrom(qtype)
    case Some(A) => if len != 4 then Err(InvalidRData(qtype)) else Ok(AData(slice))
    case Some(Aaaa) => if len != 16 then Err(InvalidRData(qtype)) else Ok(AaaaData(slice))
    case Some(Ptr) =>
      var n :- DecodeName(buf, pos);
      Ok(PtrData(n.0))
    case Some(Cname) =>
      var n :- DecodeName(buf, pos);
      Ok(CnameData(n.0))
    case Some(Txt) =>
      var parts :- DecodeParts(buf, pos, pos + len);
      Ok(TxtData(parts))
    case Some(Opt) => Ok(OptData(qclass, ttl / 0x100_0000, ttl / 0x1_0000 % 256, ttl % 0x1_0000, slice))
    case _ => Ok(OpaqueData(qtype, slice))
  }

  function KnownType(v: u16): QType {
    match TypeFrom(v) case Some(t) => t case None => A
  }

  function DecodeRecord(buf: Bytes, pos: nat): Result<(Record, nat), DecodeError> {
    var n :- DecodeName(buf, pos);
    var at := n.1;
    if at + 2 > |buf| then Err(Truncated(at))
    else if at + 4 > |buf| then Err(Truncated(at + 2))
    else if at + 8 > |buf| then Err(Truncated(at + 4))
    else if at + 10 > |buf| then Err(Truncated(at + 8))
    else
      var qtype, qclass, ttl, len := U16At(buf, at), U16At(buf, at + 2), U32At(buf, at + 4), U16At(buf, at + 8);
      if at + 10 + len > |buf| then Err(Truncated(at + 10))
      else
        var data :- DecodeRData(buf, at + 10, len, qtype, qclass, ttl);
        Ok((Record(n.0, KnownType(qtype), ttl, data), at + 10 + len))
  }

  function DecodeRecords(buf: Bytes, pos: nat, count: nat): Result<(seq<Record>, nat), DecodeError>
    decreases count
  {
    if count == 0 then Ok(([], pos))
    else
      var first :- DecodeRecord(buf, pos);
      var rest :- DecodeRecords(buf, first.1, count - 1);
      Ok(([first.0] + rest.0, rest.1))
  }

  function DecodeQuestion(buf: Bytes, pos: nat): Result<(Question, nat), DecodeError> {
    var n :- DecodeName(buf, pos);
    var at := n.1;
    if at + 2 > |buf| then Err(Truncated(at))
    else if at + 4 > |buf| then Err(Truncated(at + 2))
    else Ok((Question(n.0, KnownType(U16At(buf, at))), at + 4))
  }

  function DecodeQuestions(buf: Bytes, pos: nat, count: nat): Result<(seq<Question>, nat), DecodeError>
    decreases count
  {
    if count == 0 then Ok(([], pos))
    else
      var first :- DecodeQuestion(buf, pos);
      var rest :- DecodeQuestions(buf, first.1, count - 1);
      Ok(([first.0] + rest.0, rest.1))
  }

  function DecodeMessage(buf: Bytes): Result<Message, DecodeError> {
    if |buf| < 12 then Err(Truncated(|buf| / 2 * 2))
    else
      var h := Header(U16At(buf, 0), U16At(buf, 2), U16At(buf, 4), U16At(buf, 6), U16At(buf, 8), U16At(buf, 10));
      var qs :- DecodeQuestions(buf, 12, h.qd);
      var an :- DecodeRecords(buf, qs.1, h.an);
      var ns :- DecodeRecords(buf, an.1, h.ns);
      var ar :- DecodeRecords(buf, ns.1, h.ar);
      Ok(Message(h, qs.0, an.0, ns.0, ar.0))
  }
}
