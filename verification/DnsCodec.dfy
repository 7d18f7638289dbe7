/** The DNS codec as it runs: a cursor that advances, and a buffer that is appended to and patched. */
module DnsCodec {
  import opened MachineTypes
  import opened Ascii
  import opened Endian
  import opened Splitting
  import opened DnsName
  import opened DnsWire
  import Utf8

  /** The whole walk is the text gathered so far, then the rest of the walk. */
  ghost predicate Resumes(whole: Result<Walked, DecodeError>, out: string, next: Option<nat>,
                          rest: Result<Walked, DecodeError>) {
    match rest
    case Err(e) => whole == Err(e)
    case Ok(w) => whole == Ok(Walked(out + w.text, if next.Some? then next.value else w.next))
  }

  lemma WalkStep(buf: Bytes, start: nat, out: string, next: Option<nat>, pos: nat, jumps: nat)
    requires jumps <= MAX_POINTER_HOPS && pos < |buf| && 0 < buf[pos] < 0x40 && pos + 1 + buf[pos] <= |buf|
    requires forall i :: pos + 1 <= i < pos + 1 + buf[pos] ==> buf[i] < 128
    requires Resumes(Walk(buf, start, 0), out, next, Walk(buf, pos, jumps))
    ensures Resumes(Walk(buf, start, 0), out + LabelAt(buf, pos + 1, buf[pos]) + ".", next,
                    Walk(buf, pos + 1 + buf[pos], jumps))
  {
    var rest := Walk(buf, pos + 1 + buf[pos], jumps);
    if rest.Ok? {
      var l := LabelAt(buf, pos + 1, buf[pos]);
      assert out + (l + "." + rest.value.text) == (out + l + ".") + rest.value.text;
    }
  }

  lemma WalkJump(buf: Bytes, start: nat, out: string, next: Option<nat>, pos: nat, jumps: nat, ptr: nat)
    requires jumps < MAX_POINTER_HOPS && pos + 1 < |buf| && buf[pos] >= 0xC0
    requires ptr == (buf[pos] as int - 0xC0) * 256 + buf[pos + 1] && ptr < pos
    requires Resumes(Walk(buf, start, 0), out, next, Walk(buf, pos, jumps))
    ensures Resumes(Walk(buf, start, 0), out, if next.Some? then next else Some(pos + 2), Walk(buf, ptr, jumps + 1))
  {
  }

  lemma WalkStarts(buf: Bytes, start: nat)
    ensures Resumes(Walk(buf, start, 0), [], None, Walk(buf, start, 0))
  {
    var w := Walk(buf, start, 0);
    if w.Ok? { assert [] + w.value.text == w.value.text; }
  }

  /** Pushes the bytes of one label, lower-cased, or stops at the first one that is not ASCII. */
  method ReadLabel(buf: Bytes, pos: nat, len: nat) returns (r: Option<string>)
    requires pos + len <= |buf|
    ensures r.Some? <==> forall i :: pos <= i < pos + len ==> buf[i] < 128
    ensures r.Some? ==> r.value == LabelAt(buf, pos, len)
  {
    var out := [];
    var i := 0;
    while i < len
      invariant 0 <= i <= len
      invariant forall j :: pos <= j < pos + i ==> buf[j] < 128
      invariant out == LabelAt(buf, pos, i)
    {
      var b := buf[pos + i];
      if b >= 128 {
        return None;
      }
      out := out + [Lower(b as char)];
      i := i + 1;
    }
    return Some(out);
  }

  method ReadParts(buf: Bytes, start: nat, len: nat) returns (r: Result<seq<Bytes>, DecodeError>)
    requires start + len <= |buf|
    ensures r == DecodeParts(buf, start, start + len)
  {
    hide Utf8.WellFormed;
    var parts, i := [], 0;
    ghost var whole := DecodeParts(buf, start, start + len);
    assert whole.Ok? ==> parts + whole.value == whole.value;
    while i < len
      invariant 0 <= i <= len
      invariant var rest := DecodeParts(buf, start + i, start + len);
                whole == if rest.Ok? then Ok(parts + rest.value) else rest
    {
      ghost var rest := DecodeParts(buf, start + i, start + len);
      var l := buf[start + i];
      if i + 1 + l > len {
        return Err(InvalidRData(TypeCode(Txt)));
      }
      var part := buf[start + i + 1..start + i + 1 + l];
      if !Utf8.WellFormed(part) {
        return Err(NotUtf8);
      }
      ghost var after := DecodeParts(buf, start + i + 1 + l, start + len);
      assert after.Ok? ==> parts + ([part] + after.value) == (parts + [part]) + after.value;
      parts := parts + [part];
      i := i + 1 + l;
    }
    assert parts + [] == parts;
    r := Ok(parts);
  }

  class Cursor {
    var pos: nat

    constructor (pos: nat)
      ensures this.pos == pos
    {
      this.pos := pos;
    }

    method U16(buf: Bytes) returns (r: Result<u16, DecodeError>)
      modifies this
      ensures if old(pos) + 2 > |buf| then r == Err(Truncated(old(pos))) && pos == old(pos)
              else r == Ok(U16At(buf, old(pos))) && pos == old(pos) + 2
    {
      if pos + 2 > |buf| {
        return Err(Truncated(pos));
      }
      r := Ok(U16At(buf, pos));
      pos := pos + 2;
    }

    method U32(buf: Bytes) returns (r: Result<u32, DecodeError>)
      modifies this
      ensures if old(pos) + 4 > |buf| then r == Err(Truncated(old(pos))) && pos == old(pos)
              else r == Ok(U32At(buf, old(pos))) && pos == old(pos) + 4
    {
      if pos + 4 > |buf| {
        return Err(Truncated(pos));
      }
      r := Ok(U32At(buf, pos));
      pos := pos + 4;
    }

    /** On failure the cursor may stand just after the first pointer followed. */
    method Name(buf: Bytes) returns (r: Result<Name, DecodeError>)
      modifies this
      ensures match DecodeName(buf, old(pos))
              case Ok((n, next)) => r == Ok(n) && pos == next
              case Err(e) => r == Err(e)
      ensures pos >= old(pos)
    {
      var out, jumps, p: nat, followed := [], 0, pos, false;
      ghost var start := pos;
      ghost var whole := Walk(buf, start, 0);
      WalkStarts(buf, start);
      while true
        invariant jumps <= MAX_POINTER_HOPS
        invariant if followed then pos >= start else pos == start && p >= start
        invariant Resumes(whole, out, if followed then Some(pos) else None, Walk(buf, p, jumps))
        decreases MAX_POINTER_HOPS - jumps, |buf| - p
      {
        if p >= |buf| {
          return Err(Truncated(p));
        }
        var len := buf[p];
        if len == 0 {
          if !followed {
            pos := p + 1;
          }
          break;
        }
        if len >= 0xC0 {
          if p + 1 >= |buf| {
            return Err(Truncated(p));
          }
          var ptr := (len as int - 0xC0) * 256 + buf[p + 1];
          ghost var next := if followed then Some(pos) else None;
          if !followed {
            pos := p + 2;
            followed := true;
          }
          if jumps == MAX_POINTER_HOPS {
            return Err(CompressionLoop);
          }
          jumps := jumps + 1;
          if ptr >= p {
            return Err(CompressionLoop);
          }
          WalkJump(buf, start, out, next, p, jumps - 1, ptr);
          p := ptr;
          continue;
        }
        if len >= 0x40 {
          return Err(InvalidLabel(len));
        }
        if p + 1 + len > |buf| {
          return Err(Truncated(p));
        }
        var l := ReadLabel(buf, p + 1, len);
        if l.None? {
          return Err(NotUtf8);
        }
        WalkStep(buf, start, out, if followed then Some(pos) else None, p, jumps);
        out := out + l.value + ".";
        p := p + 1 + len;
      }
      assert out + [] == out;
      if out == [] {
        out := ".";
      }
      r := FromAscii(out);
    }

    method RData(buf: Bytes, len: nat, qtype: u16, qclass: u16, ttl: u32) returns (r: Result<RData, DecodeError>)
      requires pos + len <= |buf|
      ensures r == DecodeRData(buf, pos, len, qtype, qclass, ttl)
    {
      hide DecodeName, DecodeParts;
      var slice := buf[pos..pos + len];
      match TypeFrom(qtype)
      case Some(A) => r := if len != 4 then Err(InvalidRData(qtype)) else Ok(AData(slice));
      case Some(Aaaa) => r := if len != 16 then Err(InvalidRData(qtype)) else Ok(AaaaData(slice));
      case Some(Ptr) =>
        var sub := new Cursor(pos);
        var n :- sub.Name(buf);
        r := Ok(PtrData(n));
      case Some(Cname) =>
        var sub := new Cursor(pos);
        var n :- sub.Name(buf);
        r := Ok(CnameData(n));
      case Some(Txt) =>
        var parts :- ReadParts(buf, pos, len);
        r := Ok(TxtData(parts));
      case Some(Opt) =>
        r := Ok(OptData(qclass, ttl / 0x100_0000, ttl / 0x1_0000 % 256, ttl % 0x1_0000, slice));
      case _ => r := Ok(OpaqueData(qtype, slice));
    }

    method Record(buf: Bytes) returns (r: Result<Record, DecodeError>)
      modifies this
      ensures match DecodeRecord(buf, old(pos))
              case Ok((rr, next)) => r == Ok(rr) && pos == next
              case Err(e) => r == Err(e)
    {
      hide DecodeName, DecodeRData;
      var name :- Name(buf);
      var qtype :- U16(buf);
      var qclass :- U16(buf);
      var ttl :- U32(buf);
      var rdlen :- U16(buf);
      if pos + rdlen > |buf| {
        return Err(Truncated(pos));
      }
      var data :- RData(buf, rdlen, qtype, qclass, ttl);
      pos := pos + rdlen;
      return Ok(DnsWire.Record(name, KnownType(qtype), ttl, data));
    }

    method Question(buf: Bytes) returns (r: Result<Question, DecodeError>)
      modifies this
      ensures match DecodeQuestion(buf, old(pos))
              case Ok((q, next)) => r == Ok(q) && pos == next
              case Err(e) => r == Err(e)
    {
      hide DecodeName;
      var name :- Name(buf);
      var qtype :- U16(buf);
      var _ :- U16(buf);
      return Ok(DnsWire.Question(name, KnownType(qtype)));
    }

    method Records(buf: Bytes, count: nat) returns (r: Result<seq<Record>, DecodeError>)
      modifies this
      ensures match DecodeRecords(buf, old(pos), count)
              case Ok((rrs, next)) => r == Ok(rrs) && pos == next
              case Err(e) => r == Err(e)
    {
      hide DecodeRecord;
      var out := [];
      ghost var whole := DecodeRecords(buf, pos, count);
      assert whole.Ok? ==> [] + whole.value.0 == whole.value.0;
      for i := 0 to count
        invariant var rest := DecodeRecords(buf, pos, count - i);
                  whole == if rest.Ok? then Ok((out + rest.value.0, rest.value.1)) else rest
      {
        ghost var before := pos;
        var rr :- Record(buf);
        ghost var rest := DecodeRecords(buf, pos, count - i - 1);
        assert rest.Ok? ==> out + ([rr] + rest.value.0) == (out + [rr]) + rest.value.0;
        out := out + [rr];
      }
      assert out + [] == out;
      r := Ok(out);
    }

    method Questions(buf: Bytes, count: nat) returns (r: Result<seq<Question>, DecodeError>)
      modifies this
      ensures match DecodeQuestions(buf, old(pos), count)
              case Ok((qs, next)) => r == Ok(qs) && pos == next
              case Err(e) => r == Err(e)
    {
      hide DecodeQuestion;
      var out := [];
      ghost var whole := DecodeQuestions(buf, pos, count);
      assert whole.Ok? ==> [] + whole.value.0 == whole.value.0;
      for i := 0 to count
        invariant var rest := DecodeQuestions(buf, pos, count - i);
                  whole == if rest.Ok? then Ok((out + rest.value.0, rest.value.1)) else rest
      {
        var q :- Question(buf);
        ghost var rest := DecodeQuestions(buf, pos, count - i - 1);
        assert rest.Ok? ==> out + ([q] + rest.value.0) == (out + [q]) + rest.value.0;
        out := out + [q];
      }
      assert out + [] == out;
      r := Ok(out);
    }
  }

  method Decode(buf: Bytes) returns (r: Result<Message, DecodeError>)
    ensures r == DecodeMessage(buf)
  {
    hide DecodeQuestions, DecodeRecords;
    var cur := new Cursor(0);
    var id :- cur.U16(buf);
    var flags :- cur.U16(buf);
    var qd :- cur.U16(buf);
    var an :- cur.U16(buf);
    var ns :- cur.U16(buf);
    var ar :- cur.U16(buf);
    var questions :- cur.Questions(buf, qd);
    var answers :- cur.Records(buf, an);
    var authorities :- cur.Records(buf, ns);
    var additionals :- cur.Records(buf, ar);
    r := Ok(Message(Header(id, flags, qd, an, ns, ar), questions, answers, authorities, additionals));
  }

  // ----- Writing -----

  lemma PatchLength(head: Bytes, body: Bytes, patch: Bytes)
    requires |patch| == 2
    ensures (head + [0, 0] + body)[|head| := patch[0]][|head| + 1 := patch[1]] == head + patch + body
  {
  }

  class Writer {
    var bytes: Bytes

    constructor ()
      ensures bytes == []
    {
      bytes := [];
    }

    method Put(b: Bytes)
      modifies this
      ensures bytes == old(bytes) + b
    {
      bytes := bytes + b;
    }

    /** On failure the labels already written stay in the buffer; callers abandon it. */
    method Name(n: Name) returns (r: Result<(), DecodeError>)
      modifies this
      ensures match EncodeName(n)
              case Ok(b) => r == Ok(()) && bytes == old(bytes) + b
              case Err(e) => r == Err(e) && |bytes| >= |old(bytes)|
    {
      hide LabelText, LabelBytes, Split, NonEmpty;
      LabelsAreText(n);
      var labels := Labels(n);
      ghost var start := bytes;
      ghost var whole := EncodeLabels(labels);
      for i := 0 to |labels|
        invariant |bytes| >= |start|
        invariant AllLabelText(labels[i..])
        invariant var rest := EncodeLabels(labels[i..]);
                  if rest.Ok? then whole.Ok? && start + whole.value == bytes + rest.value else whole == rest
      {
        assert labels[i..][1..] == labels[i + 1..] && labels[i..][0] == labels[i];
        if |labels[i]| > 63 {
          return Err(Oversize(LabelLength));
        }
        ghost var before, rest := bytes, EncodeLabels(labels[i + 1..]);
        Put([|labels[i]|]);
        Put(LabelBytes(labels[i]));
        assert rest.Ok? ==> before + ([|labels[i]|] + LabelBytes(labels[i]) + rest.value) == bytes + rest.value;
      }
      Put([0]);
      r := Ok(());
    }

    method Parts(parts: seq<Bytes>) returns (r: Result<(), DecodeError>)
      modifies this
      ensures match EncodeParts(parts)
              case Ok(b) => r == Ok(()) && bytes == old(bytes) + b
              case Err(e) => r == Err(e) && |bytes| >= |old(bytes)|
    {
      ghost var start, whole := bytes, EncodeParts(parts);
      for i := 0 to |parts|
        invariant |bytes| >= |start|
        invariant var rest := EncodeParts(parts[i..]);
                  if rest.Ok? then whole.Ok? && start + whole.value == bytes + rest.value else whole == rest
      {
        assert parts[i..][1..] == parts[i + 1..] && parts[i..][0] == parts[i];
        if |parts[i]| > 255 {
          return Err(Oversize(TxtSegment));
        }
        ghost var before, rest := bytes, EncodeParts(parts[i + 1..]);
        Put([|parts[i]|]);
        Put(parts[i]);
        assert rest.Ok? ==> before + ([|parts[i]|] + parts[i] + rest.value) == bytes + rest.value;
      }
      assert bytes + [] == bytes;
      r := Ok(());
    }

    method RData(d: RData) returns (r: Result<(), DecodeError>)
      modifies this
      ensures match EncodeRData(d)
              case Ok(b) => r == Ok(()) && bytes == old(bytes) + b
              case Err(e) => r == Err(e) && |bytes| >= |old(bytes)|
    {
      hide EncodeName, EncodeParts;
      r := Ok(());
      match d
      case AData(ip) => Put(ip);
      case AaaaData(ip) => Put(ip);
      case PtrData(n) => r := Name(n);
      case CnameData(n) => r := Name(n);
      case TxtData(parts) => r := Parts(parts);
      case OptData(_, _, _, _, _) => r := Err(InvalidRData(TypeCode(Opt)));
      case OpaqueData(_, raw) => Put(raw);
    }

    /** Writes a zero length, then the data, then patches the length in place. */
    method PlainRecord(rr: Record) returns (r: Result<(), DecodeError>)
      requires rr.qtype != Opt
      modifies this
      ensures match EncodeRecord(rr)
              case Ok(b) => r == Ok(()) && bytes == old(bytes) + b
              case Err(e) => r == Err(e)
    {
      hide EncodeName, EncodeRData;
      ghost var start := bytes;
      var _ :- Name(rr.name);
      Put(U16Bytes(TypeCode(rr.qtype)));
      Put(U16Bytes(CLASS_IN));
      Put(U32Bytes(rr.ttl));
      var rdlenAt := |bytes|;
      ghost var head := bytes;
      Put([0, 0]);
      var bodyAt := |bytes|;
      var _ :- RData(rr.data);
      var rdlen := |bytes| - bodyAt;
      if rdlen > 0xFFFF {
        return Err(Oversize(RecordData));
      }
      ghost var name, body := EncodeName(rr.name).value, EncodeRData(rr.data).value;
      var patch := U16Bytes(rdlen);
      bytes := bytes[rdlenAt := patch[0]][rdlenAt + 1 := patch[1]];
      PatchLength(head, body, patch);
      assert head + patch == start + (name + RecordHead(TypeCode(rr.qtype), CLASS_IN, rr.ttl, rdlen));
      r := Ok(());
    }

    method Record(rr: Record) returns (r: Result<(), DecodeError>)
      modifies this
      ensures match EncodeRecord(rr)
              case Ok(b) => r == Ok(()) && bytes == old(bytes) + b
              case Err(e) => r == Err(e)
    {
      hide EncodeName, EncodeRData, RecordHead, OptTtl;
      if rr.qtype == Opt {
        if !rr.data.OptData? {
          return Err(InvalidRData(TypeCode(Opt)));
        }
        var d := rr.data;
        if |d.options| > 0xFFFF {
          return Err(Oversize(OptOptions));
        }
        Put([0]);
        Put(RecordHead(TypeCode(Opt), d.udpPayloadSize, OptTtl(d), |d.options|));
        Put(d.options);
        return Ok(());
      }
      r := PlainRecord(rr);
    }

    method Records(rrs: seq<Record>) returns (r: Result<(), DecodeError>)
      modifies this
      ensures match EncodeRecords(rrs)
              case Ok(b) => r == Ok(()) && bytes == old(bytes) + b
              case Err(e) => r == Err(e)
    {
      hide EncodeRecord;
      ghost var start, whole := bytes, EncodeRecords(rrs);
      for i := 0 to |rrs|
        invariant var rest := EncodeRecords(rrs[i..]);
                  if rest.Ok? then whole.Ok? && start + whole.value == bytes + rest.value else whole == rest
      {
        assert rrs[i..][1..] == rrs[i + 1..] && rrs[i..][0] == rrs[i];
        ghost var before, rest := bytes, EncodeRecords(rrs[i + 1..]);
        var _ :- Record(rrs[i]);
        assert rest.Ok? ==> before + (EncodeRecord(rrs[i]).value + rest.value) == bytes + rest.value;
      }
      assert bytes + [] == bytes;
      r := Ok(());
    }

    method Questions(qs: seq<Question>) returns (r: Result<(), DecodeError>)
      modifies this
      ensures match EncodeQuestions(qs)
              case Ok(b) => r == Ok(()) && bytes == old(bytes) + b
              case Err(e) => r == Err(e)
    {
      hide EncodeName;
      ghost var start, whole := bytes, EncodeQuestions(qs);
      for i := 0 to |qs|
        invariant var rest := EncodeQuestions(qs[i..]);
                  if rest.Ok? then whole.Ok? && start + whole.value == bytes + rest.value else whole == rest
      {
        assert qs[i..][1..] == qs[i + 1..] && qs[i..][0] == qs[i];
        ghost var before, rest := bytes, EncodeQuestions(qs[i + 1..]);
        var _ :- Name(qs[i].name);
        Put(U16Bytes(TypeCode(qs[i].qtype)));
        Put(U16Bytes(CLASS_IN));
        assert bytes == before + EncodeQuestion(qs[i]).value;
        assert rest.Ok? ==> before + (EncodeQuestion(qs[i]).value + rest.value) == bytes + rest.value;
      }
      assert bytes + [] == bytes;
      r := Ok(());
    }
  }

  method Encode(m: Message) returns (r: Result<Bytes, DecodeError>)
    ensures r == EncodeMessage(m)
  {
    hide EncodeQuestions, EncodeRecords;
    if |m.questions| > 0xFFFF || |m.answers| > 0xFFFF || |m.authorities| > 0xFFFF || |m.additionals| > 0xFFFF {
      return Err(Oversize(SectionCount));
    }
    var w := new Writer();
    assert forall b: Bytes :: [] + b == b;
    w.Put(EncodeHeader(m.header.id, m.header.flags, |m.questions|, |m.answers|, |m.authorities|, |m.additionals|));
    var _ :- w.Questions(m.questions);
    var _ :- w.Records(m.answers + m.authorities + m.additionals);
    r := Ok(w.bytes);
  }
}
