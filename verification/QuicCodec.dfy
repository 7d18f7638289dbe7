/** The frame codec's loops, each proved against the function it computes. */
module QuicCodec {
  import opened MachineTypes
  import opened QuicVarint
  import opened QuicFrame
  import opened QuicRoundTrip

  method CountPadding(buf: Bytes) returns (n: nat)
    ensures n == ZeroRun(buf)
  {
    n := 0;
    while n < |buf| && buf[n] == 0
      invariant n <= |buf| && ZeroRun(buf) == n + ZeroRun(buf[n..])
    {
      assert buf[n..][1..] == buf[n + 1..];
      n := n + 1;
    }
  }

  method ReadRanges(buf: Bytes, start: nat, count: nat) returns (r: Result<(seq<AckRange>, nat), Error>)
    ensures r == DecodeRanges(buf, start, count)
  {
    hide DecodeVarint;
    var ranges, off := [], start;
    ghost var whole := DecodeRanges(buf, start, count);
    assert whole.Ok? ==> [] + whole.value.0 == whole.value.0;
    for i := 0 to count
      invariant var rest := DecodeRanges(buf, off, count - i);
                whole == if rest.Ok? then Ok((ranges + rest.value.0, rest.value.1)) else rest
    {
      var gap :- ReadVarint(buf, off);
      var range :- ReadVarint(buf, gap.1);
      ghost var rest := DecodeRanges(buf, range.1, count - i - 1);
      var read := AckRange(gap.0, range.0);
      assert rest.Ok? ==> ranges + ([read] + rest.value.0) == (ranges + [read]) + rest.value.0;
      ranges := ranges + [read];
      off := range.1;
    }
    assert ranges + [] == ranges;
    r := Ok((ranges, off));
  }

  method SkipFields(buf: Bytes, start: nat, count: nat) returns (r: Result<nat, Error>)
    ensures match DecodeFields(buf, start, count)
            case Ok((_, next)) => r == Ok(next)
            case Err(e) => r == Err(e)
  {
    hide DecodeVarint;
    var off := start;
    ghost var whole := DecodeFields(buf, start, count);
    for i := 0 to count
      invariant var rest := DecodeFields(buf, off, count - i);
                if rest.Ok? then whole.Ok? && whole.value.1 == rest.value.1 else whole == rest
    {
      var v :- ReadVarint(buf, off);
      off := v.1;
    }
    r := Ok(off);
  }

  /** One varint after another, as fields. */
  lemma FieldsFrom(buf: Bytes, pos: nat, n: nat)
    requires n > 0
    ensures
      match DecodeVarint(buf, pos)
      case Err(e) => DecodeFields(buf, pos, n) == Err(e)
      case Ok(v) =>
        match DecodeFields(buf, v.1, n - 1)
        case Err(e) => DecodeFields(buf, pos, n) == Err(e)
        case Ok(rest) => DecodeFields(buf, pos, n) == Ok(([v.0] + rest.0, rest.1))
  {
    hide DecodeVarint;
  }

  method ReadOne(buf: Bytes) returns (r: Result<(nat, nat), Error>)
    ensures match DecodeFields(buf, 1, 1)
            case Ok(h) => r == Ok((h.0[0], h.1))
            case Err(e) => r == Err(e)
  {
    hide DecodeVarint, DecodeFields;
    var a := ReadVarint(buf, 1);
    FieldsFrom(buf, 1, 1);
    if a.Ok? { NoFields(buf, a.value.1); }
    r := a;
  }

  method ReadTwo(buf: Bytes) returns (r: Result<(nat, nat, nat), Error>)
    ensures match DecodeFields(buf, 1, 2)
            case Ok(h) => r == Ok((h.0[0], h.0[1], h.1))
            case Err(e) => r == Err(e)
  {
    hide DecodeVarint, DecodeFields;
    FieldsFrom(buf, 1, 2);
    var a :- ReadVarint(buf, 1);
    FieldsFrom(buf, a.1, 1);
    var b :- ReadVarint(buf, a.1);
    NoFields(buf, b.1);
    r := Ok((a.0, b.0, b.1));
  }

  method ReadThree(buf: Bytes) returns (r: Result<(nat, nat, nat, nat), Error>)
    ensures match DecodeFields(buf, 1, 3)
            case Ok(h) => r == Ok((h.0[0], h.0[1], h.0[2], h.1))
            case Err(e) => r == Err(e)
  {
    hide DecodeVarint, DecodeFields;
    FieldsFrom(buf, 1, 3);
    var a :- ReadVarint(buf, 1);
    FieldsFrom(buf, a.1, 2);
    var b :- ReadVarint(buf, a.1);
    FieldsFrom(buf, b.1, 1);
    var c :- ReadVarint(buf, b.1);
    NoFields(buf, c.1);
    r := Ok((a.0, b.0, c.0, c.1));
  }

  method TakePayload(buf: Bytes, off: nat, len: nat) returns (r: Result<Bytes, Error>)
    ensures match DecodePayload(buf, off, len)
            case Ok(d) => r == Ok(d.0) && d.1 == off + len
            case Err(e) => r == Err(e)
  {
    if len > MAX_FRAME_PAYLOAD {
      return Err(PayloadTooLarge);
    }
    if off + len > |buf| {
      return Err(ShortBuffer);
    }
    r := Ok(buf[off..off + len]);
  }

  method ReadAck(buf: Bytes, ecn: bool) returns (r: Result<(Frame, nat), Error>)
    requires |buf| >= 1
    ensures r == DecodeAck(buf, ecn)
  {
    hide DecodeVarint, DecodeFields, DecodeRanges;
    FieldsFrom(buf, 1, 4);
    var largest :- ReadVarint(buf, 1);
    FieldsFrom(buf, largest.1, 3);
    var delay :- ReadVarint(buf, largest.1);
    FieldsFrom(buf, delay.1, 2);
    var count :- ReadVarint(buf, delay.1);
    FieldsFrom(buf, count.1, 1);
    var firstRange :- ReadVarint(buf, count.1);
    NoFields(buf, firstRange.1);
    var ranges :- ReadRanges(buf, firstRange.1, count.0);
    var off := ranges.1;
    NoFields(buf, off);
    if ecn {
      off :- SkipFields(buf, off, 3);
    }
    r := Ok((Ack(largest.0, delay.0, firstRange.0, ranges.0), off));
  }

  method ReadCrypto(buf: Bytes) returns (r: Result<(Frame, nat), Error>)
    requires |buf| >= 1
    ensures r == DecodeCrypto(buf)
  {
    hide DecodeFields, DecodePayload;
    var h :- ReadTwo(buf);
    var data :- TakePayload(buf, h.2, h.1);
    r := Ok((Crypto(h.0, data), h.2 + h.1));
  }

  method ReadStream(buf: Bytes, ty: byte) returns (r: Result<(Frame, nat), Error>)
    requires |buf| >= 1
    ensures r == DecodeStream(buf, ty / 4 % 2 == 1, ty / 2 % 2 == 1, ty % 2 == 1)
  {
    hide DecodeVarint, DecodeFields, DecodePayload;
    var offBit, lenBit, fin := ty / 4 % 2 == 1, ty / 2 % 2 == 1, ty % 2 == 1;
    FieldsFrom(buf, 1, 1 + (if offBit then 1 else 0) + (if lenBit then 1 else 0));
    var id :- ReadVarint(buf, 1);
    var off := id.1;
    var offset := 0;
    if offBit {
      FieldsFrom(buf, off, 1 + (if lenBit then 1 else 0));
      var v :- ReadVarint(buf, off);
      offset, off := v.0, v.1;
    }
    var dlen;
    if lenBit {
      FieldsFrom(buf, off, 1);
      var v :- ReadVarint(buf, off);
      dlen, off := v.0, v.1;
    } else {
      dlen := |buf| - off;
    }
    NoFields(buf, off);
    var data :- TakePayload(buf, off, dlen);
    r := Ok((Stream(id.0, offset, fin, data), off + dlen));
  }

  method ReadClose(buf: Bytes, application: bool) returns (r: Result<(Frame, nat), Error>)
    requires |buf| >= 1
    ensures r == DecodeClose(buf, application)
  {
    hide DecodeVarint, DecodeFields, DecodePayload;
    FieldsFrom(buf, 1, if application then 2 else 3);
    var errorCode :- ReadVarint(buf, 1);
    var off := errorCode.1;
    if !application {
      FieldsFrom(buf, off, 2);
      var skipped :- ReadVarint(buf, off);
      off := skipped.1;
    }
    FieldsFrom(buf, off, 1);
    var len :- ReadVarint(buf, off);
    NoFields(buf, len.1);
    var reason :- TakePayload(buf, len.1, len.0);
    r := Ok((ConnectionClose(application, errorCode.0, reason), len.1 + len.0));
  }

  method ReadDatagram(buf: Bytes) returns (r: Result<(Frame, nat), Error>)
    requires |buf| >= 1
    ensures r == DecodeDatagram(buf)
  {
    hide DecodeFields, DecodePayload;
    var len :- ReadOne(buf);
    var data :- TakePayload(buf, len.1, len.0);
    r := Ok((Datagram(data), len.1 + len.0));
  }

  method ReadLimit(buf: Bytes, ty: byte) returns (r: Result<(Frame, nat), Error>)
    requires |buf| >= 1
    ensures r == DecodeSimple(buf, ty)
  {
    hide DecodeFields;
    match ty {
      case 0x04 =>
        var h :- ReadThree(buf);
        r := Ok((ResetStream(h.0, h.1, h.2), h.3));
      case 0x05 =>
        var h :- ReadTwo(buf);
        r := Ok((StopSending(h.0, h.1), h.2));
      case 0x10 =>
        var h :- ReadOne(buf);
        r := Ok((MaxData(h.0), h.1));
      case 0x11 =>
        var h :- ReadTwo(buf);
        r := Ok((MaxStreamData(h.0, h.1), h.2));
      case 0x12 =>
        var h :- ReadOne(buf);
        r := Ok((MaxStreams(true, h.0), h.1));
      case 0x13 =>
        var h :- ReadOne(buf);
        r := Ok((MaxStreams(false, h.0), h.1));
      case 0x14 =>
        var h :- ReadOne(buf);
        r := Ok((DataBlocked(h.0), h.1));
      case 0x15 =>
        var h :- ReadTwo(buf);
        r := Ok((StreamDataBlocked(h.0, h.1), h.2));
      case 0x16 =>
        var h :- ReadOne(buf);
        r := Ok((StreamsBlocked(true, h.0), h.1));
      case 0x17 =>
        var h :- ReadOne(buf);
        r := Ok((StreamsBlocked(false, h.0), h.1));
      case _ => r := Err(UnsupportedFrame);
    }
  }

  method ReadFrame(buf: Bytes) returns (r: Result<(Frame, nat), Error>)
    ensures r == Decode(buf)
  {
    hide DecodeFields, DecodeRanges, DecodePayload, ZeroRun, DecodeAck, DecodeCrypto, DecodeStream, DecodeClose,
         DecodeDatagram, DecodeSimple;
    if |buf| == 0 {
      return Err(ShortBuffer);
    }
    var ty := buf[0];
    if ty == 0x00 {
      var n := CountPadding(buf);
      r := Ok((Padding(n), n));
    } else if ty == 0x01 {
      r := Ok((Ping, 1));
    } else if ty == 0x02 || ty == 0x03 {
      r := ReadAck(buf, ty == 0x03);
    } else if ty == 0x06 {
      r := ReadCrypto(buf);
    } else if 0x08 <= ty <= 0x0F {
      r := ReadStream(buf, ty);
    } else if ty == 0x1C || ty == 0x1D {
      r := ReadClose(buf, ty == 0x1D);
    } else if ty == 0x1E {
      r := Ok((HandshakeDone, 1));
    } else if ty == 0x30 {
      r := Ok((Datagram(buf[1..]), |buf|));
    } else if ty == 0x31 {
      r := ReadDatagram(buf);
    } else {
      r := ReadLimit(buf, ty);
    }
  }

  method ReadPayload(payload: Bytes) returns (r: Result<seq<Frame>, Error>)
    ensures r == DecodeAll(payload)
  {
    hide Decode;
    var frames, buf := [], payload;
    ghost var whole := DecodeAll(payload);
    assert whole.Ok? ==> [] + whole.value == whole.value;
    while |buf| != 0
      invariant var rest := DecodeAll(buf);
                whole == if rest.Ok? then Ok(frames + rest.value) else rest
      decreases |buf|
    {
      var d :- ReadFrame(buf);
      if d.1 == 0 {
        break;
      }
      ghost var rest := DecodeAll(buf[d.1..]);
      assert rest.Ok? ==> frames + ([d.0] + rest.value) == (frames + [d.0]) + rest.value;
      frames := frames + [d.0];
      buf := buf[d.1..];
    }
    assert frames + [] == frames;
    r := Ok(frames);
  }

  /** The output vector a frame is pushed onto. */
  class Output {
    var bytes: Bytes

    constructor ()
      ensures bytes == []
    {
      bytes := [];
    }

    method WriteRanges(rs: seq<AckRange>)
      requires RangesFit(rs)
      modifies this
      ensures bytes == old(bytes) + EncodeRanges(rs)
    {
      hide EncodeVarint;
      ghost var start := bytes;
      for i := 0 to |rs|
        invariant RangesFit(rs[i..])
        invariant start + EncodeRanges(rs) == bytes + EncodeRanges(rs[i..])
      {
        assert rs[i..][0] == rs[i] && rs[i..][1..] == rs[i + 1..];
        ghost var before := bytes;
        bytes := bytes + EncodeVarint(rs[i].gap);
        bytes := bytes + EncodeVarint(rs[i].range);
        assert before + EncodeRanges(rs[i..]) == bytes + EncodeRanges(rs[i + 1..]);
      }
    }

    method WriteVarint(v: nat)
      requires Fits(v)
      modifies this
      ensures bytes == old(bytes) + EncodeVarint(v)
    {
      bytes := bytes + EncodeVarint(v);
    }

    method Push(b: byte)
      modifies this
      ensures bytes == old(bytes) + [b]
    {
      bytes := bytes + [b];
    }

    method WriteAck(f: Frame)
      requires f.Ack? && Encodable(f)
      modifies this
      ensures bytes == old(bytes) + Encode(f)
    {
      hide EncodeVarint, EncodeRanges, EncodeFields;
      FieldsOf(f);
      Push(0x02);
      WriteVarint(f.largest);
      WriteVarint(f.delay);
      WriteVarint(|f.ranges|);
      WriteVarint(f.firstRange);
      WriteRanges(f.ranges);
      FourFields(f.largest, f.delay, |f.ranges|, f.firstRange);
    }

    method WriteStream(f: Frame)
      requires f.Stream? && Encodable(f)
      modifies this
      ensures bytes == old(bytes) + Encode(f)
    {
      hide EncodeVarint, EncodeFields;
      FieldsOf(f);
      Push(0x0A + (if f.offset != 0 then 4 else 0) + (if f.fin then 1 else 0));
      WriteVarint(f.id);
      if f.offset != 0 {
        WriteVarint(f.offset);
        ThreeFields(f.id, f.offset, |f.data|);
      } else {
        TwoFields(f.id, |f.data|);
      }
      WriteVarint(|f.data|);
      bytes := bytes + f.data;
    }

    method WriteClose(f: Frame)
      requires f.ConnectionClose? && Encodable(f)
      modifies this
      ensures bytes == old(bytes) + Encode(f)
    {
      hide EncodeVarint, EncodeFields;
      FieldsOf(f);
      Push(if f.application then 0x1D else 0x1C);
      WriteVarint(f.errorCode);
      if !f.application {
        WriteVarint(0);
        ThreeFields(f.errorCode, 0, |f.reason|);
      } else {
        TwoFields(f.errorCode, |f.reason|);
      }
      WriteVarint(|f.reason|);
      bytes := bytes + f.reason;
    }

    method WriteOne(ty: byte, a: nat)
      requires Fits(a)
      modifies this
      ensures bytes == old(bytes) + [ty] + EncodeFields([a])
    {
      hide EncodeVarint, EncodeFields;
      Push(ty);
      WriteVarint(a);
      OneField(a);
    }

    method WriteTwo(ty: byte, a: nat, b: nat)
      requires Fits(a) && Fits(b)
      modifies this
      ensures bytes == old(bytes) + [ty] + EncodeFields([a, b])
    {
      hide EncodeVarint, EncodeFields;
      Push(ty);
      WriteVarint(a);
      WriteVarint(b);
      TwoFields(a, b);
    }

    method WriteReset(f: Frame)
      requires f.ResetStream? && Encodable(f)
      modifies this
      ensures bytes == old(bytes) + Encode(f)
    {
      hide EncodeVarint, EncodeFields;
      FieldsOf(f);
      Push(0x04);
      WriteVarint(f.streamId);
      WriteVarint(f.errorCode);
      WriteVarint(f.finalSize);
      ThreeFields(f.streamId, f.errorCode, f.finalSize);
    }

    method WriteFrame(f: Frame)
      requires Encodable(f)
      modifies this
      ensures bytes == old(bytes) + Encode(f)
    {
      hide EncodeVarint, EncodeFields, EncodeRanges;
      FieldsOf(f);
      NoRanges();
      match f {
        case Padding(n) => bytes := bytes + seq(n, _ => 0);
        case Ping => Push(0x01);
        case Ack(_, _, _, _) => WriteAck(f);
        case ResetStream(_, _, _) => WriteReset(f);
        case StopSending(id, code) => WriteTwo(0x05, id, code);
        case Crypto(offset, data) =>
          WriteTwo(0x06, offset, |data|);
          bytes := bytes + data;
        case Stream(_, _, _, _) => WriteStream(f);
        case MaxData(max) => WriteOne(0x10, max);
        case MaxStreamData(id, max) => WriteTwo(0x11, id, max);
        case MaxStreams(bidi, max) => WriteOne(if bidi then 0x12 else 0x13, max);
        case DataBlocked(limit) => WriteOne(0x14, limit);
        case StreamDataBlocked(id, limit) => WriteTwo(0x15, id, limit);
        case StreamsBlocked(bidi, limit) => WriteOne(if bidi then 0x16 else 0x17, limit);
        case Datagram(data) =>
          WriteOne(0x31, |data|);
          bytes := bytes + data;
        case ConnectionClose(_, _, _) => WriteClose(f);
        case HandshakeDone => Push(0x1E);
      }
    }
  }

  lemma NoRanges()
    ensures EncodeRanges([]) == [] && EncodeFields([]) == []
  {
  }

  /** Encodable frames have encodable fields. */
  lemma FieldsOf(f: Frame)
    requires Encodable(f)
    ensures EncodeRanges([]) == []
    ensures
      match f
      case Ack(largest, delay, first, ranges) => Fits(largest) && Fits(delay) && Fits(|ranges|) && Fits(first)
      case ResetStream(id, code, size) => Fits(id) && Fits(code) && Fits(size)
      case StopSending(id, code) => Fits(id) && Fits(code)
      case Crypto(offset, data) => Fits(offset) && Fits(|data|)
      case Stream(id, offset, _, data) => Fits(id) && Fits(offset) && Fits(|data|)
      case MaxData(max) => Fits(max)
      case MaxStreamData(id, max) => Fits(id) && Fits(max)
      case MaxStreams(_, max) => Fits(max)
      case DataBlocked(limit) => Fits(limit)
      case StreamDataBlocked(id, limit) => Fits(id) && Fits(limit)
      case StreamsBlocked(_, limit) => Fits(limit)
      case ConnectionClose(_, code, reason) => Fits(code) && Fits(|reason|)
      case Datagram(data) => Fits(|data|)
      case _ => true
  {
    var vs := Fields(f);
    assert |vs| > 0 ==> Fits(vs[0]);
    assert |vs| > 1 ==> Fits(vs[1]);
    assert |vs| > 2 ==> Fits(vs[2]);
    assert |vs| > 3 ==> Fits(vs[3]);
  }

  lemma OneField(a: nat)
    requires Fits(a)
    ensures EncodeFields([a]) == EncodeVarint(a)
  {
    hide EncodeVarint;
    assert [a][1..] == [];
  }

  lemma TwoFields(a: nat, b: nat)
    requires Fits(a) && Fits(b)
    ensures EncodeFields([a, b]) == EncodeVarint(a) + EncodeVarint(b)
  {
    hide EncodeVarint;
    OneField(b);
    assert [a, b][1..] == [b];
  }

  lemma ThreeFields(a: nat, b: nat, c: nat)
    requires Fits(a) && Fits(b) && Fits(c)
    ensures EncodeFields([a, b, c]) == EncodeVarint(a) + EncodeVarint(b) + EncodeVarint(c)
  {
    hide EncodeVarint;
    TwoFields(b, c);
    assert [a, b, c][1..] == [b, c];
  }

  lemma FourFields(a: nat, b: nat, c: nat, d: nat)
    requires Fits(a) && Fits(b) && Fits(c) && Fits(d)
    ensures EncodeFields([a, b, c, d]) == EncodeVarint(a) + EncodeVarint(b) + EncodeVarint(c) + EncodeVarint(d)
  {
    hide EncodeVarint;
    ThreeFields(b, c, d);
    assert [a, b, c, d][1..] == [b, c, d];
  }
}
