/** QUIC frames (section 19 of RFC 9000, section 4 of RFC 9221) and the packet payload they fill. */
module QuicFrame {
  import opened MachineTypes
  import opened QuicVarint

  const MAX_FRAME_PAYLOAD: nat := 0x10_0000

  datatype AckRange = AckRange(gap: nat, range: nat)

  datatype Frame =
    | Padding(run: nat)
    | Ping
    | Ack(largest: nat, delay: nat, firstRange: nat, ranges: seq<AckRange>)
    | ResetStream(streamId: nat, errorCode: nat, finalSize: nat)
    | StopSending(streamId: nat, errorCode: nat)
    | Crypto(offset: nat, data: Bytes)
    | Stream(id: nat, offset: nat, fin: bool, data: Bytes)
    | MaxData(max: nat)
    | MaxStreamData(streamId: nat, max: nat)
    | MaxStreams(bidi: bool, max: nat)
    | DataBlocked(limit: nat)
    | StreamDataBlocked(streamId: nat, limit: nat)
    | StreamsBlocked(bidi: bool, limit: nat)
    | ConnectionClose(application: bool, errorCode: nat, reason: Bytes)
    | HandshakeDone
    | Datagram(data: Bytes)

  // ----- Encodable frames -----

  predicate Fits(v: nat) { v < VARINT_LIMIT }

  predicate AllFit(vs: seq<nat>) { forall k :: 0 <= k < |vs| ==> Fits(vs[k]) }

  /** The frame's integers, in wire order, without an ACK's extra ranges. */
  function Fields(f: Frame): seq<nat> {
    match f
    case Ack(largest, delay, first, ranges) => [largest, delay, |ranges|, first]
    case ResetStream(id, code, size) => [id, code, size]
    case StopSending(id, code) => [id, code]
    case Crypto(offset, data) => [offset, |data|]
    case Stream(id, offset, _, data) => if offset != 0 then [id, offset, |data|] else [id, |data|]
    case MaxData(max) => [max]
    case MaxStreamData(id, max) => [id, max]
    case MaxStreams(_, max) => [max]
    case DataBlocked(limit) => [limit]
    case StreamDataBlocked(id, limit) => [id, limit]
    case StreamsBlocked(_, limit) => [limit]
    case ConnectionClose(app, code, reason) => if app then [code, |reason|] else [code, 0, |reason|]
    case Datagram(data) => [|data|]
    case _ => []
  }

  function Payload(f: Frame): Bytes {
    match f
    case Crypto(_, data) => data
    case Stream(_, _, _, data) => data
    case ConnectionClose(_, _, reason) => reason
    case Datagram(data) => data
    case _ => []
  }

  function Ranges(f: Frame): seq<AckRange> {
    if f.Ack? then f.ranges else []
  }

  predicate RangesFit(rs: seq<AckRange>) {
    forall k :: 0 <= k < |rs| ==> Fits(rs[k].gap) && Fits(rs[k].range)
  }

  predicate Encodable(f: Frame) {
    AllFit(Fields(f)) && RangesFit(Ranges(f)) && |Payload(f)| <= MAX_FRAME_PAYLOAD
  }

  // ----- Writing -----

  function TypeByte(f: Frame): byte {
    match f
    case Padding(_) => 0x00
    case Ping => 0x01
    case Ack(_, _, _, _) => 0x02
    case ResetStream(_, _, _) => 0x04
    case StopSending(_, _) => 0x05
    case Crypto(_, _) => 0x06
    case Stream(_, offset, fin, _) => 0x0A + (if offset != 0 then 4 else 0) + (if fin then 1 else 0)
    case MaxData(_) => 0x10
    case MaxStreamData(_, _) => 0x11
    case MaxStreams(bidi, _) => if bidi then 0x12 else 0x13
    case DataBlocked(_) => 0x14
    case StreamDataBlocked(_, _) => 0x15
    case StreamsBlocked(bidi, _) => if bidi then 0x16 else 0x17
    case ConnectionClose(app, _, _) => if app then 0x1D else 0x1C
    case HandshakeDone => 0x1E
    case Datagram(_) => 0x31
  }

  function EncodeFields(vs: seq<nat>): Bytes
    requires AllFit(vs)
  {
    if vs == [] then [] else EncodeVarint(vs[0]) + EncodeFields(vs[1..])
  }

  function EncodeRanges(rs: seq<AckRange>): Bytes
    requires RangesFit(rs)
  {
    if rs == [] then [] else EncodeVarint(rs[0].gap) + EncodeVarint(rs[0].range) + EncodeRanges(rs[1..])
  }

  function Encode(f: Frame): Bytes
    requires Encodable(f)
  {
    if f.Padding? then seq(f.run, _ => 0)
    else [TypeByte(f)] + EncodeFields(Fields(f)) + EncodeRanges(Ranges(f)) + Payload(f)
  }

  // ----- Reading -----

  function DecodeFields(buf: Bytes, pos: nat, n: nat): (r: Result<(seq<nat>, nat), Error>)
    ensures r.Ok? ==> |r.value.0| == n && pos <= r.value.1
    ensures r.Ok? && pos <= |buf| ==> r.value.1 <= |buf|
    decreases n
  {
    if n == 0 then Ok(([], pos))
    else
      var v :- DecodeVarint(buf, pos);
      var rest :- DecodeFields(buf, v.1, n - 1);
      Ok(([v.0] + rest.0, rest.1))
  }

  function DecodeRanges(buf: Bytes, pos: nat, n: nat): (r: Result<(seq<AckRange>, nat), Error>)
    ensures r.Ok? ==> pos <= r.value.1
    ensures r.Ok? && pos <= |buf| ==> r.value.1 <= |buf|
    decreases n
  {
    if n == 0 then Ok(([], pos))
    else
      var gap :- DecodeVarint(buf, pos);
      var range :- DecodeVarint(buf, gap.1);
      var rest :- DecodeRanges(buf, range.1, n - 1);
      Ok(([AckRange(gap.0, range.0)] + rest.0, rest.1))
  }

  function DecodePayload(buf: Bytes, pos: nat, len: nat): (r: Result<(Bytes, nat), Error>)
    ensures r.Ok? ==> pos <= r.value.1 <= |buf|
  {
    if len > MAX_FRAME_PAYLOAD then Err(PayloadTooLarge)
    else if pos + len > |buf| then Err(ShortBuffer)
    else Ok((buf[pos..pos + len], pos + len))
  }

  function DecodeAck(buf: Bytes, ecn: bool): (r: Result<(Frame, nat), Error>)
    requires |buf| >= 1
    ensures r.Ok? ==> 1 <= r.value.1 <= |buf|
  {
    var h :- DecodeFields(buf, 1, 4);
    var rs :- DecodeRanges(buf, h.1, h.0[2]);
    var counts :- DecodeFields(buf, rs.1, if ecn then 3 else 0);
    Ok((Ack(h.0[0], h.0[1], h.0[3], rs.0), counts.1))
  }

  function DecodeCrypto(buf: Bytes): (r: Result<(Frame, nat), Error>)
    requires |buf| >= 1
    ensures r.Ok? ==> 1 <= r.value.1 <= |buf|
  {
    var h :- DecodeFields(buf, 1, 2);
    var data :- DecodePayload(buf, h.1, h.0[1]);
    Ok((Crypto(h.0[0], data.0), data.1))
  }

  function DecodeStream(buf: Bytes, offBit: bool, lenBit: bool, fin: bool): (r: Result<(Frame, nat), Error>)
    requires |buf| >= 1
    ensures r.Ok? ==> 1 <= r.value.1 <= |buf|
  {
    var h :- DecodeFields(buf, 1, 1 + (if offBit then 1 else 0) + (if lenBit then 1 else 0));
    var data :- DecodePayload(buf, h.1, if lenBit then h.0[|h.0| - 1] else |buf| - h.1);
    Ok((Stream(h.0[0], if offBit then h.0[1] else 0, fin, data.0), data.1))
  }

  function DecodeClose(buf: Bytes, app: bool): (r: Result<(Frame, nat), Error>)
    requires |buf| >= 1
    ensures r.Ok? ==> 1 <= r.value.1 <= |buf|
  {
    var h :- DecodeFields(buf, 1, if app then 2 else 3);
    var reason :- DecodePayload(buf, h.1, h.0[|h.0| - 1]);
    Ok((ConnectionClose(app, h.0[0], reason.0), reason.1))
  }

  function DecodeDatagram(buf: Bytes): (r: Result<(Frame, nat), Error>)
    requires |buf| >= 1
    ensures r.Ok? ==> 1 <= r.value.1 <= |buf|
  {
    var len :- DecodeFields(buf, 1, 1);
    var data :- DecodePayload(buf, len.1, len.0[0]);
    Ok((Datagram(data.0), data.1))
  }

  /** Frames that are a type byte and a fixed number of integers. */
  function DecodeSimple(buf: Bytes, ty: byte): (r: Result<(Frame, nat), Error>)
    requires |buf| >= 1
    ensures r.Ok? ==> 1 <= r.value.1 <= |buf|
  {
    if ty == 0x04 then
      var h :- DecodeFields(buf, 1, 3);
      Ok((ResetStream(h.0[0], h.0[1], h.0[2]), h.1))
    else if ty == 0x05 || ty == 0x11 || ty == 0x15 then
      var h :- DecodeFields(buf, 1, 2);
      Ok((if ty == 0x05 then StopSending(h.0[0], h.0[1])
          else if ty == 0x11 then MaxStreamData(h.0[0], h.0[1])
          else StreamDataBlocked(h.0[0], h.0[1]), h.1))
    else if ty == 0x10 || ty == 0x12 || ty == 0x13 || ty == 0x14 || ty == 0x16 || ty == 0x17 then
      var h :- DecodeFields(buf, 1, 1);
      Ok((if ty == 0x10 then MaxData(h.0[0])
          else if ty <= 0x13 then MaxStreams(ty == 0x12, h.0[0])
          else if ty == 0x14 then DataBlocked(h.0[0])
          else StreamsBlocked(ty == 0x16, h.0[0]), h.1))
    else Err(UnsupportedFrame)
  }

  function ZeroRun(buf: Bytes): (n: nat)
    ensures n <= |buf|
  {
    if buf != [] && buf[0] == 0 then 1 + ZeroRun(buf[1..]) else 0
  }

  /** The next frame and the bytes it took. */
  function Decode(buf: Bytes): (r: Result<(Frame, nat), Error>)
    ensures r.Ok? ==> 1 <= r.value.1 <= |buf|
  {
    if buf == [] then Err(ShortBuffer)
    else
      var ty := buf[0];
      if ty == 0x00 then Ok((Padding(ZeroRun(buf)), ZeroRun(buf)))
      else if ty == 0x01 then Ok((Ping, 1))
      else if ty == 0x02 || ty == 0x03 then DecodeAck(buf, ty == 0x03)
      else if ty == 0x06 then DecodeCrypto(buf)
      else if 0x08 <= ty <= 0x0F then DecodeStream(buf, ty / 4 % 2 == 1, ty / 2 % 2 == 1, ty % 2 == 1)
      else if ty == 0x1C || ty == 0x1D then DecodeClose(buf, ty == 0x1D)
      else if ty == 0x1E then Ok((HandshakeDone, 1))
      else if ty == 0x30 then Ok((Datagram(buf[1..]), |buf|))
      else if ty == 0x31 then DecodeDatagram(buf)
      else DecodeSimple(buf, ty)
  }

  function DecodeAll(buf: Bytes): Result<seq<Frame>, Error>
    decreases |buf|
  {
    if buf == [] then Ok([])
    else
      var d :- Decode(buf);
      var rest :- DecodeAll(buf[d.1..]);
      Ok([d.0] + rest)
  }

  /** `ty & 0x04`, `ty & 0x02`, `ty & 0x01` on a STREAM type byte. */
  lemma StreamTypeBits(ty: bv8)
    requires 0x08 <= ty <= 0x0F
    ensures ty & 0x04 != 0 <==> ty / 4 % 2 == 1
    ensures ty & 0x02 != 0 <==> ty / 2 % 2 == 1
    ensures ty & 0x01 != 0 <==> ty % 2 == 1
  {
  }
}
