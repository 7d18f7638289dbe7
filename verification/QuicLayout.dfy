/**
 * QUIC frames byte for byte: every type byte and field order of section 19 of
 * RFC 9000 and section 4 of RFC 9221, stated against literal bytes.
 */
module QuicLayout {
  import opened MachineTypes
  import opened Endian
  import opened Slices
  import opened QuicVarint
  import opened QuicFrame
  import opened QuicRoundTrip

  // ----- Integers -----

  /** An integer is written in the fewest bytes, high byte first, with the length in the top two bits. */
  lemma VarintLayout(v: nat)
    requires v < 0x4000_0000_0000_0000
    ensures
      var e := EncodeVarint(v);
      && |e| == (if v < 0x40 then 1 else if v < 0x4000 then 2 else if v < 0x4000_0000 then 4 else 8)
      && e[0] == v / Pow256(|e| - 1) % 256
                 + (if |e| == 1 then 0 else if |e| == 2 then 0x40 else if |e| == 4 then 0x80 else 0xC0)
      && forall i :: 1 <= i < |e| ==> e[i] == v / Pow256(|e| - 1 - i) % 256
  {
    hide ToBe;
    var e := EncodeVarint(v);
    forall i | 0 <= i < |e| ensures ToBe(v, |e|)[i] == v / Pow256(|e| - 1 - i) % 256 {
      BeAt(v, |e|, i);
    }
    TopBitsFree(v, |e|);
  }

  /** How many bytes the first byte announces. */
  function Announced(first: byte): nat {
    if first < 0x40 then 1 else if first < 0x80 then 2 else if first < 0xC0 then 4 else 8
  }

  /** An integer is read if and only if all the bytes it announces are there. */
  lemma VarintReadsIff(buf: Bytes, pos: nat)
    ensures DecodeVarint(buf, pos).Ok? <==> pos < |buf| && pos + Announced(buf[pos]) <= |buf|
    ensures DecodeVarint(buf, pos).Ok? ==> DecodeVarint(buf, pos).value.1 == pos + Announced(buf[pos])
    ensures DecodeVarint(buf, pos).Err? ==> DecodeVarint(buf, pos).error == ShortBuffer
  {
    hide FromBe;
  }

  /** Byte i of n, counted from the least significant. */
  function Digit(n: nat, i: nat): nat {
    n / Pow256(i) % 256
  }

  /** Any form of an integer, the shortest or not, is read byte by byte, the announced length masked out. */
  lemma VarintReads(buf: Bytes, pos: nat, n: nat)
    requires DecodeVarint(buf, pos).Ok? && n == Announced(buf[pos])
    ensures DecodeVarint(buf, pos).value.0 < Pow256(n) && pos + n <= |buf|
    ensures Digit(DecodeVarint(buf, pos).value.0, n - 1) == buf[pos] % 64
    ensures forall i :: 0 <= i < n - 1 ==> Digit(DecodeVarint(buf, pos).value.0, i) == buf[pos + n - 1 - i]
  {
    hide FromBe, ToBe, Pow256;
    var digits := [buf[pos] % 64] + buf[pos + 1..pos + n];
    var v := DecodeVarint(buf, pos).value.0;
    BeInverse(digits);
    forall i | 0 <= i < n ensures Digit(v, i) == digits[n - 1 - i] {
      BeAt(v, n, n - 1 - i);
    }
  }

  /** The integers vs stand one after the other in the buffer, in any of their forms. */
  ghost predicate Ints(buf: Bytes, from: nat, vs: seq<nat>, to: nat)
    decreases |vs|
  {
    if vs == [] then from == to
    else
      match DecodeVarint(buf, from)
      case Ok(v) => v.0 == vs[0] && Ints(buf, v.1, vs[1..], to)
      case Err(_) => false
  }

  lemma {:induction false} IntsRead(buf: Bytes, from: nat, vs: seq<nat>, to: nat)
    requires Ints(buf, from, vs, to)
    ensures DecodeFields(buf, from, |vs|) == Ok((vs, to))
    decreases |vs|
  {
    hide DecodeVarint;
    if vs != [] {
      IntsRead(buf, DecodeVarint(buf, from).value.1, vs[1..], to);
      assert vs == [vs[0]] + vs[1..];
    }
  }

  /** The shortest forms, one after the other, are such integers. */
  lemma {:induction false} WrittenInts(buf: Bytes, from: nat, vs: seq<nat>)
    requires AllFit(vs) && At(buf, from, EncodeFields(vs))
    ensures Ints(buf, from, vs, from + |EncodeFields(vs)|)
    decreases |vs|
  {
    hide DecodeVarint, EncodeVarint;
    if vs != [] {
      AtSplit(buf, from, EncodeVarint(vs[0]), EncodeFields(vs[1..]));
      VarintRoundTrip(buf, from, vs[0]);
      WrittenInts(buf, from + |EncodeVarint(vs[0])|, vs[1..]);
    }
  }

  // ----- Reading -----

  /** Frames without integers, and the type bytes no frame has. */
  lemma BareReads(buf: Bytes)
    requires buf != []
    ensures buf[0] == 0x01 ==> Decode(buf) == Ok((Ping, 1))
    ensures buf[0] == 0x1E ==> Decode(buf) == Ok((HandshakeDone, 1))
    ensures buf[0] == 0x30 ==> Decode(buf) == Ok((Datagram(buf[1..]), |buf|))
    ensures buf[0] == 0x07 || 0x18 <= buf[0] <= 0x1B || 0x1F <= buf[0] <= 0x2F || buf[0] >= 0x32 ==>
      Decode(buf) == Err(UnsupportedFrame)
  {
    hide DecodeAck, DecodeCrypto, DecodeStream, DecodeClose, DecodeDatagram, DecodeFields, ZeroRun;
  }

  /** A run of zero bytes up to another byte or the end is one padding. */
  lemma PaddingReads(buf: Bytes, n: nat)
    requires 0 < n <= |buf| && (forall i :: 0 <= i < n ==> buf[i] == 0) && (n < |buf| ==> buf[n] != 0)
    ensures Decode(buf) == Ok((Padding(n), n))
  {
    assert buf == seq(n, _ => 0) + buf[n..];
    ZeroRunAdds(n, buf[n..]);
    NoZeros(buf[n..]);
    ZeroDecodes(buf);
  }

  /** Frames that are a type byte and integers. */
  lemma IntegersRead(buf: Bytes, vs: seq<nat>, p: nat)
    requires buf != [] && Ints(buf, 1, vs, p)
    ensures buf[0] == 0x04 && |vs| == 3 ==> Decode(buf) == Ok((ResetStream(vs[0], vs[1], vs[2]), p))
    ensures buf[0] == 0x05 && |vs| == 2 ==> Decode(buf) == Ok((StopSending(vs[0], vs[1]), p))
    ensures buf[0] == 0x10 && |vs| == 1 ==> Decode(buf) == Ok((MaxData(vs[0]), p))
    ensures buf[0] == 0x11 && |vs| == 2 ==> Decode(buf) == Ok((MaxStreamData(vs[0], vs[1]), p))
    ensures buf[0] == 0x12 && |vs| == 1 ==> Decode(buf) == Ok((MaxStreams(true, vs[0]), p))
    ensures buf[0] == 0x13 && |vs| == 1 ==> Decode(buf) == Ok((MaxStreams(false, vs[0]), p))
    ensures buf[0] == 0x14 && |vs| == 1 ==> Decode(buf) == Ok((DataBlocked(vs[0]), p))
    ensures buf[0] == 0x15 && |vs| == 2 ==> Decode(buf) == Ok((StreamDataBlocked(vs[0], vs[1]), p))
    ensures buf[0] == 0x16 && |vs| == 1 ==> Decode(buf) == Ok((StreamsBlocked(true, vs[0]), p))
    ensures buf[0] == 0x17 && |vs| == 1 ==> Decode(buf) == Ok((StreamsBlocked(false, vs[0]), p))
  {
    hide DecodeAck, DecodeCrypto, DecodeStream, DecodeClose, DecodeDatagram, DecodeFields, ZeroRun, Ints;
    IntsRead(buf, 1, vs, p);
  }

  function Flat(rs: seq<AckRange>): (vs: seq<nat>)
    ensures |vs| == 2 * |rs|
  {
    if rs == [] then [] else [rs[0].gap, rs[0].range] + Flat(rs[1..])
  }

  lemma {:induction false} RangesRead(buf: Bytes, from: nat, rs: seq<AckRange>, to: nat)
    requires Ints(buf, from, Flat(rs), to)
    ensures DecodeRanges(buf, from, |rs|) == Ok((rs, to))
    decreases |rs|
  {
    hide DecodeVarint;
    if rs != [] {
      var vs := Flat(rs);
      assert vs[0] == rs[0].gap && vs[1..][0] == rs[0].range && vs[1..][1..] == Flat(rs[1..]);
      var gap := DecodeVarint(buf, from).value;
      assert Ints(buf, gap.1, vs[1..], to);
      var range := DecodeVarint(buf, gap.1).value;
      RangesRead(buf, range.1, rs[1..], to);
      assert rs == [AckRange(gap.0, range.0)] + rs[1..];
    }
  }

  /** An acknowledgement, with type 3 followed by three counts that are skipped. */
  lemma AckReads(buf: Bytes, largest: nat, delay: nat, first: nat, rs: seq<AckRange>, p: nat, q: nat,
                 counts: seq<nat>, e: nat)
    requires buf != [] && Ints(buf, 1, [largest, delay, |rs|, first], p) && Ints(buf, p, Flat(rs), q)
    requires |counts| == 3 && Ints(buf, q, counts, e)
    ensures buf[0] == 0x02 ==> Decode(buf) == Ok((Ack(largest, delay, first, rs), q))
    ensures buf[0] == 0x03 ==> Decode(buf) == Ok((Ack(largest, delay, first, rs), e))
  {
    hide DecodeFields, DecodeRanges, Ints, Flat;
    IntsRead(buf, 1, [largest, delay, |rs|, first], p);
    RangesRead(buf, p, rs, q);
    IntsRead(buf, q, counts, e);
    NoFields(buf, q);
  }

  /** The n bytes of payload that stand at p. */
  function Taken(buf: Bytes, p: nat, n: nat, frame: Bytes -> Frame): Result<(Frame, nat), Error> {
    if n > 0x10_0000 then Err(PayloadTooLarge)
    else if p + n > |buf| then Err(ShortBuffer)
    else Ok((frame(buf[p..p + n]), p + n))
  }

  lemma CryptoReads(buf: Bytes, offset: nat, n: nat, p: nat)
    requires buf != [] && buf[0] == 0x06 && Ints(buf, 1, [offset, n], p)
    ensures Decode(buf) == Taken(buf, p, n, data => Crypto(offset, data))
  {
    hide DecodeFields, Ints;
    IntsRead(buf, 1, [offset, n], p);
  }

  /** A stream frame with a length, and an offset exactly when bit 4 is set; bit 1 marks the end. */
  lemma StreamReads(buf: Bytes, id: nat, offset: nat, n: nat, fin: bool, p: nat)
    requires buf != []
    ensures buf[0] == (if fin then 0x0B else 0x0A) && Ints(buf, 1, [id, n], p) ==>
      Decode(buf) == Taken(buf, p, n, data => Stream(id, 0, fin, data))
    ensures buf[0] == (if fin then 0x0F else 0x0E) && Ints(buf, 1, [id, offset, n], p) ==>
      Decode(buf) == Taken(buf, p, n, data => Stream(id, offset, fin, data))
  {
    hide DecodeAck, DecodeCrypto, DecodeClose, DecodeDatagram, DecodeSimple, ZeroRun, DecodeFields, Ints;
    if Ints(buf, 1, [id, n], p) { IntsRead(buf, 1, [id, n], p); }
    if Ints(buf, 1, [id, offset, n], p) { IntsRead(buf, 1, [id, offset, n], p); }
  }

  /** Without bit 2 there is no length, and the data is all that is left of the buffer. */
  lemma StreamToEndReads(buf: Bytes, id: nat, offset: nat, fin: bool, p: nat)
    requires buf != [] && p <= |buf|
    ensures buf[0] == (if fin then 0x09 else 0x08) && Ints(buf, 1, [id], p) ==>
      Decode(buf) == Taken(buf, p, |buf| - p, data => Stream(id, 0, fin, data))
    ensures buf[0] == (if fin then 0x0D else 0x0C) && Ints(buf, 1, [id, offset], p) ==>
      Decode(buf) == Taken(buf, p, |buf| - p, data => Stream(id, offset, fin, data))
  {
    hide DecodeAck, DecodeCrypto, DecodeClose, DecodeDatagram, DecodeSimple, ZeroRun, DecodeFields, Ints;
    if Ints(buf, 1, [id], p) { IntsRead(buf, 1, [id], p); }
    if Ints(buf, 1, [id, offset], p) { IntsRead(buf, 1, [id, offset], p); }
  }

  /** A close keeps code and reason; the frame type of a transport close is skipped, whatever it is. */
  lemma CloseReads(buf: Bytes, code: nat, skipped: nat, n: nat, p: nat)
    requires buf != []
    ensures buf[0] == 0x1C && Ints(buf, 1, [code, skipped, n], p) ==>
      Decode(buf) == Taken(buf, p, n, reason => ConnectionClose(false, code, reason))
    ensures buf[0] == 0x1D && Ints(buf, 1, [code, n], p) ==>
      Decode(buf) == Taken(buf, p, n, reason => ConnectionClose(true, code, reason))
  {
    hide DecodeFields, Ints;
    if Ints(buf, 1, [code, skipped, n], p) { IntsRead(buf, 1, [code, skipped, n], p); }
    if Ints(buf, 1, [code, n], p) { IntsRead(buf, 1, [code, n], p); }
  }

  lemma DatagramReads(buf: Bytes, n: nat, p: nat)
    requires buf != [] && buf[0] == 0x31 && Ints(buf, 1, [n], p)
    ensures Decode(buf) == Taken(buf, p, n, data => Datagram(data))
  {
    hide DecodeFields, Ints;
    IntsRead(buf, 1, [n], p);
  }

  // ----- Writing -----

  /** A type byte, integers in order, and bytes. */
  datatype Shape = Shape(first: byte, ints: seq<nat>, tail: Bytes)

  function ShapeOf(f: Frame): Shape {
    match f
    case Padding(_) => Shape(0x00, [], [])
    case Ping => Shape(0x01, [], [])
    case Ack(largest, delay, first, ranges) => Shape(0x02, [largest, delay, |ranges|, first] + Flat(ranges), [])
    case ResetStream(id, code, size) => Shape(0x04, [id, code, size], [])
    case StopSending(id, code) => Shape(0x05, [id, code], [])
    case Crypto(offset, data) => Shape(0x06, [offset, |data|], data)
    case Stream(id, offset, fin, data) =>
      if offset == 0 then Shape(if fin then 0x0B else 0x0A, [id, |data|], data)
      else Shape(if fin then 0x0F else 0x0E, [id, offset, |data|], data)
    case MaxData(max) => Shape(0x10, [max], [])
    case MaxStreamData(id, max) => Shape(0x11, [id, max], [])
    case MaxStreams(bidi, max) => Shape(if bidi then 0x12 else 0x13, [max], [])
    case DataBlocked(limit) => Shape(0x14, [limit], [])
    case StreamDataBlocked(id, limit) => Shape(0x15, [id, limit], [])
    case StreamsBlocked(bidi, limit) => Shape(if bidi then 0x16 else 0x17, [limit], [])
    case ConnectionClose(app, code, reason) =>
      if app then Shape(0x1D, [code, |reason|], reason) else Shape(0x1C, [code, 0, |reason|], reason)
    case HandshakeDone => Shape(0x1E, [], [])
    case Datagram(data) => Shape(0x31, [|data|], data)
  }

  lemma FlatFits(rs: seq<AckRange>)
    requires RangesFit(rs)
    ensures AllFit(Flat(rs)) && EncodeFields(Flat(rs)) == EncodeRanges(rs)
  {
    hide EncodeVarint;
    if rs != [] {
      var vs := Flat(rs);
      FlatFits(rs[1..]);
      assert vs[1..] == [rs[0].range] + Flat(rs[1..]) && vs[1..][1..] == Flat(rs[1..]);
      forall k | 0 <= k < |vs| ensures Fits(vs[k]) { if k >= 2 { assert vs[k] == Flat(rs[1..])[k - 2]; } }
      var a, b := EncodeVarint(rs[0].gap), EncodeVarint(rs[0].range);
      assert EncodeFields(vs[1..]) == b + EncodeRanges(rs[1..]);
      assert a + (b + EncodeRanges(rs[1..])) == a + b + EncodeRanges(rs[1..]);
    }
  }

  lemma {:induction false} FieldsAppend(a: seq<nat>, b: seq<nat>)
    requires AllFit(a) && AllFit(b)
    ensures AllFit(a + b) && EncodeFields(a + b) == EncodeFields(a) + EncodeFields(b)
  {
    hide EncodeVarint;
    if a == [] {
      assert a + b == b;
    } else {
      FieldsAppend(a[1..], b);
      assert (a + b)[1..] == a[1..] + b;
      var e := EncodeVarint(a[0]);
      assert e + (EncodeFields(a[1..]) + EncodeFields(b)) == e + EncodeFields(a[1..]) + EncodeFields(b);
    }
  }

  lemma ShapeParts(f: Frame)
    requires !f.Padding?
    ensures var s := ShapeOf(f); s == Shape(TypeByte(f), Fields(f) + Flat(Ranges(f)), Payload(f))
  {
    hide Flat;
    assert Flat([]) == [];
    assert Fields(f) + [] == Fields(f);
  }

  /** Every frame is written as its type byte, its integers in their shortest form, and its bytes. */
  lemma FrameLayout(f: Frame)
    requires Encodable(f) && !f.Padding?
    ensures var s := ShapeOf(f); AllFit(s.ints) && Encode(f) == [s.first] + EncodeFields(s.ints) + s.tail
  {
    hide EncodeVarint, EncodeFields, EncodeRanges, Fields, TypeByte, Ranges, Payload, ShapeOf, Flat;
    ShapeParts(f);
    FlatFits(Ranges(f));
    FieldsAppend(Fields(f), Flat(Ranges(f)));
    var ty := [TypeByte(f)];
    assert ty + (EncodeFields(Fields(f)) + EncodeRanges(Ranges(f)))
        == ty + EncodeFields(Fields(f)) + EncodeRanges(Ranges(f));
  }

  /** Integers are written one after the other. */
  lemma FieldsLayout(a: nat, rest: seq<nat>)
    requires Fits(a) && AllFit(rest)
    ensures AllFit([a] + rest) && EncodeFields([a] + rest) == EncodeVarint(a) + EncodeFields(rest)
  {
    hide EncodeVarint;
    assert ([a] + rest)[1..] == rest;
  }

  /** Bytes nobody here writes: a stream frame without a length, built by hand, is read to the end of the buffer. */
  lemma HandWrittenStream(id: nat, fin: bool, data: Bytes)
    requires Fits(id) && |data| <= 0x10_0000
    ensures
      var buf := [if fin then 0x09 else 0x08] + EncodeVarint(id) + data;
      Decode(buf) == Ok((Stream(id, 0, fin, data), |buf|))
  {
    hide EncodeVarint, EncodeFields, Decode, Ints;
    var first: byte := if fin then 0x09 else 0x08;
    var buf := [first] + EncodeVarint(id) + data;
    var p := 1 + |EncodeVarint(id)|;
    FieldsLayout(id, []);
    assert [id] + [] == [id];
    assert EncodeFields([]) == [] by { NothingEncodes(); }
    assert EncodeFields([id]) == EncodeVarint(id);
    assert buf[1..p] == EncodeVarint(id) && buf[p..|buf|] == data;
    WrittenInts(buf, 1, [id]);
    StreamToEndReads(buf, id, 0, fin, p);
  }

  /** Padding is written as that many zero bytes. */
  lemma PaddingLayout(run: nat)
    ensures |Encode(Padding(run))| == run && forall i :: 0 <= i < run ==> Encode(Padding(run))[i] == 0
  {
  }
}
