/** The other direction of the frame codec: what was decoded can be encoded again, and means the same. */
module QuicReencode {
  import opened MachineTypes
  import opened Endian
  import opened QuicVarint
  import opened QuicFrame
  import opened QuicRoundTrip

  // ----- Decoded integers fit -----

  lemma {:induction false} TopBitsBound(s: seq<byte>)
    requires s != [] && s[0] < 64
    ensures FromBe(s) < 64 * Pow256(|s| - 1)
  {
    if |s| > 1 { TopBitsBound(s[..|s| - 1]); }
  }

  lemma DecodedVarintFits(buf: Bytes, pos: nat)
    ensures DecodeVarint(buf, pos).Ok? ==> Fits(DecodeVarint(buf, pos).value.0)
  {
    if DecodeVarint(buf, pos).Ok? {
      var len := LenFrom(buf[pos]);
      TopBitsBound([buf[pos] % 64] + buf[pos + 1..pos + len]);
      PowValues();
    }
  }

  lemma {:induction false} DecodedFieldsFit(buf: Bytes, pos: nat, n: nat)
    ensures DecodeFields(buf, pos, n).Ok? ==> AllFit(DecodeFields(buf, pos, n).value.0)
    decreases n
  {
    hide DecodeVarint, Fits;
    if n > 0 {
      DecodedVarintFits(buf, pos);
      if DecodeVarint(buf, pos).Ok? { DecodedFieldsFit(buf, DecodeVarint(buf, pos).value.1, n - 1); }
    }
  }

  lemma {:induction false} DecodedRangesFit(buf: Bytes, pos: nat, n: nat)
    ensures
      var r := DecodeRanges(buf, pos, n);
      r.Ok? ==> |r.value.0| == n && RangesFit(r.value.0)
    decreases n
  {
    hide DecodeVarint, Fits;
    if n > 0 && DecodeRanges(buf, pos, n).Ok? {
      var gap := DecodeVarint(buf, pos).value;
      var range := DecodeVarint(buf, gap.1).value;
      DecodedVarintFits(buf, pos);
      DecodedVarintFits(buf, gap.1);
      DecodedRangesFit(buf, range.1, n - 1);
    }
  }

  // ----- Decoded frames can be encoded -----

  lemma AckEncodable(buf: Bytes, ecn: bool)
    requires |buf| >= 1 && DecodeAck(buf, ecn).Ok?
    ensures Encodable(DecodeAck(buf, ecn).value.0)
  {
    hide DecodeFields, DecodeRanges, Fits;
    var h := DecodeFields(buf, 1, 4).value;
    DecodedFieldsFit(buf, 1, 4);
    DecodedRangesFit(buf, h.1, h.0[2]);
  }

  lemma CryptoEncodable(buf: Bytes)
    requires |buf| >= 1 && DecodeCrypto(buf).Ok?
    ensures Encodable(DecodeCrypto(buf).value.0)
  {
    hide DecodeFields;
    DecodedFieldsFit(buf, 1, 2);
  }

  lemma StreamEncodable(buf: Bytes, offBit: bool, lenBit: bool, fin: bool)
    requires |buf| >= 1 && DecodeStream(buf, offBit, lenBit, fin).Ok?
    ensures Encodable(DecodeStream(buf, offBit, lenBit, fin).value.0)
  {
    hide DecodeFields;
    DecodedFieldsFit(buf, 1, 1 + (if offBit then 1 else 0) + (if lenBit then 1 else 0));
  }

  lemma CloseEncodable(buf: Bytes, app: bool)
    requires |buf| >= 1 && DecodeClose(buf, app).Ok?
    ensures Encodable(DecodeClose(buf, app).value.0)
  {
    hide DecodeFields;
    DecodedFieldsFit(buf, 1, if app then 2 else 3);
  }

  lemma DatagramEncodable(buf: Bytes)
    requires |buf| >= 1 && DecodeDatagram(buf).Ok?
    ensures Encodable(DecodeDatagram(buf).value.0)
  {
    hide DecodeFields;
  }

  lemma SimpleEncodable(buf: Bytes, ty: byte)
    requires |buf| >= 1 && DecodeSimple(buf, ty).Ok?
    ensures Encodable(DecodeSimple(buf, ty).value.0)
  {
    hide DecodeFields;
    DecodedFieldsFit(buf, 1, 1);
    DecodedFieldsFit(buf, 1, 2);
    DecodedFieldsFit(buf, 1, 3);
  }

  /** Only a datagram that runs to the end of the payload can be too large to encode again. */
  lemma DecodedEncodable(buf: Bytes)
    requires Decode(buf).Ok?
    ensures
      var f := Decode(buf).value.0;
      && (Encodable(f) <==> |Payload(f)| <= MAX_FRAME_PAYLOAD)
      && (!Encodable(f) ==> f.Datagram?)
  {
    hide DecodeAck, DecodeCrypto, DecodeStream, DecodeClose, DecodeDatagram, DecodeSimple, ZeroRun;
    var ty := buf[0];
    if ty == 0x02 || ty == 0x03 {
      AckEncodable(buf, ty == 0x03);
    } else if ty == 0x06 {
      CryptoEncodable(buf);
    } else if 0x08 <= ty <= 0x0F {
      StreamEncodable(buf, ty / 4 % 2 == 1, ty / 2 % 2 == 1, ty % 2 == 1);
    } else if ty == 0x1C || ty == 0x1D {
      CloseEncodable(buf, ty == 0x1D);
    } else if ty == 0x31 {
      DatagramEncodable(buf);
    } else if ty != 0x00 && ty != 0x01 && ty != 0x1E && ty != 0x30 {
      SimpleEncodable(buf, ty);
    }
  }

  // ----- Decoded padding is tidy -----

  lemma {:induction false} RunIsMaximal(buf: Bytes)
    ensures ZeroRun(buf) < |buf| ==> buf[ZeroRun(buf)] != 0
  {
    if buf != [] && buf[0] == 0 { RunIsMaximal(buf[1..]); }
  }

  /** Padding comes from a zero byte, and takes all that follow. */
  lemma PaddingFromZeros(buf: Bytes)
    requires Decode(buf).Ok?
    ensures
      var (f, n) := Decode(buf).value;
      && (f.Padding? <==> buf[0] == 0)
      && (f.Padding? ==> f.run > 0 && (n < |buf| ==> buf[n] != 0))
  {
    hide DecodeAck, DecodeCrypto, DecodeStream, DecodeClose, DecodeDatagram;
    RunIsMaximal(buf);
    NotPadding(buf);
  }

  lemma NotPadding(buf: Bytes)
    requires buf != []
    ensures forall ecn :: DecodeAck(buf, ecn).Ok? ==> !DecodeAck(buf, ecn).value.0.Padding?
    ensures DecodeCrypto(buf).Ok? ==> !DecodeCrypto(buf).value.0.Padding?
    ensures forall o, l, f :: DecodeStream(buf, o, l, f).Ok? ==> !DecodeStream(buf, o, l, f).value.0.Padding?
    ensures forall app :: DecodeClose(buf, app).Ok? ==> !DecodeClose(buf, app).value.0.Padding?
    ensures DecodeDatagram(buf).Ok? ==> !DecodeDatagram(buf).value.0.Padding?
  {
    hide DecodeFields, DecodeRanges, DecodePayload;
  }

  lemma {:induction false} DecodedTidy(buf: Bytes, fs: seq<Frame>)
    requires DecodeAll(buf) == Ok(fs)
    ensures Tidy(fs) && (fs != [] ==> buf != [] && (fs[0].Padding? <==> buf[0] == 0))
    decreases |buf|
  {
    hide Decode, Tidy;
    if buf == [] {
      assert Tidy(fs) by { NoFramesTidy(); }
    } else {
      PaddingFromZeros(buf);
      var (f, n) := Decode(buf).value;
      DecodedTidy(buf[n..], fs[1..]);
      TidyStep(fs);
      assert |fs| > 1 ==> fs[1] == fs[1..][0];
    }
  }

  lemma NoFramesTidy()
    ensures Tidy([])
  {
  }

  lemma {:induction false} DecodedAllEncodable(buf: Bytes, fs: seq<Frame>)
    requires DecodeAll(buf) == Ok(fs)
    ensures forall k :: 0 <= k < |fs| ==>
              (Encodable(fs[k]) <==> |Payload(fs[k])| <= MAX_FRAME_PAYLOAD) && (!Encodable(fs[k]) ==> fs[k].Datagram?)
    decreases |buf|
  {
    hide Decode, Encodable, Payload;
    if buf != [] {
      DecodedEncodable(buf);
      var (f, n) := Decode(buf).value;
      DecodedAllEncodable(buf[n..], fs[1..]);
      forall k | 0 < k < |fs|
        ensures (Encodable(fs[k]) <==> |Payload(fs[k])| <= MAX_FRAME_PAYLOAD) && (!Encodable(fs[k]) ==> fs[k].Datagram?)
      {
        assert fs[k] == fs[1..][k - 1];
      }
    }
  }

  /** No datagram in the list is larger than a frame may carry. */
  predicate NoHugeDatagram(fs: seq<Frame>) {
    forall k :: 0 <= k < |fs| && fs[k].Datagram? ==> |fs[k].data| <= MAX_FRAME_PAYLOAD
  }

  /**
   * On any bytes that decode, the frames are tidy, and can be encoded again if
   * and only if no datagram among them is too large; what they are then encoded
   * to decodes to the very same frames.
   */
  lemma DecodedReencodes(buf: Bytes, fs: seq<Frame>)
    requires DecodeAll(buf) == Ok(fs)
    ensures Tidy(fs) && (AllEncodable(fs) <==> NoHugeDatagram(fs))
    ensures NoHugeDatagram(fs) ==> DecodeAll(EncodeAll(fs)) == Ok(fs)
  {
    hide *;
    DecodedTidy(buf, fs);
    DecodedEncodableIff(buf, fs);
    if AllEncodable(fs) { ExactRoundTrip(fs); }
  }

  lemma DecodedEncodableIff(buf: Bytes, fs: seq<Frame>)
    requires DecodeAll(buf) == Ok(fs)
    ensures AllEncodable(fs) <==> NoHugeDatagram(fs)
  {
    hide DecodeAll, Encodable;
    DecodedAllEncodable(buf, fs);
  }
}
