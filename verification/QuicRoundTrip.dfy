/** Decoding a payload gives back the frames that were written, with runs of padding joined. */
module QuicRoundTrip {
  import opened MachineTypes
  import opened Slices
  import opened QuicVarint
  import opened QuicFrame

  lemma {:induction false} FieldsRoundTrip(buf: Bytes, pos: nat, vs: seq<nat>)
    requires AllFit(vs) && At(buf, pos, EncodeFields(vs))
    ensures DecodeFields(buf, pos, |vs|) == Ok((vs, pos + |EncodeFields(vs)|))
    decreases |vs|
  {
    hide EncodeVarint, DecodeVarint;
    if vs != [] {
      assert Fits(vs[0]);
      AtSplit(buf, pos, EncodeVarint(vs[0]), EncodeFields(vs[1..]));
      VarintRoundTrip(buf, pos, vs[0]);
      FieldsRoundTrip(buf, pos + |EncodeVarint(vs[0])|, vs[1..]);
      assert [vs[0]] + vs[1..] == vs;
    }
  }

  lemma {:induction false} RangesRoundTrip(buf: Bytes, pos: nat, rs: seq<AckRange>)
    requires RangesFit(rs) && At(buf, pos, EncodeRanges(rs))
    ensures DecodeRanges(buf, pos, |rs|) == Ok((rs, pos + |EncodeRanges(rs)|))
    decreases |rs|
  {
    hide EncodeVarint, DecodeVarint;
    if rs != [] {
      var gap, range := EncodeVarint(rs[0].gap), EncodeVarint(rs[0].range);
      AtSplit(buf, pos, gap + range, EncodeRanges(rs[1..]));
      AtSplit(buf, pos, gap, range);
      VarintRoundTrip(buf, pos, rs[0].gap);
      VarintRoundTrip(buf, pos + |gap|, rs[0].range);
      RangesRoundTrip(buf, pos + |gap| + |range|, rs[1..]);
      assert [rs[0]] + rs[1..] == rs;
    }
  }

  lemma LayoutParts(buf: Bytes, ty: byte, fields: Bytes, ranges: Bytes, payload: Bytes)
    requires At(buf, 0, [ty] + fields + ranges + payload)
    ensures At(buf, 0, [ty]) && At(buf, 1, fields) && At(buf, 1 + |fields|, ranges)
    ensures At(buf, 1 + |fields| + |ranges|, payload)
  {
    AtSplit(buf, 0, [ty] + fields + ranges, payload);
    AtSplit(buf, 0, [ty] + fields, ranges);
    AtSplit(buf, 0, [ty], fields);
  }

  lemma PayloadReads(buf: Bytes, pos: nat, payload: Bytes)
    requires |payload| <= MAX_FRAME_PAYLOAD && At(buf, pos, payload)
    ensures DecodePayload(buf, pos, |payload|) == Ok((payload, pos + |payload|))
  {
  }

  lemma NoFields(buf: Bytes, pos: nat)
    ensures DecodeFields(buf, pos, 0) == Ok(([], pos))
  {
  }

  /** The parts of a frame have been read from behind its type byte. */
  ghost predicate PartsRead(f: Frame, buf: Bytes, p: nat, q: nat) {
    && |buf| >= 1 && buf[0] == TypeByte(f)
    && DecodeFields(buf, 1, |Fields(f)|) == Ok((Fields(f), p))
    && DecodeRanges(buf, p, |Ranges(f)|) == Ok((Ranges(f), q))
    && DecodePayload(buf, q, |Payload(f)|) == Ok((Payload(f), q + |Payload(f)|))
    && (Ranges(f) == [] ==> q == p) && (Fields(f) == [] ==> p == 1)
  }

  lemma LayoutReads(f: Frame, buf: Bytes, fields: Bytes, ranges: Bytes)
    requires Encodable(f) && fields == EncodeFields(Fields(f)) && ranges == EncodeRanges(Ranges(f))
    requires At(buf, 0, [TypeByte(f)] + fields + ranges + Payload(f))
    ensures PartsRead(f, buf, 1 + |fields|, 1 + |fields| + |ranges|)
  {
    hide At, EncodeFields, EncodeRanges, DecodeFields, DecodeRanges, DecodePayload;
    hide Fields, Ranges, Payload, TypeByte, AllFit, RangesFit;
    NothingEncodes();
    LayoutParts(buf, TypeByte(f), fields, ranges, Payload(f));
    TypeReads(buf, TypeByte(f));
    FieldsRoundTrip(buf, 1, Fields(f));
    RangesRoundTrip(buf, 1 + |fields|, Ranges(f));
    PayloadReads(buf, 1 + |fields| + |ranges|, Payload(f));
  }

  lemma NothingEncodes()
    ensures EncodeFields([]) == [] && EncodeRanges([]) == []
  {
  }

  lemma TypeReads(buf: Bytes, ty: byte)
    requires At(buf, 0, [ty])
    ensures |buf| >= 1 && buf[0] == ty
  {
    AtIndex(buf, 0, [ty], 0);
  }

  lemma DecodeFromParts(f: Frame, buf: Bytes, p: nat, q: nat)
    requires !f.Padding? && PartsRead(f, buf, p, q)
    ensures Decode(buf) == Ok((f, q + |Payload(f)|))
  {
    hide DecodeFields, DecodeRanges, DecodePayload, ZeroRun;
    NoFields(buf, q);
    match f
    case Ack(_, _, _, _) =>
    case Stream(_, _, _, _) =>
    case ConnectionClose(_, _, _) =>
    case Crypto(_, _) =>
    case Datagram(_) =>
    case _ =>
  }

  /** Any encodable frame but padding reads back, whatever follows it. */
  lemma FrameRoundTrip(f: Frame, buf: Bytes)
    requires Encodable(f) && !f.Padding? && At(buf, 0, Encode(f))
    ensures Decode(buf) == Ok((f, |Encode(f)|))
  {
    hide At, EncodeFields, EncodeRanges, Decode, Fields, Ranges, Payload, TypeByte, PartsRead;
    var fields, ranges := EncodeFields(Fields(f)), EncodeRanges(Ranges(f));
    LayoutReads(f, buf, fields, ranges);
    DecodeFromParts(f, buf, 1 + |fields|, 1 + |fields| + |ranges|);
  }

  // ----- Whole payloads -----

  predicate AllEncodable(fs: seq<Frame>) {
    forall k :: 0 <= k < |fs| ==> Encodable(fs[k])
  }

  function EncodeAll(fs: seq<Frame>): Bytes
    requires AllEncodable(fs)
  {
    if fs == [] then [] else Encode(fs[0]) + EncodeAll(fs[1..])
  }

  /** Padding in front of frames, joined with a padding run they may start with. */
  function PutPadding(n: nat, fs: seq<Frame>): seq<Frame> {
    if fs != [] && fs[0].Padding? then [Padding(n + fs[0].run)] + fs[1..] else [Padding(n)] + fs
  }

  /** Frames with empty padding dropped and neighbouring padding joined. */
  function Coalesce(fs: seq<Frame>): seq<Frame> {
    if fs == [] then []
    else if !fs[0].Padding? then [fs[0]] + Coalesce(fs[1..])
    else if fs[0].run == 0 then Coalesce(fs[1..])
    else PutPadding(fs[0].run, Coalesce(fs[1..]))
  }

  lemma {:induction false} ZeroRunAdds(n: nat, rest: Bytes)
    ensures ZeroRun(seq(n, _ => 0) + rest) == n + ZeroRun(rest)
  {
    var zeros: Bytes := seq(n, _ => 0);
    if n == 0 {
      assert zeros + rest == rest;
    } else {
      ZeroRunAdds(n - 1, rest);
      assert (zeros + rest)[1..] == seq(n - 1, _ => 0) + rest;
    }
  }

  lemma StartsWithPadding(buf: Bytes)
    requires buf != [] && Decode(buf).Ok?
    ensures Decode(buf).value.0.Padding? <==> buf[0] == 0
    ensures buf[0] == 0 ==> Decode(buf) == Ok((Padding(ZeroRun(buf)), ZeroRun(buf)))
  {
    hide DecodeFields, DecodeRanges, DecodePayload, ZeroRun;
  }

  lemma ZerosInFront(n: nat, rest: Bytes, fs: seq<Frame>)
    requires n > 0 && DecodeAll(rest) == Ok(fs)
    ensures DecodeAll(seq(n, _ => 0) + rest) == Ok(PutPadding(n, fs))
  {
    hide Decode, ZeroRun;
    var buf: Bytes := seq(n, _ => 0) + rest;
    ZeroRunAdds(n, rest);
    ZeroDecodes(buf);
    if rest == [] {
      NoZeros(rest);
      assert buf[n..] == [];
    } else {
      StartsWithPadding(rest);
      if rest[0] == 0 {
        var z := ZeroRun(rest);
        assert buf[n + z..] == rest[z..];
      } else {
        NoZeros(rest);
        assert buf[n..] == rest;
      }
    }
  }

  lemma ZeroDecodes(buf: Bytes)
    requires buf != [] && buf[0] == 0
    ensures Decode(buf) == Ok((Padding(ZeroRun(buf)), ZeroRun(buf)))
  {
  }

  lemma NoZeros(buf: Bytes)
    requires buf == [] || buf[0] != 0
    ensures ZeroRun(buf) == 0
  {
  }

  /** Decoding what was encoded gives the frames back, with padding coalesced; nothing else changes. */
  lemma {:induction false} PayloadRoundTrip(fs: seq<Frame>)
    requires AllEncodable(fs)
    ensures DecodeAll(EncodeAll(fs)) == Ok(Coalesce(fs))
  {
    hide Encode, Encodable, Decode, PutPadding;
    if fs != [] {
      PayloadRoundTrip(fs[1..]);
      var f, rest := fs[0], EncodeAll(fs[1..]);
      assert Encodable(f);
      var buf := Encode(f) + rest;
      if f.Padding? {
        PaddingEncodes(f);
        if f.run == 0 {
          assert buf == rest;
        } else {
          ZerosInFront(f.run, rest, Coalesce(fs[1..]));
        }
      } else {
        assert At(buf, 0, Encode(f));
        FrameRoundTrip(f, buf);
        assert buf[|Encode(f)|..] == rest;
      }
    }
  }

  lemma PaddingEncodes(f: Frame)
    requires Encodable(f) && f.Padding?
    ensures Encode(f) == seq(f.run, _ => 0)
  {
  }

  /** No padding frame is empty or next to another one. */
  predicate Tidy(fs: seq<Frame>) {
    forall i :: 0 <= i < |fs| && fs[i].Padding? ==> fs[i].run > 0 && (i + 1 < |fs| ==> !fs[i + 1].Padding?)
  }

  lemma TidyStep(fs: seq<Frame>)
    requires fs != []
    ensures Tidy(fs) <==>
              && Tidy(fs[1..])
              && (fs[0].Padding? ==> fs[0].run > 0 && (|fs| > 1 ==> !fs[1].Padding?))
  {
    var rest := fs[1..];
    assert forall i :: 0 <= i < |rest| ==> rest[i] == fs[i + 1];
    if Tidy(rest) && (fs[0].Padding? ==> fs[0].run > 0 && (|fs| > 1 ==> !fs[1].Padding?)) {
      forall i | 0 <= i < |fs| && fs[i].Padding? ensures fs[i].run > 0 && (i + 1 < |fs| ==> !fs[i + 1].Padding?) {
        if i > 0 { assert rest[i - 1].Padding?; }
      }
    }
    if Tidy(fs) {
      forall i | 0 <= i < |rest| && rest[i].Padding? ensures rest[i].run > 0 && (i + 1 < |rest| ==> !rest[i + 1].Padding?) {
        assert fs[i + 1].Padding?;
      }
    }
  }

  lemma {:induction false} CoalesceKeeps(fs: seq<Frame>)
    ensures |Coalesce(fs)| <= |fs| && (Coalesce(fs) == fs <==> Tidy(fs))
  {
    if fs != [] {
      CoalesceKeeps(fs[1..]);
      TidyStep(fs);
      var c := Coalesce(fs[1..]);
      assert [fs[0]] + fs[1..] == fs;
      if Coalesce(fs) == [fs[0]] + c {
        assert Coalesce(fs)[1..] == c;
      }
    }
  }

  /** The very same frames come back if and only if the padding was tidy. */
  lemma ExactRoundTrip(fs: seq<Frame>)
    requires AllEncodable(fs)
    ensures DecodeAll(EncodeAll(fs)) == Ok(fs) <==> Tidy(fs)
  {
    PayloadRoundTrip(fs);
    CoalesceKeeps(fs);
  }

  /** A concrete case: two adjacent runs of padding come back as one. */
  lemma AdjacentPaddingMerges()
    ensures DecodeAll(EncodeAll([Padding(1), Padding(1)])) == Ok([Padding(2)])
  {
    var fs := [Padding(1), Padding(1)];
    PayloadRoundTrip(fs);
    assert fs[1..] == [Padding(1)] && fs[1..][1..] == [];
    assert PutPadding(1, []) == [Padding(1)] && PutPadding(1, [Padding(1)]) == [Padding(2)];
    assert Coalesce(fs[1..]) == [Padding(1)];
    assert Coalesce(fs) == [Padding(2)];
  }

  ghost predicate FrameBetween(buf: Bytes, f: Frame, from: nat, to: nat) {
    from < to <= |buf| && Decode(buf[from..]) == Ok((f, to - from))
  }

  /** Each frame starts where the one before ended, and the last ends the buffer. */
  ghost predicate Tiles(buf: Bytes, fs: seq<Frame>, cuts: seq<nat>) {
    && |cuts| == |fs| + 1 && cuts[0] == 0 && cuts[|fs|] == |buf|
    && forall i :: 0 <= i < |fs| ==> FrameBetween(buf, fs[i], cuts[i], cuts[i + 1])
  }

  lemma FrameBetweenShift(buf: Bytes, n: nat, f: Frame, from: nat, to: nat)
    requires n <= |buf| && FrameBetween(buf[n..], f, from, to)
    ensures FrameBetween(buf, f, n + from, n + to)
  {
    hide Decode;
    assert buf[n..][from..] == buf[n + from..];
  }

  function Shifted(cuts: seq<nat>, n: nat): (r: seq<nat>)
    ensures |r| == |cuts| && forall i :: 0 <= i < |cuts| ==> r[i] == n + cuts[i]
  {
    seq(|cuts|, i requires 0 <= i < |cuts| => n + cuts[i])
  }

  lemma TilesStep(buf: Bytes, f: Frame, n: nat, fs: seq<Frame>, cuts: seq<nat>)
    requires FrameBetween(buf, f, 0, n) && Tiles(buf[n..], fs, cuts)
    ensures Tiles(buf, [f] + fs, [0] + Shifted(cuts, n))
  {
    hide FrameBetween;
    BetweenFits(buf, f, 0, n);
    var cuts' := [0] + Shifted(cuts, n);
    forall i | 0 <= i < |fs| + 1 ensures FrameBetween(buf, ([f] + fs)[i], cuts'[i], cuts'[i + 1]) {
      if i > 0 { FrameBetweenShift(buf, n, fs[i - 1], cuts[i - 1], cuts[i]); }
    }
  }

  lemma BetweenFits(buf: Bytes, f: Frame, from: nat, to: nat)
    requires FrameBetween(buf, f, from, to)
    ensures from < to <= |buf|
  {
  }

  /** A payload that decodes is tiled exactly by its frames. */
  lemma {:induction false} DecodedFramesTile(buf: Bytes, fs: seq<Frame>) returns (cuts: seq<nat>)
    requires DecodeAll(buf) == Ok(fs)
    ensures Tiles(buf, fs, cuts)
    decreases |buf|
  {
    hide Decode, Tiles;
    if buf == [] {
      cuts := [0];
      EmptyTiles();
    } else {
      var (f, n) := Decode(buf).value;
      var rest := DecodedFramesTile(buf[n..], fs[1..]);
      assert buf[0..] == buf;
      assert FrameBetween(buf, f, 0, n);
      TilesStep(buf, f, n, fs[1..], rest);
      cuts := [0] + Shifted(rest, n);
      assert [f] + fs[1..] == fs;
    }
  }

  lemma EmptyTiles()
    ensures Tiles([], [], [0])
  {
  }
}
