/**
 * The receive side of a QUIC stream: chunks arrive in any order, repeated and
 * overlapping, and reads return the contiguous front (section 2.2 of RFC 9000).
 */
module QuicStream {
  import opened MachineTypes
  import opened Ordered

  type Bytes = seq<byte>

  /** Stored chunks by start offset, and how far the application has read. */
  datatype Recv = Recv(chunks: map<nat, Bytes>, readOff: nat, finalSize: Option<nat>)

  const EMPTY := Recv(map[], 0, None)

  function StartOf(r: Recv, offset: nat): nat {
    if offset >= r.readOff then offset else r.readOff
  }

  /** The chunk reaches past what was read, and no chunk is stored at its start. */
  predicate IsStored(r: Recv, offset: nat, data: Bytes) {
    offset + |data| > r.readOff && data != [] && StartOf(r, offset) !in r.chunks
  }

  function Ingest(r: Recv, offset: nat, data: Bytes, fin: bool): Recv {
    Recv(if IsStored(r, offset, data)
         then r.chunks[StartOf(r, offset) := data[StartOf(r, offset) - offset..]] else r.chunks,
         r.readOff,
         if fin then Some(offset + |data|) else r.finalSize)
  }

  // ----- Taking the contiguous front -----

  /** The bytes from `off` on that the chunks continue without a gap, what remains, and where reading stops. */
  function Drain(chunks: map<nat, Bytes>, off: nat): (Bytes, map<nat, Bytes>, nat)
    decreases |chunks|
  {
    if chunks == map[] then ([], chunks, off)
    else
      var k := FirstKey(chunks);
      if k > off then ([], chunks, off)
      else
        var rest := Without(chunks, k);
        var data := chunks[k];
        WithoutSmaller(chunks, k);
        if off - k < |data| then
          var (out, left, stop) := Drain(rest, k + |data|);
          (data[off - k..] + out, left, stop)
        else Drain(rest, off)
  }

  lemma DrainStep(chunks: map<nat, Bytes>, off: nat, k: nat)
    requires chunks != map[] && k == FirstKey(chunks) && k <= off
    ensures
      var data := chunks[k];
      var (out, left, stop) := Drain(Without(chunks, k), if off - k < |data| then k + |data| else off);
      Drain(chunks, off) == (if off - k < |data| then data[off - k..] + out else out, left, stop)
  {
  }

  lemma DrainEnds(chunks: map<nat, Bytes>, off: nat)
    requires chunks == map[] || FirstKey(chunks) > off
    ensures Drain(chunks, off) == ([], chunks, off)
  {
  }

  function Read(r: Recv): (Bytes, Recv) {
    var (out, left, stop) := Drain(r.chunks, r.readOff);
    (out, r.(chunks := left, readOff := stop))
  }

  predicate Finished(r: Recv) {
    r.finalSize.Some? && r.readOff >= r.finalSize.value
  }

  class RecvStream {
    var chunks: map<nat, Bytes>
    var readOff: nat
    var finalSize: Option<nat>

    ghost function View(): Recv
      reads this
    {
      Recv(chunks, readOff, finalSize)
    }

    constructor ()
      ensures View() == EMPTY
    {
      chunks, readOff, finalSize := map[], 0, None;
    }

    method IngestChunk(offset: nat, data: Bytes, fin: bool)
      modifies this
      ensures View() == Ingest(old(View()), offset, data, fin)
    {
      if fin {
        finalSize := Some(offset + |data|);
      }
      var end := offset + |data|;
      if end <= readOff || |data| == 0 {
        return;
      }
      var start := if offset >= readOff then offset else readOff;
      if start !in chunks {
        chunks := chunks[start := data[start - offset..]];
      }
    }

    method ReadPrefix() returns (out: Bytes)
      modifies this
      ensures (out, View()) == Read(old(View()))
    {
      hide Drain;
      out := [];
      ghost var (all, left, stop) := Drain(chunks, readOff);
      while chunks != map[]
        invariant var (rest, left', stop') := Drain(chunks, readOff);
                  all == out + rest && left == left' && stop == stop'
        invariant finalSize == old(finalSize)
        decreases |chunks|
      {
        var k := FirstKey(chunks);
        if k > readOff {
          break;
        }
        var data := chunks[k];
        WithoutSmaller(chunks, k);
        var skip := readOff - k;
        DrainStep(chunks, readOff, k);
        chunks := Without(chunks, k);
        if skip < |data| {
          ghost var after := Drain(chunks, k + |data|);
          assert out + (data[skip..] + after.0) == (out + data[skip..]) + after.0;
          out := out + data[skip..];
          readOff := readOff + (|data| - skip);
        }
      }
      DrainEnds(chunks, readOff);
      assert out + [] == out;
    }
  }

  // ----- Bytes held -----

  /** The byte at position p was read already or lies in a stored chunk. */
  ghost predicate Held(chunks: map<nat, Bytes>, off: nat, p: nat) {
    p < off || exists k :: k in chunks && k <= p < k + |chunks[k]|
  }

  ghost predicate Holds(r: Recv, p: nat) {
    Held(r.chunks, r.readOff, p)
  }

  /** Every stored chunk and everything read agree with the sender's bytes. */
  ghost predicate Agrees(chunks: map<nat, Bytes>, off: nat, sent: Bytes) {
    && off <= |sent|
    && forall k :: k in chunks ==> chunks[k] != [] && k + |chunks[k]| <= |sent| && chunks[k] == sent[k..k + |chunks[k]|]
  }

  lemma ChunkAgrees(chunks: map<nat, Bytes>, off: nat, sent: Bytes, k: nat)
    requires Agrees(chunks, off, sent) && k in chunks
    ensures k + |chunks[k]| <= |sent| && chunks[k] == sent[k..k + |chunks[k]|]
    ensures Agrees(Without(chunks, k), off, sent) && Agrees(Without(chunks, k), k + |chunks[k]|, sent)
  {
  }

  lemma ContinuedSlice(sent: Bytes, k: nat, off: nat, data: Bytes, stop: nat)
    requires k <= off < k + |data| <= stop <= |sent| && data == sent[k..k + |data|]
    ensures data[off - k..] + sent[k + |data|..stop] == sent[off..stop]
  {
  }

  lemma {:induction false} DrainAgrees(chunks: map<nat, Bytes>, off: nat, sent: Bytes)
    requires Agrees(chunks, off, sent)
    ensures
      var (out, left, stop) := Drain(chunks, off);
      off <= stop && Agrees(left, stop, sent) && out == sent[off..stop]
    decreases |chunks|
  {
    hide Agrees;
    AgreesBound(chunks, off, sent);
    if chunks == map[] || FirstKey(chunks) > off {
      assert sent[off..off] == [];
    } else {
      var k := FirstKey(chunks);
      var rest, data := Without(chunks, k), chunks[k];
      WithoutSmaller(chunks, k);
      ChunkAgrees(chunks, off, sent, k);
      if off - k < |data| {
        DrainAgrees(rest, k + |data|, sent);
        var (_, left, stop) := Drain(rest, k + |data|);
        AgreesBound(left, stop, sent);
        ContinuedSlice(sent, k, off, data, stop);
      } else {
        DrainAgrees(rest, off, sent);
      }
    }
  }

  /** Draining keeps the held bytes the same and stops at the first byte not held. */
  lemma {:induction false} DrainStops(chunks: map<nat, Bytes>, off: nat)
    ensures
      var (_, left, stop) := Drain(chunks, off);
      && off <= stop && (forall p :: Held(left, stop, p) <==> Held(chunks, off, p))
      && !Held(left, stop, stop)
    decreases |chunks|
  {
    if chunks != map[] {
      var k := FirstKey(chunks);
      if k <= off {
        var rest := Without(chunks, k);
        var off' := if off - k < |chunks[k]| then k + |chunks[k]| else off;
        DrainStops(rest, off');
        forall p ensures Held(rest, off', p) <==> Held(chunks, off, p) { DropKey(chunks, off, k, p); }
      }
    }
  }

  lemma DropKey(chunks: map<nat, Bytes>, off: nat, k: nat, p: nat)
    requires k in chunks && k <= off
    ensures Held(Without(chunks, k), if off < k + |chunks[k]| then k + |chunks[k]| else off, p) <==> Held(chunks, off, p)
  {
    if Held(chunks, off, p) && p >= off {
      var j :| j in chunks && j <= p < j + |chunks[j]|;
      if j != k { assert j in Without(chunks, k); }
    }
  }

  // ----- Runs -----

  datatype Step = Arrive(offset: nat, data: Bytes, fin: bool) | TakeFront

  /** What the application has been given so far, beside the stream state. */
  datatype Session = Session(recv: Recv, given: Bytes)

  function Next(s: Session, step: Step): Session {
    match step
    case Arrive(offset, data, fin) => s.(recv := Ingest(s.recv, offset, data, fin))
    case TakeFront => var (out, r) := Read(s.recv); Session(r, s.given + out)
  }

  function Run(s: Session, steps: seq<Step>): Session
    decreases |steps|
  {
    if steps == [] then s else Run(Next(s, steps[0]), steps[1..])
  }

  /** The chunk is a piece of the sender's stream; a final one ends it. */
  ghost predicate Genuine(step: Step, sent: Bytes) {
    step.Arrive? ==>
      && step.offset + |step.data| <= |sent|
      && step.data == sent[step.offset..step.offset + |step.data|]
      && (step.fin ==> step.offset + |step.data| == |sent|)
  }

  ghost predicate Faithful(s: Session, sent: Bytes) {
    && Agrees(s.recv.chunks, s.recv.readOff, sent)
    && s.given == sent[..s.recv.readOff]
    && (s.recv.finalSize.Some? ==> s.recv.finalSize.value == |sent|)
  }

  lemma AgreesInsert(chunks: map<nat, Bytes>, off: nat, sent: Bytes, start: nat, piece: Bytes)
    requires Agrees(chunks, off, sent) && piece != [] && start + |piece| <= |sent| && piece == sent[start..start + |piece|]
    ensures Agrees(chunks[start := piece], off, sent)
  {
  }

  lemma IngestFaithful(r: Recv, offset: nat, data: Bytes, fin: bool, sent: Bytes)
    requires Agrees(r.chunks, r.readOff, sent) && offset + |data| <= |sent| && data == sent[offset..offset + |data|]
    ensures Agrees(Ingest(r, offset, data, fin).chunks, r.readOff, sent)
  {
    hide Agrees;
    if IsStored(r, offset, data) {
      var start := StartOf(r, offset);
      var piece := data[start - offset..];
      assert piece == sent[start..start + |piece|];
      AgreesInsert(r.chunks, r.readOff, sent, start, piece);
    }
  }

  lemma NextFaithful(s: Session, step: Step, sent: Bytes)
    requires Faithful(s, sent) && Genuine(step, sent)
    ensures Faithful(Next(s, step), sent)
  {
    hide Agrees, Drain;
    match step
    case Arrive(offset, data, fin) => IngestFaithful(s.recv, offset, data, fin, sent);
    case TakeFront =>
      DrainAgrees(s.recv.chunks, s.recv.readOff, sent);
      var (_, _, stop) := Drain(s.recv.chunks, s.recv.readOff);
      AgreesBound(s.recv.chunks, s.recv.readOff, sent);
      AgreesBound(Next(s, step).recv.chunks, stop, sent);
      assert sent[..s.recv.readOff] + sent[s.recv.readOff..stop] == sent[..stop];
  }

  lemma AgreesBound(chunks: map<nat, Bytes>, off: nat, sent: Bytes)
    requires Agrees(chunks, off, sent)
    ensures off <= |sent|
  {
  }

  /**
   * However chunks are reordered, repeated or overlapped, the application is
   * given exactly a prefix of what was sent, and is told it is finished only
   * when that prefix is everything.
   */
  lemma {:induction false} OrderedDelivery(s: Session, steps: seq<Step>, sent: Bytes)
    requires Faithful(s, sent) && forall i :: 0 <= i < |steps| ==> Genuine(steps[i], sent)
    ensures
      var end := Run(s, steps);
      && Faithful(end, sent)
      && end.given == sent[..|end.given|]
      && (Finished(end.recv) ==> end.given == sent)
    decreases |steps|
  {
    hide Agrees, Next, Genuine;
    if steps == [] {
      AgreesBound(s.recv.chunks, s.recv.readOff, sent);
      assert sent[..|sent|] == sent;
    } else {
      NextFaithful(s, steps[0], sent);
      OrderedDelivery(Next(s, steps[0]), steps[1..], sent);
    }
  }

  ghost predicate FinArrives(steps: seq<Step>) {
    exists i :: 0 <= i < |steps| && steps[i].Arrive? && steps[i].fin
  }

  lemma {:induction false} FinalSizeKnown(s: Session, steps: seq<Step>)
    ensures Run(s, steps).recv.finalSize.Some? <==> s.recv.finalSize.Some? || FinArrives(steps)
    decreases |steps|
  {
    if steps != [] {
      hide Drain;
      FinalSizeKnown(Next(s, steps[0]), steps[1..]);
      if FinArrives(steps[1..]) {
        var i :| 0 <= i < |steps[1..]| && steps[1..][i].Arrive? && steps[1..][i].fin;
        assert steps[i + 1].Arrive? && steps[i + 1].fin;
      }
      if i :| 0 < i < |steps| && steps[i].Arrive? && steps[i].fin {
        assert steps[1..][i - 1].Arrive? && steps[1..][i - 1].fin;
      }
    }
  }

  /** A stream read from the start is finished if and only if its end has arrived and all of it was given out. */
  lemma FinishedIff(steps: seq<Step>, sent: Bytes)
    requires forall i :: 0 <= i < |steps| ==> Genuine(steps[i], sent)
    ensures
      var end := Run(Session(EMPTY, []), steps);
      Finished(end.recv) <==> FinArrives(steps) && end.given == sent
  {
    hide Run, FinArrives;
    var s := Session(EMPTY, []);
    assert Faithful(s, sent) by { assert sent[..0] == []; }
    OrderedDelivery(s, steps, sent);
    FinalSizeKnown(s, steps);
    AgreesBound(Run(s, steps).recv.chunks, Run(s, steps).recv.readOff, sent);
  }

  /** A read goes exactly up to the first byte not held. */
  lemma ReadStopsAtGap(r: Recv)
    ensures
      var (out, r') := Read(r);
      && r'.readOff >= r.readOff && !Holds(r', r'.readOff)
      && (forall p: nat :: p < r'.readOff ==> Holds(r, p)) && !Holds(r, r'.readOff)
  {
    DrainStops(r.chunks, r.readOff);
    var (_, left, stop) := Drain(r.chunks, r.readOff);
    assert forall p: nat :: p < stop ==> Held(left, stop, p);
  }

  // ----- What an arrival adds -----

  /** The arriving bytes are all held afterwards. */
  ghost predicate Absorbed(r: Recv, offset: nat, data: Bytes, fin: bool) {
    forall p :: offset <= p < offset + |data| ==> Holds(Ingest(r, offset, data, fin), p)
  }

  /** Its start is free, or the bytes are held already. */
  ghost predicate RoomFor(r: Recv, offset: nat, data: Bytes) {
    || StartOf(r, offset) !in r.chunks
    || forall p :: offset <= p < offset + |data| ==> Holds(r, p)
  }

  /** An arrival adds exactly its unread bytes when its start is free, and nothing otherwise; nothing held is lost. */
  lemma IngestAdds(r: Recv, offset: nat, data: Bytes, fin: bool, p: nat)
    ensures Holds(Ingest(r, offset, data, fin), p)
            <==> Holds(r, p) || (IsStored(r, offset, data) && StartOf(r, offset) <= p < offset + |data|)
  {
    var r' := Ingest(r, offset, data, fin);
    var start := StartOf(r, offset);
    if IsStored(r, offset, data) {
      assert r'.chunks == r.chunks[start := data[start - offset..]];
      if p >= r.readOff && Holds(r, p) {
        var k :| k in r.chunks && k <= p < k + |r.chunks[k]|;
        assert r'.chunks[k] == r.chunks[k];
      }
      if start <= p < offset + |data| {
        assert start in r'.chunks && start <= p < start + |r'.chunks[start]|;
      }
    } else {
      assert r'.chunks == r.chunks && r'.readOff == r.readOff;
    }
  }

  /**
   * An arrival is absorbed whole if and only if no chunk is stored at its start,
   * or nothing in it is new: a longer chunk at an occupied start is dropped.
   */
  lemma AbsorbedIff(r: Recv, offset: nat, data: Bytes, fin: bool)
    ensures Absorbed(r, offset, data, fin) <==> RoomFor(r, offset, data)
  {
    forall p | offset <= p < offset + |data|
      ensures Holds(Ingest(r, offset, data, fin), p) <==> Holds(r, p) || IsStored(r, offset, data)
    {
      IngestAdds(r, offset, data, fin, p);
    }
  }

  /** A short chunk followed by a longer one at the same offset: the extra bytes are not kept. */
  lemma LongerRepeatIsDropped(a: byte, b: byte)
    ensures
      var r := Ingest(EMPTY, 0, [a], false);
      Read(Ingest(r, 0, [a, b], false)).0 == [a]
  {
    var r := Ingest(EMPTY, 0, [a], false);
    assert [a][0..] == [a];
    assert r.chunks == map[0 := [a]] && Ingest(r, 0, [a, b], false) == r;
    assert FirstKey(r.chunks) == 0;
    assert Without(r.chunks, 0) == map[];
    assert Drain(map[], 1) == ([], map[], 1);
  }
}
