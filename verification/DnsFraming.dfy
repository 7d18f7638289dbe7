/** Two-octet length framing over TCP, and the reader that accumulates chunks until a frame is whole. */
module DnsFraming {
  import opened MachineTypes
  import opened Endian
  import opened Chunks

  function Frame(msg: Bytes): Bytes
    requires |msg| <= 0xFFFF
  {
    U16Bytes(|msg|) + msg
  }

  /** A whole frame at the front of the buffer, and what follows it. */
  function TryRead(buf: Bytes): (r: Option<(Bytes, Bytes)>)
    ensures r.Some? ==> |r.value.0| <= 0xFFFF && Frame(r.value.0) + r.value.1 == buf
  {
    if |buf| < 2 then None
    else
      var len := U16At(buf, 0);
      if |buf| < 2 + len then None
      else
        assert U16Bytes(len) == buf[..2];
        Some((buf[2..2 + len], buf[2 + len..]))
  }

  /** A framed message is read back exactly, whatever follows. */
  lemma FrameRoundTrip(msg: Bytes, rest: Bytes)
    requires |msg| <= 0xFFFF
    ensures TryRead(Frame(msg) + rest) == Some((msg, rest))
  {
    var buf := Frame(msg) + rest;
    assert buf[0] == U16Bytes(|msg|)[0] && buf[1] == U16Bytes(|msg|)[1];
    assert buf[2..2 + |msg|] == msg && buf[2 + |msg|..] == rest;
  }

  /** A frame is the length, high octet first, and the message. */
  lemma FrameLayout(msg: Bytes)
    requires |msg| <= 0xFFFF
    ensures Frame(msg) == [|msg| / 256, |msg| % 256] + msg
  {
  }

  /** More bytes never change a frame that is already whole. */
  lemma TryReadStable(buf: Bytes, more: Bytes)
    requires TryRead(buf).Some?
    ensures TryRead(buf + more) == Some((TryRead(buf).value.0, TryRead(buf).value.1 + more))
  {
    var (frame, rest) := TryRead(buf).value;
    FrameRoundTrip(frame, rest + more);
    assert Frame(frame) + rest + more == Frame(frame) + (rest + more);
  }

  /** `recv` yields the chunks in turn and then reports the stream closed. */
  class Connection {
    var rxBuf: Bytes
    var incoming: seq<Bytes>

    /** Every byte received but not yet handed out, and every byte still to come. */
    ghost function Unread(): Bytes
      reads this
    {
      rxBuf + Flat(incoming)
    }

    constructor (incoming: seq<Bytes>)
      ensures rxBuf == [] && this.incoming == incoming
    {
      rxBuf := [];
      this.incoming := incoming;
    }

    method Recv() returns (chunk: Option<Bytes>)
      modifies this`incoming
      ensures old(incoming) == [] ==> chunk == None && incoming == []
      ensures old(incoming) != [] ==> chunk == Some(old(incoming)[0]) && incoming == old(incoming)[1..]
    {
      if incoming == [] {
        return None;
      }
      chunk := Some(incoming[0]);
      incoming := incoming[1..];
    }

    /** Which frame comes out depends on the bytes alone, never on how they were cut into chunks. */
    method ReadOneFrame() returns (frame: Option<Bytes>)
      modifies this
      ensures match TryRead(old(Unread()))
              case Some((f, rest)) => frame == Some(f) && Unread() == rest
              case None => frame == None && incoming == [] && Unread() == old(Unread())
    {
      ghost var total := Unread();
      while true
        invariant Unread() == total
        decreases |incoming|
      {
        var ready := TryRead(rxBuf);
        if ready.Some? {
          TryReadStable(rxBuf, Flat(incoming));
          rxBuf := ready.value.1;
          return Some(ready.value.0);
        }
        ghost var before := rxBuf;
        ghost var coming := incoming;
        var chunk := Recv();
        if chunk.None? {
          assert before + Flat([]) == before;
          return None;
        }
        rxBuf := rxBuf + chunk.value;
        assert before + (coming[0] + Flat(coming[1..])) == (before + coming[0]) + Flat(coming[1..]);
      }
    }
  }

  // ----- Whole conversations -----

  predicate Sendable(msgs: seq<Bytes>) {
    forall k :: 0 <= k < |msgs| ==> |msgs[k]| <= 0xFFFF
  }

  function Framed(msgs: seq<Bytes>): Bytes
    requires Sendable(msgs)
  {
    if msgs == [] then [] else Frame(msgs[0]) + Framed(msgs[1..])
  }

  /** Every whole frame of a byte stream, in order. */
  function FramesOf(bytes: Bytes): seq<Bytes>
    decreases |bytes|
  {
    match TryRead(bytes)
    case None => []
    case Some((f, rest)) => [f] + FramesOf(rest)
  }

  lemma FirstFrame(msg: Bytes, rest: Bytes)
    requires |msg| <= 0xFFFF
    ensures FramesOf(Frame(msg) + rest) == [msg] + FramesOf(rest)
  {
    FrameRoundTrip(msg, rest);
  }

  /** The frames of a framed conversation are its messages, followed by whatever the tail still holds. */
  lemma {:induction false} ConversationRoundTrip(msgs: seq<Bytes>, tail: Bytes)
    requires Sendable(msgs)
    ensures FramesOf(Framed(msgs) + tail) == msgs + FramesOf(tail)
    decreases |msgs|
  {
    hide Frame, FramesOf;
    if msgs == [] {
      assert Framed(msgs) + tail == tail;
    } else {
      var rest := Framed(msgs[1..]) + tail;
      assert Framed(msgs) + tail == Frame(msgs[0]) + rest;
      FirstFrame(msgs[0], rest);
      ConversationRoundTrip(msgs[1..], tail);
      assert [msgs[0]] + (msgs[1..] + FramesOf(tail)) == msgs + FramesOf(tail);
    }
  }

  /** Repeated reads return the frames of the stream, whatever its chunks, and leave the incomplete rest. */
  method ReadAll(conn: Connection) returns (got: seq<Bytes>)
    modifies conn
    ensures got == FramesOf(old(conn.Unread()))
    ensures TryRead(conn.Unread()).None? && conn.incoming == []
  {
    got := [];
    ghost var total := conn.Unread();
    while true
      invariant got + FramesOf(conn.Unread()) == FramesOf(total)
      decreases |conn.Unread()|
    {
      ghost var before := conn.Unread();
      var f := conn.ReadOneFrame();
      if f.None? {
        break;
      }
      assert got + ([f.value] + FramesOf(conn.Unread())) == (got + [f.value]) + FramesOf(conn.Unread());
      got := got + [f.value];
    }
  }
}
