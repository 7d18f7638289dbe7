/**
 * The MeshSec secure UDP envelope: header codec, padding buckets, sealing, and
 * opening through the replay cache.  Key derivation and the AEAD are parameters.
 */
module MeshSec {
  import opened MachineTypes
  import opened Endian
  import opened Replay
  import opened ReplayCache

  const VERSION_V1: byte := 0x01
  const HEADER_LEN: nat := 22
  const TAG_LEN: nat := 16
  const FIXED_OVERHEAD: nat := 38
  const HINT_LEN: nat := 8
  const SALT_LEN: nat := 4
  const MAX_CLEAR_LEN: nat := 1022

  datatype Error =
    | Truncated
    | UnsupportedVersion(version: byte)
    | PayloadTooLarge
    | Auth
    | ReplayedCounter
    | StaleCounter

  // ----- Outer header -----

  datatype Header = Header(
    versionFlags: byte, receiverHint: seq<byte>, epochLow: byte, bootSalt: seq<byte>, counter: u64)

  predicate Encodable(h: Header) {
    h.versionFlags == VERSION_V1 && |h.receiverHint| == HINT_LEN && |h.bootSalt| == SALT_LEN
  }

  function EncodeHeader(h: Header): seq<byte> {
    [h.versionFlags] + h.receiverHint + [h.epochLow] + h.bootSalt + ToLe(h.counter, 8)
  }

  function DecodeHeader(packet: seq<byte>): Result<Header, Error> {
    if |packet| < FIXED_OVERHEAD then Err(Truncated)
    else if packet[0] != VERSION_V1 then Err(UnsupportedVersion(packet[0]))
    else
      PowValues();
      Ok(Header(packet[0], packet[1..9], packet[9], packet[10..14], FromLe(packet[14..22])))
  }

  lemma HeaderRoundTrip(h: Header, body: seq<byte>)
    requires Encodable(h) && |body| >= TAG_LEN
    ensures |EncodeHeader(h)| == HEADER_LEN
    ensures DecodeHeader(EncodeHeader(h) + body) == Ok(h)
  {
    hide ToLe, FromLe;
    var packet := EncodeHeader(h) + body;
    PowValues();
    LeRoundTrip(h.counter, 8);
    assert packet[1..9] == h.receiverHint;
    assert packet[10..14] == h.bootSalt;
    assert packet[14..22] == ToLe(h.counter, 8);
  }

  /** The header bytes of an accepted packet determine and are determined by the header. */
  lemma HeaderInverse(packet: seq<byte>)
    requires DecodeHeader(packet).Ok?
    ensures Encodable(DecodeHeader(packet).value)
    ensures EncodeHeader(DecodeHeader(packet).value) == packet[..HEADER_LEN]
  {
    LeInverse(packet[14..22]);
    assert packet[..22] == [packet[0]] + packet[1..9] + [packet[9]] + packet[10..14] + packet[14..22];
  }

  // ----- Padding buckets -----

  const BUCKETS: seq<nat> := [128, 384, 1024]

  function BucketLen(clearLen: nat): (r: Result<nat, Error>)
    ensures r.Ok? <==> clearLen <= MAX_CLEAR_LEN
    ensures r.Ok? ==> r.value in BUCKETS && r.value >= clearLen + 2
    ensures r.Ok? ==> forall b :: b in BUCKETS && b >= clearLen + 2 ==> r.value <= b
    ensures r.Err? ==> r.error == PayloadTooLarge
  {
    var needed := clearLen + 2;
    if BUCKETS[0] >= needed then Ok(BUCKETS[0])
    else if BUCKETS[1] >= needed then Ok(BUCKETS[1])
    else if BUCKETS[2] >= needed then Ok(BUCKETS[2])
    else Err(PayloadTooLarge)
  }

  function Framed(clear: seq<byte>, padding: seq<byte>): seq<byte>
    requires |clear| < 0x1_0000
  {
    U16Bytes(|clear|) + clear + padding
  }

  function Pack(clear: seq<byte>): Result<seq<byte>, Error> {
    if |clear| > MAX_CLEAR_LEN then Err(PayloadTooLarge)
    else
      var bucket :- BucketLen(|clear|);
      Ok(Framed(clear, seq(bucket - 2 - |clear|, _ => 0)))
  }

  function Unpack(plain: seq<byte>): Result<seq<byte>, Error> {
    if |plain| < 2 then Err(Truncated)
    else
      var realLen := U16At(plain, 0);
      if 2 + realLen > |plain| then Err(Truncated) else Ok(plain[2..2 + realLen])
  }

  lemma UnpackFramed(clear: seq<byte>, padding: seq<byte>)
    requires |clear| < 0x1_0000
    ensures Unpack(Framed(clear, padding)) == Ok(clear)
  {
    var plain := Framed(clear, padding);
    assert plain[0] == U16Bytes(|clear|)[0] && plain[1] == U16Bytes(|clear|)[1];
    assert plain[2..2 + |clear|] == clear;
  }

  /** Packing pads to a bucket and unpacking recovers the clear bytes exactly. */
  lemma PackRoundTrip(clear: seq<byte>)
    ensures Pack(clear).Ok? <==> |clear| <= MAX_CLEAR_LEN
    ensures Pack(clear).Ok? ==> |Pack(clear).value| in BUCKETS && Unpack(Pack(clear).value) == Ok(clear)
  {
    if |clear| <= MAX_CLEAR_LEN {
      var bucket := BucketLen(|clear|).value;
      UnpackFramed(clear, seq(bucket - 2 - |clear|, _ => 0));
    }
  }

  // ----- Keys and the cipher -----

  /** `str` comparison */
  predicate LexLe(a: string, b: string) {
    a == [] || (b != [] && (a[0] < b[0] || (a[0] == b[0] && LexLe(a[1..], b[1..]))))
  }

  function Direction(sender: string, receiver: string): string {
    if LexLe(sender, receiver) then "ab" else "ba"
  }

  type Bytes = seq<byte>

  /** Receiver hint, `K_tx` derivation, and AEAD encryption and decryption. */
  datatype Suite = Suite(
    hint: (Bytes, u64) -> Bytes,
    txKey: (Bytes, u64, string, string, Bytes) -> Bytes,
    encrypt: (Bytes, Bytes, Bytes, Bytes) -> Bytes,
    decrypt: (Bytes, Bytes, Bytes, Bytes) -> Option<Bytes>)

  /** Decryption undoes encryption, hints are 8 bytes, and the tag is 16. */
  ghost predicate Correct(s: Suite) {
    && (forall key, epoch :: |s.hint(key, epoch)| == HINT_LEN)
    && (forall key, nonce, aad, plain :: |s.encrypt(key, nonce, aad, plain)| == |plain| + TAG_LEN)
    && (forall key, nonce, aad, plain ::
          s.decrypt(key, nonce, aad, s.encrypt(key, nonce, aad, plain)) == Some(plain))
  }

  function Nonce(counter: u64): Bytes {
    ToLe(counter, 8) + seq(16, _ => 0)
  }

  // ----- Sealing -----

  datatype SealContext = SealContext(localId: string, remoteId: string, staticKey: Bytes, bootSalt: Bytes)

  function SealHeader(s: Suite, ctx: SealContext, epoch: u64, counter: u64): Header {
    Header(VERSION_V1, s.hint(ctx.staticKey, epoch), epoch % 256, ctx.bootSalt, counter)
  }

  function Seal(s: Suite, clear: Bytes, ctx: SealContext, epoch: u64, counter: u64): Result<Bytes, Error> {
    var plain :- Pack(clear);
    var aad := EncodeHeader(SealHeader(s, ctx, epoch, counter));
    var key := s.txKey(ctx.staticKey, epoch, ctx.localId, Direction(ctx.localId, ctx.remoteId), ctx.bootSalt);
    Ok(aad + s.encrypt(key, Nonce(counter), aad, plain))
  }

  // ----- Opening -----

  datatype OpenKey = OpenKey(peerId: string, remoteId: string, staticKey: Bytes)

  function TryDecrypt(s: Suite, key: OpenKey, local: string, epoch: u64, h: Header, aad: Bytes, body: Bytes)
    : Option<Bytes>
  {
    if s.hint(key.staticKey, epoch) != h.receiverHint then None
    else
      var tx := s.txKey(key.staticKey, epoch, key.remoteId, Direction(key.remoteId, local), h.bootSalt);
      s.decrypt(tx, Nonce(h.counter), aad, body)
  }

  datatype Opener = Opener(epoch: u64, key: OpenKey, plain: Bytes)

  function FindKey(s: Suite, keys: seq<OpenKey>, local: string, epoch: u64, h: Header, aad: Bytes, body: Bytes)
    : Option<Opener>
  {
    if keys == [] then None else
      match TryDecrypt(s, keys[0], local, epoch, h, aad, body)
      case Some(plain) => Some(Opener(epoch, keys[0], plain))
      case None => FindKey(s, keys[1..], local, epoch, h, aad, body)
  }

  /** The first (epoch, key) pair in scan order that authenticates the packet. */
  function FindOpener(s: Suite, keys: seq<OpenKey>, local: string, lo: nat, hi: u64,
                      h: Header, aad: Bytes, body: Bytes): Option<Opener>
    decreases hi + 1 - lo
  {
    if lo > hi then None
    else
      var here := if lo % 256 == h.epochLow then FindKey(s, keys, local, lo, h, aad, body) else None;
      if here.Some? then here else FindOpener(s, keys, local, lo + 1, hi, h, aad, body)
  }

  datatype Opened = Opened(result: Result<(string, Bytes), Error>, rings: Rings)

  function Verdict(d: Decision, peer: string, plain: Bytes): Result<(string, Bytes), Error> {
    match d
    case Duplicate => Err(ReplayedCounter)
    case TooOld => Err(StaleCounter)
    case Accept =>
      var clear :- Unpack(plain);
      Ok((peer, clear))
  }

  /** The outcome of opening a packet and the replay state left behind. */
  function Open(s: Suite, packet: Bytes, keys: seq<OpenKey>, local: string, lo: u64, hi: u64,
                rings: Rings, window: u64): (o: Opened)
    requires RingsSized(rings, window)
    ensures RingsSized(o.rings, window)
  {
    match DecodeHeader(packet)
    case Err(e) => Opened(Err(e), rings)
    case Ok(h) =>
      match FindOpener(s, keys, local, lo, hi, h, packet[..HEADER_LEN], packet[HEADER_LEN..])
      case None => Opened(Err(Auth), rings)
      case Some(who) =>
        var id := Key(who.key.peerId, who.epoch, h.bootSalt);
        Opened(Verdict(CacheDecision(rings, window, id, h.counter), who.key.peerId, who.plain),
               CacheNext(rings, window, id, h.counter))
  }

  method OpenBytes(s: Suite, packet: Bytes, keys: seq<OpenKey>, local: string, lo: u64, hi: u64, replay: Cache)
      returns (r: Result<(string, Bytes), Error>)
    requires replay.Valid()
    modifies replay, replay.Repr
    ensures replay.Valid() && fresh(replay.Repr - old(replay.Repr))
    ensures Opened(r, replay.Contents()) == Open(s, packet, keys, local, lo, hi, old(replay.Contents()), replay.window)
  {
    var h :- DecodeHeader(packet);
    var aad, body := packet[..HEADER_LEN], packet[HEADER_LEN..];
    var epoch: nat := lo;
    while epoch <= hi
      invariant FindOpener(s, keys, local, lo, hi, h, aad, body) == FindOpener(s, keys, local, epoch, hi, h, aad, body)
      invariant replay.Valid() && replay.Contents() == old(replay.Contents()) && replay.Repr == old(replay.Repr)
      decreases hi + 1 - epoch
    {
      if epoch % 256 == h.epochLow {
        for i := 0 to |keys|
          invariant FindKey(s, keys, local, epoch, h, aad, body) == FindKey(s, keys[i..], local, epoch, h, aad, body)
          invariant replay.Valid() && replay.Contents() == old(replay.Contents()) && replay.Repr == old(replay.Repr)
        {
          var attempt := TryDecrypt(s, keys[i], local, epoch, h, aad, body);
          if attempt.Some? {
            var d := replay.CheckAndInsert(keys[i].peerId, epoch, h.bootSalt, h.counter);
            r := Verdict(d, keys[i].peerId, attempt.value);
            return;
          }
        }
      }
      epoch := epoch + 1;
    }
    r := Err(Auth);
  }

  // ----- A sealed packet opens to the sealed bytes -----

  ghost predicate Opens(s: Suite, packet: Bytes, key: OpenKey, local: string, epoch: u64) {
    && DecodeHeader(packet).Ok?
    && epoch % 256 == DecodeHeader(packet).value.epochLow
    && TryDecrypt(s, key, local, epoch, DecodeHeader(packet).value, packet[..HEADER_LEN], packet[HEADER_LEN..]).Some?
  }

  /** Among the keys and epochs tried, the packet authenticates under one pair only. */
  ghost predicate OneOpener(s: Suite, packet: Bytes, keys: seq<OpenKey>, local: string, lo: u64, hi: u64) {
    forall k, k', e: u64, e': u64 ::
      (k in keys && k' in keys && lo <= e <= hi && lo <= e' <= hi
       && Opens(s, packet, k, local, e) && Opens(s, packet, k', local, e')) ==> k == k' && e == e'
  }

  lemma {:induction false} FindKeyFinds(s: Suite, keys: seq<OpenKey>, local: string, epoch: u64,
                                        h: Header, aad: Bytes, body: Bytes)
    ensures
      var found := FindKey(s, keys, local, epoch, h, aad, body);
      && (found.Some? ==>
            && found.value.key in keys && found.value.epoch == epoch
            && TryDecrypt(s, found.value.key, local, epoch, h, aad, body) == Some(found.value.plain))
      && (found.None? ==> forall k :: k in keys ==> TryDecrypt(s, k, local, epoch, h, aad, body).None?)
  {
    if keys != [] { FindKeyFinds(s, keys[1..], local, epoch, h, aad, body); }
  }

  lemma {:induction false} FindOpenerFinds(s: Suite, packet: Bytes, keys: seq<OpenKey>, local: string, lo: nat, hi: u64)
    requires DecodeHeader(packet).Ok?
    ensures
      var h := DecodeHeader(packet).value;
      var found := FindOpener(s, keys, local, lo, hi, h, packet[..HEADER_LEN], packet[HEADER_LEN..]);
      && (found.Some? ==>
            && found.value.key in keys && lo <= found.value.epoch <= hi
            && Opens(s, packet, found.value.key, local, found.value.epoch)
            && TryDecrypt(s, found.value.key, local, found.value.epoch, h, packet[..HEADER_LEN], packet[HEADER_LEN..])
               == Some(found.value.plain))
      && (found.None? ==> forall k, e: u64 :: k in keys && lo <= e <= hi ==> !Opens(s, packet, k, local, e))
    decreases hi + 1 - lo
  {
    if lo <= hi {
      var h := DecodeHeader(packet).value;
      FindKeyFinds(s, keys, local, lo, h, packet[..HEADER_LEN], packet[HEADER_LEN..]);
      FindOpenerFinds(s, packet, keys, local, lo + 1, hi);
    }
  }

  lemma SealedOpens(s: Suite, clear: Bytes, ctx: SealContext, epoch: u64, counter: u64, key: OpenKey)
    requires Correct(s) && |ctx.bootSalt| == SALT_LEN && |clear| <= MAX_CLEAR_LEN
    requires key.staticKey == ctx.staticKey && key.remoteId == ctx.localId
    ensures
      var packet := Seal(s, clear, ctx, epoch, counter).value;
      var h := SealHeader(s, ctx, epoch, counter);
      && DecodeHeader(packet) == Ok(h)
      && TryDecrypt(s, key, ctx.remoteId, epoch, h, packet[..HEADER_LEN], packet[HEADER_LEN..]) == Some(Pack(clear).value)
  {
    var h := SealHeader(s, ctx, epoch, counter);
    var aad := EncodeHeader(h);
    var plain := Pack(clear).value;
    var tx := s.txKey(ctx.staticKey, epoch, ctx.localId, Direction(ctx.localId, ctx.remoteId), ctx.bootSalt);
    var body := s.encrypt(tx, Nonce(counter), aad, plain);
    HeaderRoundTrip(h, body);
    assert (aad + body)[..HEADER_LEN] == aad && (aad + body)[HEADER_LEN..] == body;
  }

  /**
   * With the matching key configured, the epoch accepted and no second opener,
   * a sealed packet gets the verdict of the window it is charged to, and opens
   * to (peer, sealed bytes) when that accepts.
   */
  lemma OpenSealed(s: Suite, clear: Bytes, ctx: SealContext, epoch: u64, counter: u64, keys: seq<OpenKey>,
                   key: OpenKey, lo: u64, hi: u64, rings: Rings, window: u64)
    requires Correct(s) && |ctx.bootSalt| == SALT_LEN && |clear| <= MAX_CLEAR_LEN
    requires key in keys && key.staticKey == ctx.staticKey && key.remoteId == ctx.localId
    requires lo <= epoch <= hi && RingsSized(rings, window)
    requires OneOpener(s, Seal(s, clear, ctx, epoch, counter).value, keys, ctx.remoteId, lo, hi)
    ensures
      var packet := Seal(s, clear, ctx, epoch, counter).value;
      var id := Key(key.peerId, epoch, ctx.bootSalt);
      var o := Open(s, packet, keys, ctx.remoteId, lo, hi, rings, window);
      && o.rings == CacheNext(rings, window, id, counter)
      && o.result == match CacheDecision(rings, window, id, counter)
                     case Accept => Ok((key.peerId, clear))
                     case Duplicate => Err(ReplayedCounter)
                     case TooOld => Err(StaleCounter)
  {
    var packet := Seal(s, clear, ctx, epoch, counter).value;
    SealedOpens(s, clear, ctx, epoch, counter, key);
    PackRoundTrip(clear);
    FindOpenerFinds(s, packet, keys, ctx.remoteId, lo, hi);
    assert Opens(s, packet, key, ctx.remoteId, epoch);
  }

  /** Opening touches the replay state only after some configured key authenticated the packet. */
  lemma UnauthenticatedLeavesState(s: Suite, packet: Bytes, keys: seq<OpenKey>, local: string, lo: u64, hi: u64,
                                   rings: Rings, window: u64)
    requires RingsSized(rings, window)
    requires forall k, e: u64 :: k in keys && lo <= e <= hi ==> !Opens(s, packet, k, local, e)
    ensures
      var o := Open(s, packet, keys, local, lo, hi, rings, window);
      o.rings == rings && o.result.Err? && (DecodeHeader(packet).Ok? ==> o.result.error == Auth)
  {
    if DecodeHeader(packet).Ok? { FindOpenerFinds(s, packet, keys, local, lo, hi); }
  }

  // ----- Over every run, a packet opens at most once -----

  ghost function CountersFor(accepted: set<(Key, u64)>, key: Key): set<u64> {
    set p | p in accepted && p.0 == key :: p.1
  }

  /** Every window of the cache tracks the counters accepted under its key. */
  ghost predicate CacheTracks(rings: Rings, accepted: set<(Key, u64)>, window: u64) {
    && RingsSized(rings, window)
    && forall k :: Tracks(RingAt(rings, window, k), CountersFor(accepted, k), window)
  }

  lemma CacheStepTracks(rings: Rings, accepted: set<(Key, u64)>, window: u64, key: Key, counter: u64)
    requires CacheTracks(rings, accepted, window) && window <= 64 * Words(window)
    ensures
      var d := CacheDecision(rings, window, key, counter);
      && (d.Accept? ==> (key, counter) !in accepted)
      && CacheTracks(CacheNext(rings, window, key, counter),
                     if d.Accept? then accepted + {(key, counter)} else accepted, window)
  {
    var mine := CountersFor(accepted, key);
    StepTracks(RingAt(rings, window, key), mine, window, counter);
    IdealMeaning(mine, window, counter);
    assert (key, counter) in accepted ==> counter in mine;
    var accepted' := accepted + {(key, counter)};
    assert CountersFor(accepted', key) == mine + {counter};
    forall k | k != key ensures CountersFor(accepted', k) == CountersFor(accepted, k) {
    }
  }

  /**
   * Against the history of a cache whose window fits: a sealed packet opens to
   * the sealed bytes if and only if its counter was never accepted under its
   * peer, epoch and salt and is in the window; it is called a replay if and
   * only if it is in the window and was accepted.
   */
  lemma SealedOpensIffFresh(s: Suite, clear: Bytes, ctx: SealContext, epoch: u64, counter: u64, keys: seq<OpenKey>,
                            key: OpenKey, lo: u64, hi: u64, rings: Rings, accepted: set<(Key, u64)>, window: u64)
    requires Correct(s) && |ctx.bootSalt| == SALT_LEN && |clear| <= MAX_CLEAR_LEN
    requires key in keys && key.staticKey == ctx.staticKey && key.remoteId == ctx.localId
    requires lo <= epoch <= hi && CacheTracks(rings, accepted, window) && (window <= 64 || window % 64 == 0)
    requires OneOpener(s, Seal(s, clear, ctx, epoch, counter).value, keys, ctx.remoteId, lo, hi)
    ensures
      var packet := Seal(s, clear, ctx, epoch, counter).value;
      var id := Key(key.peerId, epoch, ctx.bootSalt);
      var inWindow := InWindow(CountersFor(accepted, id), window, counter);
      var r := Open(s, packet, keys, ctx.remoteId, lo, hi, rings, window).result;
      && (r == Ok((key.peerId, clear)) <==> inWindow && (id, counter) !in accepted)
      && (r == Err(ReplayedCounter) <==> inWindow && (id, counter) in accepted)
  {
    hide Correct, OneOpener, Open, Seal;
    OpenSealed(s, clear, ctx, epoch, counter, keys, key, lo, hi, rings, window);
    var id := Key(key.peerId, epoch, ctx.bootSalt);
    var mine := CountersFor(accepted, id);
    StepTracks(RingAt(rings, window, id), mine, window, counter);
    IdealMeaning(mine, window, counter);
    assert (id, counter) in accepted <==> counter in mine;
  }

  datatype Call = Call(packet: Bytes, lo: u64, hi: u64)

  /** The replay-cache key and counter an opening is charged to, if some key authenticates the packet. */
  function Charge(s: Suite, call: Call, keys: seq<OpenKey>, local: string): Option<(Key, u64)> {
    match DecodeHeader(call.packet)
    case Err(_) => None
    case Ok(h) =>
      match FindOpener(s, keys, local, call.lo, call.hi, h, call.packet[..HEADER_LEN], call.packet[HEADER_LEN..])
      case None => None
      case Some(who) => Some((Key(who.key.peerId, who.epoch, h.bootSalt), h.counter))
  }

  /** The replay state after a run of openings from a fresh cache. */
  function RingsAfter(s: Suite, keys: seq<OpenKey>, local: string, calls: seq<Call>, window: u64): (rings: Rings)
    ensures RingsSized(rings, window)
    decreases |calls|
  {
    if calls == [] then map[] else
      var call := calls[|calls| - 1];
      Open(s, call.packet, keys, local, call.lo, call.hi,
           RingsAfter(s, keys, local, calls[..|calls| - 1], window), window).rings
  }

  /** The charges accepted in that run. */
  function AcceptedIn(s: Suite, keys: seq<OpenKey>, local: string, calls: seq<Call>, window: u64): set<(Key, u64)>
    decreases |calls|
  {
    if calls == [] then {} else
      var init, call := calls[..|calls| - 1], calls[|calls| - 1];
      var before := AcceptedIn(s, keys, local, init, window);
      match Charge(s, call, keys, local)
      case None => before
      case Some((id, c)) =>
        if CacheDecision(RingsAfter(s, keys, local, init, window), window, id, c).Accept? then before + {(id, c)}
        else before
  }

  lemma OpenCharges(s: Suite, call: Call, keys: seq<OpenKey>, local: string, rings: Rings, window: u64)
    requires RingsSized(rings, window)
    ensures
      Open(s, call.packet, keys, local, call.lo, call.hi, rings, window).rings
      == match Charge(s, call, keys, local)
         case None => rings
         case Some((id, c)) => CacheNext(rings, window, id, c)
  {
    hide FindOpener, CacheNext, CacheDecision;
  }

  lemma {:induction false} RunOfOpensTracks(s: Suite, keys: seq<OpenKey>, local: string, calls: seq<Call>, window: u64)
    requires window <= 64 || window % 64 == 0
    ensures CacheTracks(RingsAfter(s, keys, local, calls, window), AcceptedIn(s, keys, local, calls, window), window)
    decreases |calls|
  {
    if calls == [] {
      FreshTracks(window);
    } else {
      hide CacheTracks, Open, Charge, CacheDecision, CacheNext;
      var init, call := calls[..|calls| - 1], calls[|calls| - 1];
      RunOfOpensTracks(s, keys, local, init, window);
      var rings, accepted := RingsAfter(s, keys, local, init, window), AcceptedIn(s, keys, local, init, window);
      OpenCharges(s, call, keys, local, rings, window);
      match Charge(s, call, keys, local)
      case Some((id, c)) => CacheStepTracks(rings, accepted, window, id, c);
      case None =>
    }
  }

  lemma FreshTracks(window: u64)
    ensures CacheTracks(map[], {}, window)
  {
    assert forall k :: CountersFor({}, k) == {};
  }

  /**
   * After any run of openings from a fresh cache whose window fits: a sealed
   * packet opens to the sealed bytes if and only if its counter is in the window
   * and was never accepted under its peer, epoch and salt in that run, and is
   * called a replay if and only if it is in the window and was accepted.
   */
  lemma SealedOpensAfterRun(s: Suite, clear: Bytes, ctx: SealContext, epoch: u64, counter: u64, keys: seq<OpenKey>,
                            key: OpenKey, lo: u64, hi: u64, calls: seq<Call>, window: u64)
    requires Correct(s) && |ctx.bootSalt| == SALT_LEN && |clear| <= MAX_CLEAR_LEN
    requires key in keys && key.staticKey == ctx.staticKey && key.remoteId == ctx.localId
    requires lo <= epoch <= hi && (window <= 64 || window % 64 == 0)
    requires OneOpener(s, Seal(s, clear, ctx, epoch, counter).value, keys, ctx.remoteId, lo, hi)
    ensures
      var packet := Seal(s, clear, ctx, epoch, counter).value;
      var id := Key(key.peerId, epoch, ctx.bootSalt);
      var accepted := AcceptedIn(s, keys, ctx.remoteId, calls, window);
      var inWindow := InWindow(CountersFor(accepted, id), window, counter);
      var rings := RingsAfter(s, keys, ctx.remoteId, calls, window);
      var r := Open(s, packet, keys, ctx.remoteId, lo, hi, rings, window).result;
      && (r == Ok((key.peerId, clear)) <==> inWindow && (id, counter) !in accepted)
      && (r == Err(ReplayedCounter) <==> inWindow && (id, counter) in accepted)
  {
    hide Correct, OneOpener, Open, CacheTracks, InWindow, CountersFor, RingsAfter, AcceptedIn;
    RunOfOpensTracks(s, keys, ctx.remoteId, calls, window);
    SealedOpensIffFresh(s, clear, ctx, epoch, counter, keys, key, lo, hi,
                        RingsAfter(s, keys, ctx.remoteId, calls, window),
                        AcceptedIn(s, keys, ctx.remoteId, calls, window), window);
  }

  /** Every window of the cache marks the counters accepted under its key that are still in the window. */
  ghost predicate CacheCovers(rings: Rings, accepted: set<(Key, u64)>, window: u64) {
    && RingsSized(rings, window)
    && forall k :: Covers(RingAt(rings, window, k), CountersFor(accepted, k), window)
  }

  lemma CacheStepCovers(rings: Rings, accepted: set<(Key, u64)>, window: u64, key: Key, counter: u64)
    requires CacheCovers(rings, accepted, window) && window <= 64 * Words(window) + 1
    ensures
      var d := CacheDecision(rings, window, key, counter);
      && (d.Accept? ==> (key, counter) !in accepted)
      && CacheCovers(CacheNext(rings, window, key, counter),
                     if d.Accept? then accepted + {(key, counter)} else accepted, window)
  {
    var mine := CountersFor(accepted, key);
    StepCovers(RingAt(rings, window, key), mine, window, counter);
    assert (key, counter) in accepted ==> counter in mine;
    var accepted' := accepted + {(key, counter)};
    assert CountersFor(accepted', key) == mine + {counter};
    forall k | k != key ensures CountersFor(accepted', k) == CountersFor(accepted, k) {
    }
  }

  /** The outcomes of a sequence of openings through one cache. */
  function RunOpens(s: Suite, keys: seq<OpenKey>, local: string, calls: seq<Call>, rings: Rings, window: u64)
    : (rs: seq<Result<(string, Bytes), Error>>)
    requires RingsSized(rings, window)
    ensures |rs| == |calls|
    decreases |calls|
  {
    if calls == [] then [] else
      var o := Open(s, calls[0].packet, keys, local, calls[0].lo, calls[0].hi, rings, window);
      [o.result] + RunOpens(s, keys, local, calls[1..], o.rings, window)
  }

  /** The replay-cache key and counter a packet is charged to under a given epoch. */
  ghost predicate ChargedTo(s: Suite, packet: Bytes, keys: seq<OpenKey>, local: string, epoch: u64, id: Key, counter: u64) {
    && DecodeHeader(packet).Ok?
    && var h := DecodeHeader(packet).value;
    && var found := FindKey(s, keys, local, epoch, h, packet[..HEADER_LEN], packet[HEADER_LEN..]);
    && found.Some? && id == Key(found.value.key.peerId, epoch, h.bootSalt) && counter == h.counter
  }

  /** Whatever the accepted range, the packet authenticates under one epoch only. */
  ghost predicate OneEpoch(s: Suite, packet: Bytes, keys: seq<OpenKey>, local: string) {
    forall k, k', e: u64, e': u64 ::
      (k in keys && k' in keys && Opens(s, packet, k, local, e) && Opens(s, packet, k', local, e')) ==> e == e'
  }

  lemma {:induction false} OpenerIsFirstKey(s: Suite, keys: seq<OpenKey>, local: string, lo: nat, hi: u64,
                                            h: Header, aad: Bytes, body: Bytes)
    ensures
      var found := FindOpener(s, keys, local, lo, hi, h, aad, body);
      found.Some? ==> FindKey(s, keys, local, found.value.epoch, h, aad, body) == found
    decreases hi + 1 - lo
  {
    if lo <= hi {
      FindKeyFinds(s, keys, local, lo, h, aad, body);
      OpenerIsFirstKey(s, keys, local, lo + 1, hi, h, aad, body);
    }
  }

  /** One opening keeps the cache covering; if it succeeds it was charged to a counter not accepted before. */
  lemma OpenCovers(s: Suite, call: Call, keys: seq<OpenKey>, local: string, rings: Rings,
                   accepted: set<(Key, u64)>, window: u64) returns (accepted': set<(Key, u64)>, e: u64, id: Key, c: u64)
    requires CacheCovers(rings, accepted, window) && window <= 64 * Words(window) + 1
    ensures
      var o := Open(s, call.packet, keys, local, call.lo, call.hi, rings, window);
      && accepted <= accepted' && CacheCovers(o.rings, accepted', window)
      && (o.result.Ok? ==>
            && (exists k :: k in keys && Opens(s, call.packet, k, local, e))
            && ChargedTo(s, call.packet, keys, local, e, id, c)
            && (id, c) !in accepted && (id, c) in accepted')
  {
    accepted', e, id, c := accepted, 0, Key("", 0, []), 0;
    if DecodeHeader(call.packet).Ok? {
      var h := DecodeHeader(call.packet).value;
      var aad, body := call.packet[..HEADER_LEN], call.packet[HEADER_LEN..];
      FindOpenerFinds(s, call.packet, keys, local, call.lo, call.hi);
      OpenerIsFirstKey(s, keys, local, call.lo, call.hi, h, aad, body);
      var found := FindOpener(s, keys, local, call.lo, call.hi, h, aad, body);
      if found.Some? {
        e, id, c := found.value.epoch, Key(found.value.key.peerId, found.value.epoch, h.bootSalt), h.counter;
        CacheStepCovers(rings, accepted, window, id, c);
        if CacheDecision(rings, window, id, c).Accept? {
          accepted' := accepted + {(id, c)};
        }
      }
    }
  }

  /** Once the counter a packet is charged to has been accepted, that packet never opens again. */
  lemma {:induction false} NeverReopens(s: Suite, keys: seq<OpenKey>, local: string, calls: seq<Call>, j: nat,
                                        rings: Rings, accepted: set<(Key, u64)>, window: u64, epoch: u64, id: Key, c: u64)
    requires CacheCovers(rings, accepted, window) && window <= 64 * Words(window) + 1
    requires j < |calls| && OneEpoch(s, calls[j].packet, keys, local)
    requires exists k :: k in keys && Opens(s, calls[j].packet, k, local, epoch)
    requires ChargedTo(s, calls[j].packet, keys, local, epoch, id, c) && (id, c) in accepted
    ensures RunOpens(s, keys, local, calls, rings, window)[j].Err?
    decreases j
  {
    var accepted', _, _, _ := OpenCovers(s, calls[0], keys, local, rings, accepted, window);
    var o := Open(s, calls[0].packet, keys, local, calls[0].lo, calls[0].hi, rings, window);
    if j > 0 {
      NeverReopens(s, keys, local, calls[1..], j - 1, o.rings, accepted', window, epoch, id, c);
    }
  }

  lemma {:induction false} AtMostOnceFrom(s: Suite, keys: seq<OpenKey>, local: string, calls: seq<Call>, i: nat, j: nat,
                                          rings: Rings, accepted: set<(Key, u64)>, window: u64)
    requires CacheCovers(rings, accepted, window) && window <= 64 * Words(window) + 1
    requires i < j < |calls| && calls[i].packet == calls[j].packet && OneEpoch(s, calls[i].packet, keys, local)
    ensures
      var rs := RunOpens(s, keys, local, calls, rings, window);
      !(rs[i].Ok? && rs[j].Ok?)
    decreases i
  {
    var accepted', e, id, c := OpenCovers(s, calls[0], keys, local, rings, accepted, window);
    var o := Open(s, calls[0].packet, keys, local, calls[0].lo, calls[0].hi, rings, window);
    if i > 0 {
      AtMostOnceFrom(s, keys, local, calls[1..], i - 1, j - 1, o.rings, accepted', window);
    } else if o.result.Ok? {
      NeverReopens(s, keys, local, calls[1..], j - 1, o.rings, accepted', window, e, id, c);
    }
  }

  /** In any run from a fresh cache whose window is at most one wider than its words, no packet opens twice. */
  lemma OpensAtMostOnce(s: Suite, keys: seq<OpenKey>, local: string, calls: seq<Call>, i: nat, j: nat, window: u64)
    requires window <= 64 || window % 64 <= 1
    requires i < j < |calls| && calls[i].packet == calls[j].packet && OneEpoch(s, calls[i].packet, keys, local)
    ensures
      var rs := RunOpens(s, keys, local, calls, map[], window);
      !(rs[i].Ok? && rs[j].Ok?)
  {
    assert forall k :: CountersFor({}, k) == {};
    AtMostOnceFrom(s, keys, local, calls, i, j, map[], {}, window);
  }

  // ----- The hypotheses can be met -----

  /** A suite that spells the epoch out in the hint and appends a blank tag. */
  const BLANK := Suite(
    (key: Bytes, epoch: u64) => ToLe(epoch, HINT_LEN),
    (key: Bytes, epoch: u64, sender: string, direction: string, salt: Bytes) => key,
    (key: Bytes, nonce: Bytes, aad: Bytes, plain: Bytes) => plain + seq(TAG_LEN, _ => 0),
    (key: Bytes, nonce: Bytes, aad: Bytes, body: Bytes) =>
      if |body| >= TAG_LEN then Some(body[..|body| - TAG_LEN]) else None)

  lemma HypothesesCanBeMet(packet: Bytes, key: OpenKey, keys: seq<OpenKey>, local: string, lo: u64, hi: u64)
    ensures Correct(BLANK) && OneEpoch(BLANK, packet, keys, local) && OneOpener(BLANK, packet, [key], local, lo, hi)
  {
    forall e: u64 ensures FromLe(ToLe(e, HINT_LEN)) == e {
      PowValues();
      LeRoundTrip(e, HINT_LEN);
    }
  }

  // ----- A window two or more too wide opens a packet twice -----

  /** The sealed packet under a counter can be opened, and by one key and epoch only. */
  ghost predicate Openable(s: Suite, clear: Bytes, ctx: SealContext, epoch: u64, counter: u64, keys: seq<OpenKey>,
                           lo: u64, hi: u64) {
    && Seal(s, clear, ctx, epoch, counter).Ok?
    && OneOpener(s, Seal(s, clear, ctx, epoch, counter).value, keys, ctx.remoteId, lo, hi)
  }

  /**
   * For every such window and every correct cipher suite there is a run in which
   * the very same packet opens two times: sealed under counter 0, and opened
   * again after a packet sealed under a counter one past the words.
   */
  lemma OpensTwice(s: Suite, clear: Bytes, ctx: SealContext, epoch: u64, keys: seq<OpenKey>, key: OpenKey,
                   lo: u64, hi: u64, window: u64)
    requires window > 64 * Words(window) + 1
    requires Correct(s) && |ctx.bootSalt| == SALT_LEN && |clear| <= MAX_CLEAR_LEN
    requires key in keys && key.staticKey == ctx.staticKey && key.remoteId == ctx.localId && lo <= epoch <= hi
    requires Openable(s, clear, ctx, epoch, 0, keys, lo, hi)
    requires Openable(s, clear, ctx, epoch, 64 * Words(window) + 1, keys, lo, hi)
    ensures
      var first := Call(Seal(s, clear, ctx, epoch, 0).value, lo, hi);
      var second := Call(Seal(s, clear, ctx, epoch, 64 * Words(window) + 1).value, lo, hi);
      var rs := RunOpens(s, keys, ctx.remoteId, [first, second, first], map[], window);
      rs[0] == rs[2] == Ok((key.peerId, clear))
  {
    hide Correct, OneOpener, Open, Seal;
    var id := Key(key.peerId, epoch, ctx.bootSalt);
    var size: u64 := 64 * Words(window);
    var rings0: Rings := map[];
    var rings1 := CacheNext(rings0, window, id, 0);
    var rings2 := CacheNext(rings1, window, id, size + 1);
    OpenSealed(s, clear, ctx, epoch, 0, keys, key, lo, hi, rings0, window);
    OpenSealed(s, clear, ctx, epoch, size + 1, keys, key, lo, hi, rings1, window);
    OpenSealed(s, clear, ctx, epoch, 0, keys, key, lo, hi, rings2, window);
    WideWindowAcceptsTwice(window);
    RunOfThree(FreshRing(size), window, 0, size + 1, 0);
    var first := Call(Seal(s, clear, ctx, epoch, 0).value, lo, hi);
    var second := Call(Seal(s, clear, ctx, epoch, size + 1).value, lo, hi);
    RunOfCalls(s, keys, ctx.remoteId, [first, second, first], rings0, rings1, rings2, window);
  }

  /** The hypotheses of `OpensTwice` are met by the blank suite with a single key. */
  lemma BlankIsOpenable(key: OpenKey, local: string, counter: u64)
    ensures Correct(BLANK)
    ensures Openable(BLANK, [], SealContext(key.remoteId, local, key.staticKey, [0, 0, 0, 0]), 0, counter, [key], 0, 0)
  {
    hide Correct, OneOpener, OneEpoch, BLANK;
    PackRoundTrip([]);
    var ctx := SealContext(key.remoteId, local, key.staticKey, [0, 0, 0, 0]);
    HypothesesCanBeMet(Seal(BLANK, [], ctx, 0, counter).value, key, [key], local, 0, 0);
  }

  lemma RunOfCalls(s: Suite, keys: seq<OpenKey>, local: string, calls: seq<Call>,
                   rings0: Rings, rings1: Rings, rings2: Rings, window: u64)
    requires |calls| == 3 && RingsSized(rings0, window) && RingsSized(rings1, window) && RingsSized(rings2, window)
    requires Open(s, calls[0].packet, keys, local, calls[0].lo, calls[0].hi, rings0, window).rings == rings1
    requires Open(s, calls[1].packet, keys, local, calls[1].lo, calls[1].hi, rings1, window).rings == rings2
    ensures
      var rs := RunOpens(s, keys, local, calls, rings0, window);
      && rs[0] == Open(s, calls[0].packet, keys, local, calls[0].lo, calls[0].hi, rings0, window).result
      && rs[2] == Open(s, calls[2].packet, keys, local, calls[2].lo, calls[2].hi, rings2, window).result
  {
    hide Open;
    var rest := calls[1..];
    assert rest[0] == calls[1] && rest[1..][0] == calls[2];
    assert RunOpens(s, keys, local, calls, rings0, window)[2] == RunOpens(s, keys, local, rest, rings1, window)[1];
    assert RunOpens(s, keys, local, rest, rings1, window)[1] == RunOpens(s, keys, local, rest[1..], rings2, window)[0];
  }
}
