/**
 * MeshSec byte for byte: where every field stands in a packet, and what the
 * cipher is given when a packet is sealed and when it is opened.
 */
module MeshWire {
  import opened MachineTypes
  import opened Endian
  import opened Replay
  import opened ReplayCache
  import opened MeshSec
  import Utf8

  // ----- Layout -----

  /** Version, hint, epoch, salt, then the counter with its least significant byte first. */
  lemma HeaderLayout(h: Header)
    requires Encodable(h)
    ensures
      var b := EncodeHeader(h);
      && |b| == 22 && b[0] == 1 && b[1..9] == h.receiverHint && b[9] == h.epochLow && b[10..14] == h.bootSalt
      && forall i :: 0 <= i < 8 ==> b[14 + i] == h.counter / Pow256(i) % 256
  {
    var b := EncodeHeader(h);
    forall i | 0 <= i < 8 ensures b[14 + i] == h.counter / Pow256(i) % 256 {
      LeAt(h.counter, 8, i);
      assert b[14 + i] == ToLe(h.counter, 8)[i];
    }
    assert b[1..9] == h.receiverHint && b[10..14] == h.bootSalt;
  }

  /** A packet is turned down for its header only when it is shorter than 38 bytes or not of version 1. */
  lemma HeaderErrors(packet: Bytes)
    ensures DecodeHeader(packet).Err? <==> |packet| < 38 || packet[0] != 1
    ensures |packet| < 38 ==> DecodeHeader(packet) == Err(Truncated)
    ensures |packet| >= 38 && packet[0] != 1 ==> DecodeHeader(packet) == Err(UnsupportedVersion(packet[0]))
  {
  }

  /** Two length bytes, high first, the clear bytes, and zeros up to 128, 384 or 1024 bytes. */
  lemma PackLayout(clear: Bytes)
    requires |clear| <= 1022
    ensures
      var p := Pack(clear).value;
      && |p| == (if |clear| <= 126 then 128 else if |clear| <= 382 then 384 else 1024)
      && p[0] == |clear| / 256 && p[1] == |clear| % 256 && p[2..2 + |clear|] == clear
      && forall i :: 2 + |clear| <= i < |p| ==> p[i] == 0
  {
    var p := Pack(clear).value;
    assert p[2..2 + |clear|] == clear;
  }

  /** What unpacking returns, and the two ways it fails. */
  lemma UnpackMeans(plain: Bytes)
    ensures |plain| < 2 ==> Unpack(plain) == Err(Truncated)
    ensures |plain| >= 2 && 2 + plain[0] as int * 256 + plain[1] > |plain| ==> Unpack(plain) == Err(Truncated)
    ensures |plain| >= 2 && 2 + plain[0] as int * 256 + plain[1] <= |plain| ==>
      Unpack(plain) == Ok(plain[2..2 + plain[0] as int * 256 + plain[1]])
  {
  }

  const ZEROS: Bytes := [0, 0, 0, 0, 0, 0, 0, 0, 0, 0, 0, 0, 0, 0, 0, 0]

  /** The nonce is the counter, least significant byte first, and sixteen zeros. */
  lemma NonceLayout(counter: u64)
    ensures |Nonce(counter)| == 24 && Nonce(counter)[8..] == ZEROS
    ensures forall i :: 0 <= i < 8 ==> Nonce(counter)[i] == counter / Pow256(i) % 256
  {
    forall i | 0 <= i < 8 ensures Nonce(counter)[i] == counter / Pow256(i) % 256 {
      LeAt(counter, 8, i);
    }
  }

  /** Different counters never share a nonce. */
  lemma NoncesDiffer(c: u64, d: u64)
    ensures Nonce(c) == Nonce(d) ==> c == d
  {
    PowValues();
    LeRoundTrip(c, 8);
    LeRoundTrip(d, 8);
    assert Nonce(c)[..8] == ToLe(c, 8) && Nonce(d)[..8] == ToLe(d, 8);
  }

  // ----- The direction tag -----

  /** The first character that differs decides, and a proper prefix comes first. */
  lemma {:induction false} LexLeAt(a: string, b: string, k: nat)
    requires k <= |a| && k <= |b| && a[..k] == b[..k]
    ensures k == |a| || (k < |b| && a[k] < b[k]) ==> LexLe(a, b)
    ensures k < |a| && (k == |b| || b[k] < a[k]) ==> !LexLe(a, b)
    decreases k
  {
    if k > 0 {
      assert a[0] == a[..k][0] == b[..k][0] == b[0];
      assert a[1..][..k - 1] == a[..k][1..] == b[..k][1..] == b[1..][..k - 1];
      LexLeAt(a[1..], b[1..], k - 1);
    }
  }

  lemma {:induction false} LexLeTotal(a: string, b: string)
    ensures LexLe(a, b) || LexLe(b, a)
    ensures LexLe(a, b) && LexLe(b, a) ==> a == b
  {
    if a != [] && b != [] {
      LexLeTotal(a[1..], b[1..]);
      assert a == [a[0]] + a[1..] && b == [b[0]] + b[1..];
    }
  }

  /** The two directions between two nodes carry different tags, whichever end computes them. */
  lemma DirectionsDiffer(a: string, b: string)
    requires a != b
    ensures {Direction(a, b), Direction(b, a)} == {"ab", "ba"}
  {
    LexLeTotal(a, b);
  }

  // ----- What the cipher is given -----

  /** Everything a packet's encryption or decryption depends on besides the plaintext. */
  datatype CipherInput = CipherInput(
    staticKey: Bytes, epoch: u64, sender: string, direction: string, salt: Bytes, nonce: Bytes, aad: Bytes)

  /** The input a packet read under this key, sender and epoch stands for. */
  function InputOf(staticKey: Bytes, epoch: u64, sender: string, receiver: string, packet: Bytes): CipherInput
    requires |packet| >= 22
  {
    CipherInput(staticKey, epoch, sender, if LexLe(sender, receiver) then "ab" else "ba",
                packet[10..14], packet[14..22] + ZEROS, packet[..22])
  }

  function Encrypted(s: Suite, i: CipherInput, plain: Bytes): Bytes {
    s.encrypt(s.txKey(i.staticKey, i.epoch, i.sender, i.direction, i.salt), i.nonce, i.aad, plain)
  }

  function Decrypted(s: Suite, i: CipherInput, body: Bytes): Option<Bytes> {
    s.decrypt(s.txKey(i.staticKey, i.epoch, i.sender, i.direction, i.salt), i.nonce, i.aad, body)
  }

  lemma NonceOfPacket(packet: Bytes, counter: u64)
    requires |packet| >= 22 && packet[14..22] == ToLe(counter, 8)
    ensures Nonce(counter) == packet[14..22] + ZEROS
  {
    assert seq<byte>(16, _ => 0) == ZEROS;
  }

  /**
   * For every cipher suite, a sealed packet is its header, as laid out, followed
   * by the encryption of the packed bytes under the key of the static key, epoch,
   * sender, direction and salt, the nonce of the counter, and the header as
   * associated data.
   */
  lemma SealGives(s: Suite, clear: Bytes, ctx: SealContext, epoch: u64, counter: u64)
    requires |clear| <= 1022 && |s.hint(ctx.staticKey, epoch)| == 8 && |ctx.bootSalt| == 4
    ensures
      var packet := Seal(s, clear, ctx, epoch, counter).value;
      && |packet| >= 22 && packet[0] == 1 && packet[1..9] == s.hint(ctx.staticKey, epoch)
      && packet[9] == epoch % 256 && packet[10..14] == ctx.bootSalt && packet[14..22] == ToLe(counter, 8)
      && packet[22..] ==
         Encrypted(s, InputOf(ctx.staticKey, epoch, ctx.localId, ctx.remoteId, packet), Pack(clear).value)
  {
    var h := SealHeader(s, ctx, epoch, counter);
    var aad := EncodeHeader(h);
    var packet := Seal(s, clear, ctx, epoch, counter).value;
    HeaderLayout(h);
    assert packet[..22] == aad;
    assert aad[14..22] == ToLe(counter, 8);
    assert packet[1..9] == aad[1..9] && packet[10..14] == aad[10..14] && packet[14..22] == aad[14..22];
    NonceOfPacket(packet, counter);
    assert packet[22..] == packet[|aad|..];
  }

  /** Sealing fails only for clear bytes beyond 1022. */
  lemma SealFailsIff(s: Suite, clear: Bytes, ctx: SealContext, epoch: u64, counter: u64)
    ensures Seal(s, clear, ctx, epoch, counter).Err? <==> |clear| > 1022
    ensures |clear| > 1022 ==> Seal(s, clear, ctx, epoch, counter) == Err(PayloadTooLarge)
  {
  }

  /** For every cipher suite, what one key tries on a packet, read off the packet's own bytes. */
  lemma TryDecryptGives(s: Suite, key: OpenKey, local: string, epoch: u64, packet: Bytes)
    requires DecodeHeader(packet).Ok?
    ensures
      TryDecrypt(s, key, local, epoch, DecodeHeader(packet).value, packet[..HEADER_LEN], packet[HEADER_LEN..]) ==
      if s.hint(key.staticKey, epoch) != packet[1..9] then None
      else Decrypted(s, InputOf(key.staticKey, epoch, key.remoteId, local, packet), packet[22..])
  {
    LeInverse(packet[14..22]);
    NonceOfPacket(packet, DecodeHeader(packet).value.counter);
  }

  /**
   * Two packets that stand for the same input have the same header; so a change
   * of any header byte, of the key, epoch, sender or direction changes what
   * decryption is given.
   */
  lemma InputBindsHeader(k: Bytes, e: u64, sender: string, receiver: string, packet: Bytes,
                         k': Bytes, e': u64, sender': string, receiver': string, packet': Bytes)
    requires |packet| >= 22 && |packet'| >= 22
    ensures InputOf(k, e, sender, receiver, packet) == InputOf(k', e', sender', receiver', packet') <==>
            && k == k' && e == e' && sender == sender' && packet[..22] == packet'[..22]
            && (LexLe(sender, receiver) <==> LexLe(sender', receiver'))
  {
    if packet[..22] == packet'[..22] {
      assert packet[10..14] == packet[..22][10..14] && packet'[10..14] == packet'[..22][10..14];
      assert packet[14..22] == packet[..22][14..22] && packet'[14..22] == packet'[..22][14..22];
    }
  }

  /** A key of the list, at an epoch the header may mean, decrypts the packet to the plain bytes. */
  ghost predicate Vouches(s: Suite, packet: Bytes, key: OpenKey, local: string, epoch: u64, plain: Bytes)
    requires |packet| >= 22
  {
    && epoch % 256 == packet[9] && s.hint(key.staticKey, epoch) == packet[1..9]
    && Decrypted(s, InputOf(key.staticKey, epoch, key.remoteId, local, packet), packet[22..]) == Some(plain)
  }

  /**
   * Clear bytes come out only of a packet that some configured key authenticated
   * at an accepted epoch, header and all; they are that key's decryption, cut to
   * the length it carries, and they are reported under that key's peer.
   */
  lemma OpenedIsAuthentic(s: Suite, packet: Bytes, keys: seq<OpenKey>, local: string, lo: u64, hi: u64,
                          rings: Rings, window: u64)
    requires RingsSized(rings, window) && Open(s, packet, keys, local, lo, hi, rings, window).result.Ok?
    ensures
      var (peer, clear) := Open(s, packet, keys, local, lo, hi, rings, window).result.value;
      && |packet| >= 38 && packet[0] == 1
      && exists key, epoch: u64, plain ::
           && key in keys && key.peerId == peer && lo <= epoch <= hi && Vouches(s, packet, key, local, epoch, plain)
           && |plain| >= 2 + |clear| && plain[0] as int * 256 + plain[1] == |clear| && plain[2..2 + |clear|] == clear
  {
    var h := DecodeHeader(packet).value;
    FindOpenerFinds(s, packet, keys, local, lo, hi);
    var who := FindOpener(s, keys, local, lo, hi, h, packet[..HEADER_LEN], packet[HEADER_LEN..]).value;
    TryDecryptGives(s, who.key, local, who.epoch, packet);
    assert Vouches(s, packet, who.key, local, who.epoch, who.plain);
  }

  // ----- Key derivation -----

  /** `Hkdf::<Sha256>` extract and expand to 32 bytes, and `HmacSha256`. */
  datatype Kdf = Kdf(hkdf: (Option<Bytes>, Bytes, Bytes) -> Bytes, hmac: (Bytes, Bytes) -> Bytes)

  function Literal(s: string): Bytes { Utf8.TextBytes(s) }

  /** The first eight bytes of the tag; the real tag has 32. */
  function ReceiverHint(d: Kdf, staticKey: Bytes, epoch: u64): Bytes {
    var tag := d.hmac(d.hkdf(None, staticKey, Literal("meshsec/v1/hint")), ToLe(epoch, 8));
    if |tag| >= 8 then tag[..8] else tag
  }

  function EpochKey(d: Kdf, staticKey: Bytes, epoch: u64): Bytes {
    d.hkdf(Some(ToLe(epoch, 8)), staticKey, Literal("meshsec/v1/epoch"))
  }

  function Info(direction: string, salt: Bytes): Bytes {
    Literal("meshsec/v1/dir/") + Literal(direction) + salt
  }

  function SenderKey(d: Kdf, epochKey: Bytes, sender: string, direction: string, salt: Bytes): Bytes {
    d.hkdf(Some(Literal(sender)), epochKey, Info(direction, salt))
  }

  function TxKey(d: Kdf, staticKey: Bytes, epoch: u64, sender: string, direction: string, salt: Bytes): Bytes {
    SenderKey(d, EpochKey(d, staticKey, epoch), sender, direction, salt)
  }

  /** The suite the envelope really uses, over any two derivation functions and any cipher. */
  function SuiteOf(d: Kdf, encrypt: (Bytes, Bytes, Bytes, Bytes) -> Bytes,
                   decrypt: (Bytes, Bytes, Bytes, Bytes) -> Option<Bytes>): Suite
  {
    Suite((k, e) => ReceiverHint(d, k, e), (k, e, p, r, t) => TxKey(d, k, e, p, r, t), encrypt, decrypt)
  }

  datatype HkdfArgs = HkdfArgs(salt: Option<Bytes>, ikm: Bytes, info: Bytes)

  ghost predicate Collision(d: Kdf, a: HkdfArgs, b: HkdfArgs) {
    a != b && d.hkdf(a.salt, a.ikm, a.info) == d.hkdf(b.salt, b.ikm, b.info)
  }

  predicate IsTag(direction: string) {
    direction == "ab" || direction == "ba"
  }

  lemma LengthOfTag(direction: string)
    requires IsTag(direction)
    ensures |Literal(direction)| == 2
    ensures Literal(direction) == if direction == "ab" then [97, 98] else [98, 97]
  {
    assert direction[1..][1..] == [];
    assert Utf8.TextBytes(direction[1..]) == Utf8.CharBytes(direction[1]);
  }

  lemma LiteralInjective(s: string, t: string)
    ensures Literal(s) == Literal(t) ==> s == t
  {
    if Literal(s) == Literal(t) { Utf8.TextBytesInjective(s, t); }
  }

  /** The direction and the salt can be told apart again in the text the key is derived from. */
  lemma InfoInjective(dir: string, salt: Bytes, dir': string, salt': Bytes)
    requires IsTag(dir) && IsTag(dir')
    ensures Info(dir, salt) == Info(dir', salt') ==> dir == dir' && salt == salt'
  {
    hide Literal;
    LengthOfTag(dir);
    LengthOfTag(dir');
    if Info(dir, salt) == Info(dir', salt') {
      MiddleInjective(Literal("meshsec/v1/dir/"), Literal(dir), salt, Literal(dir'), salt');
    }
  }

  lemma MiddleInjective(p: Bytes, a: Bytes, s: Bytes, b: Bytes, t: Bytes)
    requires |a| == |b| && p + a + s == p + b + t
    ensures a == b && s == t
  {
    var n, m := |p|, |p| + |a|;
    assert a == (p + a + s)[n..m] == (p + b + t)[n..m] == b;
    assert s == (p + a + s)[m..] == (p + b + t)[m..] == t;
  }

  lemma EpochKeyBinds(d: Kdf, k: Bytes, e: u64, k': Bytes, e': u64)
    ensures EpochKey(d, k, e) == EpochKey(d, k', e') ==> (k == k' && e == e') || exists a, b :: Collision(d, a, b)
  {
    hide Literal, ToLe;
    var a := HkdfArgs(Some(ToLe(e, 8)), k, Literal("meshsec/v1/epoch"));
    var b := HkdfArgs(Some(ToLe(e', 8)), k', Literal("meshsec/v1/epoch"));
    if a != b && EpochKey(d, k, e) == EpochKey(d, k', e') { assert Collision(d, a, b); }
    PowValues();
    LeRoundTrip(e, 8);
    LeRoundTrip(e', 8);
  }

  lemma SenderKeyBinds(d: Kdf, k: Bytes, sender: string, dir: string, salt: Bytes,
                       k': Bytes, sender': string, dir': string, salt': Bytes)
    requires IsTag(dir) && IsTag(dir')
    ensures SenderKey(d, k, sender, dir, salt) == SenderKey(d, k', sender', dir', salt') ==>
      (k == k' && sender == sender' && dir == dir' && salt == salt') || exists a, b :: Collision(d, a, b)
  {
    hide Literal, Info, IsTag;
    var a := HkdfArgs(Some(Literal(sender)), k, Info(dir, salt));
    var b := HkdfArgs(Some(Literal(sender')), k', Info(dir', salt'));
    if a != b && SenderKey(d, k, sender, dir, salt) == SenderKey(d, k', sender', dir', salt') {
      assert Collision(d, a, b);
    }
    LiteralInjective(sender, sender');
    InfoInjective(dir, salt, dir', salt');
  }

  /**
   * A transmit key binds the static key, epoch, sender, direction and salt: two
   * derivations that agree are the same derivation, or exhibit a collision.
   */
  lemma TxKeyBinds(d: Kdf, k: Bytes, e: u64, sender: string, dir: string, salt: Bytes,
                   k': Bytes, e': u64, sender': string, dir': string, salt': Bytes)
    requires IsTag(dir) && IsTag(dir')
    ensures TxKey(d, k, e, sender, dir, salt) == TxKey(d, k', e', sender', dir', salt') ==>
      || (k == k' && e == e' && sender == sender' && dir == dir' && salt == salt')
      || exists a, b :: Collision(d, a, b)
  {
    hide SenderKey, EpochKey, IsTag;
    SenderKeyBinds(d, EpochKey(d, k, e), sender, dir, salt, EpochKey(d, k', e'), sender', dir', salt');
    EpochKeyBinds(d, k, e, k', e');
  }

  /**
   * No two seals share a key and a nonce: they agree on both only when they
   * agree on static key, epoch, sender, direction, salt and counter, unless the
   * derivation collides.
   */
  lemma KeyAndNonceNeverReused(d: Kdf, encrypt: (Bytes, Bytes, Bytes, Bytes) -> Bytes,
                               decrypt: (Bytes, Bytes, Bytes, Bytes) -> Option<Bytes>,
                               ctx: SealContext, epoch: u64, counter: u64,
                               ctx': SealContext, epoch': u64, counter': u64)
    ensures
      var s := SuiteOf(d, encrypt, decrypt);
      var dir, dir' := Direction(ctx.localId, ctx.remoteId), Direction(ctx'.localId, ctx'.remoteId);
      && Nonce(counter) == Nonce(counter')
      && s.txKey(ctx.staticKey, epoch, ctx.localId, dir, ctx.bootSalt)
         == s.txKey(ctx'.staticKey, epoch', ctx'.localId, dir', ctx'.bootSalt) ==>
        || (exists a, b :: Collision(d, a, b))
        || (&& ctx.staticKey == ctx'.staticKey && epoch == epoch' && ctx.localId == ctx'.localId
            && dir == dir' && ctx.bootSalt == ctx'.bootSalt && counter == counter')
  {
    hide TxKey, Nonce, LexLe;
    TxKeyBinds(d, ctx.staticKey, epoch, ctx.localId, Direction(ctx.localId, ctx.remoteId), ctx.bootSalt,
               ctx'.staticKey, epoch', ctx'.localId, Direction(ctx'.localId, ctx'.remoteId), ctx'.bootSalt);
    NoncesDiffer(counter, counter');
  }
}
