/**
 * The server side of the SOCKS5 handshake: greeting, optional user/password
 * sub-negotiation and request, read from a socket in arbitrary pieces.
 */
module Socks5Handshake {
  import opened MachineTypes
  import opened Chunks
  import opened Socks5
  import Utf8

  type Users = map<Bytes, Bytes>

  datatype Handshake = Handshake(request: Request, user: Option<Bytes>)

  /** What the peer is told and what the caller gets. */
  datatype Outcome = Outcome(handshake: Option<Handshake>, written: Bytes)

  const NO_METHOD: Bytes := [5, 0xFF]
  const AUTH_OK: Bytes := [1, 0]
  const AUTH_FAILED: Bytes := [1, 0xFF]

  function Required(auth: Option<Users>): Method {
    if auth.Some? then UserPass else NoAuth
  }

  function Selected(auth: Option<Users>): Bytes {
    if auth.Some? then [5, 2] else [5, 0]
  }

  predicate Verified(users: Users, c: Credentials) {
    && Utf8.WellFormed(c.username) && Utf8.WellFormed(c.password)
    && c.username in users && users[c.username] == c.password
  }

  // ----- The handshake as a function of the whole byte stream -----

  function RequestPhase(input: Bytes, user: Option<Bytes>, written: Bytes): Outcome {
    match DecodeRequest(input)
    case Ok(d) => Outcome(Some(Handshake(d.value, user)), written)
    case Err(_) => Outcome(None, written)
  }

  /** What a write leaves behind when the connection still takes `writes` of them. */
  function Sent(written: Bytes, reply: Bytes, writes: nat): Bytes {
    if writes == 0 then written else written + reply
  }

  function AuthPhase(input: Bytes, users: Users, written: Bytes, writes: nat): Outcome {
    match DecodeUserPass(input)
    case Err(e) => Outcome(None, if e.Incomplete? then written else Sent(written, AUTH_FAILED, writes))
    case Ok(d) =>
      if !Verified(users, d.value) then Outcome(None, Sent(written, AUTH_FAILED, writes))
      else if writes == 0 then Outcome(None, written)
      else RequestPhase(input[d.used..], Some(d.value.username), written + AUTH_OK)
  }

  /** The handshake over a connection on which the first `writes` writes succeed. */
  function Negotiate(input: Bytes, auth: Option<Users>, writes: nat): Outcome {
    match DecodeGreeting(input)
    case Err(_) => Outcome(None, [])
    case Ok(d) =>
      if Required(auth) !in d.value then Outcome(None, Sent([], NO_METHOD, writes))
      else if writes == 0 then Outcome(None, [])
      else if auth.Some? then AuthPhase(input[d.used..], auth.value, Selected(auth), writes - 1)
      else RequestPhase(input[d.used..], None, Selected(auth))
  }

  // ----- The handshake as it runs -----

  class Socket {
    var incoming: seq<Bytes>
    var written: Bytes
    var writesLeft: nat

    constructor (incoming: seq<Bytes>, writes: nat)
      ensures this.incoming == incoming && written == [] && writesLeft == writes
    {
      this.incoming := incoming;
      written, writesLeft := [], writes;
    }

    /** No bytes means the peer closed, or the read failed. */
    method Read() returns (chunk: Bytes)
      modifies this`incoming
      ensures old(incoming) == [] ==> chunk == [] && incoming == []
      ensures old(incoming) != [] ==> chunk == old(incoming)[0] && incoming == old(incoming)[1..]
    {
      if incoming == [] {
        return [];
      }
      chunk := incoming[0];
      incoming := incoming[1..];
    }

    /** False when the write fails. */
    method Write(b: Bytes) returns (ok: bool)
      modifies this`written, this`writesLeft
      ensures ok == (old(writesLeft) > 0) && written == Sent(old(written), b, old(writesLeft))
      ensures ok ==> writesLeft == old(writesLeft) - 1
    {
      ok := writesLeft > 0;
      if ok {
        written := written + b;
        writesLeft := writesLeft - 1;
      }
    }
  }

  /** Reads never come back empty before the end of the stream. */
  predicate Readable(chunks: seq<Bytes>) {
    forall k :: 0 <= k < |chunks| ==> chunks[k] != []
  }

  lemma NextChunk(buf: Bytes, chunks: seq<Bytes>)
    requires chunks != []
    ensures (buf + chunks[0]) + Flat(chunks[1..]) == buf + Flat(chunks)
  {
  }

  method ReadGreeting(sock: Socket) returns (buf: Bytes, r: Result<Decoded<seq<Method>>, CodecError>)
    requires Readable(sock.incoming)
    modifies sock`incoming
    ensures Readable(sock.incoming)
    ensures r == DecodeGreeting(old(Flat(sock.incoming))) && buf + Flat(sock.incoming) == old(Flat(sock.incoming))
    ensures r.Ok? ==> r.value.used <= |buf|
  {
    buf := [];
    ghost var total := Flat(sock.incoming);
    while true
      invariant Readable(sock.incoming) && buf + Flat(sock.incoming) == total
      invariant DecodeGreeting(buf) == Err(Incomplete)
      decreases |sock.incoming|
    {
      ghost var coming := sock.incoming;
      var chunk := sock.Read();
      if chunk == [] {
        assert buf + [] == buf;
        return buf, Err(Incomplete);
      }
      NextChunk(buf, coming);
      buf := buf + chunk;
      GreetingStable(buf, Flat(sock.incoming));
      r := DecodeGreeting(buf);
      if r != Err(Incomplete) {
        return;
      }
    }
  }

  method ReadUserPass(sock: Socket, start: Bytes) returns (buf: Bytes, r: Result<Decoded<Credentials>, CodecError>)
    requires Readable(sock.incoming)
    modifies sock`incoming
    ensures Readable(sock.incoming)
    ensures r == DecodeUserPass(start + old(Flat(sock.incoming)))
    ensures buf + Flat(sock.incoming) == start + old(Flat(sock.incoming))
    ensures r.Ok? ==> r.value.used <= |buf|
  {
    buf := start;
    ghost var total := start + Flat(sock.incoming);
    while true
      invariant Readable(sock.incoming) && buf + Flat(sock.incoming) == total
      decreases |sock.incoming|
    {
      r := DecodeUserPass(buf);
      UserPassStable(buf, Flat(sock.incoming));
      if r != Err(Incomplete) {
        return;
      }
      ghost var coming := sock.incoming;
      var chunk := sock.Read();
      if chunk == [] {
        assert buf + [] == buf;
        return;
      }
      NextChunk(buf, coming);
      buf := buf + chunk;
    }
  }

  method ReadRequest(sock: Socket, start: Bytes) returns (buf: Bytes, r: Result<Decoded<Request>, CodecError>)
    requires Readable(sock.incoming)
    modifies sock`incoming
    ensures Readable(sock.incoming)
    ensures r == DecodeRequest(start + old(Flat(sock.incoming)))
    ensures buf + Flat(sock.incoming) == start + old(Flat(sock.incoming))
  {
    hide DecodeRequest;
    buf := start;
    ghost var total := start + Flat(sock.incoming);
    while true
      invariant Readable(sock.incoming) && buf + Flat(sock.incoming) == total
      decreases |sock.incoming|
    {
      r := DecodeRequest(buf);
      RequestStable(buf, Flat(sock.incoming));
      if r != Err(Incomplete) {
        return;
      }
      ghost var coming := sock.incoming;
      var chunk := sock.Read();
      if chunk == [] {
        assert buf + [] == buf;
        return;
      }
      NextChunk(buf, coming);
      buf := buf + chunk;
    }
  }

  method FinishRequest(sock: Socket, buf: Bytes, user: Option<Bytes>) returns (h: Option<Handshake>)
    requires Readable(sock.incoming)
    modifies sock`incoming
    ensures Outcome(h, sock.written) == RequestPhase(buf + old(Flat(sock.incoming)), user, sock.written)
  {
    hide DecodeRequest;
    var _, request := ReadRequest(sock, buf);
    h := if request.Ok? then Some(Handshake(request.value.value, user)) else None;
  }

  /** The user/password exchange, then the request. */
  method Authenticate(sock: Socket, start: Bytes, users: Users) returns (h: Option<Handshake>)
    requires Readable(sock.incoming)
    modifies sock
    ensures Outcome(h, sock.written)
            == AuthPhase(start + old(Flat(sock.incoming)), users, old(sock.written), old(sock.writesLeft))
  {
    hide DecodeUserPass, DecodeRequest, RequestPhase;
    ghost var total := start + Flat(sock.incoming);
    var buf, creds := ReadUserPass(sock, start);
    if creds == Err(Incomplete) {
      return None;
    }
    if creds.Err? || !Verified(users, creds.value.value) {
      var _ := sock.Write(AUTH_FAILED);
      return None;
    }
    var ok := sock.Write(AUTH_OK);
    if !ok {
      return None;
    }
    assert total[creds.value.used..] == buf[creds.value.used..] + Flat(sock.incoming);
    h := FinishRequest(sock, buf[creds.value.used..], Some(creds.value.value.username));
  }

  /**
   * However the client's bytes are cut into reads, the outcome and everything
   * written back are those of the whole stream.
   */
  method ReadHandshake(sock: Socket, auth: Option<Users>) returns (h: Option<Handshake>)
    requires Readable(sock.incoming) && sock.written == []
    modifies sock
    ensures Outcome(h, sock.written) == Negotiate(old(Flat(sock.incoming)), auth, old(sock.writesLeft))
  {
    hide DecodeGreeting, AuthPhase, RequestPhase;
    ghost var total := Flat(sock.incoming);
    var buf, greeting := ReadGreeting(sock);
    if greeting.Err? {
      return None;
    }
    var used := greeting.value.used;
    if Required(auth) !in greeting.value.value {
      var _ := sock.Write(NO_METHOD);
      return None;
    }
    var ok := sock.Write(Selected(auth));
    if !ok {
      return None;
    }
    assert sock.written == Selected(auth);
    assert total[used..] == buf[used..] + Flat(sock.incoming);
    match auth
    case Some(users) => h := Authenticate(sock, buf[used..], users);
    case None => h := FinishRequest(sock, buf[used..], None);
  }

  // ----- What the outcome means -----

  /** The credentials that follow the greeting in the stream. */
  ghost predicate Carries(input: Bytes, c: Credentials) {
    && DecodeGreeting(input).Ok?
    && var login := DecodeUserPass(input[DecodeGreeting(input).value.used..]);
    login.Ok? && login.value.value == c
  }

  /**
   * A completed handshake names a user exactly when users are configured, and
   * then the stream carried that user's name with the configured password.
   */
  lemma CompletedMeansVerified(input: Bytes, auth: Option<Users>, writes: nat)
    ensures
      var o := Negotiate(input, auth, writes);
      && (o.handshake.Some? ==> (o.handshake.value.user.Some? <==> auth.Some?))
      && (o.handshake.Some? && auth.Some? ==>
            exists c ::
              && Carries(input, c) && o.handshake.value.user == Some(c.username)
              && c.username in auth.value && auth.value[c.username] == c.password)
      && (o.handshake.Some? ==> o.written == Selected(auth) + (if auth.Some? then AUTH_OK else []))
  {
    hide DecodeGreeting, DecodeUserPass, DecodeRequest, Utf8.WellFormed;
    assert Selected(auth) + [] == Selected(auth);
    if Negotiate(input, auth, writes).handshake.Some? && auth.Some? {
      var c := DecodeUserPass(input[DecodeGreeting(input).value.used..]).value.value;
      assert Carries(input, c) && Verified(auth.value, c);
    }
  }

  function Login(auth: Option<Users>, c: Credentials): Bytes
    requires auth.Some? ==> EncodeUserPass(c).Ok?
  {
    if auth.Some? then EncodeUserPass(c).value else []
  }

  /**
   * A client that offers the required method, logs in with a configured user if
   * asked, and requests a valid endpoint always completes the handshake, as long
   * as the replies can be written.
   */
  lemma ClientCompletes(methods: seq<Method>, auth: Option<Users>, c: Credentials, request: Request, tail: Bytes,
                        writes: nat)
    requires writes >= if auth.Some? then 2 else 1
    requires |methods| <= 255 && Required(auth) in methods && ValidEndpoint(request.endpoint)
    requires auth.Some? ==>
      && c.username in auth.value && auth.value[c.username] == c.password
      && Utf8.WellFormed(c.username) && Utf8.WellFormed(c.password) && EncodeUserPass(c).Ok?
    ensures
      var input := EncodeGreeting(methods) + Login(auth, c) + EncodeRequest(request) + tail;
      Negotiate(input, auth, writes)
      == Outcome(Some(Handshake(request, if auth.Some? then Some(c.username) else None)),
                 Selected(auth) + (if auth.Some? then AUTH_OK else []))
  {
    hide DecodeGreeting, DecodeUserPass, DecodeRequest, EncodeGreeting, EncodeUserPass, EncodeRequest, Utf8.WellFormed;
    var greeting := EncodeGreeting(methods);
    var asked := EncodeRequest(request) + tail;
    var input := greeting + Login(auth, c) + EncodeRequest(request) + tail;
    assert input == greeting + (Login(auth, c) + asked);
    GreetingRoundTrip(methods, Login(auth, c) + asked);
    assert input[|greeting|..] == Login(auth, c) + asked;
    RequiredSurvives(methods, auth, DecodeGreeting(input).value.value);
    RequestRoundTrip(request, tail);
    if auth.Some? {
      UserPassRoundTrip(c, asked);
      assert (Login(auth, c) + asked)[|Login(auth, c)|..] == asked;
    } else {
      assert [] + asked == asked;
      assert Selected(auth) + [] == Selected(auth);
    }
  }

  lemma RequiredSurvives(methods: seq<Method>, auth: Option<Users>, seen: seq<Method>)
    requires Required(auth) in methods && |seen| == |methods|
    requires forall i :: 0 <= i < |methods| ==> seen[i] == MethodFrom(MethodCode(methods[i]))
    ensures Required(auth) in seen
  {
    var i :| 0 <= i < |methods| && methods[i] == Required(auth);
    assert seen[i] == Required(auth);
  }
}
