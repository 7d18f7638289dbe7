/** SOCKS5 greeting, user/password and request decoders. */
module Socks5 {
  import opened MachineTypes
  import opened Endian
  import opened Chunks
  import Utf8

  datatype Method = NoAuth | GssApi | UserPass | Unknown(code: byte)

  datatype Command = Connect | Bind | UdpAssociate

  /** The host as the wire distinguishes it; addresses stay octets instead of their printed text. */
  datatype Host = V4(octets: Bytes) | Domain(name: Bytes) | V6(octets: Bytes)

  datatype Endpoint = Endpoint(host: Host, port: u16)

  datatype Request = Request(command: Command, endpoint: Endpoint)

  datatype Credentials = Credentials(username: Bytes, password: Bytes)

  datatype CodecError =
    | Incomplete
    | UnsupportedVersion(v: byte)
    | InvalidAtyp(v: byte)
    | UnsupportedCommand(v: byte)
    | ReservedNotZero(v: byte)
    | InvalidHost
    | BadEndpoint
    | UnsupportedAuthVersion(v: byte)
    | InvalidAuthLen

  /** A decoded value and how many bytes it took. */
  datatype Decoded<T> = Decoded(value: T, used: nat)

  function MethodFrom(b: byte): Method {
    if b == 0 then NoAuth else if b == 1 then GssApi else if b == 2 then UserPass else Unknown(b)
  }

  function MethodsFrom(s: Bytes): seq<Method> {
    seq(|s|, i requires 0 <= i < |s| => MethodFrom(s[i]))
  }

  function DecodeGreeting(buf: Bytes): (r: Result<Decoded<seq<Method>>, CodecError>)
    ensures r.Ok? ==> r.value.used <= |buf|
  {
    if |buf| < 2 then Err(Incomplete)
    else if buf[0] != 5 then Err(UnsupportedVersion(buf[0]))
    else
      var n: int := buf[1];
      if |buf| < 2 + n then Err(Incomplete)
      else Ok(Decoded(MethodsFrom(buf[2..2 + n]), 2 + n))
  }

  function DecodeUserPass(buf: Bytes): (r: Result<Decoded<Credentials>, CodecError>)
    ensures r.Ok? ==> r.value.used <= |buf|
  {
    if |buf| < 2 then Err(Incomplete)
    else if buf[0] != 1 then Err(UnsupportedAuthVersion(buf[0]))
    else
      var ulen: int := buf[1];
      if ulen == 0 then Err(InvalidAuthLen)
      else if |buf| < 2 + ulen + 1 then Err(Incomplete)
      else
        var plen: int := buf[2 + ulen];
        if plen == 0 then Err(InvalidAuthLen)
        else if |buf| < 2 + ulen + 1 + plen then Err(Incomplete)
        else Ok(Decoded(Credentials(buf[2..2 + ulen], buf[2 + ulen + 1..2 + ulen + 1 + plen]), 2 + ulen + 1 + plen))
  }

  /** `Endpoint::new` on a host of at most 255 bytes. */
  function NewEndpoint(host: Host, port: u16): Result<Endpoint, CodecError> {
    if host == Domain([]) || port == 0 then Err(BadEndpoint) else Ok(Endpoint(host, port))
  }

  function DecodeHost(buf: Bytes, at: nat): Result<Decoded<Host>, CodecError> {
    if |buf| <= at then Err(Incomplete)
    else if buf[at] == 1 then
      if |buf| < at + 7 then Err(Incomplete) else Ok(Decoded(V4(buf[at + 1..at + 5]), at + 5))
    else if buf[at] == 3 then
      if |buf| < at + 2 then Err(Incomplete)
      else
        var len: int := buf[at + 1];
        if |buf| < at + 2 + len + 2 then Err(Incomplete)
        else if !Utf8.WellFormed(buf[at + 2..at + 2 + len]) then Err(InvalidHost)
        else Ok(Decoded(Domain(buf[at + 2..at + 2 + len]), at + 2 + len))
    else if buf[at] == 4 then
      if |buf| < at + 19 then Err(Incomplete) else Ok(Decoded(V6(buf[at + 1..at + 17]), at + 17))
    else Err(InvalidAtyp(buf[at]))
  }

  lemma HostLeavesPort(buf: Bytes, at: nat)
    ensures DecodeHost(buf, at).Ok? ==> at < DecodeHost(buf, at).value.used && DecodeHost(buf, at).value.used + 2 <= |buf|
  {
  }

  function DecodeEndpoint(buf: Bytes, at: nat): Result<Decoded<Endpoint>, CodecError> {
    var host :- DecodeHost(buf, at);
    HostLeavesPort(buf, at);
    var ep :- NewEndpoint(host.value, U16At(buf, host.used));
    Ok(Decoded(ep, host.used + 2))
  }

  function DecodeRequest(buf: Bytes): Result<Decoded<Request>, CodecError> {
    if |buf| < 7 then Err(Incomplete)
    else if buf[0] != 5 then Err(UnsupportedVersion(buf[0]))
    else if buf[1] < 1 || buf[1] > 3 then Err(UnsupportedCommand(buf[1]))
    else if buf[2] != 0 then Err(ReservedNotZero(buf[2]))
    else
      var ep :- DecodeEndpoint(buf, 3);
      Ok(Decoded(Request(if buf[1] == 1 then Connect else if buf[1] == 2 then Bind else UdpAssociate, ep.value), ep.used))
  }

  // ----- More bytes never change a decision -----

  ghost predicate Decided<T>(r: Result<T, CodecError>) {
    r != Err(Incomplete)
  }

  lemma GreetingStable(buf: Bytes, more: Bytes)
    ensures Decided(DecodeGreeting(buf)) ==> DecodeGreeting(buf + more) == DecodeGreeting(buf)
  {
    if DecodeGreeting(buf).Ok? {
      var n := DecodeGreeting(buf).value.used;
      assert (buf + more)[2..n] == buf[2..n];
    }
  }

  lemma UserPassStable(buf: Bytes, more: Bytes)
    ensures Decided(DecodeUserPass(buf)) ==> DecodeUserPass(buf + more) == DecodeUserPass(buf)
  {
    if DecodeUserPass(buf).Ok? {
      var ulen: int, n := buf[1], DecodeUserPass(buf).value.used;
      assert (buf + more)[2..2 + ulen] == buf[2..2 + ulen];
      assert (buf + more)[2 + ulen + 1..n] == buf[2 + ulen + 1..n];
    }
  }

  lemma HostStable(buf: Bytes, more: Bytes, at: nat)
    ensures Decided(DecodeHost(buf, at)) ==> DecodeHost(buf + more, at) == DecodeHost(buf, at)
  {
    hide Utf8.WellFormed;
    if |buf| > at {
      if buf[at] == 1 && |buf| >= at + 7 {
        assert (buf + more)[at + 1..at + 5] == buf[at + 1..at + 5];
      } else if buf[at] == 3 && |buf| >= at + 2 && |buf| >= at + 2 + buf[at + 1] + 2 {
        assert (buf + more)[at + 2..at + 2 + buf[at + 1]] == buf[at + 2..at + 2 + buf[at + 1]];
      } else if buf[at] == 4 && |buf| >= at + 19 {
        assert (buf + more)[at + 1..at + 17] == buf[at + 1..at + 17];
      }
    }
  }

  lemma RequestStable(buf: Bytes, more: Bytes)
    ensures Decided(DecodeRequest(buf)) ==> DecodeRequest(buf + more) == DecodeRequest(buf)
    ensures DecodeRequest(buf).Ok? ==> 7 <= DecodeRequest(buf).value.used <= |buf|
  {
    hide DecodeHost;
    HostStable(buf, more, 3);
    HostLeavesPort(buf, 3);
    RequestLength(buf);
  }

  lemma RequestLength(buf: Bytes)
    ensures DecodeRequest(buf).Ok? ==> DecodeRequest(buf).value.used >= 7
  {
    hide Utf8.WellFormed;
  }

  // ----- Encoders -----

  predicate ValidEndpoint(ep: Endpoint) {
    && ep.port > 0
    && match ep.host
       case V4(o) => |o| == 4
       case V6(o) => |o| == 16
       case Domain(n) => 0 < |n| <= 255 && Utf8.WellFormed(n)
  }

  function EncodeHost(host: Host): Bytes {
    match host
    case V4(o) => [1] + o
    case V6(o) => [4] + o
    case Domain(n) => [3, |n| % 256] + n
  }

  function CommandCode(c: Command): byte {
    match c case Connect => 1 case Bind => 2 case UdpAssociate => 3
  }

  function EncodeRequest(r: Request): Bytes {
    [5, CommandCode(r.command), 0] + EncodeHost(r.endpoint.host) + U16Bytes(r.endpoint.port)
  }

  lemma HostRoundTrip(buf: Bytes, ep: Endpoint, head: Bytes, tail: Bytes)
    requires ValidEndpoint(ep) && buf == head + EncodeHost(ep.host) + U16Bytes(ep.port) + tail
    ensures DecodeHost(buf, |head|) == Ok(Decoded(ep.host, |head| + |EncodeHost(ep.host)|))
    ensures U16At(buf, |head| + |EncodeHost(ep.host)|) == ep.port
  {
    hide Utf8.WellFormed;
    var at, h := |head|, EncodeHost(ep.host);
    assert buf[at..at + |h|] == h;
    assert forall i :: 0 <= i < |h| ==> buf[at + i] == h[i];
    var p := at + |h|;
    assert buf[p] == U16Bytes(ep.port)[0] && buf[p + 1] == U16Bytes(ep.port)[1];
    match ep.host
    case V4(o) => assert buf[at + 1..at + 5] == o;
    case V6(o) => assert buf[at + 1..at + 17] == o;
    case Domain(n) => assert buf[at + 2..at + 2 + |n|] == n;
  }

  /** A request to a valid endpoint decodes back to itself, whatever follows. */
  lemma RequestRoundTrip(r: Request, tail: Bytes)
    requires ValidEndpoint(r.endpoint)
    ensures DecodeRequest(EncodeRequest(r) + tail) == Ok(Decoded(r, |EncodeRequest(r)|))
  {
    hide DecodeHost, Utf8.WellFormed;
    var head := [5, CommandCode(r.command), 0];
    var buf := EncodeRequest(r) + tail;
    HostRoundTrip(buf, r.endpoint, head, tail);
    assert buf[0] == head[0] && buf[1] == head[1] && buf[2] == head[2];
  }

  // ----- Hosts as text -----

  /** How the standard library reads and prints addresses. */
  datatype AddressText = AddressText(
    parse4: Bytes -> Option<Bytes>, parse6: Bytes -> Option<Bytes>, show4: Bytes -> Bytes, show6: Bytes -> Bytes)

  /** Printed addresses are read back, and no text is both kinds. */
  ghost predicate Lawful(t: AddressText) {
    && (forall s :: t.parse4(s).Some? ==> |t.parse4(s).value| == 4 && t.parse6(s).None?)
    && (forall s :: t.parse6(s).Some? ==> |t.parse6(s).value| == 16)
    && (forall o :: |o| == 4 ==> t.parse4(t.show4(o)) == Some(o))
    && (forall o :: |o| == 16 ==> t.parse6(t.show6(o)) == Some(o))
  }

  /** The wire form chosen for a host name: an address when the text spells one. */
  function HostOf(t: AddressText, name: Bytes): Host {
    match t.parse4(name)
    case Some(o) => V4(o)
    case None =>
      match t.parse6(name)
      case Some(o) => V6(o)
      case None => Domain(name)
  }

  /** The host name a decoded wire form is given. */
  function TextOf(t: AddressText, host: Host): Bytes {
    match host
    case V4(o) => t.show4(o)
    case V6(o) => t.show6(o)
    case Domain(n) => n
  }

  /** The text spells no address, or is what some address is printed as. */
  ghost predicate Printed(t: AddressText, name: Bytes) {
    || (t.parse4(name).None? && t.parse6(name).None?)
    || (exists o :: |o| == 4 && name == t.show4(o))
    || (exists o :: |o| == 16 && name == t.show6(o))
  }

  /**
   * A request for a host name always comes back naming the same host; it comes
   * back with the very same text if and only if the text spells no address or is
   * what some address is printed as.
   */
  lemma NamedRequestRoundTrip(t: AddressText, command: Command, name: Bytes, port: u16, tail: Bytes)
    requires Lawful(t) && 0 < |name| <= 255 && Utf8.WellFormed(name) && port > 0
    ensures
      var request := Request(command, Endpoint(HostOf(t, name), port));
      && DecodeRequest(EncodeRequest(request) + tail) == Ok(Decoded(request, |EncodeRequest(request)|))
      && HostOf(t, TextOf(t, HostOf(t, name))) == HostOf(t, name)
      && (TextOf(t, HostOf(t, name)) == name <==> Printed(t, name))
  {
    hide DecodeRequest, EncodeRequest, Utf8.WellFormed;
    RequestRoundTrip(Request(command, Endpoint(HostOf(t, name), port)), tail);
    match HostOf(t, name)
    case V4(o) => assert t.show4(o) == name ==> Printed(t, name);
    case V6(o) => assert t.show6(o) == name ==> Printed(t, name);
    case Domain(_) =>
  }

  function MethodCode(m: Method): byte {
    match m case NoAuth => 0 case GssApi => 1 case UserPass => 2 case Unknown(c) => c
  }

  function EncodeGreeting(methods: seq<Method>): Bytes {
    [5, |methods| % 256] + seq(|methods|, i requires 0 <= i < |methods| => MethodCode(methods[i]))
  }

  /** A greeting decodes back to its methods; codes 0 to 2 come back under their names. */
  lemma GreetingRoundTrip(methods: seq<Method>, tail: Bytes)
    requires |methods| <= 255
    ensures
      var r := DecodeGreeting(EncodeGreeting(methods) + tail);
      && r.Ok? && r.value.used == |EncodeGreeting(methods)| && |r.value.value| == |methods|
      && forall i :: 0 <= i < |methods| ==> r.value.value[i] == MethodFrom(MethodCode(methods[i]))
  {
    var buf := EncodeGreeting(methods) + tail;
    var n := |methods|;
    assert forall i :: 0 <= i < n ==> buf[2..2 + n][i] == MethodCode(methods[i]);
  }

  function EncodeUserPass(c: Credentials): Result<Bytes, CodecError> {
    if c.username == [] || |c.username| > 255 then Err(InvalidAuthLen)
    else if c.password == [] || |c.password| > 255 then Err(InvalidAuthLen)
    else Ok([1, |c.username|] + c.username + [|c.password|] + c.password)
  }

  lemma UserPassRoundTrip(c: Credentials, tail: Bytes)
    requires EncodeUserPass(c).Ok?
    ensures DecodeUserPass(EncodeUserPass(c).value + tail) == Ok(Decoded(c, |EncodeUserPass(c).value|))
  {
    var buf := EncodeUserPass(c).value + tail;
    var u, p := |c.username|, |c.password|;
    assert buf[2..2 + u] == c.username;
    assert buf[2 + u] == p;
    assert buf[2 + u + 1..2 + u + 1 + p] == c.password;
  }
}
