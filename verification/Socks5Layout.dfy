/** SOCKS5 byte for byte (RFC 1928 and RFC 1929): what is read and what is answered, as literal octets. */
module Socks5Layout {
  import opened MachineTypes
  import opened Endian
  import opened Chunks
  import opened Socks5
  import opened Socks5Handshake
  import Utf8

  /** A greeting is 5, a count and that many method octets: 0, 1 and 2 have names. */
  lemma GreetingReads(methods: Bytes, tail: Bytes)
    requires |methods| <= 255
    ensures
      var r := DecodeGreeting([5, |methods|] + methods + tail);
      && r.Ok? && r.value.used == 2 + |methods| && |r.value.value| == |methods|
      && forall i :: 0 <= i < |methods| ==>
           r.value.value[i] ==
           if methods[i] == 0 then NoAuth else if methods[i] == 1 then GssApi
           else if methods[i] == 2 then UserPass else Unknown(methods[i])
  {
    var buf := [5, |methods|] + methods + tail;
    assert buf[2..2 + |methods|] == methods;
  }

  /** A greeting is refused for its version, or not decided before it is whole. */
  lemma GreetingErrors(buf: Bytes)
    ensures |buf| >= 2 && buf[0] != 5 ==> DecodeGreeting(buf) == Err(UnsupportedVersion(buf[0]))
    ensures |buf| < 2 || (buf[0] == 5 && |buf| - 2 < buf[1]) ==> DecodeGreeting(buf) == Err(Incomplete)
  {
  }

  /** Credentials are 1, then name and password, each behind its length. */
  lemma UserPassReads(user: Bytes, pass: Bytes, tail: Bytes)
    requires 0 < |user| <= 255 && 0 < |pass| <= 255
    ensures
      DecodeUserPass([1, |user|] + user + [|pass|] + pass + tail)
      == Ok(Decoded(Credentials(user, pass), 3 + |user| + |pass|))
  {
    var u, p := |user|, |pass|;
    var buf := [1, u] + user + [p] + pass + tail;
    assert buf[2..2 + u] == user && buf[2 + u] == p && buf[2 + u + 1..2 + u + 1 + p] == pass;
  }

  predicate IsCommand(code: byte, c: Command) {
    code == match c case Connect => 1 case Bind => 2 case UdpAssociate => 3
  }

  /** The octets of a host: 1 and four octets, 4 and sixteen, or 3, a length and a name. */
  predicate IsHost(octets: Bytes, host: Host) {
    match host
    case V4(o) => |o| == 4 && octets == [1] + o
    case V6(o) => |o| == 16 && octets == [4] + o
    case Domain(n) => 0 < |n| <= 255 && Utf8.WellFormed(n) && octets == [3, |n|] + n
  }

  lemma HostReads(buf: Bytes, octets: Bytes, host: Host)
    requires IsHost(octets, host) && |buf| >= 3 + |octets| + 2 && buf[3..3 + |octets|] == octets
    ensures DecodeHost(buf, 3) == Ok(Decoded(host, 3 + |octets|))
  {
    hide Utf8.WellFormed;
    var n := |octets|;
    assert forall i :: 0 <= i < n ==> buf[3 + i] == octets[i];
    match host
    case V4(o) => assert buf[4..8] == octets[1..] == o;
    case V6(o) => assert buf[4..20] == octets[1..] == o;
    case Domain(name) => assert buf[5..5 + |name|] == octets[2..] == name;
  }

  /** A request is 5, the command, 0, the host and the port, high octet first; port 0 is refused. */
  lemma RequestReads(code: byte, c: Command, octets: Bytes, host: Host, hi: byte, lo: byte, tail: Bytes)
    requires IsCommand(code, c) && IsHost(octets, host)
    ensures
      var port := hi as int * 256 + lo;
      DecodeRequest([5, code, 0] + octets + [hi, lo] + tail)
      == if port == 0 then Err(BadEndpoint) else Ok(Decoded(Request(c, Endpoint(host, port)), 5 + |octets|))
  {
    hide DecodeHost, Utf8.WellFormed;
    var buf := [5, code, 0] + octets + [hi, lo] + tail;
    assert buf[3..3 + |octets|] == octets;
    assert buf[3 + |octets|] == hi && buf[4 + |octets|] == lo;
    HostReads(buf, octets, host);
  }

  /** What refuses a request, in the order it is looked at. */
  lemma RequestErrors(buf: Bytes)
    ensures |buf| < 7 ==> DecodeRequest(buf) == Err(Incomplete)
    ensures |buf| >= 7 && buf[0] != 5 ==> DecodeRequest(buf) == Err(UnsupportedVersion(buf[0]))
    ensures |buf| >= 7 && buf[0] == 5 && buf[1] !in {1, 2, 3} ==> DecodeRequest(buf) == Err(UnsupportedCommand(buf[1]))
    ensures |buf| >= 7 && buf[0] == 5 && buf[1] in {1, 2, 3} && buf[2] != 0 ==>
      DecodeRequest(buf) == Err(ReservedNotZero(buf[2]))
    ensures |buf| >= 7 && buf[0] == 5 && buf[1] in {1, 2, 3} && buf[2] == 0 && buf[3] !in {1, 3, 4} ==>
      DecodeRequest(buf) == Err(InvalidAtyp(buf[3]))
  {
  }

  /** The server's bytes, as long as both replies can be written. */
  lemma Replies(input: Bytes, auth: Option<Users>, writes: nat)
    requires writes >= 2
    ensures
      var o := Negotiate(input, auth, writes);
      match DecodeGreeting(input)
      case Err(_) => o == Outcome(None, [])
      case Ok(d) =>
        var rest := input[d.used..];
        if auth.None? then
          if NoAuth !in d.value then o == Outcome(None, [5, 0xFF])
          else o.written == [5, 0] && (o.handshake.Some? <==> DecodeRequest(rest).Ok?)
        else if UserPass !in d.value then o == Outcome(None, [5, 0xFF])
        else
          match DecodeUserPass(rest)
          case Err(e) => o == Outcome(None, if e.Incomplete? then [5, 2] else [5, 2, 1, 0xFF])
          case Ok(login) =>
            if !Verified(auth.value, login.value) then o == Outcome(None, [5, 2, 1, 0xFF])
            else o.written == [5, 2, 1, 0] && (o.handshake.Some? <==> DecodeRequest(rest[login.used..]).Ok?)
  {
    hide DecodeGreeting, DecodeUserPass, DecodeRequest, Verified;
  }

  /** When fewer replies can be written, the peer sees the first of them. */
  lemma RepliesCutShort(input: Bytes, auth: Option<Users>, writes: nat)
    ensures Negotiate(input, auth, writes).written <= Negotiate(input, auth, 2).written
    ensures writes == 0 ==> Negotiate(input, auth, writes) == Outcome(None, [])
    ensures writes == 1 ==> |Negotiate(input, auth, writes).written| <= 2
  {
    hide DecodeGreeting, DecodeUserPass, DecodeRequest, Verified;
  }
}
