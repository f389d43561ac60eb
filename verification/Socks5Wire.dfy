/**
 The SOCKS5 messages of RFC 1928 that internal/health/dnsleak.go writes and reads: the CONNECT
 request by domain name (section 4) and the reply (section 6), with what a peer makes of them.
 */
module Socks5Wire {
  import opened Wrappers

  type Byte = x: int | 0 <= x < 256

  const VERSION: Byte := 5
  const NO_AUTH: Byte := 0
  const CMD_CONNECT: Byte := 1
  const ATYP_IPV4: Byte := 1
  const ATYP_DOMAIN: Byte := 3
  const ATYP_IPV6: Byte := 4

  datatype Address = IPv4(octets: seq<Byte>) | IPv6(octets: seq<Byte>) | Domain(octets: seq<Byte>)

  datatype Error =
    | WriteFailed
    | ShortRead
    | UnexpectedVersion(version: Byte)
    | UnsupportedAuth(auth: Byte)
    | DomainTooLong
    | ReplyCode(code: Byte)
    | UnsupportedAddressType(atyp: Byte)

  /** What reading a message leaves: its meaning or an error, and the bytes not consumed. */
  datatype Reading<T> = Reading(result: Result<T, Error>, rest: seq<Byte>)

  // ----- The request ------------------------------------------------------------------------------

  function Request(domain: seq<Byte>, port: nat): seq<Byte>
    requires |domain| <= 255 && port < 65536
  {
    [VERSION, CMD_CONNECT, 0, ATYP_DOMAIN, |domain|] + domain + [port / 256, port % 256]
  }

  /** A server's view of a CONNECT request by domain name. */
  function ParseRequest(s: seq<Byte>): Option<(seq<Byte>, nat)> {
    if |s| < 5 || s[..4] != [VERSION, CMD_CONNECT, 0, ATYP_DOMAIN] then None
    else
      var end: nat := 5 + s[4] as int;
      if |s| != end + 2 then None else Some((s[5..end], 256 * s[end] as int + s[end + 1] as int))
  }

  /** The request a server reads as (domain, port) is the one that was written, and no other. */
  lemma RequestRoundTrip(domain: seq<Byte>, port: nat, s: seq<Byte>)
    requires |domain| <= 255 && port < 65536
    ensures ParseRequest(s) == Some((domain, port)) <==>
      s == [5, 1, 0, 3, |domain|] + domain + [port / 256, port % 256]
  {
    var w := Request(domain, port);
    assert w[..4] == [VERSION, CMD_CONNECT, 0, ATYP_DOMAIN] && w[5..5 + |domain|] == domain;
    if ParseRequest(s) == Some((domain, port)) {
      assert s[..4] == [VERSION, CMD_CONNECT, 0, ATYP_DOMAIN];
      assert s[0] == s[..4][0] && s[1] == s[..4][1] && s[2] == s[..4][2] && s[3] == s[..4][3];
      var end: nat := 5 + s[4] as int;
      assert s == s[..5] + s[5..end] + s[end..];
      assert s[end..] == [port / 256, port % 256];
      assert s[..5] == [VERSION, CMD_CONNECT, 0, ATYP_DOMAIN, |domain|];
    }
  }

  // ----- The replies, as the client consumes them ----------------------------------------------------

  function TakeN(s: seq<Byte>, n: nat): (r: Reading<seq<Byte>>) {
    if |s| < n then Reading(Err(ShortRead), []) else Reading(Ok(s[..n]), s[n..])
  }

  function ReadMethod(s: seq<Byte>): Reading<()> {
    match TakeN(s, 2)
    case Reading(Err(e), rest) => Reading(Err(e), rest)
    case Reading(Ok(b), rest) =>
      if b[0] != VERSION then Reading(Err(UnexpectedVersion(b[0])), rest)
      else if b[1] != NO_AUTH then Reading(Err(UnsupportedAuth(b[1])), rest)
      else Reading(Ok(()), rest)
  }

  function ReadAddress(atyp: Byte, s: seq<Byte>): Reading<Address> {
    if atyp == ATYP_IPV4 then
      match TakeN(s, 4)
      case Reading(Ok(b), rest) => Reading(Ok(IPv4(b)), rest)
      case Reading(Err(e), rest) => Reading(Err(e), rest)
    else if atyp == ATYP_IPV6 then
      match TakeN(s, 16)
      case Reading(Ok(b), rest) => Reading(Ok(IPv6(b)), rest)
      case Reading(Err(e), rest) => Reading(Err(e), rest)
    else if atyp == ATYP_DOMAIN then
      match TakeN(s, 1)
      case Reading(Err(e), rest) => Reading(Err(e), rest)
      case Reading(Ok(len), tail) =>
        match TakeN(tail, len[0])
        case Reading(Ok(b), rest) => Reading(Ok(Domain(b)), rest)
        case Reading(Err(e), rest) => Reading(Err(e), rest)
    else Reading(Err(UnsupportedAddressType(atyp)), s)
  }

  function ReadReply(s: seq<Byte>): Reading<Address> {
    match TakeN(s, 4)
    case Reading(Err(e), rest) => Reading(Err(e), rest)
    case Reading(Ok(h), tail) =>
      if h[0] != VERSION then Reading(Err(UnexpectedVersion(h[0])), tail)
      else if h[1] != 0 then Reading(Err(ReplyCode(h[1])), tail)
      else
        var addr := ReadAddress(h[3], tail);
        if addr.result.Err? then addr
        else
          match TakeN(addr.rest, 2)
          case Reading(Err(e), rest) => Reading(Err(e), rest)
          case Reading(Ok(_), rest) => Reading(addr.result, rest)
  }

  // ----- The replies, as a proxy sends them ------------------------------------------------------------

  ghost predicate ValidAddress(a: Address) {
    match a case IPv4(o) => |o| == 4 case IPv6(o) => |o| == 16 case Domain(o) => |o| <= 255
  }

  ghost function AddressBytes(a: Address): seq<Byte>
    requires ValidAddress(a)
  {
    match a
    case IPv4(o) => [ATYP_IPV4] + o
    case IPv6(o) => [ATYP_IPV6] + o
    case Domain(o) => [ATYP_DOMAIN, |o|] + o
  }

  /** A successful reply; RFC 1928 reserves the third byte and the client does not look at it. */
  ghost function Reply(reserved: Byte, bound: Address, port: nat): seq<Byte>
    requires ValidAddress(bound) && port < 65536
  {
    [VERSION, 0, reserved] + AddressBytes(bound) + [port / 256, port % 256]
  }

  lemma AddressRead(bound: Address, tail: seq<Byte>)
    requires ValidAddress(bound)
    ensures var b := AddressBytes(bound) + tail; ReadAddress(b[0], b[1..]) == Reading(Ok(bound), tail)
  {
    var b := AddressBytes(bound) + tail;
    var o, t := bound.octets, b[1..];
    if bound.Domain? {
      assert t == [|o|] + (o + tail) && t[1..] == o + tail;
      assert (o + tail)[..|o|] == o && (o + tail)[|o|..] == tail;
    } else {
      assert t == o + tail && t[..|o|] == o && t[|o|..] == tail;
    }
  }

  /** Every successful reply gives its bound address and is consumed exactly. */
  lemma ReplyRead(reserved: Byte, bound: Address, port: nat, tail: seq<Byte>)
    requires ValidAddress(bound) && port < 65536
    ensures ReadReply(Reply(reserved, bound, port) + tail) == Reading(Ok(bound), tail)
  {
    var ports := [port / 256, port % 256];
    var s := Reply(reserved, bound, port) + tail;
    var b := AddressBytes(bound) + (ports + tail);
    assert s == [VERSION, 0, reserved] + b;
    assert s[..4] == [VERSION, 0, reserved, b[0]] && s[4..] == b[1..];
    AddressRead(bound, ports + tail);
    assert (ports + tail)[2..] == tail;
  }

  lemma AddressWasSent(atyp: Byte, s: seq<Byte>, bound: Address, rest: seq<Byte>)
    requires ReadAddress(atyp, s) == Reading(Ok(bound), rest)
    ensures ValidAddress(bound) && [atyp] + s == AddressBytes(bound) + rest
  {
    if atyp == ATYP_DOMAIN {
      var n := s[0] as int;
      assert s == [s[0]] + s[1..] && s[1..] == s[1..][..n] + s[1..][n..];
      assert s[..1][0] == s[0] && bound == Domain(s[1..][..n]) && rest == s[1..][n..];
    } else {
      var n := if atyp == ATYP_IPV4 then 4 else 16;
      assert s == s[..n] + s[n..] && bound.octets == s[..n] && rest == s[n..];
    }
  }

  lemma PortBytes(s: seq<Byte>) returns (port: nat)
    requires |s| >= 2
    ensures port < 65536 && s == [port / 256, port % 256] + s[2..]
  {
    port := 256 * s[0] as int + s[1] as int;
  }

  lemma ReplyParts(s: seq<Byte>, bound: Address, rest: seq<Byte>) returns (mid: seq<Byte>)
    requires ReadReply(s) == Reading(Ok(bound), rest)
    ensures |s| >= 4 && s[0] == VERSION && s[1] == 0
    ensures ReadAddress(s[3], s[4..]) == Reading(Ok(bound), mid) && |mid| >= 2 && mid[2..] == rest
  {
    mid := ReadAddress(s[3], s[4..]).rest;
    assert s[..4][0] == s[0] && s[..4][1] == s[1] && s[..4][3] == s[3];
  }

  lemma Reassociate(a: seq<Byte>, b: seq<Byte>, c: seq<Byte>, d: seq<Byte>)
    ensures a + (b + (c + d)) == a + b + c + d
  {
  }

  /** And only a successful reply is accepted: what was consumed is one, byte for byte. */
  lemma AcceptedIsReply(s: seq<Byte>, bound: Address, rest: seq<Byte>) returns (reserved: Byte, port: nat)
    requires ReadReply(s) == Reading(Ok(bound), rest)
    ensures ValidAddress(bound) && port < 65536 && s == Reply(reserved, bound, port) + rest
  {
    var mid := ReplyParts(s, bound, rest);
    AddressWasSent(s[3], s[4..], bound, mid);
    reserved := s[2];
    port := PortBytes(mid);
    assert s == [VERSION, 0, reserved] + ([s[3]] + s[4..]);
    Reassociate([VERSION, 0, reserved], AddressBytes(bound), [port / 256, port % 256], rest);
  }
}
