/**
 The SOCKS5 client of internal/health/dnsleak.go over a connection that delivers its bytes in
 chunks of any size.  Its results are functions of the byte stream alone.
 */
module Socks5Client {
  import opened Wrappers
  import opened Socks5Wire

  /**
   A connection.  `incoming` is what the peer will deliver before reads start to fail,
   `writesLeft` says how many writes will still succeed, and `errorWithData` whether the read that
   takes the last bytes reports the failure at once, as io.Reader allows.
   */
  class Conn {
    var incoming: seq<Byte>
    var written: seq<Byte>
    var writesLeft: nat
    const errorWithData: bool

    constructor (incoming: seq<Byte>, writesLeft: nat, errorWithData: bool)
      ensures this.incoming == incoming && written == [] && this.writesLeft == writesLeft
      ensures this.errorWithData == errorWithData
    {
      this.incoming, this.written, this.writesLeft, this.errorWithData := incoming, [], writesLeft, errorWithData;
    }

    /** What can be read without seeing an error: the last byte cannot if it comes with one. */
    ghost function Stream(): seq<Byte>
      reads this`incoming
    {
      if errorWithData && incoming != [] then incoming[..|incoming| - 1] else incoming
    }

    method Write(data: seq<Byte>) returns (ok: bool)
      modifies this`written, this`writesLeft
      ensures ok <==> old(writesLeft) > 0
      ensures written == if ok then old(written) + data else old(written)
      ensures writesLeft == if ok then old(writesLeft) - 1 else 0
    {
      ok := writesLeft > 0;
      if ok {
        written, writesLeft := written + data, writesLeft - 1;
      }
    }

    /** One Read into buf[from..]: some bytes, an error, or the last bytes and an error. */
    method Read(buf: array<Byte>, from: nat) returns (n: nat, ok: bool)
      requires from < buf.Length
      modifies this`incoming, buf
      ensures if old(incoming) == [] then n == 0 else 1 <= n <= buf.Length - from && n <= |old(incoming)|
      ensures ok <==> old(incoming) != [] && !(errorWithData && n == |old(incoming)|)
      ensures incoming == old(incoming)[n..]
      ensures buf[..] == old(buf[..from]) + old(incoming)[..n] + old(buf[from + n..])
    {
      if incoming == [] {
        return 0, false;
      }
      n :| 1 <= n <= buf.Length - from && n <= |incoming|;  // the network chooses the chunk
      forall i | from <= i < from + n {
        buf[i] := incoming[i - from];
      }
      incoming, ok := incoming[n..], !(errorWithData && n == |incoming|);
    }
  }

  /**
   Fills buf whatever the chunks are, or drains the stream because it is too short.  Bytes that
   come together with an error are stored, but the call fails even when they fill the buffer.
   */
  method ReadFull(conn: Conn, buf: array<Byte>) returns (total: nat, ok: bool)
    modifies conn`incoming, buf
    ensures ok <==> buf.Length <= |old(conn.Stream())|
    ensures ok ==> total == buf.Length && buf[..] == old(conn.Stream())[..buf.Length]
    ensures ok ==> conn.Stream() == old(conn.Stream())[buf.Length..]
    ensures !ok ==> total == |old(conn.incoming)| <= buf.Length && conn.incoming == []
    ensures !ok ==> buf[..total] == old(conn.incoming)
  {
    total := 0;
    while total < buf.Length
      invariant total <= buf.Length && total <= |old(conn.Stream())|
      invariant conn.incoming == old(conn.incoming)[total..]
      invariant buf[..total] == old(conn.incoming)[..total]
    {
      var n, readOk := conn.Read(buf, total);
      total := total + n;
      if !readOk {
        return total, false;
      }
    }
    assert buf[..] == buf[..total];
    ok := true;
  }

  /** ReadFull into a new buffer, as every caller uses it. */
  method ReadN(conn: Conn, n: nat) returns (r: Result<seq<Byte>, Error>)
    modifies conn`incoming
    ensures Reading(r, conn.Stream()) == TakeN(old(conn.Stream()), n)
  {
    var buf := new Byte[n];
    var _, ok := ReadFull(conn, buf);
    r := if ok then Ok(buf[..]) else Err(ShortRead);
  }

  ghost function HandshakeOutcome(incoming: seq<Byte>, canWrite: bool): Reading<()> {
    if canWrite then ReadMethod(incoming) else Reading(Err(WriteFailed), incoming)
  }

  method Handshake(conn: Conn) returns (r: Result<(), Error>)
    modifies conn
    ensures Reading(r, conn.Stream()) == HandshakeOutcome(old(conn.Stream()), old(conn.writesLeft) > 0)
    ensures old(conn.writesLeft) > 0 ==>
      conn.written == old(conn.written) + [5, 1, 0] && conn.writesLeft == old(conn.writesLeft) - 1
    ensures old(conn.writesLeft) == 0 ==> conn.written == old(conn.written) && conn.writesLeft == 0
  {
    var ok := conn.Write([VERSION, 1, NO_AUTH]);
    if !ok {
      return Err(WriteFailed);
    }
    var buf := ReadN(conn, 2);
    if buf.Err? {
      return Err(buf.error);
    }
    if buf.value[0] != VERSION {
      return Err(UnexpectedVersion(buf.value[0]));
    }
    if buf.value[1] != NO_AUTH {
      return Err(UnsupportedAuth(buf.value[1]));
    }
    r := Ok(());
  }

  ghost function ConnectOutcome(domain: seq<Byte>, incoming: seq<Byte>, canWrite: bool): Reading<Address> {
    if |domain| > 255 then Reading(Err(DomainTooLong), incoming)
    else if !canWrite then Reading(Err(WriteFailed), incoming)
    else ReadReply(incoming)
  }

  method BoundAddress(conn: Conn, atyp: Byte) returns (r: Result<Address, Error>)
    modifies conn`incoming
    ensures Reading(r, conn.Stream()) == ReadAddress(atyp, old(conn.Stream()))
  {
    if atyp == ATYP_IPV4 {
      var ip := ReadN(conn, 4);
      r := if ip.Ok? then Ok(IPv4(ip.value)) else Err(ip.error);
    } else if atyp == ATYP_IPV6 {
      var ip := ReadN(conn, 16);
      r := if ip.Ok? then Ok(IPv6(ip.value)) else Err(ip.error);
    } else if atyp == ATYP_DOMAIN {
      var len := ReadN(conn, 1);
      if len.Err? {
        return Err(len.error);
      }
      var name := ReadN(conn, len.value[0]);
      r := if name.Ok? then Ok(Domain(name.value)) else Err(name.error);
    } else {
      r := Err(UnsupportedAddressType(atyp));
    }
  }

  /** Builds the request piece by piece and writes it. */
  method SendRequest(conn: Conn, domain: seq<Byte>, port: nat) returns (ok: bool)
    requires |domain| <= 255 && port < 65536
    modifies conn`written, conn`writesLeft
    ensures ok <==> old(conn.writesLeft) > 0
    ensures conn.written == old(conn.written) +
      if ok then ([5, 1, 0, 3, |domain|] + domain + [port / 256, port % 256]) else []
    ensures conn.writesLeft == if ok then old(conn.writesLeft) - 1 else 0
  {
    var req: seq<Byte> := [VERSION, CMD_CONNECT, 0x00, ATYP_DOMAIN];
    req := req + [|domain|];
    req := req + domain;
    req := req + [port / 256, port % 256];
    assert req == [5, 1, 0, 3, |domain|] + domain + [port / 256, port % 256];
    ok := conn.Write(req);
    assert conn.written == old(conn.written) + if ok then req else [];
  }

  method ConnectDomain(conn: Conn, domain: seq<Byte>, port: nat) returns (r: Result<Address, Error>)
    requires port < 65536
    modifies conn
    ensures Reading(r, conn.Stream()) == ConnectOutcome(domain, old(conn.Stream()), old(conn.writesLeft) > 0)
    ensures |domain| <= 255 && old(conn.writesLeft) > 0 ==>
      conn.written == old(conn.written) + ([5, 1, 0, 3, |domain|] + domain + [port / 256, port % 256])
    ensures |domain| > 255 || old(conn.writesLeft) == 0 ==> conn.written == old(conn.written)
  {
    if |domain| > 255 {
      return Err(DomainTooLong);
    }
    var ok := SendRequest(conn, domain, port);
    if !ok {
      return Err(WriteFailed);
    }
    var header := ReadN(conn, 4);
    if header.Err? {
      return Err(header.error);
    }
    if header.value[0] != VERSION {
      return Err(UnexpectedVersion(header.value[0]));
    }
    if header.value[1] != 0x00 {
      return Err(ReplyCode(header.value[1]));
    }
    r := BoundAddress(conn, header.value[3]);
    if r.Err? {
      return;
    }
    var portBuf := ReadN(conn, 2);
    if portBuf.Err? {
      return Err(portBuf.error);
    }
  }

  ghost function ResolveOutcome(domain: seq<Byte>, incoming: seq<Byte>, writesLeft: nat): Result<Address, Error> {
    var h := HandshakeOutcome(incoming, writesLeft > 0);
    if h.result.Err? then Err(h.result.error)
    else ConnectOutcome(domain, h.rest, writesLeft > 1).result
  }

  /** What an accepted handshake has read. */
  lemma HandshakeBytes(incoming: seq<Byte>)
    ensures ReadMethod(incoming).result.Ok? <==> [5, 0] <= incoming
    ensures ReadMethod(incoming).result.Ok? ==>
      ReadMethod(incoming).rest == incoming[2..] && incoming == [5, 0] + incoming[2..]
  {
    if |incoming| >= 2 {
      assert incoming[..2][0] == incoming[0] && incoming[..2][1] == incoming[1];
    }
  }

  /** Handshake and CONNECT to port 80, on a connection that has been dialled. */
  method ResolveThroughSocks5(conn: Conn, domain: seq<Byte>) returns (r: Result<Address, Error>)
    modifies conn
    ensures r == ResolveOutcome(domain, old(conn.Stream()), old(conn.writesLeft))
    ensures old(conn.writesLeft) >= 2 && |domain| <= 255 && [5, 0] <= old(conn.Stream()) ==>
      conn.written == old(conn.written) + [5, 1, 0] + ([5, 1, 0, 3, |domain|] + domain + [0, 80])
    ensures old(conn.writesLeft) >= 1 && !([5, 0] <= old(conn.Stream())) ==>
      conn.written == old(conn.written) + [5, 1, 0]
  {
    HandshakeBytes(conn.Stream());
    var h := Handshake(conn);
    if h.Err? {
      return Err(h.error);
    }
    r := ConnectDomain(conn, domain, 80);
  }

  /** The bytes of a stream that names `bound`, octet by octet. */
  ghost predicate Spells(bound: Address, incoming: seq<Byte>, reserved: Byte, hi: Byte, lo: Byte, tail: seq<Byte>) {
    match bound
    case IPv4(o) => |o| == 4 && incoming == [5, 0] + ([5, 0, reserved] + ([1] + o) + [hi, lo] + tail)
    case IPv6(o) => |o| == 16 && incoming == [5, 0] + ([5, 0, reserved] + ([4] + o) + [hi, lo] + tail)
    case Domain(o) => |o| <= 255 && incoming == [5, 0] + ([5, 0, reserved] + ([3, |o|] + o) + [hi, lo] + tail)
  }

  lemma SpellsReply(bound: Address, incoming: seq<Byte>, reserved: Byte, hi: Byte, lo: Byte, tail: seq<Byte>)
    ensures Spells(bound, incoming, reserved, hi, lo, tail) <==>
      ValidAddress(bound) && incoming == [5, 0] + (Reply(reserved, bound, 256 * hi as int + lo as int) + tail)
  {
    var port := 256 * hi as int + lo as int;
    assert port / 256 == hi as int && port % 256 == lo as int;
  }

  lemma ResolvedByReply(domain: seq<Byte>, incoming: seq<Byte>, writesLeft: nat, bound: Address)
    ensures ResolveOutcome(domain, incoming, writesLeft) == Ok(bound) <==>
      && writesLeft >= 2 && |domain| <= 255
      && |incoming| >= 2 && incoming == [5, 0] + incoming[2..] && ReadReply(incoming[2..]).result == Ok(bound)
  {
    HandshakeBytes(incoming);
  }

  lemma ReplyIsSpelt(bound: Address, reserved: Byte, port: nat, tail: seq<Byte>) returns (hi: Byte, lo: Byte)
    requires ValidAddress(bound) && port < 65536
    ensures Spells(bound, [5, 0] + (Reply(reserved, bound, port) + tail), reserved, hi, lo, tail)
  {
    hi, lo := PortSplit(port);
    SpellsReply(bound, [5, 0] + (Reply(reserved, bound, port) + tail), reserved, hi, lo, tail);
  }

  lemma PortSplit(port: nat) returns (hi: Byte, lo: Byte)
    requires port < 65536
    ensures port == 256 * hi as int + lo as int
  {
    hi, lo := port / 256, port % 256;
  }

  lemma AcceptedTail(reply: seq<Byte>, bound: Address) returns (reserved: Byte, port: nat, tail: seq<Byte>)
    requires ReadReply(reply).result == Ok(bound)
    ensures ValidAddress(bound) && port < 65536 && reply == Reply(reserved, bound, port) + tail
  {
    tail := ReadReply(reply).rest;
    reserved, port := AcceptedIsReply(reply, bound, tail);
  }

  lemma SpeltIsRead(bound: Address, incoming: seq<Byte>, reserved: Byte, hi: Byte, lo: Byte, tail: seq<Byte>)
    requires Spells(bound, incoming, reserved, hi, lo, tail)
    ensures |incoming| >= 2 && incoming == [5, 0] + incoming[2..] && ReadReply(incoming[2..]).result == Ok(bound)
  {
    SpellsReply(bound, incoming, reserved, hi, lo, tail);
    var port: nat := 256 * hi as int + lo as int;
    ReplyRead(reserved, bound, port, tail);
    assert incoming[2..] == Reply(reserved, bound, port) + tail;
  }

  /**
   End to end: the client learns the address `bound` exactly when the stream starts with the
   no-authentication answer followed by a successful reply naming `bound`.
   */
  lemma ResolvesExactly(domain: seq<Byte>, incoming: seq<Byte>, writesLeft: nat, bound: Address)
    ensures ResolveOutcome(domain, incoming, writesLeft) == Ok(bound) <==>
      && writesLeft >= 2 && |domain| <= 255
      && exists reserved: Byte, hi: Byte, lo: Byte, tail: seq<Byte> ::
           Spells(bound, incoming, reserved, hi, lo, tail)
  {
    ResolvedByReply(domain, incoming, writesLeft, bound);
    if ResolveOutcome(domain, incoming, writesLeft) == Ok(bound) {
      var reserved, port, tail := AcceptedTail(incoming[2..], bound);
      var hi, lo := ReplyIsSpelt(bound, reserved, port, tail);
    }
    forall reserved: Byte, hi: Byte, lo: Byte, tail: seq<Byte> | Spells(bound, incoming, reserved, hi, lo, tail)
      ensures |incoming| >= 2 && incoming == [5, 0] + incoming[2..] && ReadReply(incoming[2..]).result == Ok(bound)
    {
      SpeltIsRead(bound, incoming, reserved, hi, lo, tail);
    }
  }

  /** Which error the first thing that goes wrong is reported as. */
  lemma ResolveErrors(domain: seq<Byte>, incoming: seq<Byte>, writesLeft: nat)
    ensures var r := ResolveOutcome(domain, incoming, writesLeft);
      if writesLeft == 0 then r == Err(WriteFailed)
      else if |incoming| < 2 then r == Err(ShortRead)
      else if incoming[0] != 5 then r == Err(UnexpectedVersion(incoming[0]))
      else if incoming[1] != 0 then r == Err(UnsupportedAuth(incoming[1]))
      else if |domain| > 255 then r == Err(DomainTooLong)
      else if writesLeft == 1 then r == Err(WriteFailed)
      else if |incoming| < 6 then r == Err(ShortRead)
      else if incoming[2] != 5 then r == Err(UnexpectedVersion(incoming[2]))
      else if incoming[3] != 0 then r == Err(ReplyCode(incoming[3]))
      else if incoming[5] !in {1, 3, 4} then r == Err(UnsupportedAddressType(incoming[5]))
      else if incoming[5] == 1 then (|incoming| < 12 <==> r == Err(ShortRead)) && (r.Ok? || r == Err(ShortRead))
      else if incoming[5] == 4 then (|incoming| < 24 <==> r == Err(ShortRead)) && (r.Ok? || r == Err(ShortRead))
      else (|incoming| < 7 || |incoming| < 9 + incoming[6] as int <==> r == Err(ShortRead))
           && (r.Ok? || r == Err(ShortRead))
  {
    if |incoming| >= 2 {
      assert incoming[..2][0] == incoming[0] && incoming[..2][1] == incoming[1];
      var s := incoming[2..];
      if |s| >= 4 {
        assert s[..4][0] == incoming[2] && s[..4][1] == incoming[3] && s[..4][3] == incoming[5];
        if s[3] in {1, 3, 4} {
          ShortAddress(s[3], s[4..]);
        }
      }
    }
  }

  lemma ShortAddress(atyp: Byte, s: seq<Byte>)
    requires atyp in {1, 3, 4}
    ensures var a := ReadAddress(atyp, s);
      var n := if atyp == 1 then 4 else if atyp == 4 then 16 else if s == [] then 1 else 1 + s[0] as int;
      if |s| < n then a == Reading(Err(ShortRead), []) else a.result.Ok? && |a.rest| == |s| - n
  {
    if atyp == 3 && s != [] {
      assert s[..1][0] == s[0];
    }
  }
}
