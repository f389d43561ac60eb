/**
 Circuit renewal over the Tor control protocol: the client of internal/circuit/client.go, the
 interval bands of internal/circuit/adaptive.go and the per-instance loop of
 internal/circuit/renewer.go.  Times are nanoseconds; every answer of the network, the file
 system, the clock and the random generator is an input.
 */
module Renewal {
  import opened Wrappers
  import opened SlidingWindow

  // ----- What goes over the wire ---------------------------------------------------------------

  datatype Command = Authenticate(hexCookie: string) | SignalNewnym(at: int)

  /** A connection is named by the position of its Dialled event, so names are never reused. */
  datatype Event =
    | Dialled(conn: nat)
    | Sent(conn: nat, cmd: Command)      // handed to the connection, whether or not the write succeeds
    | Replied(conn: nat, line: string)
    | Closed(conn: nat)

  predicate Is250(line: string) { |line| >= 3 && line[..3] == "250" }

  /** The connections that have been dialled and not closed. */
  ghost function OpenConns(trace: seq<Event>): set<nat> {
    if trace == [] then {}
    else
      var last, before := trace[|trace| - 1], OpenConns(trace[..|trace| - 1]);
      if last.Dialled? then before + {last.conn}
      else if last.Closed? then before - {last.conn}
      else before
  }

  /** A 250 reply on connection c to an AUTHENTICATE sent just before it, with c not closed by event i. */
  ghost predicate Authenticated(trace: seq<Event>, c: nat, i: nat)
    requires i <= |trace|
  {
    && c < i && trace[c] == Dialled(c)
    && (forall k | c < k < i :: trace[k] != Closed(c))
    && exists b :: c + 1 < b < i && ReplyToAuth(trace, c, b)
  }

  ghost predicate ReplyToAuth(trace: seq<Event>, c: nat, b: int) {
    && 0 < b < |trace|
    && trace[b].Replied? && trace[b].conn == c && Is250(trace[b].line)
    && trace[b - 1].Sent? && trace[b - 1].conn == c && trace[b - 1].cmd.Authenticate?
  }

  /** Every NEWNYM sent on c before event i was answered with a 250 at once. */
  ghost predicate AllAnswered(trace: seq<Event>, c: nat, i: nat)
    requires i <= |trace|
  {
    forall j | 0 <= j < i && IsNewnym(trace[j]) && trace[j].conn == c :: Answered(trace, c, j, i)
  }

  ghost predicate Answered(trace: seq<Event>, c: nat, j: nat, i: nat)
    requires i <= |trace|
  {
    j + 1 < i && trace[j + 1].Replied? && trace[j + 1].conn == c && Is250(trace[j + 1].line)
  }

  ghost predicate IsNewnym(e: Event) { e.Sent? && e.cmd.SignalNewnym? }

  /** One connection at a time, and every other event is on it. */
  ghost predicate LinkOk(trace: seq<Event>, i: nat)
    requires i < |trace|
  {
    && (trace[i].Dialled? ==> trace[i].conn == i && OpenConns(trace[..i]) == {})
    && (!trace[i].Dialled? ==> OpenConns(trace[..i]) == {trace[i].conn})
    && trace[i].conn <= i
  }

  ghost predicate Linked(trace: seq<Event>) {
    forall i | 0 <= i < |trace| :: LinkOk(trace, i)
  }

  /** NEWNYM goes out only on a connection that is authenticated and has answered every NEWNYM before. */
  ghost predicate NewnymOk(trace: seq<Event>, i: nat)
    requires i < |trace|
  {
    IsNewnym(trace[i]) ==> Authenticated(trace, trace[i].conn, i) && AllAnswered(trace, trace[i].conn, i)
  }

  ghost predicate Polite(trace: seq<Event>) {
    forall i | 0 <= i < |trace| :: NewnymOk(trace, i)
  }

  /** Every event keeps the protocol. */
  ghost predicate Good(trace: seq<Event>) { Linked(trace) && Polite(trace) }

  /** Nothing ever has two connections open. */
  lemma {:induction false} AtMostOneOpen(trace: seq<Event>, i: nat)
    requires Linked(trace) && i <= |trace|
    ensures |OpenConns(trace[..i])| <= 1
  {
    if i > 0 {
      assert LinkOk(trace, i - 1) && trace[..i][..i - 1] == trace[..i - 1];
    }
  }

  /** The times at which NEWNYMs were sent. */
  ghost function NewnymTimes(trace: seq<Event>): seq<int> {
    if trace == [] then []
    else
      var last, before := trace[|trace| - 1], NewnymTimes(trace[..|trace| - 1]);
      if IsNewnym(last) then before + [last.cmd.at] else before
  }

  /** k gaps after the start. */
  ghost function Earliest(start: int, gap: int, k: nat): int {
    if k == 0 then start else Earliest(start, gap, k - 1) + gap
  }

  lemma {:induction false} EarliestIsLinear(start: int, gap: int, k: nat)
    ensures Earliest(start, gap, k) == start + k * gap
  {
    if k > 0 {
      EarliestIsLinear(start, gap, k - 1);
      assert k * gap == (k - 1) * gap + gap;
    }
  }

  /** The k-th NEWNYM, counting from one, comes at least k gaps after the start. */
  ghost predicate Paced(times: seq<int>, start: int, gap: int) {
    forall k: nat | k < |times| :: times[k] >= Earliest(start, gap, k + 1)
  }

  /** After `rounds` rounds, at time `now`. */
  ghost predicate OnSchedule(times: seq<int>, start: int, gap: int, rounds: nat, now: int) {
    Paced(times, start, gap) && |times| == rounds && now >= Earliest(start, gap, rounds)
  }

  lemma NextOnSchedule(times: seq<int>, start: int, gap: int, rounds: nat, before: int, at: int)
    requires OnSchedule(times, start, gap, rounds, before) && at >= before + gap
    ensures OnSchedule(times + [at], start, gap, rounds + 1, at)
  {
  }

  lemma Append(trace: seq<Event>, e: Event)
    requires Linked(trace)
    requires e.Dialled? ==> e.conn == |trace| && OpenConns(trace) == {}
    requires !e.Dialled? ==> OpenConns(trace) == {e.conn}
    requires e.conn <= |trace|
    ensures Linked(trace + [e])
    ensures OpenConns(trace + [e]) ==
      if e.Dialled? then {e.conn} else if e.Closed? then {} else {e.conn}
    ensures NewnymTimes(trace + [e]) == NewnymTimes(trace) + if IsNewnym(e) then [e.cmd.at] else []
  {
    var t := trace + [e];
    assert t[..|trace|] == trace;
    forall i | 0 <= i < |t| ensures LinkOk(t, i) {
      if i < |trace| {
        assert LinkOk(trace, i) && t[..i] == trace[..i];
      }
    }
  }

  lemma AppendPolite(trace: seq<Event>, e: Event)
    requires Polite(trace)
    requires IsNewnym(e) ==> Authenticated(trace, e.conn, |trace|) && AllAnswered(trace, e.conn, |trace|)
    ensures Polite(trace + [e])
  {
    var t := trace + [e];
    forall i | 0 <= i < |t| ensures NewnymOk(t, i) {
      if i < |trace| {
        assert NewnymOk(trace, i);
      }
      if IsNewnym(t[i]) {
        StillAuthenticated(trace, e, t[i].conn, i);
        StillAnswered(trace, e, t[i].conn, i);
      }
    }
  }

  lemma StillAnswered(trace: seq<Event>, e: Event, c: nat, i: nat)
    requires i <= |trace| && AllAnswered(trace, c, i)
    ensures AllAnswered(trace + [e], c, i)
    ensures i == |trace| && !(IsNewnym(e) && e.conn == c) ==> AllAnswered(trace + [e], c, i + 1)
  {
    forall j | 0 <= j < i && IsNewnym((trace + [e])[j]) && (trace + [e])[j].conn == c
      ensures Answered(trace + [e], c, j, i)
    {
      assert Answered(trace, c, j, i);
    }
  }

  /** A NEWNYM with its 250 keeps the connection usable. */
  lemma AnsweredAgain(trace: seq<Event>, c: nat, at: int, line: string)
    requires AllAnswered(trace, c, |trace|) && Is250(line)
    ensures var t := trace + [Sent(c, SignalNewnym(at))] + [Replied(c, line)]; AllAnswered(t, c, |t|)
  {
    var t := trace + [Sent(c, SignalNewnym(at))] + [Replied(c, line)];
    forall j | 0 <= j < |t| && IsNewnym(t[j]) && t[j].conn == c ensures Answered(t, c, j, |t|) {
      if j < |trace| {
        assert Answered(trace, c, j, |trace|);
      }
    }
  }

  lemma StillAuthenticated(trace: seq<Event>, e: Event, c: nat, i: nat)
    requires i <= |trace| && Authenticated(trace, c, i)
    ensures Authenticated(trace + [e], c, i)
    ensures i == |trace| && e != Closed(c) ==> Authenticated(trace + [e], c, i + 1)
  {
    var b :| c + 1 < b < i && ReplyToAuth(trace, c, b);
    assert ReplyToAuth(trace + [e], c, b);
  }

  // ----- What the world answers ------------------------------------------------------------------

  /** What becomes of a command: the write fails, or no line can be read, or a line arrives. */
  datatype Reply = WriteFails | ReadFails | Line(text: string)

  /** An attempt to connect and authenticate; no cookie means that its file cannot be read. */
  datatype Dial = Dial(dials: bool, hexCookie: Option<string>, reply: Reply)

  predicate Accepts(reply: Reply) { reply.Line? && Is250(reply.text) }

  predicate Connects(dial: Dial) { dial.dials && dial.hexCookie.Some? && Accepts(dial.reply) }

  lemma Is250Exactly(line: string)
    ensures Is250(line) <==> exists rest: string :: line == "250" + rest
  {
    if Is250(line) {
      assert line == "250" + line[3..];
    }
    forall rest: string | line == "250" + rest ensures Is250(line) {
      assert line[..3] == "250";
    }
  }

  /** What a command and its reply add to the trace. */
  ghost function Exchange(c: nat, cmd: Command, reply: Reply): seq<Event> {
    [Sent(c, cmd)] + if reply.Line? then [Replied(c, reply.text)] else []
  }

  // ----- The control client ---------------------------------------------------------------------

  class Client {
    var conn: Option<nat>
    var trace: seq<Event>  // what the control port saw

    ghost predicate Valid()
      reads this
    {
      && Linked(trace)
      && OpenConns(trace) == (if conn.Some? then {conn.value} else {})
      && (conn.Some? ==> conn.value < |trace| && trace[conn.value] == Dialled(conn.value))
      && (conn.Some? ==> forall k | conn.value < k < |trace| :: trace[k] != Closed(conn.value))
    }

    /** The connection has answered every NEWNYM so far. */
    ghost predicate OwesNothing()
      reads this
    {
      conn.Some? && AllAnswered(trace, conn.value, |trace|)
    }

    /** And it is authenticated. */
    ghost predicate IsUsable()
      reads this
    {
      OwesNothing() && Authenticated(trace, conn.value, |trace|)
    }

    constructor ()
      ensures Valid() && conn == None && trace == []
    {
      conn, trace := None, [];
    }

    /** A successful dial replaces conn, so a caller must have closed the previous connection. */
    method Connect(dials: bool) returns (ok: bool)
      requires Valid() && conn == None
      modifies this
      ensures Valid() && (ok <==> dials) && (ok <==> conn.Some?)
      ensures trace == old(trace) + if ok then [Dialled(|old(trace)|)] else []
      ensures ok ==> conn == Some(|old(trace)|) && OwesNothing()
      ensures old(Polite(trace)) ==> Polite(trace)
      ensures NewnymTimes(trace) == old(NewnymTimes(trace))
    {
      if !dials {
        return false;
      }
      ok := true;
      var e := Dialled(|trace|);
      NoNewnymYet(e);
      Extend(e);
      conn := Some(|trace|);
      trace := trace + [e];
    }

    /** A connection that has just been dialled owes no answer. */
    lemma NoNewnymYet(e: Event)
      requires Valid() && conn == None && e == Dialled(|trace|)
      ensures AllAnswered(trace + [e], e.conn, |trace| + 1)
    {
      forall j | 0 <= j < |trace| + 1 ensures IsNewnym((trace + [e])[j]) ==> (trace + [e])[j].conn != e.conn {
        if j < |trace| {
          assert LinkOk(trace, j);
        }
      }
    }

    /** What one more event means for the trace. */
    lemma Extend(e: Event)
      requires Linked(trace) && e.conn <= |trace|
      requires e.Dialled? ==> e.conn == |trace| && OpenConns(trace) == {}
      requires !e.Dialled? ==> OpenConns(trace) == {e.conn}
      ensures Linked(trace + [e])
      ensures OpenConns(trace + [e]) ==
        if e.Dialled? then {e.conn} else if e.Closed? then {} else {e.conn}
      ensures NewnymTimes(trace + [e]) == NewnymTimes(trace) + if IsNewnym(e) then [e.cmd.at] else []
      ensures Polite(trace) && (IsNewnym(e) ==> conn == Some(e.conn) && IsUsable()) ==> Polite(trace + [e])
    {
      Append(trace, e);
      if Polite(trace) && (IsNewnym(e) ==> conn == Some(e.conn) && IsUsable()) {
        AppendPolite(trace, e);
      }
    }

    /** Writes the cookie and wants a 250; a missing cookie file sends nothing. */
    method Authenticate(hexCookie: Option<string>, reply: Reply) returns (ok: bool)
      requires Valid() && conn.Some?
      modifies this`trace
      ensures Valid() && (ok <==> hexCookie.Some? && reply.Line? && Is250(reply.text))
      ensures trace == old(trace) + if hexCookie.None? then []
                                    else Exchange(conn.value, Command.Authenticate(hexCookie.value), reply)
      ensures ok ==> Authenticated(trace, conn.value, |trace|)
      ensures old(OwesNothing()) ==> OwesNothing()
      ensures old(Polite(trace)) ==> Polite(trace)
      ensures NewnymTimes(trace) == old(NewnymTimes(trace))
    {
      if hexCookie.None? {
        return false;
      }
      Record(Sent(conn.value, Command.Authenticate(hexCookie.value)));
      if !reply.Line? {
        return false;
      }
      Record(Replied(conn.value, reply.text));
      ok := Is250(reply.text);
      assert ok ==> ReplyToAuth(trace, conn.value, |trace| - 1);
    }

    /** Sends NEWNYM on the open connection, whatever has happened on it before. */
    method SignalNewnym(now: int, reply: Reply) returns (ok: bool)
      requires Valid() && conn.Some?
      modifies this`trace
      ensures Valid() && (ok <==> reply.Line? && Is250(reply.text))
      ensures trace == old(trace) + Exchange(conn.value, Command.SignalNewnym(now), reply)
      ensures old(IsUsable()) && ok ==> IsUsable()
      ensures old(IsUsable() && Polite(trace)) ==> Polite(trace)
      ensures NewnymTimes(trace) == old(NewnymTimes(trace)) + [now]
    {
      Record(Sent(conn.value, Command.SignalNewnym(now)));
      if !reply.Line? {
        return false;
      }
      Record(Replied(conn.value, reply.text));
      ok := Is250(reply.text);
      if ok && old(IsUsable()) {
        AnsweredAgain(old(trace), conn.value, now, reply.text);
      }
    }

    method Close()
      requires Valid()
      modifies this
      ensures Valid() && conn == None
      ensures trace == old(trace) + if old(conn).Some? then [Closed(old(conn).value)] else []
      ensures old(Polite(trace)) ==> Polite(trace)
      ensures NewnymTimes(trace) == old(NewnymTimes(trace))
    {
      if conn.None? {
        return;
      }
      Extend(Closed(conn.value));
      trace := trace + [Closed(conn.value)];
      conn := None;
    }

    /** Adds an event on the open connection to the trace. */
    method Record(e: Event)
      requires Valid() && conn.Some? && e.conn == conn.value && (e.Sent? || e.Replied?)
      modifies this`trace
      ensures Valid() && trace == old(trace) + [e]
      ensures old(Authenticated(trace, conn.value, |trace|)) ==> Authenticated(trace, conn.value, |trace|)
      ensures old(OwesNothing()) && !IsNewnym(e) ==> OwesNothing()
      ensures old(Polite(trace)) && (IsNewnym(e) ==> old(IsUsable())) ==> Polite(trace)
      ensures NewnymTimes(trace) == old(NewnymTimes(trace)) + if IsNewnym(e) then [e.cmd.at] else []
    {
      Extend(e);
      if Authenticated(trace, conn.value, |trace|) {
        StillAuthenticated(trace, e, conn.value, |trace|);
      }
      if OwesNothing() {
        StillAnswered(trace, e, conn.value, |trace|);
      }
      trace := trace + [e];
    }
  }

  // ----- Intervals --------------------------------------------------------------------------------

  /** rand.Int64N(delta) can be any number below delta: `draw`, any number at all, picks one. */
  method RandomInterval(min: int, max: int, draw: nat) returns (d: int)
    ensures d == if max <= min then min else min + draw % (max - min)
  {
    var delta := max - min;
    if delta <= 0 {
      return min;
    }
    d := min + draw % delta;
  }

  datatype Mode = Aggressive | Moderate | Idle | Fixed

  /** Other goroutines record any number of requests between two looks at a shared pattern. */
  method OthersRecord(pattern: TrafficPattern, now: int)
    requires pattern.Valid() && pattern.clock <= now
    modifies pattern
    ensures pattern.Valid() && pattern.clock <= now && old(pattern.history) <= pattern.history
  {
    var n: nat :| true;
    for i := 0 to n
      invariant pattern.Valid() && pattern.clock <= now && old(pattern.history) <= pattern.history
    {
      pattern.RecordRequest(now);
    }
  }

  /**
   The band a traffic pattern selects: bursts first, then more than one request in ten seconds.
   Requests recorded between the two tests count for the second one.
   */
  method AdaptiveInterval(pattern: TrafficPattern, now: int, rateNow: int, later: int, draw: nat)
    returns (d: int, mode: Mode)
    requires pattern.Valid() && pattern.clock <= now <= rateNow <= later
    modifies pattern
    ensures pattern.Valid() && old(pattern.history) <= pattern.history && pattern.clock <= rateNow
    ensures mode == Aggressive <==>
      |InWindow(old(pattern.history), now - pattern.windowSize)| >= pattern.burstThreshold
    ensures var w := InWindow(pattern.history, rateNow - pattern.windowSize);
      mode == Moderate <==> mode != Aggressive && w != [] && |w| * 10_000_000_000 > later - w[0]
    ensures match mode
      case Aggressive => d == 3_000_000_000 + draw % 4_000_000_000
      case Moderate => d == 10_000_000_000 + draw % 10_000_000_000
      case Idle => d == 20_000_000_000 + draw % 40_000_000_000
      case Fixed => false
  {
    var burst := pattern.IsBurst(now);
    if burst {
      d := RandomInterval(3 * SECOND, 7 * SECOND, draw);
      return d, Aggressive;
    }
    OthersRecord(pattern, rateNow);
    var rate := pattern.RequestRate(rateNow, later);
    RateAboveTenth(InWindow(pattern.history, rateNow - pattern.windowSize), later);
    if rate > 0.1 {
      d := RandomInterval(10 * SECOND, 20 * SECOND, draw);
      return d, Moderate;
    }
    d := RandomInterval(20 * SECOND, 60 * SECOND, draw);
    mode := Idle;
  }

  const MIN_INTERVAL := 10 * SECOND
  const MAX_INTERVAL := 15 * SECOND

  // ----- The loop -----------------------------------------------------------------------------------

  function Gap(adaptive: bool): int { if adaptive then 3 * SECOND else MIN_INTERVAL }

  /** Connect, then authenticate; the loop starts this way too. */
  method Reconnect(client: Client, dial: Dial) returns (ok: bool)
    requires client.Valid() && client.conn == None && Good(client.trace)
    modifies client
    ensures client.Valid() && Good(client.trace) && (ok ==> client.IsUsable())
    ensures ok <==> Connects(dial)
    ensures client.conn == if dial.dials then Some(|old(client.trace)|) else None
    ensures NewnymTimes(client.trace) == old(NewnymTimes(client.trace))
  {
    ok := client.Connect(dial.dials);
    if !ok {
      return;
    }
    ok := client.Authenticate(dial.hexCookie, dial.reply);
  }

  /** One iteration's inputs: how long things take, the random draw, a cancellation, and the answers. */
  datatype Input = Input(delay: nat, rateDelay: nat, wakeDelay: nat, draw: nat, cancelled: bool, reply: Reply,
                         redial: Dial)

  /** The loop goes on after a round. */
  predicate GoesOn(x: Input) { !x.cancelled && (Accepts(x.reply) || Connects(x.redial)) }

  /** The intervals a draw can give: one in fixed mode, one per band in adaptive mode. */
  predicate Drawn(adaptive: bool, draw: nat, interval: int) {
    if adaptive then
      || interval == 3_000_000_000 + draw % 4_000_000_000
      || interval == 10_000_000_000 + draw % 10_000_000_000
      || interval == 20_000_000_000 + draw % 40_000_000_000
    else interval == 10_000_000_000 + draw % 5_000_000_000
  }

  method NextInterval(pattern: TrafficPattern?, now: int, x: Input) returns (interval: int, later: int)
    requires pattern != null ==> pattern.Valid() && pattern.clock <= now
    modifies pattern
    ensures pattern != null ==> pattern.Valid() && pattern.clock <= later
    ensures later == now + x.delay + x.rateDelay && interval >= Gap(pattern != null)
    ensures Drawn(pattern != null, x.draw, interval)
  {
    var rateNow := now + x.delay;  // the clock runs while the code does
    later := rateNow + x.rateDelay;
    if pattern != null {
      OthersRecord(pattern, now);
      var mode;
      interval, mode := AdaptiveInterval(pattern, now, rateNow, later, x.draw);
    } else {
      interval := RandomInterval(MIN_INTERVAL, MAX_INTERVAL, x.draw);
    }
  }

  /**
   One iteration of the loop: wait, signal, and after a failed signal reconnect.  It ends the loop
   on cancellation, before signalling, or when the reconnect fails, and for no other reason.
   */
  method Round(client: Client, pattern: TrafficPattern?, now: int, x: Input) returns (again: bool, fired: int)
    requires client.Valid() && client.IsUsable() && Good(client.trace)
    requires pattern != null ==> pattern.Valid() && pattern.clock <= now
    modifies client, pattern
    ensures client.Valid() && Good(client.trace) && if again then client.IsUsable() else client.conn == None
    ensures again <==> GoesOn(x)
    ensures again && Accepts(x.reply) ==> client.conn == old(client.conn)
    ensures again && !Accepts(x.reply) ==> client.conn.value >= |old(client.trace)|
    ensures pattern != null ==> pattern.Valid() && pattern.clock <= fired
    ensures fired >= now + Gap(pattern != null)
    ensures Drawn(pattern != null, x.draw, fired - (now + x.delay + x.rateDelay + x.wakeDelay))
    ensures NewnymTimes(client.trace) == old(NewnymTimes(client.trace)) + if x.cancelled then [] else [fired]
  {
    var interval, later := NextInterval(pattern, now, x);
    fired := later + interval + x.wakeDelay;
    if x.cancelled {
      client.Close();
      return false, fired;
    }
    again := client.SignalNewnym(fired, x.reply);
    if !again {
      client.Close();
      again := Reconnect(client, x.redial);
      if !again {
        client.Close();
      }
    }
  }

  /** Round k is the first after which the loop does not go on. */
  ghost predicate EndsAt(inputs: seq<Input>, k: int) {
    0 <= k < |inputs| && !GoesOn(inputs[k]) && forall j | 0 <= j < k :: GoesOn(inputs[j])
  }

  /**
   One instance's loop over any finite list of inputs.  It returns exactly when the first connection
   fails or some round does not go on, and then nothing is left open.  Every round that was not
   cancelled has sent one NEWNYM; the trace keeps the protocol and the NEWNYMs are paced throughout.
   */
  method RunInstance(pattern: TrafficPattern?, start: int, first: Dial, inputs: seq<Input>)
    returns (client: Client, returned: bool)
    requires pattern != null ==> pattern.Valid() && pattern.clock <= start
    modifies pattern
    ensures fresh(client) && Good(client.trace)
    ensures Paced(NewnymTimes(client.trace), start, Gap(pattern != null))
    ensures returned <==> !Connects(first) || exists k :: EndsAt(inputs, k)
    ensures returned ==> OpenConns(client.trace) == {}
    ensures !returned ==> |NewnymTimes(client.trace)| == |inputs| && |OpenConns(client.trace)| == 1
    ensures !Connects(first) ==> NewnymTimes(client.trace) == []
    ensures Connects(first) ==> forall k | EndsAt(inputs, k) ::
      |NewnymTimes(client.trace)| == k + if inputs[k].cancelled then 0 else 1
  {
    client := new Client();
    returned := true;
    var now := start;
    var ok := Reconnect(client, first);
    if !ok {
      client.Close();
      return;
    }
    ghost var gap := Gap(pattern != null);
    for round := 0 to |inputs|
      invariant fresh(client) && client.Valid() && client.IsUsable() && Good(client.trace)
      invariant pattern != null ==> pattern.Valid() && pattern.clock <= now
      invariant OnSchedule(NewnymTimes(client.trace), start, gap, round, now)
      invariant forall j | 0 <= j < round :: GoesOn(inputs[j])
    {
      ghost var times, before := NewnymTimes(client.trace), now;
      ok, now := Round(client, pattern, now, inputs[round]);
      NextOnSchedule(times, start, gap, round, before, now);
      if !ok {
        assert EndsAt(inputs, round);
        assert forall k | EndsAt(inputs, k) :: k == round;
        return;
      }
    }
    returned := false;
  }

  /** In plain numbers: 10 k seconds in fixed mode, 3 k seconds in adaptive mode. */
  lemma PacedInSeconds(times: seq<int>, start: int, adaptive: bool, k: nat)
    requires Paced(times, start, Gap(adaptive)) && 1 <= k <= |times|
    ensures times[k - 1] >= start + (if adaptive then 3_000_000_000 else 10_000_000_000) * k
  {
    EarliestIsLinear(start, Gap(adaptive), k);
    assert times[k - 1] >= Earliest(start, Gap(adaptive), (k - 1) + 1);
  }

  /** A failed NEWNYM does not end the loop when the control port takes a new connection. */
  lemma FailedNewnymGoesOn(x: Input)
    requires !x.cancelled && x.redial.dials && x.redial.hexCookie.Some?
    requires x.redial.reply.Line? && exists rest: string :: x.redial.reply.text == "250" + rest
    ensures GoesOn(x)
  {
    Is250Exactly(x.redial.reply.text);
  }
}
