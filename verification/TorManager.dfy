/**
 The instance table of internal/tor/manager.go: how it is laid out over countries and ports,
 and how rotation changes it.
 */
module TorManager {
  import opened Wrappers
  import opened Country

  /** `httpPort` is 0 when the Tor version has no HTTP tunnel. */
  datatype Instance = Instance(id: int, country: Code, socksPort: int, controlPort: int, httpPort: int)

  datatype Config = Config(perCountry: int, countries: int, startSocksPort: int, startControlPort: int,
                           startHTTPPort: int)

  datatype RotateError = NotFound | StartFailed

  // ----- Layout ------------------------------------------------------------------------------------

  ghost function Total(cfg: Config, countries: nat): nat {
    if cfg.perCountry <= 0 then 0 else countries * cfg.perCountry
  }

  /** Instance k, counting from zero: country by division, ports by offset. */
  ghost predicate LaidOut(inst: Instance, k: nat, cfg: Config, httpTunnel: bool, countries: seq<Code>) {
    && inst.id == k
    && cfg.perCountry > 0 && k / cfg.perCountry < |countries|
    && inst.country == countries[k / cfg.perCountry]
    && inst.socksPort == cfg.startSocksPort + k
    && inst.controlPort == cfg.startControlPort + k
    && inst.httpPort == if httpTunnel then cfg.startHTTPPort + k else 0
  }

  lemma DivByRow(row: nat, i: nat, width: nat)
    requires i < width
    ensures (row * width + i) / width == row
  {
    var x := row * width + i;
    var d := row - x / width;
    assert x == x / width * width + x % width;
    assert d * width == x % width - i;
    MultipleIsFar(d, width);
  }

  lemma MultipleIsFar(d: int, width: int)
    requires width > 0
    ensures d >= 1 ==> d * width >= width
    ensures d <= -1 ==> d * width <= -width
  {
  }

  /** The only place ports are checked; the other clauses of Validate are about other settings. */
  ghost predicate Validate(cfg: Config) {
    && cfg.perCountry > 0 && cfg.countries > 0
    && 0 <= cfg.startSocksPort <= 65535 && 0 <= cfg.startControlPort <= 65535 && 0 <= cfg.startHTTPPort <= 65535
    && cfg.startSocksPort + cfg.perCountry * cfg.countries <= 65535
  }

  ghost predicate AllLaidOut(insts: seq<Instance>, cfg: Config, httpTunnel: bool, countries: seq<Code>) {
    forall k | 0 <= k < |insts| :: LaidOut(insts[k], k, cfg, httpTunnel, countries)
  }

  ghost predicate LayoutOf(insts: seq<Instance>, cfg: Config, httpTunnel: bool, countries: seq<Code>) {
    |insts| == Total(cfg, |countries|) && AllLaidOut(insts, cfg, httpTunnel, countries)
  }

  lemma AppendLaidOut(insts: seq<Instance>, inst: Instance, cfg: Config, httpTunnel: bool, countries: seq<Code>)
    requires AllLaidOut(insts, cfg, httpTunnel, countries)
    requires LaidOut(inst, |insts|, cfg, httpTunnel, countries)
    ensures AllLaidOut(insts + [inst], cfg, httpTunnel, countries)
  {
  }

  /** In a validated configuration every SOCKS port is usable and no two instances share any port of a kind. */
  lemma ValidatedPorts(insts: seq<Instance>, cfg: Config, httpTunnel: bool, countries: seq<Code>, a: nat, b: nat)
    requires Validate(cfg) && |countries| == cfg.countries && LayoutOf(insts, cfg, httpTunnel, countries)
    requires a < |insts| && b < |insts| && a != b
    ensures 0 <= insts[a].socksPort < 65535 && insts[a].socksPort != insts[b].socksPort
    ensures insts[a].controlPort != insts[b].controlPort && insts[a].id != insts[b].id
    ensures httpTunnel ==> insts[a].httpPort != insts[b].httpPort
  {
    assert LaidOut(insts[a], a, cfg, httpTunnel, countries) && LaidOut(insts[b], b, cfg, httpTunnel, countries);
    assert |insts| == cfg.countries * cfg.perCountry;
  }

  /** Every country gets perCountry instances in a row, in the order of the list. */
  lemma CountryBlocks(insts: seq<Instance>, cfg: Config, httpTunnel: bool, countries: seq<Code>, c: nat, i: nat)
    requires LayoutOf(insts, cfg, httpTunnel, countries) && c < |countries| && i < cfg.perCountry
    ensures |insts| == |countries| * cfg.perCountry
    ensures c * cfg.perCountry + i < |insts| && insts[c * cfg.perCountry + i].country == countries[c]
  {
    var k := c * cfg.perCountry + i;
    DivByRow(c, i, cfg.perCountry);
    RowEnds(c, i, |countries|, cfg.perCountry);
    assert LaidOut(insts[k], k, cfg, httpTunnel, countries);
  }

  lemma RowEnds(c: nat, i: nat, rows: nat, width: nat)
    requires c < rows && i < width
    ensures c * width + i < rows * width
  {
    assert (c + 1) * width <= rows * width by {
      assert rows * width == (c + 1) * width + (rows - c - 1) * width;
    }
  }

  // ----- Port families -----------------------------------------------------------------------------

  datatype Family = Socks | Control | HTTP

  /** Only instances with an HTTP tunnel have an HTTP port. */
  predicate Present(f: Family, httpTunnel: bool) { f != HTTP || httpTunnel }

  function Port(inst: Instance, f: Family): int {
    match f case Socks => inst.socksPort case Control => inst.controlPort case HTTP => inst.httpPort
  }

  function Start(cfg: Config, f: Family): int {
    match f case Socks => cfg.startSocksPort case Control => cfg.startControlPort case HTTP => cfg.startHTTPPort
  }

  lemma FamilyPorts(insts: seq<Instance>, cfg: Config, httpTunnel: bool, countries: seq<Code>, f: Family)
    requires LayoutOf(insts, cfg, httpTunnel, countries) && Present(f, httpTunnel)
    ensures forall k | 0 <= k < |insts| :: Port(insts[k], f) == Start(cfg, f) + k
  {
    assert forall k | 0 <= k < |insts| :: LaidOut(insts[k], k, cfg, httpTunnel, countries);
  }

  /** Two families never meet exactly when their starts are at least the number of instances apart. */
  lemma FamiliesDisjoint(insts: seq<Instance>, cfg: Config, httpTunnel: bool, countries: seq<Code>,
                         f: Family, g: Family)
    requires LayoutOf(insts, cfg, httpTunnel, countries) && insts != []
    requires Present(f, httpTunnel) && Present(g, httpTunnel)
    ensures (forall a, b | 0 <= a < |insts| && 0 <= b < |insts| :: Port(insts[a], f) != Port(insts[b], g)) <==>
      Start(cfg, g) - Start(cfg, f) >= |insts| || Start(cfg, f) - Start(cfg, g) >= |insts|
  {
    var n, gap := |insts|, Start(cfg, g) - Start(cfg, f);
    FamilyPorts(insts, cfg, httpTunnel, countries, f);
    FamilyPorts(insts, cfg, httpTunnel, countries, g);
    if 0 <= gap < n {
      assert Port(insts[gap], f) == Port(insts[0], g);
    } else if -n < gap < 0 {
      assert Port(insts[0], f) == Port(insts[-gap], g);
    }
  }

  /** A family of a validated configuration stays in range exactly when its last port does. */
  lemma InRangeExactly(insts: seq<Instance>, cfg: Config, httpTunnel: bool, countries: seq<Code>, f: Family)
    requires Validate(cfg) && |countries| == cfg.countries && LayoutOf(insts, cfg, httpTunnel, countries)
    requires Present(f, httpTunnel)
    ensures (forall k | 0 <= k < |insts| :: 0 <= Port(insts[k], f) <= 65535) <==>
      Start(cfg, f) + cfg.perCountry * cfg.countries <= 65536
  {
    FamilyPorts(insts, cfg, httpTunnel, countries, f);
    assert |insts| == cfg.countries * cfg.perCountry;
    if Start(cfg, f) + |insts| > 65536 {
      assert Port(insts[|insts| - 1], f) > 65535;
    }
  }

  /** What Validate asks of sane settings: that every SOCKS port of the layout is below 65535. */
  lemma ValidateExactly(insts: seq<Instance>, cfg: Config, httpTunnel: bool, countries: seq<Code>)
    requires cfg.perCountry > 0 && cfg.countries > 0 && |countries| == cfg.countries
    requires forall f: Family :: 0 <= Start(cfg, f) <= 65535
    requires LayoutOf(insts, cfg, httpTunnel, countries)
    ensures Validate(cfg) <==> forall k | 0 <= k < |insts| :: insts[k].socksPort < 65535
  {
    FamilyPorts(insts, cfg, httpTunnel, countries, Socks);
    assert |insts| == cfg.countries * cfg.perCountry >= 1;
    assert Start(cfg, Socks) == cfg.startSocksPort && Start(cfg, Control) == cfg.startControlPort
           && Start(cfg, HTTP) == cfg.startHTTPPort;
    assert Port(insts[|insts| - 1], Socks) == insts[|insts| - 1].socksPort == cfg.startSocksPort + |insts| - 1;
    assert forall k | 0 <= k < |insts| :: Port(insts[k], Socks) == insts[k].socksPort;
  }

  /** Validate looks at the SOCKS ports alone: any other family of a validated layout can leave the range. */
  lemma ControlPortsUnchecked(f: Family) returns (insts: seq<Instance>, cfg: Config, countries: seq<Code>)
    requires f != Socks
    ensures Validate(cfg) && |countries| == cfg.countries && LayoutOf(insts, cfg, true, countries)
    ensures exists k :: 0 <= k < |insts| && Port(insts[k], f) > 65535
  {
    cfg, countries := Config(1, 2, 5000, 65535, 65535), ["DE", "NL"];
    insts := [Instance(0, "DE", 5000, 65535, 65535), Instance(1, "NL", 5001, 65536, 65536)];
    assert Port(insts[1], f) > 65535;
  }

  // ----- The manager -----------------------------------------------------------------------------------

  /** Rotation may touch an instance's country and nothing else. */
  ghost predicate SameButCountry(a: seq<Instance>, b: seq<Instance>) {
    && |a| == |b|
    && forall k | 0 <= k < |a| :: b[k] == a[k].(country := b[k].country)
  }

  ghost predicate DistinctIds(insts: seq<Instance>) {
    forall i, j | 0 <= i < j < |insts| :: insts[i].id != insts[j].id
  }

  ghost predicate AllAllowed(insts: seq<Instance>, accepted: seq<Code>, blacklisted: seq<Code>) {
    forall k | 0 <= k < |insts| :: Allowed(insts[k].country, accepted, blacklisted)
  }

  lemma LayoutDistinctIds(insts: seq<Instance>, cfg: Config, httpTunnel: bool, countries: seq<Code>)
    requires LayoutOf(insts, cfg, httpTunnel, countries)
    ensures DistinctIds(insts)
  {
    assert forall k | 0 <= k < |insts| :: LaidOut(insts[k], k, cfg, httpTunnel, countries);
  }

  lemma LayoutAllowed(insts: seq<Instance>, cfg: Config, httpTunnel: bool, countries: seq<Code>,
                      accepted: seq<Code>, blacklisted: seq<Code>)
    requires LayoutOf(insts, cfg, httpTunnel, countries)
    requires forall c | c in countries :: Allowed(c, accepted, blacklisted)
    ensures AllAllowed(insts, accepted, blacklisted)
  {
    forall k | 0 <= k < |insts| ensures Allowed(insts[k].country, accepted, blacklisted) {
      assert LaidOut(insts[k], k, cfg, httpTunnel, countries);
      assert countries[k / cfg.perCountry] in countries;
    }
  }

  class Manager {
    var instances: seq<Instance>

    constructor ()
      ensures instances == []
    {
      instances := [];
    }

    /** Appends the whole layout; DetectAndCreate runs the same loops. */
    method CreateFromVersion(cfg: Config, httpTunnel: bool, countries: seq<Code>)
      modifies this
      ensures |instances| == |old(instances)| + Total(cfg, |countries|)
      ensures instances[..|old(instances)|] == old(instances)
      ensures LayoutOf(instances[|old(instances)|..], cfg, httpTunnel, countries)
    {
      var before := |instances|;
      var width := if cfg.perCountry < 0 then 0 else cfg.perCountry;
      var instanceID: nat := 0;
      for c := 0 to |countries|
        invariant instanceID == c * width && |instances| == before + instanceID
        invariant instances[..before] == old(instances)
        invariant AllLaidOut(instances[before..], cfg, httpTunnel, countries)
      {
        var i := 0;
        while i < cfg.perCountry
          invariant 0 <= i <= width
          invariant instanceID == c * width + i && |instances| == before + instanceID
          invariant instances[..before] == old(instances)
          invariant AllLaidOut(instances[before..], cfg, httpTunnel, countries)
        {
          DivByRow(c, i, width);
          var inst := Instance(instanceID, countries[c], cfg.startSocksPort + instanceID,
                               cfg.startControlPort + instanceID,
                               if httpTunnel then cfg.startHTTPPort + instanceID else 0);
          AppendLaidOut(instances[before..], inst, cfg, httpTunnel, countries);
          assert (instances + [inst])[before..] == instances[before..] + [inst];
          instances := instances + [inst];
          instanceID := instanceID + 1;
          i := i + 1;
        }
      }
    }

    /** Stop never fails; the country is changed before Start is tried, so it stays changed if that fails. */
    method RotateInstance(id: int, newCountry: Code, starts: bool) returns (r: Result<(), RotateError>)
      modifies this
      ensures (forall k | 0 <= k < |old(instances)| :: old(instances)[k].id != id) ==>
        r == Err(NotFound) && instances == old(instances)
      ensures SameButCountry(old(instances), instances)
      ensures forall k | 0 <= k < |instances| && old(instances)[k].id != id :: instances[k] == old(instances)[k]
      ensures forall k | 0 <= k < |instances| && old(instances)[k].id == id
                         && (forall j | 0 <= j < k :: old(instances)[j].id != id) ::
        instances[k].country == newCountry && r == if starts then Ok(()) else Err(StartFailed)
    {
      var i := 0;
      while i < |instances|
        invariant 0 <= i <= |instances| && instances == old(instances)
        invariant forall k | 0 <= k < i :: instances[k].id != id
      {
        if instances[i].id == id {
          instances := instances[i := instances[i].(country := newCountry)];
          return if starts then Ok(()) else Err(StartFailed);
        }
        i := i + 1;
      }
      r := Err(NotFound);
    }
  }

  // ----- One rotation cycle ------------------------------------------------------------------------------

  /** The positions whose instance a cycle tried to move. */
  ghost predicate RotatedOk(before: seq<Instance>, after: seq<Instance>, rotated: seq<nat>,
                            accepted: seq<Code>, blacklisted: seq<Code>) {
    && SameButCountry(before, after)
    && (forall i, j | 0 <= i < j < |rotated| :: rotated[i] != rotated[j])
    && (forall k | k in rotated ::
          k < |before| && after[k].country != before[k].country && Allowed(after[k].country, accepted, blacklisted))
    && (forall k | 0 <= k < |before| && k !in rotated :: after[k] == before[k])
  }

  ghost predicate TwoAllowed(accepted: seq<Code>, blacklisted: seq<Code>) {
    exists a, b :: Allowed(a, accepted, blacklisted) && Allowed(b, accepted, blacklisted) && a != b
  }

  function UpTo(n: nat): (s: seq<nat>)
    ensures |s| == n && forall k | 0 <= k < n :: s[k] == k
  {
    seq(n, k => k)
  }

  /** The order in which a cycle visits the instances. */
  ghost function Order(n: nat, draws: seq<nat>): (order: seq<nat>)
    ensures |order| == n
  {
    Shuffled(UpTo(n), draws, n)
  }

  ghost predicate InBounds(visited: seq<nat>, n: nat) { forall i | 0 <= i < |visited| :: visited[i] < n }

  /** Those of the visited instances that have somewhere to go. */
  ghost function Movable(insts: seq<Instance>, visited: seq<nat>, accepted: seq<Code>, blacklisted: seq<Code>): seq<nat>
    requires InBounds(visited, |insts|)
  {
    if visited == [] then []
    else
      var front, last := visited[..|visited| - 1], visited[|visited| - 1];
      Movable(insts, front, accepted, blacklisted) +
      if HasAlternative(insts[last].country, accepted, blacklisted) then [last] else []
  }

  lemma {:induction false} MovableExactly(insts: seq<Instance>, visited: seq<nat>, accepted: seq<Code>,
                                          blacklisted: seq<Code>, k: nat)
    requires InBounds(visited, |insts|)
    ensures k in Movable(insts, visited, accepted, blacklisted) <==>
      k in visited && k < |insts| && HasAlternative(insts[k].country, accepted, blacklisted)
    ensures |Movable(insts, visited, accepted, blacklisted)| <= |visited|
    ensures TwoAllowed(accepted, blacklisted) ==> Movable(insts, visited, accepted, blacklisted) == visited
  {
    if visited != [] {
      var front, last := visited[..|visited| - 1], visited[|visited| - 1];
      MovableExactly(insts, front, accepted, blacklisted, k);
      TwoGiveAlternative(insts[last].country, accepted, blacklisted);
      assert visited == front + [last];
    }
  }

  lemma TwoGiveAlternative(current: Code, accepted: seq<Code>, blacklisted: seq<Code>)
    ensures TwoAllowed(accepted, blacklisted) ==> HasAlternative(current, accepted, blacklisted)
  {
  }

  method Indices(n: nat, draws: seq<nat>) returns (indices: seq<nat>)
    ensures indices == Order(n, draws)
    ensures IsOrder(indices, n)
  {
    indices := [];
    for i := 0 to n
      invariant |indices| == i && forall k | 0 <= k < i :: indices[k] == k
    {
      indices := indices + [i];
    }
    ghost var before := indices;
    assert before == UpTo(n);
    indices := Shuffle(indices, draws);
    PermutedIndices(before, indices);
  }

  lemma PermutedIndices(s: seq<nat>, t: seq<nat>)
    requires multiset(s) == multiset(t) && forall k | 0 <= k < |s| :: s[k] == k
    ensures |t| == |s| && forall i | 0 <= i < |t| :: t[i] < |s|
    ensures forall i, j | 0 <= i < j < |t| :: t[i] != t[j]
  {
    assert |s| == |multiset(s)| == |t|;
    forall i | 0 <= i < |t| ensures t[i] < |s| {
      assert t[i] in multiset(s);
    }
    forall i, j | 0 <= i < j < |t| ensures t[i] != t[j] {
      assert t == t[..j] + t[j..];
      assert t[i] in multiset(t[..j]) && t[j] in multiset(t[j..]);
      OnceEach(s, t[j]);
    }
  }

  lemma {:induction false} OnceEach(s: seq<nat>, x: nat)
    requires forall k | 0 <= k < |s| :: s[k] == k
    ensures multiset(s)[x] <= 1
    ensures x >= |s| ==> multiset(s)[x] == 0
  {
    if s != [] {
      var n := |s| - 1;
      assert s == s[..n] + [s[n]];
      OnceEach(s[..n], x);
    }
  }

  lemma RotatedSnoc(start: seq<Instance>, before: seq<Instance>, after: seq<Instance>, rotated: seq<nat>, idx: nat,
                    accepted: seq<Code>, blacklisted: seq<Code>)
    requires RotatedOk(start, before, rotated, accepted, blacklisted) && idx < |start| && idx !in rotated
    requires |after| == |before| && after[idx] == before[idx].(country := after[idx].country)
    requires forall k | 0 <= k < |before| && k != idx :: after[k] == before[k]
    requires after[idx].country != start[idx].country && Allowed(after[idx].country, accepted, blacklisted)
    ensures RotatedOk(start, after, rotated + [idx], accepted, blacklisted)
  {
    assert forall k | k in rotated + [idx] :: k == idx || k in rotated;
  }

  lemma MovableSnoc(insts: seq<Instance>, visited: seq<nat>, idx: nat, accepted: seq<Code>, blacklisted: seq<Code>)
    requires InBounds(visited, |insts|) && idx < |insts|
    ensures Movable(insts, visited + [idx], accepted, blacklisted) ==
      Movable(insts, visited, accepted, blacklisted) +
      if HasAlternative(insts[idx].country, accepted, blacklisted) then [idx] else []
  {
    assert (visited + [idx])[..|visited|] == visited;
  }

  /** RotateInstance for the instance at a known position. */
  method MoveTo(mgr: Manager, idx: nat, id: int, country: Code, starts: bool)
    requires DistinctIds(mgr.instances) && idx < |mgr.instances| && mgr.instances[idx].id == id
    modifies mgr
    ensures |mgr.instances| == |old(mgr.instances)|
    ensures mgr.instances[idx] == old(mgr.instances)[idx].(country := country)
    ensures forall k | 0 <= k < |mgr.instances| && k != idx :: mgr.instances[k] == old(mgr.instances)[k]
  {
    var _ := mgr.RotateInstance(id, country, starts);
  }

  /** Moves the instance at one position, unless there is no other country for it. */
  method RotateOne(mgr: Manager, ghost start: seq<Instance>, inst: Instance, idx: nat, rotated: seq<nat>,
                   accepted: seq<Code>, blacklisted: seq<Code>, pick: nat, starts: bool)
    returns (now: seq<nat>)
    requires DistinctIds(start) && RotatedOk(start, mgr.instances, rotated, accepted, blacklisted)
    requires idx < |start| && inst == start[idx] && idx !in rotated
    modifies mgr
    ensures RotatedOk(start, mgr.instances, now, accepted, blacklisted)
    ensures now == if HasAlternative(inst.country, accepted, blacklisted) then rotated + [idx] else rotated
  {
    var country := PickDifferentCountry(inst.country, accepted, blacklisted, pick);
    if country.Err? {
      return rotated;
    }
    ghost var before := mgr.instances;
    assert DistinctIds(before) by {
      assert forall k | 0 <= k < |before| :: before[k].id == start[k].id;
    }
    MoveTo(mgr, idx, inst.id, country.value, starts);
    RotatedSnoc(start, before, mgr.instances, rotated, idx, accepted, blacklisted);
    now := rotated + [idx];
  }

  /** Each position is visited once. */
  ghost predicate IsOrder(order: seq<nat>, n: nat) {
    |order| == n && InBounds(order, n) && forall i, j | 0 <= i < j < n :: order[i] != order[j]
  }

  /** A cycle after n visits. */
  ghost predicate CycleAt(start: seq<Instance>, now: seq<Instance>, order: seq<nat>, n: nat, rotated: seq<nat>,
                          accepted: seq<Code>, blacklisted: seq<Code>)
    requires IsOrder(order, |start|) && n <= |order|
  {
    && RotatedOk(start, now, rotated, accepted, blacklisted)
    && rotated == Movable(start, order[..n], accepted, blacklisted)
  }

  lemma NextVisit(start: seq<Instance>, order: seq<nat>, n: nat, accepted: seq<Code>, blacklisted: seq<Code>)
    requires IsOrder(order, |start|) && n < |order|
    ensures order[n] !in Movable(start, order[..n], accepted, blacklisted)
    ensures Movable(start, order[..n + 1], accepted, blacklisted) ==
      Movable(start, order[..n], accepted, blacklisted) +
      if HasAlternative(start[order[n]].country, accepted, blacklisted) then [order[n]] else []
  {
    MovableExactly(start, order[..n], accepted, blacklisted, order[n]);
    MovableSnoc(start, order[..n], order[n], accepted, blacklisted);
    assert order[..n + 1] == order[..n] + [order[n]];
  }

  /** One visit of the cycle. */
  method Visit(mgr: Manager, ghost start: seq<Instance>, inst: Instance, order: seq<nat>, n: nat, rotated: seq<nat>,
               accepted: seq<Code>, blacklisted: seq<Code>, pick: nat, starts: bool)
    returns (now: seq<nat>)
    requires DistinctIds(start) && IsOrder(order, |start|) && n < |order| && inst == start[order[n]]
    requires CycleAt(start, mgr.instances, order, n, rotated, accepted, blacklisted)
    modifies mgr
    ensures CycleAt(start, mgr.instances, order, n + 1, now, accepted, blacklisted)
  {
    NextVisit(start, order, n, accepted, blacklisted);
    now := RotateOne(mgr, start, inst, order[n], rotated, accepted, blacklisted, pick, starts);
  }

  /** One cycle's luck: the shuffle, and per visited instance a random pick and whether Tor starts again. */
  datatype Cycle = Cycle(draws: seq<nat>, picks: nat -> nat, starts: nat -> bool)

  function Smaller(a: int, b: int): int { if a < b then a else b }

  /**
   One cycle of the country daemon.  It visits the first min(totalToChange, n) instances of its
   order and moves exactly those that have an allowed country to go to, each to one it was not in.
   */
  method RotateOnce(mgr: Manager, totalToChange: int, accepted: seq<Code>, blacklisted: seq<Code>, cycle: Cycle)
    returns (rotated: seq<nat>, ghost visited: seq<nat>)
    requires DistinctIds(mgr.instances)
    modifies mgr
    ensures RotatedOk(old(mgr.instances), mgr.instances, rotated, accepted, blacklisted)
    ensures |visited| == (if totalToChange <= 0 then 0 else Smaller(totalToChange, |old(mgr.instances)|))
    ensures visited <= Order(|old(mgr.instances)|, cycle.draws)
    ensures InBounds(visited, |old(mgr.instances)|)
    ensures rotated == Movable(old(mgr.instances), visited, accepted, blacklisted)
    ensures |rotated| <= |old(mgr.instances)| && (|rotated| == 0 || |rotated| <= totalToChange)
    ensures TwoAllowed(accepted, blacklisted) ==> rotated == visited
  {
    rotated, visited := [], [];
    var instances := mgr.instances;
    if |instances| == 0 {
      return;
    }
    if totalToChange <= 0 {
      return;
    }
    var total := if totalToChange > |instances| then |instances| else totalToChange;
    var indices := Indices(|instances|, cycle.draws);
    for n := 0 to total
      invariant CycleAt(instances, mgr.instances, indices, n, rotated, accepted, blacklisted)
    {
      rotated := Visit(mgr, instances, instances[indices[n]], indices, n, rotated, accepted, blacklisted,
                       cycle.picks(n), cycle.starts(n));
    }
    visited := indices[..total];
    MovableExactly(instances, visited, accepted, blacklisted, 0);
  }

  /** Any number of cycles with fixed lists: countries stay allowed, IDs and ports never change. */
  method RunCycles(mgr: Manager, cycles: seq<Cycle>, totalToChange: int, accepted: seq<Code>, blacklisted: seq<Code>)
    requires DistinctIds(mgr.instances) && AllAllowed(mgr.instances, accepted, blacklisted)
    modifies mgr
    ensures SameButCountry(old(mgr.instances), mgr.instances)
    ensures AllAllowed(mgr.instances, accepted, blacklisted)
  {
    for n := 0 to |cycles|
      invariant SameButCountry(old(mgr.instances), mgr.instances)
      invariant AllAllowed(mgr.instances, accepted, blacklisted)
    {
      var _, _ := RotateOnce(mgr, totalToChange, accepted, blacklisted, cycles[n]);
    }
  }

  /** The daemon's whole life, from choosing the countries on. */
  method SelectCreateRotate(cfg: Config, httpTunnel: bool, accepted: seq<Code>, blacklisted: seq<Code>,
                            draws: seq<nat>, cycles: seq<Cycle>, totalToChange: int)
    returns (mgr: Manager, created: bool)
    ensures fresh(mgr)
    ensures created <==> cfg.countries <= |Filtered(accepted, blacklisted)|
    ensures AllAllowed(mgr.instances, accepted, blacklisted) && DistinctIds(mgr.instances)
    ensures created ==> |mgr.instances| == Total(cfg, if cfg.countries < 0 then 0 else cfg.countries)
    ensures forall k | 0 <= k < |mgr.instances| ::
      && mgr.instances[k].id == k && mgr.instances[k].socksPort == cfg.startSocksPort + k
      && mgr.instances[k].controlPort == cfg.startControlPort + k
      && mgr.instances[k].httpPort == if httpTunnel then cfg.startHTTPPort + k else 0
  {
    mgr := new Manager();
    var countries := SelectRandom(accepted, blacklisted, cfg.countries, draws);
    created := countries.Ok?;
    if !created {
      return;
    }
    mgr.CreateFromVersion(cfg, httpTunnel, countries.value);
    assert mgr.instances[0..] == mgr.instances;
    LayoutDistinctIds(mgr.instances, cfg, httpTunnel, countries.value);
    LayoutAllowed(mgr.instances, cfg, httpTunnel, countries.value, accepted, blacklisted);
    ghost var start := mgr.instances;
    assert forall k | 0 <= k < |start| :: LaidOut(start[k], k, cfg, httpTunnel, countries.value);
    RunCycles(mgr, cycles, totalToChange, accepted, blacklisted);
    assert SameButCountry(start, mgr.instances);
  }
}
