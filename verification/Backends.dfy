/**
 What the load balancer is told about the instances, internal/haproxy/config.go, against what the
 proxies in front of them listen on, internal/proxy/native.go and internal/proxy/legacy.go.
 */
module Backends {
  import opened Wrappers
  import opened Country
  import opened TorManager

  datatype Kind = TorSocks | TorHTTP | Privoxy

  /** A backend line; its name is the kind and the instance ID. */
  datatype Backend = Backend(kind: Kind, id: int, port: int)

  datatype SetupError = NoHTTPTunnelPort(id: int) | WriteConfig(id: int)

  // ----- The backends an instance deserves -------------------------------------------------------------

  ghost function SocksBackends(insts: seq<Instance>): seq<Backend> {
    seq(|insts|, k requires 0 <= k < |insts| => Backend(TorSocks, insts[k].id, insts[k].socksPort))
  }

  ghost function HTTPBackends(insts: seq<Instance>, native: bool, privoxyStart: int): seq<Backend> {
    if insts == [] then []
    else
      var last := insts[|insts| - 1];
      HTTPBackends(insts[..|insts| - 1], native, privoxyStart) +
      if !native then [Backend(Privoxy, last.id, privoxyStart + last.id)]
      else if last.httpPort > 0 then [Backend(TorHTTP, last.id, last.httpPort)]
      else []
  }

  ghost function Ports(backends: seq<Backend>): seq<int> {
    seq(|backends|, k requires 0 <= k < |backends| => backends[k].port)
  }

  /** For any shuffle the backends are a permutation of what the instances deserve. */
  method BuildConfigData(insts: seq<Instance>, native: bool, privoxyStart: int,
                         httpDraws: seq<nat>, socksDraws: seq<nat>)
    returns (httpBackends: seq<Backend>, socksBackends: seq<Backend>)
    ensures socksBackends == Shuffled(SocksBackends(insts), socksDraws, |insts|)
    ensures multiset(socksBackends) == multiset(SocksBackends(insts))
    ensures multiset(Ports(socksBackends)) ==
      multiset(seq(|insts|, k requires 0 <= k < |insts| => insts[k].socksPort))
    ensures var h := HTTPBackends(insts, native, privoxyStart); httpBackends == Shuffled(h, httpDraws, |h|)
    ensures multiset(httpBackends) == multiset(HTTPBackends(insts, native, privoxyStart))
  {
    httpBackends, socksBackends := [], [];
    for i := 0 to |insts|
      invariant socksBackends == SocksBackends(insts)[..i]
      invariant httpBackends == HTTPBackends(insts[..i], native, privoxyStart)
    {
      var inst := insts[i];
      assert insts[..i + 1][..i] == insts[..i];
      socksBackends := socksBackends + [Backend(TorSocks, inst.id, inst.socksPort)];
      if native {
        if inst.httpPort > 0 {
          httpBackends := httpBackends + [Backend(TorHTTP, inst.id, inst.httpPort)];
        }
      } else {
        var privoxyPort := privoxyStart + inst.id;
        httpBackends := httpBackends + [Backend(Privoxy, inst.id, privoxyPort)];
      }
    }
    assert insts[..|insts|] == insts && SocksBackends(insts)[..|insts|] == SocksBackends(insts);
    httpBackends := Shuffle(httpBackends, httpDraws);
    socksBackends := Shuffle(socksBackends, socksDraws);
    SocksPorts(insts);
    PortsOfPermutation(socksBackends, SocksBackends(insts));
  }

  lemma SocksPorts(insts: seq<Instance>)
    ensures Ports(SocksBackends(insts)) == seq(|insts|, k requires 0 <= k < |insts| => insts[k].socksPort)
  {
  }

  /** The SOCKS backend of instance k, shuffled or not, is for its ID and its SOCKS port. */
  lemma SocksBackendsAligned(insts: seq<Instance>, socksBackends: seq<Backend>, b: Backend)
    requires multiset(socksBackends) == multiset(SocksBackends(insts))
    ensures |socksBackends| == |insts|
    ensures b in socksBackends <==>
      exists k :: 0 <= k < |insts| && b.kind == TorSocks && b.id == insts[k].id && b.port == insts[k].socksPort
  {
    var s := SocksBackends(insts);
    assert |socksBackends| == |multiset(socksBackends)| == |s|;
    assert b in socksBackends <==> b in multiset(s);
    assert b in multiset(s) <==> b in s;
    if k :| 0 <= k < |insts| && b.kind == TorSocks && b.id == insts[k].id && b.port == insts[k].socksPort {
      assert s[k] == b;
    }
  }

  /** In a laid-out table traffic for the backend with ID k goes to port startSocksPort + k. */
  lemma SocksBackendPort(insts: seq<Instance>, cfg: Config, httpTunnel: bool, countries: seq<Code>,
                         socksBackends: seq<Backend>, b: Backend)
    requires LayoutOf(insts, cfg, httpTunnel, countries)
    requires multiset(socksBackends) == multiset(SocksBackends(insts)) && b in socksBackends
    ensures 0 <= b.id < |insts| && b.port == cfg.startSocksPort + b.id
  {
    SocksBackendsAligned(insts, socksBackends, b);
    var k :| 0 <= k < |insts| && b.kind == TorSocks && b.id == insts[k].id && b.port == insts[k].socksPort;
    assert LaidOut(insts[k], k, cfg, httpTunnel, countries);
  }

  /** The instances whose HTTP tunnel is described by backend b. */
  ghost function Tunnels(insts: seq<Instance>, b: Backend): set<int> {
    set k | 0 <= k < |insts| && insts[k].httpPort > 0 && b == Backend(TorHTTP, insts[k].id, insts[k].httpPort)
  }

  lemma TunnelsSnoc(insts: seq<Instance>, last: Instance, b: Backend)
    ensures |Tunnels(insts + [last], b)| == |Tunnels(insts, b)| +
      if last.httpPort > 0 && b == Backend(TorHTTP, last.id, last.httpPort) then 1 else 0
  {
    var before, now := Tunnels(insts, b), Tunnels(insts + [last], b);
    if last.httpPort > 0 && b == Backend(TorHTTP, last.id, last.httpPort) {
      assert now == before + {|insts|};
    } else {
      assert now == before;
    }
  }

  /** In native mode exactly the instances with an HTTP port have an HTTP backend, each for its ID and port. */
  lemma {:induction false} NativeBackendsExactly(insts: seq<Instance>, privoxyStart: int, b: Backend)
    ensures multiset(HTTPBackends(insts, true, privoxyStart))[b] == |Tunnels(insts, b)|
  {
    if insts != [] {
      var front, last := insts[..|insts| - 1], insts[|insts| - 1];
      NativeBackendsExactly(front, privoxyStart, b);
      TunnelsSnoc(front, last, b);
      assert insts == front + [last];
    }
  }

  // ----- The proxies ---------------------------------------------------------------------------------

  /** Fails exactly when some instance has no HTTP tunnel port. */
  method NativeSetup(insts: seq<Instance>) returns (r: Result<seq<int>, SetupError>)
    ensures r.Err? <==> exists k :: 0 <= k < |insts| && insts[k].httpPort <= 0
    ensures r.Err? ==>
      exists k | 0 <= k < |insts| && insts[k].httpPort <= 0 ::
        r.error == NoHTTPTunnelPort(insts[k].id) && forall j | 0 <= j < k :: insts[j].httpPort > 0
    ensures r.Ok? ==> |r.value| == |insts| && forall k | 0 <= k < |insts| :: r.value[k] == insts[k].httpPort
  {
    var ports: seq<int> := [];
    for i := 0 to |insts|
      invariant |ports| == i
      invariant forall k | 0 <= k < i :: insts[k].httpPort > 0 && ports[k] == insts[k].httpPort
    {
      if insts[i].httpPort <= 0 {
        return Err(NoHTTPTunnelPort(insts[i].id));
      }
      ports := ports + [insts[i].httpPort];
    }
    r := Ok(ports);
  }

  /** `writable` says whether the configuration file of an instance can be written. */
  method LegacySetup(insts: seq<Instance>, privoxyStart: int, writable: int -> bool)
    returns (r: Result<seq<int>, SetupError>)
    ensures r.Err? <==> exists k :: 0 <= k < |insts| && !writable(insts[k].id)
    ensures r.Err? ==>
      exists k | 0 <= k < |insts| && !writable(insts[k].id) ::
        r.error == WriteConfig(insts[k].id) && forall j | 0 <= j < k :: writable(insts[j].id)
    ensures r.Ok? ==> |r.value| == |insts| && forall k | 0 <= k < |insts| :: r.value[k] == privoxyStart + insts[k].id
  {
    var ports: seq<int> := [];
    for i := 0 to |insts|
      invariant |ports| == i
      invariant forall k | 0 <= k < i :: writable(insts[k].id) && ports[k] == privoxyStart + insts[k].id
    {
      ports := ports + [privoxyStart + insts[i].id];
      if !writable(insts[i].id) {
        return Err(WriteConfig(insts[i].id));
      }
    }
    r := Ok(ports);
  }

  lemma {:induction false} HTTPPortsAligned(insts: seq<Instance>, native: bool, privoxyStart: int)
    requires native ==> forall k | 0 <= k < |insts| :: insts[k].httpPort > 0
    ensures var b := HTTPBackends(insts, native, privoxyStart);
      |b| == |insts| && forall k | 0 <= k < |insts| ::
        && b[k].kind == (if native then TorHTTP else Privoxy) && b[k].id == insts[k].id
        && b[k].port == if native then insts[k].httpPort else privoxyStart + insts[k].id
  {
    if insts != [] {
      HTTPPortsAligned(insts[..|insts| - 1], native, privoxyStart);
    }
  }

  lemma TakeOut(b: seq<Backend>, k: nat)
    requires k < |b|
    ensures multiset(b[..k] + b[k + 1..]) == multiset(b) - multiset{b[k]}
    ensures multiset(Ports(b)) == multiset(Ports(b[..k] + b[k + 1..])) + multiset{b[k].port}
  {
    var left, right := b[..k], b[k + 1..];
    assert b == left + [b[k]] + right;
    assert Ports(b) == Ports(left) + [b[k].port] + Ports(right);
    assert Ports(left + right) == Ports(left) + Ports(right);
  }

  lemma FindSame(a: seq<Backend>, b: seq<Backend>) returns (k: nat)
    requires multiset(a) == multiset(b) && a != []
    ensures k < |b| && b[k] == a[0]
  {
    assert a[0] in multiset(b);
    k :| 0 <= k < |b| && b[k] == a[0];
  }

  lemma {:induction false} PortsOfPermutation(a: seq<Backend>, b: seq<Backend>)
    requires multiset(a) == multiset(b)
    ensures multiset(Ports(a)) == multiset(Ports(b))
  {
    if a == [] {
      assert |multiset(b)| == 0 && b == [];
    } else {
      var k := FindSame(a, b);
      TakeOut(a, 0);
      TakeOut(b, k);
      PortsOfPermutation(a[..0] + a[1..], b[..k] + b[k + 1..]);
    }
  }

  /**
   When the proxy of the configured mode sets up successfully, the load balancer's HTTP backends,
   shuffled or not, are exactly the ports that proxy serves.
   */
  lemma BackendsMatchProxy(insts: seq<Instance>, native: bool, privoxyStart: int,
                           httpBackends: seq<Backend>, ports: seq<int>)
    requires multiset(httpBackends) == multiset(HTTPBackends(insts, native, privoxyStart))
    requires |ports| == |insts|
    requires forall k | 0 <= k < |insts| ::
      ports[k] == if native then insts[k].httpPort else privoxyStart + insts[k].id
    requires native ==> forall k | 0 <= k < |insts| :: insts[k].httpPort > 0
    ensures multiset(Ports(httpBackends)) == multiset(ports)
  {
    var b := HTTPBackends(insts, native, privoxyStart);
    HTTPPortsAligned(insts, native, privoxyStart);
    PortsOfPermutation(httpBackends, b);
    assert Ports(b) == ports;
  }
}
