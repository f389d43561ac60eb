/**
 The port allocator of internal/network/allocator.go.  `free` is what binding a port would say;
 it is fixed for the duration of one call.
 */
module PortAllocator {
  import opened Wrappers

  const MAX_PORT_SCAN := 1000
  const MAX_PORT := 65535

  datatype Error = NoPort | BadCount

  predicate InBlock(p: int, base: int, count: nat) { base <= p < base + count }

  ghost function Block(base: int, count: nat): set<int> {
    set p | base <= p < base + count && InBlock(p, base, count)
  }

  /** The whole block at base can be granted: nobody holds any of it and every port can be bound. */
  ghost predicate Grantable(held: set<int>, free: int -> bool, base: int, count: nat) {
    forall p | base <= p < base + count :: p !in held && free(p)
  }

  /** The bases a scan for count ports looks at. */
  ghost predicate Scanned(preferred: int, base: int, count: nat) {
    preferred <= base < preferred + MAX_PORT_SCAN && base + count - 1 <= MAX_PORT
  }

  /** First fit: the least grantable base that is scanned, or an error when there is none. */
  ghost predicate FirstFit(held: set<int>, free: int -> bool, preferred: int, count: nat, r: Result<int, Error>) {
    match r
    case Ok(base) =>
      && Scanned(preferred, base, count) && Grantable(held, free, base, count)
      && forall b | preferred <= b < base :: !Grantable(held, free, b, count)
    case Err(_) =>
      forall b | Scanned(preferred, b, count) :: !Grantable(held, free, b, count)
  }

  /** The scan in numbers: a thousand bases, and no port of the block above 65535. */
  lemma ScannedExactly(preferred: int, base: int, count: nat)
    ensures Scanned(preferred, base, count) <==> 0 <= base - preferred < 1000 && base + count <= 65536
  {
  }

  /** First fit leaves no choice. */
  lemma FirstFitUnique(held: set<int>, free: int -> bool, preferred: int, count: nat,
                       r: Result<int, Error>, s: Result<int, Error>)
    requires FirstFit(held, free, preferred, count, r) && FirstFit(held, free, preferred, count, s)
    ensures r.Ok? <==> s.Ok?
    ensures r.Ok? ==> r.value == s.value
  {
    if r.Ok? && s.Ok? {
      assert !(r.value < s.value) && !(s.value < r.value);
    }
  }

  /** Who holds what: the grants that were handed out and not released, by grant number. */
  type Grants = map<nat, set<int>>

  ghost predicate Disjoint(grants: Grants) {
    forall g, h | g in grants && h in grants && g != h :: grants[g] !! grants[h]
  }

  ghost predicate Owns(grants: Grants, allocd: set<int>) {
    && (forall g | g in grants :: grants[g] <= allocd)
    && (forall p | p in allocd :: exists g :: g in grants && p in grants[g])
  }

  /** The ledger after a new grant of a block that nobody held. */
  lemma Granted(grants: Grants, allocd: set<int>, id: nat, ports: set<int>)
    requires Disjoint(grants) && Owns(grants, allocd) && id !in grants && ports !! allocd
    ensures Disjoint(grants[id := ports]) && Owns(grants[id := ports], allocd + ports)
  {
    var after := grants[id := ports];
    forall g, h | g in after && h in after && g != h ensures after[g] !! after[h] {
      if g == id {
        assert after[h] == grants[h] <= allocd;
      } else if h == id {
        assert after[g] == grants[g] <= allocd;
      } else {
        assert after[g] == grants[g] && after[h] == grants[h];
      }
    }
    forall p | p in allocd + ports ensures exists g :: g in after && p in after[g] {
      if p in allocd {
        var g :| g in grants && p in grants[g];
        assert p in after[g];
      } else {
        assert p in after[id];
      }
    }
  }

  /** The ledger after a port was given back: whichever grant held it loses it. */
  ghost function Without(grants: Grants, port: int): Grants {
    map g | g in grants :: grants[g] - {port}
  }

  lemma Released(grants: Grants, allocd: set<int>, port: int)
    requires Disjoint(grants) && Owns(grants, allocd)
    ensures Disjoint(Without(grants, port)) && Owns(Without(grants, port), allocd - {port})
  {
    forall p | p in allocd - {port} ensures exists g :: g in Without(grants, port) && p in Without(grants, port)[g] {
      var g :| g in grants && p in grants[g];
      assert p in Without(grants, port)[g];
    }
  }

  class Allocator {
    var allocd: set<int>
    ghost var grants: Grants

    /** Grants are pairwise disjoint, together they are allocd, and no port is out of range. */
    ghost predicate Valid()
      reads this
    {
      && Disjoint(grants) && Owns(grants, allocd)
      && forall p | p in allocd :: p <= MAX_PORT
    }

    constructor ()
      ensures Valid() && allocd == {} && grants == map[]
    {
      allocd, grants := {}, map[];
    }

    method AllocatePort(preferred: int, free: int -> bool, ghost id: nat) returns (r: Result<int, Error>)
      requires Valid() && id !in grants
      modifies this
      ensures Valid()
      ensures FirstFit(old(allocd), free, preferred, 1, r)
      ensures r.Ok? ==> preferred <= r.value < preferred + 1000 && r.value <= 65535
      ensures r.Err? ==> r.error == NoPort
      ensures r.Err? ==> forall p | preferred <= p < preferred + 1000 && p <= 65535 :: p in allocd || !free(p)
      ensures r.Ok? ==> allocd == old(allocd) + {r.value} && grants == old(grants)[id := {r.value}]
      ensures r.Err? ==> allocd == old(allocd) && grants == old(grants)
    {
      var offset := 0;
      while offset < MAX_PORT_SCAN
        invariant 0 <= offset <= MAX_PORT_SCAN && Valid()
        invariant allocd == old(allocd) && grants == old(grants)
        invariant forall b | preferred <= b < preferred + offset :: !Grantable(allocd, free, b, 1)
      {
        var candidate := preferred + offset;
        if candidate > MAX_PORT {
          break;
        }
        offset := offset + 1;
        if candidate in allocd {
          continue;
        }
        if !free(candidate) {
          continue;
        }
        Granted(grants, allocd, id, {candidate});
        allocd, grants := allocd + {candidate}, grants[id := {candidate}];
        return Ok(candidate);
      }
      r := Err(NoPort);
      forall p | preferred <= p < preferred + 1000 && p <= 65535 ensures p in allocd || !free(p) {
        assert !Grantable(allocd, free, p, 1);
      }
    }

    method AllocateN(preferred: int, count: int, free: int -> bool, ghost id: nat) returns (r: Result<int, Error>)
      requires Valid() && id !in grants
      modifies this
      ensures Valid()
      ensures count <= 0 ==> r == Err(BadCount)
      ensures count > 0 ==> FirstFit(old(allocd), free, preferred, count, r)
      ensures r.Ok? ==> preferred <= r.value < preferred + 1000 && r.value + count <= 65536
      ensures count > 0 && r.Err? ==> r.error == NoPort
      ensures count > 0 && r.Err? ==>
        forall b | preferred <= b < preferred + 1000 && b + count <= 65536 :: !Grantable(allocd, free, b, count)
      ensures r.Ok? ==>
        allocd == old(allocd) + Block(r.value, count) && grants == old(grants)[id := Block(r.value, count)]
      ensures r.Err? ==> allocd == old(allocd) && grants == old(grants)
    {
      if count <= 0 {
        return Err(BadCount);
      }
      var base := preferred;
      while base + count - 1 <= MAX_PORT && base < preferred + MAX_PORT_SCAN
        invariant preferred <= base <= preferred + MAX_PORT_SCAN && Valid()
        invariant allocd == old(allocd) && grants == old(grants)
        invariant forall b | preferred <= b < base :: !Grantable(allocd, free, b, count)
      {
        var allFree := AllFree(base, count, free);
        if allFree {
          Granted(grants, allocd, id, Block(base, count));
          var i := 0;
          while i < count
            invariant 0 <= i <= count && grants == old(grants)
            invariant allocd == old(allocd) + Block(base, i)
          {
            allocd := allocd + {base + i};
            i := i + 1;
          }
          grants := grants[id := Block(base, count)];
          return Ok(base);
        }
        base := base + 1;
      }
      r := Err(NoPort);
    }

    /** The inner loop of AllocateN, which stops at the first port that is held or cannot be bound. */
    method AllFree(base: int, count: nat, free: int -> bool) returns (ok: bool)
      ensures ok <==> Grantable(allocd, free, base, count)
    {
      var i := 0;
      while i < count
        invariant 0 <= i <= count
        invariant Grantable(allocd, free, base, i)
      {
        if base + i in allocd || !free(base + i) {
          return false;
        }
        i := i + 1;
      }
      ok := true;
    }

    method Release(port: int)
      requires Valid()
      modifies this
      ensures Valid() && allocd == old(allocd) - {port} && grants == Without(old(grants), port)
    {
      Released(grants, allocd, port);
      allocd, grants := allocd - {port}, Without(grants, port);
    }

    method ReleaseAll()
      requires Valid()
      modifies this
      ensures Valid() && allocd == {} && forall g | g in grants :: grants[g] == {}
      ensures grants.Keys == old(grants).Keys
    {
      allocd, grants := {}, map g | g in grants :: {};
    }
  }
}
