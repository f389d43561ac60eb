/** Choosing countries, internal/country/selector.go and the picking part of daemon.go. */
module Country {
  import opened Wrappers

  type Code = string

  datatype Error = NotEnough(requested: int, available: nat) | NoAlternative

  // ----- Shuffling -------------------------------------------------------------------------------

  /** rand.IntN(i + 1) for position i: `draws`, any numbers at all, decide. */
  function Draw(draws: seq<nat>, i: nat): (j: nat)
    ensures j <= i
  {
    if i < |draws| then draws[i] % (i + 1) else 0
  }

  function Swap<T>(s: seq<T>, i: nat, j: nat): (t: seq<T>)
    requires i < |s| && j < |s|
    ensures |t| == |s|
  {
    s[i := s[j]][j := s[i]]
  }

  /** The first i elements shuffled. */
  function Shuffled<T>(s: seq<T>, draws: seq<nat>, i: nat): (t: seq<T>)
    requires i <= |s|
    ensures |t| == |s|
    decreases i
  {
    if i <= 1 then s else Shuffled(Swap(s, i - 1, Draw(draws, i - 1)), draws, i - 1)
  }

  lemma {:induction false} ShuffledKeeps<T>(s: seq<T>, draws: seq<nat>, i: nat)
    requires i <= |s|
    ensures multiset(Shuffled(s, draws, i)) == multiset(s)
    decreases i
  {
    if i > 1 {
      SwapKeeps(s, i - 1, Draw(draws, i - 1));
      ShuffledKeeps(Swap(s, i - 1, Draw(draws, i - 1)), draws, i - 1);
    }
  }

  lemma SwapKeeps<T>(s: seq<T>, i: nat, j: nat)
    requires i < |s| && j < |s|
    ensures multiset(Swap(s, i, j)) == multiset(s)
  {
  }

  /** rand.Shuffle driving a swap callback. */
  method Shuffle<T>(s: seq<T>, draws: seq<nat>) returns (t: seq<T>)
    ensures t == Shuffled(s, draws, |s|)
    ensures multiset(t) == multiset(s) && |t| == |s|
  {
    ShuffledKeeps(s, draws, |s|);
    t := s;
    var i: nat := |t|;
    while i > 1
      invariant i <= |t| == |s|
      invariant Shuffled(t, draws, i) == Shuffled(s, draws, |s|)
    {
      i := i - 1;
      var j := Draw(draws, i);
      t := t[i := t[j]][j := t[i]];
    }
  }

  lemma {:induction false} DrawsBelow<T>(s: seq<T>, draws: seq<nat>, more: seq<nat>, i: nat)
    requires i <= |s| && i <= |draws|
    ensures Shuffled(s, draws + more, i) == Shuffled(s, draws, i)
    decreases i
  {
    if i > 1 {
      assert (draws + more)[i - 1] == draws[i - 1];
      DrawsBelow(Swap(s, i - 1, Draw(draws, i - 1)), draws, more, i - 1);
    }
  }

  lemma LastOf<T>(s: seq<T>, i: nat, x: T)
    requires 0 < i <= |s| && s[i - 1] == x
    ensures s[i - 1..] == [x] + s[i..]
    ensures multiset(s[..i - 1]) == multiset(s[..i]) - multiset{x}
  {
    assert s[..i] == s[..i - 1] + [x];
  }

  lemma SwapFront<T>(s: seq<T>, i: nat, j: nat)
    requires j < i <= |s|
    ensures Swap(s, i - 1, j)[i..] == s[i..]
    ensures multiset(Swap(s, i - 1, j)[..i]) == multiset(s[..i])
  {
    SwapKeeps(s[..i], i - 1, j);
    assert Swap(s, i - 1, j)[..i] == Swap(s[..i], i - 1, j);
  }

  lemma FindSame<T>(t: seq<T>, s: seq<T>, i: nat) returns (j: nat)
    requires i < |t| && multiset(s) == multiset(t)
    ensures j < |s| && s[j] == t[i]
  {
    assert t[i] in multiset(t);
    j :| 0 <= j < |s| && s[j] == t[i];
  }

  lemma SwapIntoPlace<T>(s: seq<T>, t: seq<T>, i: nat) returns (j: nat)
    requires 0 < i <= |s| == |t| && s[i..] == t[i..] && multiset(s[..i]) == multiset(t[..i])
    ensures j < i
    ensures Swap(s, i - 1, j)[i - 1..] == t[i - 1..]
    ensures multiset(Swap(s, i - 1, j)[..i - 1]) == multiset(t[..i - 1])
  {
    var x := t[i - 1];
    assert t[..i][i - 1] == x;
    j := FindSame(t[..i], s[..i], i - 1);
    SwapFront(s, i, j);
    LastOf(t, i, x);
    LastOf(Swap(s, i - 1, j), i, x);
  }

  lemma OneDraw<T>(s: seq<T>, draws: seq<nat>, i: nat, j: nat)
    requires 0 < i <= |s| && i <= |draws| && j < i && draws[i - 1] == j
    ensures Shuffled(s, draws, i) == Shuffled(Swap(s, i - 1, j), draws, i - 1)
  {
    assert Draw(draws, i - 1) == j;
    assert i == 1 ==> Swap(s, 0, 0) == s;
  }

  lemma {:induction false} ReachOrder<T>(s: seq<T>, t: seq<T>, i: nat) returns (draws: seq<nat>)
    requires i <= |s| == |t| && s[i..] == t[i..] && multiset(s[..i]) == multiset(t[..i])
    ensures |draws| == i && Shuffled(s, draws, i) == t
    decreases i
  {
    if i == 0 {
      draws := [];
      assert s[0..] == s && t[0..] == t;
    } else {
      var j := SwapIntoPlace(s, t, i);
      var u := Swap(s, i - 1, j);
      var front := ReachOrder(u, t, i - 1);
      draws := front + [j];
      DrawsBelow(u, front, [j], i - 1);
      OneDraw(s, draws, i, j);
    }
  }

  /** Every permutation can come out of a shuffle. */
  lemma EveryOrder<T>(s: seq<T>, t: seq<T>) returns (draws: seq<nat>)
    requires multiset(s) == multiset(t)
    ensures Shuffled(s, draws, |s|) == t
  {
    assert |s| == |multiset(s)| == |multiset(t)| == |t|;
    assert s[..|s|] == s && t[..|s|] == t;
    draws := ReachOrder(s, t, |s|);
  }

  // ----- Selecting ---------------------------------------------------------------------------------

  /** The accepted countries that are not blacklisted, in their order and with their repetitions. */
  ghost function Filtered(accepted: seq<Code>, blacklisted: seq<Code>): seq<Code> {
    if accepted == [] then []
    else
      var n := |accepted| - 1;
      Filtered(accepted[..n], blacklisted) + if accepted[n] in blacklisted then [] else [accepted[n]]
  }

  ghost predicate Allowed(c: Code, accepted: seq<Code>, blacklisted: seq<Code>) {
    c in accepted && c !in blacklisted
  }

  lemma {:induction false} FilteredAllowed(accepted: seq<Code>, blacklisted: seq<Code>, c: Code)
    ensures c in Filtered(accepted, blacklisted) <==> Allowed(c, accepted, blacklisted)
  {
    if accepted != [] {
      var n := |accepted| - 1;
      FilteredAllowed(accepted[..n], blacklisted, c);
      assert accepted == accepted[..n] + [accepted[n]];
    }
  }

  /** Every accepted country is kept as often as it is listed, or dropped altogether. */
  lemma {:induction false} FilteredCounts(accepted: seq<Code>, blacklisted: seq<Code>, c: Code)
    ensures multiset(Filtered(accepted, blacklisted))[c] == if c in blacklisted then 0 else multiset(accepted)[c]
  {
    if accepted != [] {
      var front, last := accepted[..|accepted| - 1], accepted[|accepted| - 1];
      FilteredCounts(front, blacklisted, c);
      CountSnoc(front, last, c);
      CountSnoc(Filtered(front, blacklisted), last, c);
      assert accepted == front + [last];
      assert last in blacklisted ==> Filtered(accepted, blacklisted) == Filtered(front, blacklisted);
    }
  }

  lemma CountSnoc(s: seq<Code>, last: Code, c: Code)
    ensures multiset(s + [last])[c] == multiset(s)[c] + if last == c then 1 else 0
  {
  }

  lemma FilteredBelow(accepted: seq<Code>, blacklisted: seq<Code>)
    ensures multiset(Filtered(accepted, blacklisted)) <= multiset(accepted)
  {
    forall c ensures multiset(Filtered(accepted, blacklisted))[c] <= multiset(accepted)[c] {
      FilteredCounts(accepted, blacklisted, c);
    }
  }

  /** And in the order of the list: `at` says where each kept country stood. */
  lemma {:induction false} FilteredOrder(accepted: seq<Code>, blacklisted: seq<Code>) returns (at: seq<nat>)
    ensures |at| == |Filtered(accepted, blacklisted)|
    ensures forall i | 0 <= i < |at| :: at[i] < |accepted| && accepted[at[i]] == Filtered(accepted, blacklisted)[i]
    ensures forall i, j | 0 <= i < j < |at| :: at[i] < at[j]
  {
    if accepted == [] {
      at := [];
    } else {
      var n := |accepted| - 1;
      at := FilteredOrder(accepted[..n], blacklisted);
      if accepted[n] !in blacklisted {
        at := at + [n];
      }
    }
  }

  lemma {:induction false} NothingBlacklisted(accepted: seq<Code>)
    ensures Filtered(accepted, []) == accepted
  {
    if accepted != [] {
      NothingBlacklisted(accepted[..|accepted| - 1]);
    }
  }

  method FilterBlacklisted(accepted: seq<Code>, blacklisted: seq<Code>) returns (filtered: seq<Code>)
    ensures filtered == Filtered(accepted, blacklisted)
  {
    if |blacklisted| == 0 {
      NothingBlacklisted(accepted);
      return accepted;
    }
    var blacklist: set<Code> := {};
    for i := 0 to |blacklisted|
      invariant forall c :: c in blacklist <==> c in blacklisted[..i]
    {
      blacklist := blacklist + {blacklisted[i]};
    }
    assert blacklisted[..|blacklisted|] == blacklisted;
    filtered := [];
    for i := 0 to |accepted|
      invariant filtered == Filtered(accepted[..i], blacklisted)
    {
      assert accepted[..i + 1][..i] == accepted[..i];
      if accepted[i] !in blacklist {
        filtered := filtered + [accepted[i]];
      }
    }
    assert accepted[..|accepted|] == accepted;
  }

  lemma InMultiset(s: seq<Code>, t: seq<Code>, c: Code)
    requires multiset(s) <= multiset(t) && c in s
    ensures c in t
  {
    assert c in multiset(s);
  }

  lemma SampleOk(accepted: seq<Code>, blacklisted: seq<Code>, result: seq<Code>, count: nat)
    requires multiset(result) == multiset(Filtered(accepted, blacklisted)) && count <= |result|
    ensures multiset(result[..count]) <= multiset(Filtered(accepted, blacklisted)) <= multiset(accepted)
    ensures forall c | c in result[..count] :: Allowed(c, accepted, blacklisted)
  {
    var filtered := Filtered(accepted, blacklisted);
    FilteredBelow(accepted, blacklisted);
    assert result == result[..count] + result[count..];
    forall c | c in result[..count] ensures Allowed(c, accepted, blacklisted) {
      InMultiset(result[..count], filtered, c);
      FilteredAllowed(accepted, blacklisted, c);
    }
  }

  /** Fails exactly when too few countries are left; otherwise a sample without replacement. */
  method SelectRandom(accepted: seq<Code>, blacklisted: seq<Code>, count: int, draws: seq<nat>)
    returns (r: Result<seq<Code>, Error>)
    ensures r.Err? <==> count > |Filtered(accepted, blacklisted)|
    ensures r.Err? ==> r.error == NotEnough(count, |Filtered(accepted, blacklisted)|)
    ensures r.Ok? ==> |r.value| == (if count <= 0 then 0 else count)
    ensures r.Ok? ==> var f := Filtered(accepted, blacklisted); r.value == Shuffled(f, draws, |f|)[..|r.value|]
    ensures r.Ok? ==> multiset(r.value) <= multiset(Filtered(accepted, blacklisted)) <= multiset(accepted)
    ensures r.Ok? ==> forall c | c in r.value :: Allowed(c, accepted, blacklisted)
  {
    var filtered := FilterBlacklisted(accepted, blacklisted);
    FilteredBelow(accepted, blacklisted);
    if count > |filtered| {
      return Err(NotEnough(count, |filtered|));
    }
    if count <= 0 {
      return Ok([]);
    }
    var result := Shuffle(filtered, draws);
    SampleOk(accepted, blacklisted, result, count);
    r := Ok(result[..count]);
  }

  ghost predicate HasAlternative(current: Code, accepted: seq<Code>, blacklisted: seq<Code>) {
    exists c :: Allowed(c, accepted, blacklisted) && c != current
  }

  /** The countries to choose from. */
  ghost function Alternatives(current: Code, accepted: seq<Code>, blacklisted: seq<Code>): seq<Code> {
    Filtered(Filtered(accepted, blacklisted), [current])
  }

  lemma IndexOf(s: seq<Code>, c: Code) returns (i: nat)
    requires c in s
    ensures i < |s| && i % |s| == i && s[i] == c
  {
    i :| 0 <= i < |s| && s[i] == c;
  }

  /** Any allowed country other than the current one can be picked. */
  lemma EveryAlternative(current: Code, accepted: seq<Code>, blacklisted: seq<Code>, c: Code) returns (draw: nat)
    requires Allowed(c, accepted, blacklisted) && c != current
    ensures var a := Alternatives(current, accepted, blacklisted); a != [] && a[draw % |a|] == c
  {
    FilteredAllowed(accepted, blacklisted, c);
    FilteredAllowed(Filtered(accepted, blacklisted), [current], c);
    draw := IndexOf(Alternatives(current, accepted, blacklisted), c);
  }

  /** An allowed country other than the current one; fails exactly when there is none. */
  method PickDifferentCountry(current: Code, accepted: seq<Code>, blacklisted: seq<Code>, draw: nat)
    returns (r: Result<Code, Error>)
    ensures r.Err? <==> !HasAlternative(current, accepted, blacklisted)
    ensures r.Err? ==> r.error == NoAlternative
    ensures r.Ok? ==> Allowed(r.value, accepted, blacklisted) && r.value != current
    ensures r.Ok? ==>
      var a := Alternatives(current, accepted, blacklisted); a != [] && r.value == a[draw % |a|]
  {
    var filtered := FilterBlacklisted(accepted, blacklisted);
    var candidates: seq<Code> := [];
    for i := 0 to |filtered|
      invariant candidates == Filtered(filtered[..i], [current])
    {
      assert filtered[..i + 1][..i] == filtered[..i];
      if filtered[i] != current {
        candidates := candidates + [filtered[i]];
      }
    }
    assert filtered[..|filtered|] == filtered;
    forall c ensures c in candidates <==> Allowed(c, accepted, blacklisted) && c != current {
      FilteredAllowed(filtered, [current], c);
      FilteredAllowed(accepted, blacklisted, c);
    }
    if |candidates| == 0 {
      return Err(NoAlternative);
    }
    assert candidates[draw % |candidates|] in candidates;
    r := Ok(candidates[draw % |candidates|]);
  }
}
