/**
 The two file caches with stale fallback: the country list of internal/country/metrics.go and the
 per-country exit reputations of internal/health/reputation.go.  Clock readings, fetch results,
 and whether the file can be read or written are inputs; times are seconds.
 */
module Caches {
  import opened Wrappers

  /** A fetch from the API: a list, possibly empty, or an error. */
  type Fetch<T> = Option<seq<T>>

  datatype Error = FetchFailed | EmptyAnswer

  const CACHE_TTL := 12 * 3600

  /** One file for all keys, with a single stamp. */
  datatype File<T> = File(fetchedAt: int, entries: map<string, seq<T>>)

  /** One call: its key, its clock reading, what the API would answer and whether the file works. */
  datatype Call<T> = Call(key: string, now: int, fetch: Fetch<T>, readable: bool, writable: bool)

  // ----- What a run of calls means ---------------------------------------------------------------

  /** What a call finds for its key. */
  ghost function Found<T>(file: Option<File<T>>, c: Call<T>): Fetch<T> {
    if c.readable && file.Some? && c.key in file.value.entries then Some(file.value.entries[c.key]) else None
  }

  /** The call asks the API. */
  ghost predicate Asks<T>(ttl: int, file: Option<File<T>>, c: Call<T>) {
    Found(file, c).None? || c.now - file.value.fetchedAt >= ttl
  }

  /** The call asks the API and gets a list that is not empty. */
  ghost predicate Refreshes<T>(ttl: int, file: Option<File<T>>, c: Call<T>) {
    Asks(ttl, file, c) && c.fetch.Some? && c.fetch.value != []
  }

  ghost function Next<T>(ttl: int, file: Option<File<T>>, c: Call<T>): Option<File<T>> {
    if Refreshes(ttl, file, c) && c.writable then
      var kept := if c.readable && file.Some? then file.value.entries else map[];
      Some(File(c.now, kept[c.key := c.fetch.value]))
    else file
  }

  /** The file after a run of calls. */
  ghost function FileAfter<T>(ttl: int, calls: seq<Call<T>>): Option<File<T>> {
    if calls == [] then None
    else Next(ttl, FileAfter(ttl, calls[..|calls| - 1]), calls[|calls| - 1])
  }

  ghost function Answer<T>(ttl: int, file: Option<File<T>>, c: Call<T>): Result<seq<T>, Error> {
    if Refreshes(ttl, file, c) then Ok(c.fetch.value)
    else match Found(file, c)
      case Some(list) => Ok(list)
      case None => Err(if c.fetch.None? then FetchFailed else EmptyAnswer)
  }

  /** What call k of a run returns. */
  ghost function AnswerAt<T>(ttl: int, calls: seq<Call<T>>, k: nat): Result<seq<T>, Error>
    requires k < |calls|
  {
    Answer(ttl, FileAfter(ttl, calls[..k]), calls[k])
  }

  ghost predicate AnswersOf<T>(ttl: int, calls: seq<Call<T>>, results: seq<Result<seq<T>, Error>>) {
    |results| <= |calls| && forall k | 0 <= k < |results| :: results[k] == AnswerAt(ttl, calls, k)
  }

  ghost predicate RefreshedAt<T>(ttl: int, calls: seq<Call<T>>, k: int) {
    0 <= k < |calls| && Refreshes(ttl, FileAfter(ttl, calls[..k]), calls[k])
  }

  /** Call k wrote the file. */
  ghost predicate WroteAt<T>(ttl: int, calls: seq<Call<T>>, k: int) {
    RefreshedAt(ttl, calls, k) && calls[k].writable
  }

  /**
   Call k decided the entry of a key: it wrote the file, for that key, or without having been able
   to read what the file held for the other keys.
   */
  ghost predicate Touches<T>(ttl: int, calls: seq<Call<T>>, k: int, key: string) {
    WroteAt(ttl, calls, k) && (calls[k].key == key || !calls[k].readable)
  }

  ghost function Entry<T>(file: Option<File<T>>, key: string): Fetch<T> {
    if file.Some? && key in file.value.entries then Some(file.value.entries[key]) else None
  }

  lemma TouchesInPrefix<T>(ttl: int, calls: seq<Call<T>>, n: nat, k: int, key: string)
    requires k < n <= |calls|
    ensures Touches(ttl, calls[..n], k, key) <==> Touches(ttl, calls, k, key)
    ensures WroteAt(ttl, calls[..n], k) <==> WroteAt(ttl, calls, k)
  {
    if 0 <= k {
      assert calls[..n][..k] == calls[..k];
    }
  }

  /** The entry of a key is what the last call that decided it fetched, if that call was for the key. */
  lemma {:induction false} EntryIsLastRefresh<T>(ttl: int, calls: seq<Call<T>>, key: string) returns (k: int)
    ensures -1 <= k < |calls| && (k >= 0 ==> Touches(ttl, calls, k, key))
    ensures forall j | k < j < |calls| :: !Touches(ttl, calls, j, key)
    ensures Entry(FileAfter(ttl, calls), key) ==
      if k >= 0 && calls[k].key == key then Some(calls[k].fetch.value) else None
  {
    var n := |calls| - 1;
    if calls == [] || Touches(ttl, calls, n, key) {
      k := n;
    } else {
      k := EntryIsLastRefresh(ttl, calls[..n], key);
      forall j | k <= j < n ensures Touches(ttl, calls[..n], j, key) <==> Touches(ttl, calls, j, key) {
        TouchesInPrefix(ttl, calls, n, j, key);
      }
    }
  }

  /** The stamp is the clock reading of the last call that wrote anything. */
  lemma {:induction false} StampIsLastWrite<T>(ttl: int, calls: seq<Call<T>>) returns (k: int)
    ensures -1 <= k < |calls| && (k >= 0 ==> WroteAt(ttl, calls, k))
    ensures forall j | k < j < |calls| :: !WroteAt(ttl, calls, j)
    ensures FileAfter(ttl, calls).None? <==> k < 0
    ensures k >= 0 ==> FileAfter(ttl, calls).value.fetchedAt == calls[k].now
  {
    var n := |calls| - 1;
    if calls == [] || WroteAt(ttl, calls, n) {
      k := n;
    } else {
      k := StampIsLastWrite(ttl, calls[..n]);
      forall j | k <= j < n ensures WroteAt(ttl, calls[..n], j) <==> WroteAt(ttl, calls, j) {
        TouchesInPrefix(ttl, calls, n, j, "");
      }
      assert FileAfter(ttl, calls) == FileAfter(ttl, calls[..n]);
    }
  }

  lemma AppendCall<T>(ttl: int, calls: seq<Call<T>>, c: Call<T>)
    ensures FileAfter(ttl, calls + [c]) == Next(ttl, FileAfter(ttl, calls), c)
  {
    assert (calls + [c])[..|calls|] == calls;
  }

  /** A write for another key leaves an entry as it was exactly when it could read the file or there was none. */
  lemma KeptExactly<T>(ttl: int, file: Option<File<T>>, c: Call<T>, key: string)
    requires Refreshes(ttl, file, c) && c.writable && key != c.key
    ensures Entry(Next(ttl, file, c), key) == Entry(file, key) <==> c.readable || Entry(file, key).None?
  {
  }

  /** So a refresh for one country after a failed read loses every other country's list. */
  lemma UnreadableDropsOthers<T>(ttl: int, key: string, other: string, list: seq<T>, otherList: seq<T>, now: int)
    returns (calls: seq<Call<T>>)
    requires key != other && list != [] && otherList != []
    ensures |calls| == 2 && calls[0] == Call(key, now, Some(list), true, true)
    ensures Entry(FileAfter(ttl, calls[..1]), key) == Some(list)
    ensures calls[1] == Call(other, now, Some(otherList), false, true) && RefreshedAt(ttl, calls, 1)
    ensures Entry(FileAfter(ttl, calls), key) == None && Entry(FileAfter(ttl, calls), other) == Some(otherList)
  {
    var first, second := Call(key, now, Some(list), true, true), Call(other, now, Some(otherList), false, true);
    calls := [first, second];
    AppendCall(ttl, [], first);
    AppendCall(ttl, [first], second);
    assert calls[..1] == [] + [first] && calls == [first] + [second];
  }

  ghost predicate WorkingFile<T>(calls: seq<Call<T>>) {
    forall i | 0 <= i < |calls| :: calls[i].readable && calls[i].writable
  }

  /**
   With a file that can be read and written, a call answers with the last list that was fetched
   for its key, its own included, and fails exactly when there never was one.
   */
  lemma ServesLastFetched<T>(ttl: int, calls: seq<Call<T>>, k: nat) returns (m: int)
    requires WorkingFile(calls) && k < |calls|
    ensures -1 <= m <= k && (m >= 0 ==> RefreshedAt(ttl, calls, m) && calls[m].key == calls[k].key)
    ensures forall j | m < j <= k && calls[j].key == calls[k].key :: !RefreshedAt(ttl, calls, j)
    ensures AnswerAt(ttl, calls, k) ==
      if m >= 0 then Ok(calls[m].fetch.value)
      else Err(if calls[k].fetch.None? then FetchFailed else EmptyAnswer)
  {
    if RefreshedAt(ttl, calls, k) {
      m := k;
    } else {
      m := EntryIsLastRefresh(ttl, calls[..k], calls[k].key);
      forall j | 0 <= j < k  // every write is for its own key alone
        ensures Touches(ttl, calls[..k], j, calls[k].key) <==>
                  RefreshedAt(ttl, calls, j) && calls[j].key == calls[k].key
      {
        TouchesInPrefix(ttl, calls, k, j, calls[k].key);
      }
    }
  }

  /** Nothing empty is ever kept. */
  lemma {:induction false} KeptListsNonEmpty<T>(ttl: int, calls: seq<Call<T>>, key: string)
    ensures Entry(FileAfter(ttl, calls), key) != Some([])
  {
    if calls != [] {
      KeptListsNonEmpty(ttl, calls[..|calls| - 1], key);
    }
  }

  // ----- Countries ---------------------------------------------------------------------------------

  datatype Stamped = Stamped(fetchedAt: int, list: seq<string>)

  /** The country list is the one entry of its file. */
  const ALL := "countries"

  ghost predicate CountryCalls(calls: seq<Call<string>>) { forall i | 0 <= i < |calls| :: calls[i].key == ALL }

  lemma {:induction false} OneEntry(calls: seq<Call<string>>)
    requires CountryCalls(calls)
    ensures var f := FileAfter(CACHE_TTL, calls); f.Some? ==> f.value.entries.Keys == {ALL}
  {
    if calls != [] {
      OneEntry(calls[..|calls| - 1]);
    }
  }

  ghost function AsStamped(file: Option<File<string>>): Option<Stamped> {
    match Entry(file, ALL)
    case None => None
    case Some(list) => Some(Stamped(file.value.fetchedAt, list))
  }

  ghost predicate IsFresh(file: Option<Stamped>, c: Call<string>) {
    c.readable && file.Some? && c.now - file.value.fetchedAt < CACHE_TTL
  }

  ghost predicate Got(c: Call<string>) { c.fetch.Some? && c.fetch.value != [] }

  /** One more call, in terms of the country file. */
  lemma CountryCall(calls: seq<Call<string>>, c: Call<string>)
    requires CountryCalls(calls) && c.key == ALL
    ensures var file := AsStamped(FileAfter(CACHE_TTL, calls));
      && (file.Some? ==> file.value.list != [])
      && AsStamped(FileAfter(CACHE_TTL, calls + [c])) ==
           (if !IsFresh(file, c) && Got(c) && c.writable then Some(Stamped(c.now, c.fetch.value)) else file)
      && Answer(CACHE_TTL, FileAfter(CACHE_TTL, calls), c) ==
           if !IsFresh(file, c) && Got(c) then Ok(c.fetch.value)
           else if c.readable && file.Some? then Ok(file.value.list)
           else Err(if c.fetch.None? then FetchFailed else EmptyAnswer)
  {
    KeptListsNonEmpty(CACHE_TTL, calls, ALL);
    OneEntry(calls);
    AppendCall(CACHE_TTL, calls, c);
  }

  /** The country cache holds the list and the stamp of the last call that refreshed it, or nothing before one. */
  lemma CacheIsLastRefresh(calls: seq<Call<string>>) returns (k: int)
    requires CountryCalls(calls)
    ensures -1 <= k < |calls| && (k >= 0 ==> WroteAt(CACHE_TTL, calls, k))
    ensures forall j | k < j < |calls| :: !WroteAt(CACHE_TTL, calls, j)
    ensures AsStamped(FileAfter(CACHE_TTL, calls)) ==
      if k >= 0 then Some(Stamped(calls[k].now, calls[k].fetch.value)) else None
  {
    k := StampIsLastWrite(CACHE_TTL, calls);
    var m := EntryIsLastRefresh(CACHE_TTL, calls, ALL);
    assert k >= 0 ==> Touches(CACHE_TTL, calls, k, ALL);
  }

  class MetricsFetcher {
    /** The cache file. */
    var file: Option<Stamped>
    /** Every call there has been. */
    ghost var history: seq<Call<string>>

    ghost predicate Valid()
      reads this
    {
      CountryCalls(history) && file == AsStamped(FileAfter(CACHE_TTL, history))
    }

    constructor ()
      ensures Valid() && history == []
    {
      file, history := None, [];
    }

    /**
     `fetch` is what the API would answer and `fetched` says whether it was asked.  A list comes
     from the API or from the file; the API is skipped exactly for a fresh stamp.
     */
    method FetchCountries(now: int, fetch: Fetch<string>, readable: bool, writable: bool)
      returns (r: Result<seq<string>, Error>, fetched: bool)
      requires Valid()
      modifies this
      ensures Valid() && history == old(history) + [Call(ALL, now, fetch, readable, writable)]
      ensures r == Answer(CACHE_TTL, FileAfter(CACHE_TTL, old(history)), Call(ALL, now, fetch, readable, writable))
      ensures r ==
        if fetched && fetch.Some? && fetch.value != [] then Ok(fetch.value)
        else if readable && old(file).Some? then Ok(old(file).value.list)
        else Err(if fetch.None? then FetchFailed else EmptyAnswer)
      ensures !fetched <==> readable && old(file).Some? && now - old(file).value.fetchedAt < 43200
      ensures file ==
        if fetched && fetch.Some? && fetch.value != [] && writable then Some(Stamped(now, fetch.value))
        else old(file)
      ensures r.Ok? ==> r.value != []
    {
      ghost var call := Call(ALL, now, fetch, readable, writable);
      CountryCall(history, call);
      history := history + [call];
      var cached := if readable then file else None;
      if cached.Some? && now - cached.value.fetchedAt < CACHE_TTL {
        return Ok(cached.value.list), false;
      }
      fetched := true;
      if fetch.None? {
        r := if cached.Some? then Ok(cached.value.list) else Err(FetchFailed);
        return;
      }
      var countries := fetch.value;
      if |countries| == 0 {
        r := if cached.Some? then Ok(cached.value.list) else Err(EmptyAnswer);
        return;
      }
      if writable {
        file := Some(Stamped(now, countries));
      }
      r := Ok(countries);
    }
  }

  /** Any run of calls, all with the one key: each answers from what the calls before it left in the file. */
  method RunFetches(calls: seq<Call<string>>) returns (m: MetricsFetcher, results: seq<Result<seq<string>, Error>>)
    requires CountryCalls(calls)
    ensures fresh(m) && m.Valid() && m.history == calls && |results| == |calls|
    ensures AnswersOf(CACHE_TTL, calls, results)
  {
    m := new MetricsFetcher();
    results := [];
    for i := 0 to |calls|
      invariant fresh(m) && m.Valid() && m.history == calls[..i] && |results| == i
      invariant AnswersOf(CACHE_TTL, calls, results)
    {
      var r, _ := m.FetchCountries(calls[i].now, calls[i].fetch, calls[i].readable, calls[i].writable);
      assert calls[..i] + [calls[i]] == calls[..i + 1];
      assert r == AnswerAt(CACHE_TTL, calls, i);
      results := results + [r];
    }
    assert calls[..|calls|] == calls;
  }

  // ----- Reputations ---------------------------------------------------------------------------------

  class ReputationChecker<T> {
    const cacheTTL: int
    /** Keys are upper-case country codes. */
    var file: Option<File<T>>
    /** Every call there has been. */
    ghost var history: seq<Call<T>>

    ghost predicate Valid()
      reads this
    {
      file == FileAfter(cacheTTL, history)
    }

    constructor (cacheTTL: int)
      ensures Valid() && history == [] && file == None && this.cacheTTL == cacheTTL
    {
      this.cacheTTL := cacheTTL;
      file, history := None, [];
    }

    method Check(country: string, now: int, fetch: Fetch<T>, readable: bool, writable: bool)
      returns (r: Result<seq<T>, Error>, fetched: bool)
      requires Valid()
      modifies this
      ensures Valid() && history == old(history) + [Call(country, now, fetch, readable, writable)]
      ensures r == Answer(cacheTTL, old(file), Call(country, now, fetch, readable, writable))
      ensures r ==
        if fetched && fetch.Some? && fetch.value != [] then Ok(fetch.value)
        else if readable && Entry(old(file), country).Some? then Ok(Entry(old(file), country).value)
        else Err(if fetch.None? then FetchFailed else EmptyAnswer)
      ensures !fetched <==>
        readable && Entry(old(file), country).Some? && now - old(file).value.fetchedAt < cacheTTL
      ensures !(fetched && fetch.Some? && fetch.value != [] && writable) ==> file == old(file)
      ensures fetched && fetch.Some? && fetch.value != [] && writable ==>
        Entry(file, country) == fetch && file.Some? && file.value.fetchedAt == now
      ensures fetched && fetch.Some? && fetch.value != [] && writable ==>
        forall c | c != country :: Entry(file, c) == if readable then Entry(old(file), c) else None
      ensures r.Ok? ==> r.value != []
    {
      ghost var call := Call(country, now, fetch, readable, writable);
      KeptListsNonEmpty(cacheTTL, history, country);
      AppendCall(cacheTTL, history, call);
      history := history + [call];
      var cached := if readable then file else None;
      if cached.Some? {
        if country in cached.value.entries && now - cached.value.fetchedAt < cacheTTL {
          return Ok(cached.value.entries[country]), false;
        }
      }
      fetched := true;
      if fetch.None? {
        if cached.Some? && country in cached.value.entries {
          return Ok(cached.value.entries[country]), true;
        }
        return Err(FetchFailed), true;
      }
      var reputations := fetch.value;
      if |reputations| == 0 {
        if cached.Some? && country in cached.value.entries {
          return Ok(cached.value.entries[country]), true;
        }
        return Err(EmptyAnswer), true;
      }
      if writable {
        var entries := if cached.Some? then cached.value.entries else map[];
        file := Some(File(now, entries[country := reputations]));
      }
      r := Ok(reputations);
    }
  }

  /** The same for reputations, over any mix of countries. */
  method RunChecks<T>(ttl: int, calls: seq<Call<T>>)
    returns (rc: ReputationChecker<T>, results: seq<Result<seq<T>, Error>>)
    ensures fresh(rc) && rc.Valid() && rc.history == calls && rc.cacheTTL == ttl && |results| == |calls|
    ensures AnswersOf(ttl, calls, results)
  {
    rc := new ReputationChecker<T>(ttl);
    results := [];
    for i := 0 to |calls|
      invariant fresh(rc) && rc.Valid() && rc.history == calls[..i] && rc.cacheTTL == ttl && |results| == i
      invariant AnswersOf(ttl, calls, results)
    {
      var r, _ := rc.Check(calls[i].key, calls[i].now, calls[i].fetch, calls[i].readable, calls[i].writable);
      assert calls[..i] + [calls[i]] == calls[..i + 1];
      assert r == AnswerAt(ttl, calls, i);
      results := results + [r];
    }
    assert calls[..|calls|] == calls;
  }
}
