/**
 The row key of a labelled metric, internal/metrics/registry.go: label pairs are folded into a
 map, and a map is printed as its sorted `name=value` entries joined by commas.
 */
module LabelKey {
  import opened Wrappers
  import opened Strings

  type Labels = map<string, string>

  // ----- labelMap -----------------------------------------------------------------------------

  /** The map after the first n pairs of the flat name, value, name, value, ... list. */
  ghost function AfterPairs(pairs: seq<string>, n: nat): Labels
    requires 2 * n <= |pairs|
  {
    if n == 0 then map[] else AfterPairs(pairs, n - 1)[pairs[2 * n - 2] := pairs[2 * n - 1]]
  }

  ghost function LabelsOf(pairs: seq<string>): Labels { AfterPairs(pairs, |pairs| / 2) }

  /** A trailing name without a value is ignored. */
  method LabelMap(pairs: seq<string>) returns (m: Labels)
    ensures m == LabelsOf(pairs)
  {
    m := map[];
    var i := 0;
    while i + 1 < |pairs|
      invariant i % 2 == 0 && i <= |pairs|
      invariant m == AfterPairs(pairs, i / 2)
    {
      m := m[pairs[i] := pairs[i + 1]];
      i := i + 2;
    }
  }

  /** Pair number j says name = value. */
  ghost predicate PairAt(pairs: seq<string>, j: int, name: string, value: string) {
    0 <= j < |pairs| / 2 && pairs[2 * j] == name && pairs[2 * j + 1] == value
  }

  /** A name has the value of the last pair that mentions it, and no other name is there. */
  lemma {:induction false} LastPairWins(pairs: seq<string>, n: nat, name: string, value: string)
    requires 2 * n <= |pairs|
    ensures name in AfterPairs(pairs, n) && AfterPairs(pairs, n)[name] == value <==>
      exists j | 0 <= j < n :: PairAt(pairs, j, name, value) && forall k | j < k < n :: pairs[2 * k] != name
  {
    if n > 0 {
      LastPairWins(pairs, n - 1, name, value);
      if pairs[2 * n - 2] == name {
        assert pairs[2 * (n - 1)] == name;
        assert pairs[2 * n - 1] == value <==> PairAt(pairs, n - 1, name, value);
      }
    }
  }

  ghost predicate DistinctNames(pairs: seq<string>) {
    forall j, k | 0 <= j < k < |pairs| / 2 :: pairs[2 * j] != pairs[2 * k]
  }

  ghost predicate HasPair(pairs: seq<string>, name: string, value: string) {
    exists j :: PairAt(pairs, j, name, value)
  }

  ghost predicate SamePairs(p: seq<string>, q: seq<string>) {
    forall name, value :: HasPair(p, name, value) <==> HasPair(q, name, value)
  }

  lemma DistinctLookup(pairs: seq<string>, name: string, value: string)
    requires DistinctNames(pairs)
    ensures name in LabelsOf(pairs) && LabelsOf(pairs)[name] == value <==> HasPair(pairs, name, value)
  {
    LastPairWins(pairs, |pairs| / 2, name, value);
  }

  /** The order of pairs with distinct names is irrelevant to the map and so to the key. */
  lemma OrderIrrelevant(p: seq<string>, q: seq<string>)
    requires DistinctNames(p) && DistinctNames(q) && SamePairs(p, q)
    ensures LabelsOf(p) == LabelsOf(q)
    ensures KeyOf(LabelsOf(p)) == KeyOf(LabelsOf(q))
  {
    var a, b := LabelsOf(p), LabelsOf(q);
    forall name ensures name in a <==> name in b {
      if name in a { DistinctLookup(p, name, a[name]); DistinctLookup(q, name, a[name]); }
      if name in b { DistinctLookup(p, name, b[name]); DistinctLookup(q, name, b[name]); }
    }
    forall name | name in a ensures a[name] == b[name] {
      DistinctLookup(p, name, a[name]);
      DistinctLookup(q, name, a[name]);
    }
    assert a.Keys == b.Keys;
  }

  // ----- labelKeyFromMap ------------------------------------------------------------------------

  function Entry(name: string, value: string): string { name + "=" + value }

  ghost function Entries(m: Labels, names: seq<string>): seq<string>
    requires forall n | n in names :: n in m
  {
    seq(|names|, i requires 0 <= i < |names| => Entry(names[i], m[names[i]]))
  }

  /** The names of a map in their one sorted order. */
  ghost predicate SortedNames(m: Labels, names: seq<string>) {
    Sorted(names) && multiset(names) == multiset(m.Keys)
  }

  /** The names in some order. */
  ghost function Listing(names: set<string>): (s: seq<string>)
    ensures multiset(s) == multiset(names)
    decreases |names|
  {
    if names == {} then []
    else
      var k :| k in names;
      assert multiset(names) == multiset(names - {k}) + multiset{k};
      Listing(names - {k}) + [k]
  }

  lemma NamesInMap(m: Labels, names: seq<string>)
    requires SortedNames(m, names)
    ensures forall n :: n in names <==> n in m
    ensures forall i, j | 0 <= i < j < |names| :: names[i] != names[j]
  {
    forall n ensures n in names <==> n in m {
      assert n in names <==> n in multiset(names);
    }
    forall i, j | 0 <= i < j < |names| ensures names[i] != names[j] {
      assert names == names[..j] + names[j..];
      assert names[i] in multiset(names[..j]) && names[j] in multiset(names[j..]);
      assert multiset(m.Keys)[names[j]] <= 1;
    }
  }

  ghost function NamesOf(m: Labels): (names: seq<string>)
    ensures SortedNames(m, names)
    ensures forall n :: n in names <==> n in m
    ensures forall i, j | 0 <= i < j < |names| :: names[i] != names[j]
  {
    assert SortedNames(m, Sort(Listing(m.Keys)));
    var names :| SortedNames(m, names);
    NamesInMap(m, names);
    names
  }

  ghost function KeyOf(m: Labels): string { Join(Entries(m, NamesOf(m))) }

  /** Ranging over a Go map visits the names in any order; sorting makes the order irrelevant. */
  method SortedKeys(m: Labels) returns (keys: seq<string>)
    ensures keys == NamesOf(m)
  {
    keys := [];
    var rest := m.Keys;
    while rest != {}
      invariant rest <= m.Keys
      invariant multiset(keys) + multiset(rest) == multiset(m.Keys)
    {
      var k :| k in rest;
      keys, rest := keys + [k], rest - {k};
    }
    keys := Sort(keys);
    SortedUnique(keys, NamesOf(m));
  }

  method LabelKeyFromMap(m: Labels) returns (key: string)
    ensures key == KeyOf(m)
  {
    var keys := SortedKeys(m);
    var parts := [];
    for i := 0 to |keys|
      invariant parts == Entries(m, keys[..i])
    {
      parts := parts + [Entry(keys[i], m[keys[i]])];
    }
    assert keys[..|keys|] == keys;
    key := Join(parts);
  }

  method KeyOfPairs(pairs: seq<string>) returns (key: string)
    ensures key == KeyOf(LabelsOf(pairs))
  {
    var m := LabelMap(pairs);
    key := LabelKeyFromMap(m);
  }

  // ----- Reading a key back ------------------------------------------------------------------------

  /** Cuts an entry at its first '='. */
  function Cut(entry: string): (r: Option<(string, string)>)
    ensures r.Some? ==> '=' !in r.value.0 && entry == Entry(r.value.0, r.value.1)
  {
    if entry == [] then None
    else if entry[0] == '=' then
      assert entry == Entry("", entry[1..]);
      Some(("", entry[1..]))
    else
      match Cut(entry[1..])
      case None => None
      case Some((n, v)) =>
        assert entry == [entry[0]] + entry[1..];
        Some(([entry[0]] + n, v))
  }

  function FromEntries(entries: seq<string>): Option<Labels> {
    if entries == [] then Some(map[])
    else
      match (Cut(entries[|entries| - 1]), FromEntries(entries[..|entries| - 1]))
      case (Some((n, v)), Some(m)) => Some(m[n := v])
      case _ => None
  }

  function ParseKey(key: string): Option<Labels> {
    if key == "" then Some(map[]) else FromEntries(Split(key, ','))
  }

  /** No name holds '=' or ',', no value holds ','. */
  ghost predicate Clean(m: Labels) {
    forall n | n in m :: '=' !in n && ',' !in n && ',' !in m[n]
  }

  lemma {:induction false} CutEntry(name: string, value: string)
    requires '=' !in name
    ensures Cut(Entry(name, value)) == Some((name, value))
  {
    var e := Entry(name, value);
    if name == [] {
      assert e[1..] == value;
    } else {
      assert name[0] in name && name == [name[0]] + name[1..];
      assert e[1..] == Entry(name[1..], value);
      CutEntry(name[1..], value);
    }
  }

  lemma {:induction false} FromEntriesOf(m: Labels, names: seq<string>)
    requires Clean(m) && forall n | n in names :: n in m
    ensures FromEntries(Entries(m, names)) == Some(map n | n in names :: m[n])
  {
    if names != [] {
      var front, last := names[..|names| - 1], names[|names| - 1];
      var es := Entries(m, names);
      assert es[..|es| - 1] == Entries(m, front) && es[|es| - 1] == Entry(last, m[last]);
      FromEntriesOf(m, front);
      CutEntry(last, m[last]);
      assert names == front + [last];
      assert (map n | n in names :: m[n]) == (map n | n in front :: m[n])[last := m[last]];
    }
  }

  /** Whatever parses is clean: commas and the first '=' of an entry never survive. */
  lemma {:induction false} ParsedIsClean(entries: seq<string>)
    requires forall e | e in entries :: ',' !in e
    ensures FromEntries(entries).Some? ==> Clean(FromEntries(entries).value)
  {
    if entries != [] && FromEntries(entries).Some? {
      var last := entries[|entries| - 1];
      ParsedIsClean(entries[..|entries| - 1]);
      var (n, v) := Cut(last).value;
      assert last == n + "=" + v && last in entries;
      assert forall i | 0 <= i < |n| :: n[i] == last[i];
      assert forall i | 0 <= i < |v| :: v[i] == last[|n| + 1 + i];
    }
  }

  lemma {:induction false} JoinNonEmpty(parts: seq<string>)
    requires parts != [] && forall p | p in parts :: p != ""
    ensures Join(parts) != ""
  {
    assert parts[0] in parts;
  }

  lemma CleanEntries(m: Labels)
    requires Clean(m)
    ensures forall e | e in Entries(m, NamesOf(m)) :: ',' !in e && e != ""
  {
    var names := NamesOf(m);
    var es := Entries(m, names);
    forall e | e in es ensures ',' !in e && e != "" {
      var i :| 0 <= i < |es| && es[i] == e;
      assert names[i] in m;
    }
  }

  lemma CleanParts(m: Labels)
    requires Clean(m) && NamesOf(m) != []
    ensures KeyOf(m) != "" && Split(KeyOf(m), ',') == Entries(m, NamesOf(m))
  {
    CleanEntries(m);
    JoinNonEmpty(Entries(m, NamesOf(m)));
    SplitJoin(Entries(m, NamesOf(m)));
  }

  lemma CleanReadsBack(m: Labels)
    requires Clean(m)
    ensures ParseKey(KeyOf(m)) == Some(m)
  {
    var names := NamesOf(m);
    if names == [] {
      assert m == map[];
    } else {
      CleanParts(m);
      FromEntriesOf(m, names);
      assert (map n | n in names :: m[n]) == m;
    }
  }

  /** Exactly the clean label maps can be read back from their key. */
  lemma KeyReadsBackExactly(m: Labels)
    ensures ParseKey(KeyOf(m)) == Some(m) <==> Clean(m)
  {
    if Clean(m) {
      CleanReadsBack(m);
    } else {
      ParsedIsClean(Split(KeyOf(m), ','));
    }
  }

  /** So different clean label maps have different keys. */
  lemma KeyInjective(a: Labels, b: Labels)
    requires Clean(a) && Clean(b) && KeyOf(a) == KeyOf(b)
    ensures a == b
  {
    KeyReadsBackExactly(a);
    KeyReadsBackExactly(b);
  }

  lemma KeyByNames(m: Labels, names: seq<string>)
    requires SortedNames(m, names)
    ensures (forall n | n in names :: n in m) && KeyOf(m) == Join(Entries(m, names))
  {
    SortedUnique(names, NamesOf(m));
  }

  lemma SingleKey(name: string, value: string)
    ensures KeyOf(map[name := value]) == Entry(name, value)
  {
    var a := map[name := value];
    assert a.Keys == {name} && multiset([name]) == multiset(a.Keys);
    KeyByNames(a, [name]);
    assert Entries(a, [name]) == [Entry(name, value)];
  }

  lemma JoinTwo(a: string, b: string)
    ensures Join([a, b]) == a + "," + b
  {
    assert [a, b][1..] == [b];
  }

  lemma FlatEntries(n: string, v: string, x: string, w: string)
    ensures Entry(n, v) + "," + Entry(x, w) == n + "=" + v + "," + x + "=" + w
  {
  }

  lemma PairNames(n: string, v: string, x: string, w: string)
    requires Le(n, x) && n != x
    ensures SortedNames(map[n := v, x := w], [n, x])
    ensures Entries(map[n := v, x := w], [n, x]) == [Entry(n, v), Entry(x, w)]
  {
    var m := map[n := v, x := w];
    assert m.Keys == {n, x} && multiset([n, x]) == multiset(m.Keys);
  }

  /** Two labels are printed in the order of their names. */
  lemma PairKey(n: string, v: string, x: string, w: string)
    requires Le(n, x) && n != x
    ensures KeyOf(map[n := v, x := w]) == n + "=" + v + "," + x + "=" + w
  {
    PairNames(n, v, x, w);
    KeyByNames(map[n := v, x := w], [n, x]);
    JoinTwo(Entry(n, v), Entry(x, w));
    FlatEntries(n, v, x, w);
  }

  // ----- Which label maps share their key ------------------------------------------------------------

  /** No labels, or a single one without an '='. */
  ghost predicate Alone(m: Labels) {
    m == map[] || exists n, v :: m == map[n := v] && '=' !in n && '=' !in v
  }

  /** An '=' inside a name or a value: the key does not say which '=' ends the name. */
  lemma NameCollision(x: string, y: string, value: string)
    ensures var a, b := map[x + "=" + y := value], map[x := y + "=" + value];
      a != b && KeyOf(a) == KeyOf(b)
  {
    var a, b := map[x + "=" + y := value], map[x := y + "=" + value];
    SingleKey(x + "=" + y, value);
    SingleKey(x, y + "=" + value);
    assert Entry(x + "=" + y, value) == Entry(x, y + "=" + value);
    assert x + "=" + y in a && |x + "=" + y| > |x|;
  }

  /** Several labels: the first can swallow the others, commas and all. */
  lemma SwallowRest(m: Labels) returns (name: string, value: string)
    requires |NamesOf(m)| >= 2
    ensures map[name := value] != m && KeyOf(map[name := value]) == KeyOf(m)
  {
    var names := NamesOf(m);
    var es := Entries(m, names);
    name, value := names[0], m[names[0]] + "," + Join(es[1..]);
    SingleKey(name, value);
    assert Join(es) == es[0] + "," + Join(es[1..]) == Entry(name, value);
    assert names[1] in m && names[1] !in map[name := value];
  }

  lemma SplitAt(s: string, c: char) returns (x: string, y: string)
    requires c in s
    ensures s == x + [c] + y
  {
    var i :| 0 <= i < |s| && s[i] == c;
    x, y := s[..i], s[i + 1..];
  }

  /** A map with at most one name, spelt out. */
  lemma FewNames(m: Labels)
    ensures NamesOf(m) == [] <==> m == map[]
    ensures |NamesOf(m)| == 1 ==> m == map[NamesOf(m)[0] := m[NamesOf(m)[0]]]
  {
    var names := NamesOf(m);
    if names != [] {
      assert names[0] in m;
    }
  }

  /** Every other label map shares its key with a different one, which even has a single label. */
  lemma KeyCollision(m: Labels) returns (name: string, value: string)
    requires !Alone(m)
    ensures map[name := value] != m && KeyOf(map[name := value]) == KeyOf(m)
  {
    var names := NamesOf(m);
    if |names| >= 2 {
      name, value := SwallowRest(m);
    } else {
      FewNames(m);
      var n, v := names[0], m[names[0]];
      if '=' in n {
        var x, y := SplitAt(n, '=');
        NameCollision(x, y, v);
        name, value := x, y + "=" + v;
      } else {
        var y, w := SplitAt(v, '=');
        NameCollision(n, y, w);
        name, value := n + "=" + y, w;
      }
    }
  }

  /** Every entry brings an '=' of its own. */
  lemma {:induction false} EqualsPerEntry(m: Labels, names: seq<string>)
    requires forall n | n in names :: n in m
    ensures multiset(Join(Entries(m, names)))['='] >= |names|
  {
    if names != [] {
      var es, rest := Entries(m, names), Entries(m, names[1..]);
      assert es[1..] == rest;
      EqualsPerEntry(m, names[1..]);
      assert multiset(Entry(names[0], m[names[0]]))['='] >= 1;
      if |es| == 1 {
        assert Join(es) == es[0];
      } else {
        assert Join(es) == es[0] + "," + Join(rest);
      }
    }
  }

  /** A text with a single '=' can be cut there in one way only. */
  lemma OneCut(n: string, v: string, x: string, y: string)
    requires Entry(n, v) == Entry(x, y) && '=' !in n && '=' !in v
    ensures n == x && v == y
  {
    var e := Entry(n, v);
    assert e[|n|] == '=' && e[|x|] == '=';
    assert forall i | 0 <= i < |n| :: e[i] == n[i];
    assert forall i | |n| < i < |e| :: e[i] == v[i - |n| - 1];
    assert |n| == |x|;
    assert n == e[..|n|] == x && v == e[|n| + 1..] == y;
  }

  lemma EqualsInKey(a: Labels)
    ensures multiset(KeyOf(a))['='] >= |NamesOf(a)|
  {
    EqualsPerEntry(a, NamesOf(a));
  }

  lemma SingleIsAlone(n: string, v: string, a: Labels)
    requires '=' !in n && '=' !in v && KeyOf(a) == Entry(n, v)
    ensures a == map[n := v]
  {
    var names := NamesOf(a);
    EqualsInKey(a);
    FewNames(a);
    assert multiset(Entry(n, v))['='] == 1;
    assert names != [];
    SingleKey(names[0], a[names[0]]);
    OneCut(n, v, names[0], a[names[0]]);
  }

  lemma AloneIsAlone(m: Labels, a: Labels)
    requires Alone(m) && KeyOf(a) == KeyOf(m)
    ensures a == m
  {
    if m == map[] {
      FewNames(m);
      FewNames(a);
      EqualsInKey(a);
      assert KeyOf(m) == "";
    } else {
      var n, v :| m == map[n := v] && '=' !in n && '=' !in v;
      SingleKey(n, v);
      SingleIsAlone(n, v, a);
    }
  }

  /** Exactly which label maps have a key of their own, among all label maps. */
  lemma AloneExactly(m: Labels)
    ensures (forall a: Labels | KeyOf(a) == KeyOf(m) :: a == m) <==> Alone(m)
  {
    if Alone(m) {
      forall a: Labels | KeyOf(a) == KeyOf(m) ensures a == m {
        AloneIsAlone(m, a);
      }
    } else {
      var name, value := KeyCollision(m);
    }
  }
}
