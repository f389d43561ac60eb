/** Reading, printing and comparing Tor versions, internal/tor/version.go. */
module Version {
  import opened Wrappers
  import opened Strings

  datatype Version = Version(major: int, minor: int, patch: int, release: int)

  const MAX_INT := 0x7fff_ffff_ffff_ffff

  // ----- Decimal numbers -----------------------------------------------------------------------

  predicate IsDigit(c: char) { '0' <= c <= '9' }

  predicate AllDigits(s: string) { s != "" && forall i | 0 <= i < |s| :: IsDigit(s[i]) }

  function Decimal(n: nat): (s: string)
    ensures AllDigits(s)
  {
    (if n < 10 then "" else Decimal(n / 10)) + ['0' + (n % 10) as char]
  }

  /** %d of fmt. */
  function Show(n: int): string { if n < 0 then "-" + Decimal(-n) else Decimal(n) }

  function Value(s: string): nat
    requires forall i | 0 <= i < |s| :: IsDigit(s[i])
  {
    if s == "" then 0
    else
      assert IsDigit(s[|s| - 1]);
      10 * Value(s[..|s| - 1]) + (s[|s| - 1] as int - '0' as int)
  }

  /** strconv.Atoi on a run of digits. */
  function Atoi(s: string): (r: Option<nat>)
    requires AllDigits(s)
  {
    if Value(s) <= MAX_INT then Some(Value(s)) else None
  }

  lemma {:induction false} ValueOfDecimal(n: nat)
    ensures Value(Decimal(n)) == n
  {
    var s := Decimal(n);
    assert s[|s| - 1] == '0' + (n % 10) as char;
    if n >= 10 {
      assert s[..|s| - 1] == Decimal(n / 10);
      ValueOfDecimal(n / 10);
    } else {
      assert s[..|s| - 1] == "";
    }
  }

  // ----- The regular expression ---------------------------------------------------------------------

  const PREFIX := "Tor version "

  /** \\d+ : the longest run of digits at the front, and what follows it. */
  function TakeRun(s: string): (r: Option<(string, string)>)
    ensures r.Some? ==> AllDigits(r.value.0) && |r.value.1| < |s|
  {
    if s == "" || !IsDigit(s[0]) then None
    else
      match TakeRun(s[1..])
      case None => Some(([s[0]], s[1..]))
      case Some((run, rest)) => Some(([s[0]] + run, rest))
  }

  /** A run after a dot. */
  function TakeDotRun(s: string): (r: Option<(string, string)>)
    ensures r.Some? ==> AllDigits(r.value.0)
  {
    if s != "" && s[0] == '.' then TakeRun(s[1..]) else None
  }

  datatype Groups = Groups(major: string, minor: string, patch: string, release: Option<string>)

  ghost predicate GroupsOk(g: Groups) {
    AllDigits(g.major) && AllDigits(g.minor) && AllDigits(g.patch) && (g.release.Some? ==> AllDigits(g.release.value))
  }

  /**
   The expression matched at the front of s.  A run of digits ends before the dot that must
   follow it, so taking the longest run is the only way to match.
   */
  function MatchAt(s: string): (r: Option<Groups>)
    ensures r.Some? ==> GroupsOk(r.value)
  {
    if !(PREFIX <= s) then None
    else
      match TakeRun(s[|PREFIX|..])
      case None => None
      case Some((major, s1)) =>
        match TakeDotRun(s1)
        case None => None
        case Some((minor, s2)) =>
          match TakeDotRun(s2)
          case None => None
          case Some((patch, s3)) =>
            match TakeDotRun(s3)
            case None => Some(Groups(major, minor, patch, None))
            case Some((release, _)) => Some(Groups(major, minor, patch, Some(release)))
  }

  /** FindStringSubmatch: the leftmost match. */
  function Find(s: string): (r: Option<Groups>)
    ensures r.Some? ==> GroupsOk(r.value)
  {
    if MatchAt(s).Some? then MatchAt(s)
    else if s == "" then None
    else Find(s[1..])
  }

  // ----- parseVersionOutput --------------------------------------------------------------------------

  /** What one line contributes: nothing unless the first three numbers fit in an int. */
  function LineVersion(line: string): Option<Version> {
    match Find(line)
    case None => None
    case Some(g) =>
      match (Atoi(g.major), Atoi(g.minor), Atoi(g.patch))
      case (Some(major), Some(minor), Some(patch)) =>
        var release := if g.release.Some? && Atoi(g.release.value).Some? then Atoi(g.release.value).value else 0;
        Some(Version(major, minor, patch, release))
      case _ => None
  }

  /** The first line that contributes decides. */
  ghost predicate Decides(lines: seq<string>, r: Option<Version>) {
    match r
    case None => forall k | 0 <= k < |lines| :: LineVersion(lines[k]) == None
    case Some(v) => exists k :: 0 <= k < |lines| && LineVersion(lines[k]) == r
                                && forall j | 0 <= j < k :: LineVersion(lines[j]) == None
  }

  method ParseVersionOutput(output: string) returns (r: Option<Version>)
    ensures Decides(Split(output, '\n'), r)
  {
    var lines := Split(output, '\n');
    for n := 0 to |lines|
      invariant forall k | 0 <= k < n :: LineVersion(lines[k]) == None
    {
      var g := Find(lines[n]);
      if g.None? {
        continue;
      }
      var major := Atoi(g.value.major);
      if major.None? {
        continue;
      }
      var minor := Atoi(g.value.minor);
      if minor.None? {
        continue;
      }
      var patch := Atoi(g.value.patch);
      if patch.None? {
        continue;
      }
      var release := 0;
      if g.value.release.Some? {
        var parsed := Atoi(g.value.release.value);
        if parsed.Some? {
          release := parsed.value;
        }
      }
      return Some(Version(major.value, minor.value, patch.value, release));
    }
    r := None;
  }

  // ----- Round trip ------------------------------------------------------------------------------------

  function String(v: Version): string {
    Show(v.major) + "." + Show(v.minor) + "." + Show(v.patch) + "." + Show(v.release)
  }

  /** An everyday version. */
  lemma PrintedVersion()
    ensures String(Version(0, 4, 8, 17)) == "0.4.8.17"
  {
    assert Decimal(0) == "0" && Decimal(4) == "4" && Decimal(8) == "8";
    assert Decimal(1) == "1" && Decimal(17) == Decimal(1) + "7";
  }

  predicate StartsWithDigit(s: string) { s != "" && IsDigit(s[0]) }

  lemma {:induction false} RunEndsHere(run: string, rest: string)
    requires AllDigits(run) && !StartsWithDigit(rest)
    ensures TakeRun(run + rest) == Some((run, rest))
  {
    var s := run + rest;
    if |run| == 1 {
      assert s[1..] == rest && run == [s[0]];
    } else {
      assert s[1..] == run[1..] + rest && run == [s[0]] + run[1..];
      RunEndsHere(run[1..], rest);
    }
  }

  lemma DotRunEndsHere(run: string, rest: string)
    requires AllDigits(run) && !StartsWithDigit(rest)
    ensures TakeDotRun("." + run + rest) == Some((run, rest))
  {
    assert ("." + run + rest)[1..] == run + rest;
    RunEndsHere(run, rest);
  }

  lemma MatchesItself(a: string, b: string, c: string, d: string, rest: string)
    requires AllDigits(a) && AllDigits(b) && AllDigits(c) && AllDigits(d) && !StartsWithDigit(rest)
    ensures MatchAt(PREFIX + (a + "." + b + "." + c + "." + d) + rest) == Some(Groups(a, b, c, Some(d)))
  {
    var s3 := "." + d + rest;
    var s2 := "." + c + s3;
    var s1 := "." + b + s2;
    var s := PREFIX + (a + "." + b + "." + c + "." + d) + rest;
    assert s == PREFIX + (a + s1) && s[|PREFIX|..] == a + s1;
    RunEndsHere(a, s1);
    DotRunEndsHere(b, s2);
    DotRunEndsHere(c, s3);
    DotRunEndsHere(d, rest);
  }

  ghost predicate InRange(v: Version) {
    0 <= v.major <= MAX_INT && 0 <= v.minor <= MAX_INT && 0 <= v.patch <= MAX_INT && 0 <= v.release <= MAX_INT
  }

  lemma FrontMatch(line: string, g: Groups, v: Version)
    requires MatchAt(line) == Some(g) && g.release.Some? && InRange(v)
    requires Value(g.major) == v.major && Value(g.minor) == v.minor && Value(g.patch) == v.patch
    requires Value(g.release.value) == v.release
    ensures LineVersion(line) == Some(v)
  {
    assert Find(line) == Some(g);
  }

  /** The same for three numbers: the optional fourth is not there. */
  lemma MatchesThree(a: string, b: string, c: string, rest: string)
    requires AllDigits(a) && AllDigits(b) && AllDigits(c) && !StartsWithDigit(rest) && TakeDotRun(rest).None?
    ensures MatchAt(PREFIX + (a + "." + b + "." + c) + rest) == Some(Groups(a, b, c, None))
  {
    var s2 := "." + c + rest;
    var s1 := "." + b + s2;
    var s := PREFIX + (a + "." + b + "." + c) + rest;
    assert s == PREFIX + (a + s1) && s[|PREFIX|..] == a + s1;
    RunEndsHere(a, s1);
    DotRunEndsHere(b, s2);
    DotRunEndsHere(c, rest);
  }

  /** What the four texts of a match mean. */
  lemma FrontGroups(line: string, g: Groups)
    requires MatchAt(line) == Some(g)
    ensures LineVersion(line) ==
      if Value(g.major) < 0x8000_0000_0000_0000 && Value(g.minor) < 0x8000_0000_0000_0000
         && Value(g.patch) < 0x8000_0000_0000_0000
      then Some(Version(Value(g.major), Value(g.minor), Value(g.patch),
                        if g.release.Some? && Value(g.release.value) < 0x8000_0000_0000_0000
                        then Value(g.release.value) else 0))
      else None
  {
    assert Find(line) == Some(g);
  }

  /** "Tor version a.b.c", with no fourth number behind it, means release 0. */
  lemma ThreeNumbers(a: string, b: string, c: string, rest: string)
    requires AllDigits(a) && AllDigits(b) && AllDigits(c)
    requires rest != "" ==> !IsDigit(rest[0])
    requires |rest| >= 2 && rest[0] == '.' ==> !IsDigit(rest[1])
    requires Value(a) < 0x8000_0000_0000_0000 && Value(b) < 0x8000_0000_0000_0000 && Value(c) < 0x8000_0000_0000_0000
    ensures LineVersion("Tor version " + (a + "." + b + "." + c) + rest) ==
      Some(Version(Value(a), Value(b), Value(c), 0))
  {
    MatchesThree(a, b, c, rest);
    FrontGroups("Tor version " + (a + "." + b + "." + c) + rest, Groups(a, b, c, None));
  }

  /** Four numbers are read as they stand. */
  lemma FourNumbers(a: string, b: string, c: string, d: string, rest: string)
    requires AllDigits(a) && AllDigits(b) && AllDigits(c) && AllDigits(d)
    requires rest != "" ==> !IsDigit(rest[0])
    requires Value(a) < 0x8000_0000_0000_0000 && Value(b) < 0x8000_0000_0000_0000
    requires Value(c) < 0x8000_0000_0000_0000 && Value(d) < 0x8000_0000_0000_0000
    ensures LineVersion("Tor version " + (a + "." + b + "." + c + "." + d) + rest) ==
      Some(Version(Value(a), Value(b), Value(c), Value(d)))
  {
    LineOfDigits(a, b, c, d, rest, Version(Value(a), Value(b), Value(c), Value(d)));
  }

  /** Text before the first "Tor version " changes nothing. */
  lemma {:induction false} EarlierText(before: string, line: string)
    requires forall i | 0 <= i < |before| :: !("Tor version " <= (before + line)[i..])
    ensures LineVersion(before + line) == LineVersion(line)
    ensures Find(before + line) == Find(line)
  {
    if before == "" {
      assert before + line == line;
    } else {
      var s := before + line;
      assert s[0..] == s && s[1..] == before[1..] + line;
      forall i | 0 <= i < |before[1..]| ensures !("Tor version " <= (before[1..] + line)[i..]) {
        assert (before[1..] + line)[i..] == s[i + 1..];
      }
      EarlierText(before[1..], line);
      assert MatchAt(s) == None;
    }
  }

  lemma LineOfDigits(a: string, b: string, c: string, d: string, rest: string, v: Version)
    requires AllDigits(a) && AllDigits(b) && AllDigits(c) && AllDigits(d) && !StartsWithDigit(rest)
    requires InRange(v) && Value(a) == v.major && Value(b) == v.minor && Value(c) == v.patch && Value(d) == v.release
    ensures LineVersion(PREFIX + (a + "." + b + "." + c + "." + d) + rest) == Some(v)
  {
    MatchesItself(a, b, c, d, rest);
    FrontMatch(PREFIX + (a + "." + b + "." + c + "." + d) + rest, Groups(a, b, c, Some(d)), v);
  }

  lemma LineRoundTrip(v: Version, rest: string)
    requires InRange(v) && !StartsWithDigit(rest)
    ensures LineVersion(PREFIX + String(v) + rest) == Some(v)
  {
    ValueOfDecimal(v.major);
    ValueOfDecimal(v.minor);
    ValueOfDecimal(v.patch);
    ValueOfDecimal(v.release);
    LineOfDigits(Decimal(v.major), Decimal(v.minor), Decimal(v.patch), Decimal(v.release), rest, v);
  }

  lemma ReadIsInRange(line: string)
    ensures LineVersion(line).Some? ==> InRange(LineVersion(line).value)
  {
  }

  lemma OneLine(lines: seq<string>, r: Option<Version>, v: Version)
    requires Decides(lines, r) && lines != [] && LineVersion(lines[0]) == Some(v)
    ensures r == Some(v)
  {
  }

  lemma {:induction false} NoNewlineInDecimal(n: nat)
    ensures '\n' !in Decimal(n)
  {
    assert AllDigits(Decimal(n));
  }

  lemma NoNewlineInVersion(v: Version)
    requires InRange(v)
    ensures '\n' !in PREFIX + String(v)
  {
    NoNewlineInDecimal(v.major);
    NoNewlineInDecimal(v.minor);
    NoNewlineInDecimal(v.patch);
    NoNewlineInDecimal(v.release);
  }

  lemma FirstLineDecides(text: string, rest: string, r: Option<Version>, v: Version)
    requires '\n' !in text && Decides(Split(text + rest, '\n'), r)
    requires LineVersion(text + Split(rest, '\n')[0]) == Some(v)
    ensures r == Some(v)
  {
    SplitPrefix(text, rest, '\n');
    OneLine(Split(text + rest, '\n'), r, v);
  }

  /**
   Printing and reading back is the identity on versions with non-negative fields, whatever other
   text follows on the line or on later lines; a version with a negative field never comes back.
   */
  lemma RoundTrip(v: Version, rest: string, r: Option<Version>)
    requires v.major <= MAX_INT && v.minor <= MAX_INT && v.patch <= MAX_INT && v.release <= MAX_INT
    requires !StartsWithDigit(rest)
    requires Decides(Split(PREFIX + String(v) + rest, '\n'), r)
    ensures r == Some(v) <==> InRange(v)
  {
    if InRange(v) {
      NoNewlineInVersion(v);
      FirstPartStart(rest);
      LineRoundTrip(v, Split(rest, '\n')[0]);
      FirstLineDecides(PREFIX + String(v), rest, r, v);
    } else if r.Some? {
      ReadVersionInRange(Split(PREFIX + String(v) + rest, '\n'), r);
    }
  }

  lemma ReadVersionInRange(lines: seq<string>, r: Option<Version>)
    requires Decides(lines, r) && r.Some?
    ensures InRange(r.value)
  {
    var k :| 0 <= k < |lines| && LineVersion(lines[k]) == r;
    ReadIsInRange(lines[k]);
  }

  lemma FirstPartStart(s: string)
    requires !StartsWithDigit(s)
    ensures !StartsWithDigit(Split(s, '\n')[0])
  {
  }

  // ----- Comparing ------------------------------------------------------------------------------------

  predicate AtLeast(v: Version, major: int, minor: int, patch: int, release: int) {
    if v.major != major then v.major > major
    else if v.minor != minor then v.minor > minor
    else if v.patch != patch then v.patch > patch
    else v.release >= release
  }

  predicate SupportsConflux(v: Version) { AtLeast(v, 0, 4, 8, 0) }
  predicate SupportsHTTPTunnel(v: Version) { AtLeast(v, 0, 4, 8, 0) }
  predicate SupportsCongestionControl(v: Version) { AtLeast(v, 0, 4, 7, 0) }
  predicate SupportsCGO(v: Version) { AtLeast(v, 0, 4, 9, 0) }
  predicate SupportsTLS13(v: Version) { AtLeast(v, 0, 4, 9, 0) }
  predicate SupportsSandbox(v: Version) { AtLeast(v, 0, 4, 7, 0) }
  predicate SupportsHappyFamilies(v: Version) { AtLeast(v, 0, 4, 9, 0) }
  predicate SupportsPostQuantum(v: Version) { AtLeast(v, 0, 4, 8, 17) }

  /** Lexicographic order on sequences of numbers. */
  ghost predicate LexGe(a: seq<int>, b: seq<int>) {
    b == [] || (a != [] && (a[0] > b[0] || (a[0] == b[0] && LexGe(a[1..], b[1..]))))
  }

  ghost function Fields(v: Version): seq<int> { [v.major, v.minor, v.patch, v.release] }

  lemma AtLeastIsLexicographic(v: Version, w: Version)
    ensures AtLeast(v, w.major, w.minor, w.patch, w.release) <==> LexGe(Fields(v), Fields(w))
  {
    LexStep(v.major, [v.minor, v.patch, v.release], w.major, [w.minor, w.patch, w.release]);
    LexStep(v.minor, [v.patch, v.release], w.minor, [w.patch, w.release]);
    LexStep(v.patch, [v.release], w.patch, [w.release]);
    LexStep(v.release, [], w.release, []);
    assert Fields(v) == [v.major] + [v.minor, v.patch, v.release];
    assert Fields(w) == [w.major] + [w.minor, w.patch, w.release];
    assert [v.minor, v.patch, v.release] == [v.minor] + [v.patch, v.release];
    assert [w.minor, w.patch, w.release] == [w.minor] + [w.patch, w.release];
    assert [v.patch, v.release] == [v.patch] + [v.release] && [w.patch, w.release] == [w.patch] + [w.release];
    assert [v.release] == [v.release] + [] && [w.release] == [w.release] + [];
  }

  lemma LexStep(x: int, a: seq<int>, y: int, b: seq<int>)
    ensures LexGe([x] + a, [y] + b) <==> x > y || (x == y && LexGe(a, b))
  {
    assert ([x] + a)[1..] == a && ([y] + b)[1..] == b;
  }

  /** From which version on each feature is there. */
  lemma FeatureThresholds(v: Version)
    ensures SupportsConflux(v) <==> LexGe(Fields(v), [0, 4, 8, 0])
    ensures SupportsHTTPTunnel(v) <==> LexGe(Fields(v), [0, 4, 8, 0])
    ensures SupportsCongestionControl(v) <==> LexGe(Fields(v), [0, 4, 7, 0])
    ensures SupportsCGO(v) <==> LexGe(Fields(v), [0, 4, 9, 0])
    ensures SupportsTLS13(v) <==> LexGe(Fields(v), [0, 4, 9, 0])
    ensures SupportsSandbox(v) <==> LexGe(Fields(v), [0, 4, 7, 0])
    ensures SupportsHappyFamilies(v) <==> LexGe(Fields(v), [0, 4, 9, 0])
    ensures SupportsPostQuantum(v) <==> LexGe(Fields(v), [0, 4, 8, 17])
  {
    AtLeastIsLexicographic(v, Version(0, 4, 8, 0));
    AtLeastIsLexicographic(v, Version(0, 4, 7, 0));
    AtLeastIsLexicographic(v, Version(0, 4, 9, 0));
    AtLeastIsLexicographic(v, Version(0, 4, 8, 17));
  }

  /** A newer version loses no feature, and the features come in one order. */
  lemma FeaturesAreMonotone(v: Version, w: Version)
    requires AtLeast(v, w.major, w.minor, w.patch, w.release)
    ensures SupportsCGO(w) ==> SupportsCGO(v)
    ensures SupportsPostQuantum(w) ==> SupportsPostQuantum(v)
    ensures SupportsConflux(w) ==> SupportsConflux(v)
    ensures SupportsHTTPTunnel(w) ==> SupportsHTTPTunnel(v)
    ensures SupportsCongestionControl(w) ==> SupportsCongestionControl(v)
    ensures SupportsTLS13(w) ==> SupportsTLS13(v)
    ensures SupportsSandbox(w) ==> SupportsSandbox(v)
    ensures SupportsHappyFamilies(w) ==> SupportsHappyFamilies(v)
    ensures SupportsCGO(v) ==> SupportsPostQuantum(v)
    ensures SupportsPostQuantum(v) ==> SupportsConflux(v)
    ensures SupportsConflux(v) ==> SupportsCongestionControl(v)
  {
  }
}
