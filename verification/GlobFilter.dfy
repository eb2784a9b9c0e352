/** The test filter: glob patterns, lists of patterns, and a positive and a negative part.

    A string stands for the characters of a C string before its NUL.  `InGlob` gives the language of
    a pattern without mentioning how it is matched: the text falls into one piece for each pattern
    character. */
module GlobFilter {
  import opened Wrappers

  const KUniversalFilter := "*"
  const KDisableTestFilter := "DISABLED_*:*/DISABLED_*"
  const KDeathTestCaseFilter := "*DeathTest:*DeathTest/*"

  // ---------------------------------------------------------------- one pattern

  /** A ':' ends the pattern like its end does. */
  predicate PatternMatchesString(pattern: string, str: string)
    decreases |pattern| + |str|
  {
    if pattern == [] || pattern[0] == ':' then str == []
    else if pattern[0] == '?' then str != [] && PatternMatchesString(pattern[1..], str[1..])
    else if pattern[0] == '*' then
      (str != [] && PatternMatchesString(pattern, str[1..])) || PatternMatchesString(pattern[1..], str)
    else str != [] && pattern[0] == str[0] && PatternMatchesString(pattern[1..], str[1..])
  }

  /** The pattern without what follows its first ':'. */
  function Segment(pattern: string): (r: string)
    ensures |r| <= |pattern| && r == pattern[..|r|] && ':' !in r
    ensures |r| < |pattern| ==> pattern[|r|] == ':'
  {
    if pattern == [] || pattern[0] == ':' then [] else [pattern[0]] + Segment(pattern[1..])
  }

  predicate Fits(c: char, piece: string) {
    match c
    case '*' => true
    case '?' => |piece| == 1
    case _ => piece == [c]
  }

  function Join(pieces: seq<string>): string {
    if pieces == [] then [] else pieces[0] + Join(pieces[1..])
  }

  ghost predicate Cuts(segment: string, pieces: seq<string>, s: string) {
    && |pieces| == |segment| && Join(pieces) == s
    && forall i :: 0 <= i < |segment| ==> Fits(segment[i], pieces[i])
  }

  /** The text can be cut so that each piece fits its pattern character. */
  ghost predicate InGlob(segment: string, s: string) {
    exists pieces :: Cuts(segment, pieces, s)
  }

  lemma CutsCons(segment: string, pieces: seq<string>, s: string)
    requires segment != [] && pieces != []
    ensures Cuts(segment, pieces, s) <==>
      Fits(segment[0], pieces[0]) && pieces[0] <= s && Cuts(segment[1..], pieces[1..], s[|pieces[0]|..])
  {
    if Cuts(segment, pieces, s) {
      assert s[|pieces[0]|..] == Join(pieces[1..]);
    } else if Fits(segment[0], pieces[0]) && pieces[0] <= s && Cuts(segment[1..], pieces[1..], s[|pieces[0]|..]) {
      assert Join(pieces) == pieces[0] + s[|pieces[0]|..] == s;
      forall i | 0 <= i < |segment|
        ensures Fits(segment[i], pieces[i])
      {
        if i > 0 {
          assert Fits(segment[1..][i - 1], pieces[1..][i - 1]);
        }
      }
    }
  }

  lemma {:induction false} MatchCuts(pattern: string, s: string) returns (pieces: seq<string>)
    requires PatternMatchesString(pattern, s)
    ensures Cuts(Segment(pattern), pieces, s)
    decreases |pattern| + |s|
  {
    var segment := Segment(pattern);
    if segment == [] {
      pieces := [];
    } else if pattern[0] == '*' && s != [] && PatternMatchesString(pattern, s[1..]) {
      var rest := MatchCuts(pattern, s[1..]);
      CutsCons(segment, rest, s[1..]);
      pieces := [[s[0]] + rest[0]] + rest[1..];
      assert s[|pieces[0]|..] == s[1..][|rest[0]|..];
      CutsCons(segment, pieces, s);
    } else {
      var n := if pattern[0] == '*' then 0 else 1;
      var rest := MatchCuts(pattern[1..], s[n..]);
      pieces := [s[..n]] + rest;
      assert segment[1..] == Segment(pattern[1..]) && pieces[1..] == rest;
      CutsCons(segment, pieces, s);
    }
  }

  lemma {:induction false} CutsMatch(pattern: string, pieces: seq<string>, s: string)
    requires Cuts(Segment(pattern), pieces, s)
    ensures PatternMatchesString(pattern, s)
    decreases |pattern| + |s|
  {
    var segment := Segment(pattern);
    if segment != [] {
      CutsCons(segment, pieces, s);
      if pattern[0] == '*' && pieces[0] != [] {
        var rest := [pieces[0][1..]] + pieces[1..];
        assert s[1..][|rest[0]|..] == s[|pieces[0]|..];
        CutsCons(segment, rest, s[1..]);
        CutsMatch(pattern, rest, s[1..]);
      } else {
        assert segment[1..] == Segment(pattern[1..]);
        CutsMatch(pattern[1..], pieces[1..], s[|pieces[0]|..]);
      }
    }
  }

  /** The matcher decides the language of the segment in front of the first ':'. */
  lemma PatternMatchesIffInGlob(pattern: string, s: string)
    ensures PatternMatchesString(pattern, s) <==> InGlob(Segment(pattern), s)
  {
    if PatternMatchesString(pattern, s) {
      var pieces := MatchCuts(pattern, s);
    }
    if InGlob(Segment(pattern), s) {
      var pieces :| Cuts(Segment(pattern), pieces, s);
      CutsMatch(pattern, pieces, s);
    }
  }

  // ---------------------------------------------------------------- a list of patterns

  /** The texts between the colons. */
  function Segments(filter: string): seq<string> {
    var segment := Segment(filter);
    if |segment| == |filter| then [segment] else [segment] + Segments(filter[|segment| + 1..])
  }

  function JoinWithColons(segments: seq<string>): string
    requires segments != []
  {
    if |segments| == 1 then segments[0] else segments[0] + ":" + JoinWithColons(segments[1..])
  }

  ghost predicate ArePartsOf(parts: seq<string>, filter: string) {
    parts != [] && JoinWithColons(parts) == filter && forall i :: 0 <= i < |parts| ==> ':' !in parts[i]
  }

  lemma {:induction false} SegmentsAreParts(filter: string)
    ensures ArePartsOf(Segments(filter), filter)
    decreases |filter|
  {
    var segment := Segment(filter);
    if |segment| < |filter| {
      SegmentsAreParts(filter[|segment| + 1..]);
      assert Segments(filter)[1..] == Segments(filter[|segment| + 1..]);
      assert filter == segment + ":" + filter[|segment| + 1..];
    }
  }

  lemma {:induction false} PartsAreSegments(filter: string, parts: seq<string>)
    requires ArePartsOf(parts, filter)
    ensures parts == Segments(filter)
    decreases |parts|
  {
    hide *;
    FirstPart(filter, parts);
    var first := parts[0];
    FirstColon(filter, |first|);
    SegmentsStep(filter);
    if |parts| > 1 {
      PartsAreSegments(filter[|first| + 1..], parts[1..]);
    }
  }

  lemma FirstPart(filter: string, parts: seq<string>)
    requires ArePartsOf(parts, filter)
    ensures parts != [] && |parts[0]| <= |filter| && parts[0] == filter[..|parts[0]|] && ':' !in parts[0]
    ensures if |parts| == 1 then |parts[0]| == |filter|
            else |parts[0]| < |filter| && filter[|parts[0]|] == ':' && ArePartsOf(parts[1..], filter[|parts[0]| + 1..])
  {
    if |parts| > 1 {
      assert filter[|parts[0]| + 1..] == JoinWithColons(parts[1..]);
    }
  }

  lemma SegmentsStep(filter: string)
    ensures var segment := Segment(filter);
      && segment == filter[..|segment|]
      && Segments(filter) == if |segment| == |filter| then [segment] else [segment] + Segments(filter[|segment| + 1..])
  {
  }

  /** `Segments` is the one way to write the filter as colon-free texts joined by colons. */
  lemma SegmentsAreTheParts(filter: string, parts: seq<string>)
    ensures ArePartsOf(parts, filter) <==> parts == Segments(filter)
  {
    SegmentsAreParts(filter);
    if ArePartsOf(parts, filter) {
      PartsAreSegments(filter, parts);
    }
  }

  lemma {:induction false} FirstColon(filter: string, n: nat)
    requires n <= |filter| && ':' !in filter[..n] && (n < |filter| ==> filter[n] == ':')
    ensures |Segment(filter)| == n
  {
    if n > 0 {
      assert filter[0] == filter[..n][0] && filter[1..][..n - 1] == filter[..n][1..];
      FirstColon(filter[1..], n - 1);
    }
  }

  ghost predicate MatchesAny(name: string, filter: string) {
    exists i :: 0 <= i < |Segments(filter)| && InGlob(Segments(filter)[i], name)
  }

  lemma MatchesAnyStep(name: string, filter: string)
    ensures var segment := Segment(filter);
      MatchesAny(name, filter) <==>
      PatternMatchesString(filter, name) || (|segment| < |filter| && MatchesAny(name, filter[|segment| + 1..]))
  {
    PatternMatchesIffInGlob(filter, name);
    var segments := Segments(filter);
    var k := |Segment(filter)|;
    assert segments[0] == Segment(filter);
    if k < |filter| {
      var rest := Segments(filter[k + 1..]);
      assert segments[1..] == rest;
      if MatchesAny(name, filter[k + 1..]) {
        var i :| 0 <= i < |rest| && InGlob(rest[i], name);
        assert InGlob(segments[i + 1], name);
      }
      if MatchesAny(name, filter) {
        var i :| 0 <= i < |segments| && InGlob(segments[i], name);
        assert i > 0 ==> InGlob(rest[i - 1], name);
      }
    }
  }

  /** strchr: where the character first stands. */
  function FindChar(s: string, c: char): (r: Option<nat>)
    ensures r.Some? ==> r.value < |s| && s[r.value] == c && c !in s[..r.value]
    ensures r.None? <==> c !in s
  {
    if s == [] then None
    else if s[0] == c then Some(0)
    else match FindChar(s[1..], c) case None => None case Some(i) => Some(i + 1)
  }

  method MatchesFilter(name: string, filter: string) returns (r: bool)
    ensures r <==> MatchesAny(name, filter)
  {
    var curPattern := filter;
    while true
      invariant MatchesAny(name, filter) <==> MatchesAny(name, curPattern)
      decreases |curPattern|
    {
      MatchesAnyStep(name, curPattern);
      if PatternMatchesString(curPattern, name) {
        return true;
      }
      var colon := FindChar(curPattern, ':');
      if colon.None? {
        return false;
      }
      FirstColon(curPattern, colon.value);
      curPattern := curPattern[colon.value + 1..];
    }
  }

  // ---------------------------------------------------------------- positive and negative part

  /** What the filter flag selects: the first '-' starts the negative part, and a missing positive
      part selects everything. */
  ghost predicate Selects(filter: string, fullName: string) {
    match FindChar(filter, '-')
    case None => MatchesAny(fullName, filter)
    case Some(k) => (k == 0 || MatchesAny(fullName, filter[..k])) && !MatchesAny(fullName, filter[k + 1..])
  }

  function FullName(testCaseName: string, testName: string): string {
    testCaseName + "." + testName
  }

  /** The test case, a dot, and the test. */
  lemma FullNameIs(testCaseName: string, testName: string)
    ensures var s, n := FullName(testCaseName, testName), |testCaseName|;
      |s| == n + 1 + |testName| && s[..n] == testCaseName && s[n] == '.' && s[n + 1..] == testName
  {
  }

  method FilterMatchesTest(filter: string, testCaseName: string, testName: string) returns (r: bool)
    ensures r <==> Selects(filter, FullName(testCaseName, testName))
  {
    var fullName := FullName(testCaseName, testName);
    var dash := FindChar(filter, '-');
    var positive, negative;
    match dash {
      case None =>
        positive := filter;
        negative := "";
        OnlyTheEmptyName(fullName);
      case Some(k) =>
        positive := filter[..k];
        negative := filter[k + 1..];
        if positive == "" {
          positive := KUniversalFilter;
          UniversalMatches(fullName);
        }
    }
    var inPositive := MatchesFilter(fullName, positive);
    var inNegative := MatchesFilter(fullName, negative);
    r := inPositive && !inNegative;
  }

  /** An empty list matches the empty name only, so an empty negative part excludes no test. */
  lemma OnlyTheEmptyName(name: string)
    ensures MatchesAny(name, "") <==> name == ""
  {
    MatchesAnyStep(name, "");
  }

  lemma UniversalMatches(name: string)
    ensures MatchesAny(name, KUniversalFilter)
  {
    MatchesAnyStep(name, KUniversalFilter);
    StarMatches("", name);
    assert PatternMatchesString("", name[|name|..]);
    assert KUniversalFilter == "*" + "";
  }

  /** A leading '-' takes the complement: a test is selected by "-" + list exactly if it is not selected
      by the list. */
  lemma DashIsComplement(list: string, testCaseName: string, testName: string)
    requires '-' !in list
    ensures Selects("-" + list, FullName(testCaseName, testName)) <==> !Selects(list, FullName(testCaseName, testName))
  {
    assert ("-" + list)[1..] == list;
  }

  /** Further colon-separated lists widen the positive part and narrow through the negative part. */
  lemma {:induction false} ListsUnite(a: string, b: string, name: string)
    ensures MatchesAny(name, a + ":" + b) <==> MatchesAny(name, a) || MatchesAny(name, b)
    decreases |a|
  {
    var both := a + ":" + b;
    var k := |Segment(a)|;
    MatchesAnyStep(name, both);
    MatchesAnyStep(name, a);
    assert both[..k] == a[..k];
    FirstColon(both, k);
    assert Segment(both) == Segment(a);
    PatternMatchesIffInGlob(both, name);
    PatternMatchesIffInGlob(a, name);
    if k < |a| {
      assert both[k + 1..] == a[k + 1..] + ":" + b;
      ListsUnite(a[k + 1..], b, name);
    } else {
      assert both[k + 1..] == b;
    }
  }

  // ---------------------------------------------------------------- the two built-in lists

  lemma {:induction false} StarMatches(pattern: string, s: string)
    ensures PatternMatchesString("*" + pattern, s) <==>
      exists k :: 0 <= k <= |s| && PatternMatchesString(pattern, s[k..])
  {
    var star := "*" + pattern;
    assert star[1..] == pattern && s[0..] == s;
    if s != [] {
      StarMatches(pattern, s[1..]);
      if PatternMatchesString(star, s[1..]) {
        var k :| 0 <= k <= |s[1..]| && PatternMatchesString(pattern, s[1..][k..]);
        assert s[1..][k..] == s[k + 1..];
      }
      if exists k :: 0 < k <= |s| && PatternMatchesString(pattern, s[k..]) {
        var k :| 0 < k <= |s| && PatternMatchesString(pattern, s[k..]);
        assert s[1..][k - 1..] == s[k..];
      }
    }
  }

  predicate Plain(text: string) {
    forall i :: 0 <= i < |text| ==> text[i] !in ":?*"
  }

  lemma {:induction false} PlainMatches(text: string, pattern: string, s: string)
    requires Plain(text)
    ensures PatternMatchesString(text + pattern, s) <==>
      text <= s && PatternMatchesString(pattern, s[|text|..])
  {
    if text == [] {
      assert text + pattern == pattern && s[0..] == s;
    } else {
      assert (text + pattern)[1..] == text[1..] + pattern;
      assert text[0] !in ":?*";
      if s != [] && s[0] == text[0] {
        PlainMatches(text[1..], pattern, s[1..]);
        assert text <= s <==> text[1..] <= s[1..] by {
          assert text == [text[0]] + text[1..] && s == [s[0]] + s[1..];
        }
        if text <= s {
          assert s[1..][|text[1..]|..] == s[|text|..];
        }
      }
    }
  }

  ghost predicate EndsWith(s: string, text: string) {
    |text| <= |s| && s[|s| - |text|..] == text
  }

  ghost predicate StandsIn(text: string, s: string) {
    exists k :: 0 <= k <= |s| && text <= s[k..]
  }

  lemma OneSegment(pattern: string, name: string)
    requires ':' !in pattern
    ensures MatchesAny(name, pattern) <==> PatternMatchesString(pattern, name)
  {
    FirstColon(pattern, |pattern|);
    MatchesAnyStep(name, pattern);
  }

  lemma StarPlain(text: string, s: string)
    requires Plain(text)
    ensures PatternMatchesString("*" + text, s) <==> EndsWith(s, text)
  {
    StarMatches(text, s);
    assert text + "" == text;
    forall k | 0 <= k <= |s|
      ensures PatternMatchesString(text, s[k..]) <==> s[k..] == text
    {
      PlainMatches(text, "", s[k..]);
      assert PatternMatchesString(text, s[k..]) <==> text <= s[k..] && s[k..][|text|..] == [];
    }
  }

  lemma PlainStar(text: string, s: string)
    requires Plain(text)
    ensures PatternMatchesString(text + "*", s) <==> text <= s
  {
    PlainMatches(text, "*", s);
    if text <= s {
      AnyMatchesStar(s[|text|..]);
    }
  }

  lemma AnyMatchesStar(s: string)
    ensures PatternMatchesString("*", s)
  {
    StarMatches("", s);
    assert "*" + "" == "*" && PatternMatchesString("", s[|s|..]);
  }

  lemma StarPlainStar(text: string, s: string)
    requires Plain(text)
    ensures PatternMatchesString("*" + text + "*", s) <==> StandsIn(text, s)
  {
    StarMatches(text + "*", s);
    assert "*" + (text + "*") == "*" + text + "*";
    forall k | 0 <= k <= |s|
      ensures PatternMatchesString(text + "*", s[k..]) <==> text <= s[k..]
    {
      PlainStar(text, s[k..]);
    }
  }

  /** Which test cases count as death tests. */
  ghost predicate IsDeathTestCase(name: string) {
    EndsWith(name, "DeathTest") || StandsIn("DeathTest/", name)
  }

  lemma EndOrInside(end: string, inside: string, name: string)
    requires Plain(end) && Plain(inside)
    ensures MatchesAny(name, "*" + end + ":" + ("*" + inside + "*")) <==> EndsWith(name, end) || StandsIn(inside, name)
  {
    var a, b := "*" + end, "*" + inside + "*";
    PlainHasNoColon(end);
    PlainHasNoColon(inside);
    hide *;
    ListsUnite(a, b, name);
    OneSegment(a, name);
    OneSegment(b, name);
    StarPlain(end, name);
    StarPlainStar(inside, name);
  }

  lemma StartOrInside(start: string, inside: string, name: string)
    requires Plain(start) && Plain(inside)
    ensures MatchesAny(name, start + "*" + ":" + ("*" + inside + "*")) <==> start <= name || StandsIn(inside, name)
  {
    var a, b := start + "*", "*" + inside + "*";
    PlainHasNoColon(start);
    PlainHasNoColon(inside);
    hide *;
    ListsUnite(a, b, name);
    OneSegment(a, name);
    OneSegment(b, name);
    PlainStar(start, name);
    StarPlainStar(inside, name);
  }

  lemma PlainHasNoColon(text: string)
    requires Plain(text)
    ensures ':' !in text
  {
    forall c | c in text
      ensures c != ':'
    {
      var i :| 0 <= i < |text| && text[i] == c;
      assert text[i] !in ":?*" && ':' in ":?*";
    }
  }

  lemma DeathTestNames(name: string)
    ensures MatchesAny(name, KDeathTestCaseFilter) <==> IsDeathTestCase(name)
  {
    assert KDeathTestCaseFilter == "*" + "DeathTest" + ":" + ("*" + "DeathTest/" + "*");
    assert Plain("DeathTest") && Plain("DeathTest/");
    hide MatchesAny, Plain, EndsWith, StandsIn;
    EndOrInside("DeathTest", "DeathTest/", name);
  }

  /** Which test cases and which tests are disabled. */
  ghost predicate IsDisabledName(name: string) {
    "DISABLED_" <= name || StandsIn("/DISABLED_", name)
  }

  lemma DisabledNames(name: string)
    ensures MatchesAny(name, KDisableTestFilter) <==> IsDisabledName(name)
  {
    assert KDisableTestFilter == "DISABLED_" + "*" + ":" + ("*" + "/DISABLED_" + "*");
    assert Plain("DISABLED_") && Plain("/DISABLED_");
    hide MatchesAny, Plain, StandsIn;
    StartOrInside("DISABLED_", "/DISABLED_", name);
  }
}
