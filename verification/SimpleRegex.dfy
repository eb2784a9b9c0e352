/** The simple regular expressions of gtest-port.cc: their syntax, their language, and the recursive
    matcher that decides it. */
module SimpleRegex {
  import opened Wrappers

  // ---------------------------------------------------------------- characters

  /** `set` lists characters; NUL is in none. */
  predicate IsInSet(ch: char, chars: string) {
    ch != '\0' && ch in chars
  }

  predicate IsAsciiDigit(ch: char) { '0' <= ch <= '9' }
  predicate IsAsciiPunct(ch: char) { IsInSet(ch, "^-!\"#$%&'()*+,./:;<=>?@[\\]_`{|}~") }
  predicate IsRepeat(ch: char) { IsInSet(ch, "?*+") }
  predicate IsAsciiWhiteSpace(ch: char) { IsInSet(ch, " \U{0C}\n\r\t\U{0B}") }
  predicate IsAsciiWordChar(ch: char) { 'a' <= ch <= 'z' || 'A' <= ch <= 'Z' || '0' <= ch <= '9' || ch == '_' }
  predicate IsValidEscape(c: char) { IsAsciiPunct(c) || IsInSet(c, "dDfnrsStvwW") }

  predicate AtomMatchesChar(escaped: bool, p: char, ch: char) {
    if escaped then
      match p
      case 'd' => IsAsciiDigit(ch)
      case 'D' => !IsAsciiDigit(ch)
      case 'f' => ch == '\U{0C}'
      case 'n' => ch == '\n'
      case 'r' => ch == '\r'
      case 's' => IsAsciiWhiteSpace(ch)
      case 'S' => !IsAsciiWhiteSpace(ch)
      case 't' => ch == '\t'
      case 'v' => ch == '\U{0B}'
      case 'w' => IsAsciiWordChar(ch)
      case 'W' => !IsAsciiWordChar(ch)
      case _ => IsAsciiPunct(p) && p == ch
    else (p == '.' && ch != '\n') || p == ch
  }

  // ---------------------------------------------------------------- what the classes contain

  predicate LetterOrDigit(c: char) {
    (0x30 <= c as int <= 0x39) || (0x41 <= c as int <= 0x5A) || (0x61 <= c as int <= 0x7A)
  }

  /** Every printable character except the blank is either a letter or digit or punctuation, and nothing else
      is punctuation. */
  lemma PunctuationIs(c: char)
    ensures IsAsciiPunct(c) <==> 0x21 <= c as int <= 0x7E && !LetterOrDigit(c)
  {
  }

  /** Word characters are the letters, the digits and the one punctuation "_". */
  lemma WordCharactersAre(c: char)
    ensures IsAsciiWordChar(c) && IsAsciiPunct(c) <==> c == '_'
    ensures IsAsciiWordChar(c) && !IsAsciiPunct(c) <==> LetterOrDigit(c)
    ensures IsAsciiDigit(c) <==> LetterOrDigit(c) && c as int < 0x41
  {
    hide IsInSet;
    PunctuationIs(c);
  }

  /** White space is tab, newline, vertical tab, form feed, carriage return and the blank, and no other class
      holds one of them. */
  lemma WhiteSpaceIs(c: char)
    ensures IsAsciiWhiteSpace(c) <==> 9 <= c as int <= 13 || c as int == 32
    ensures IsAsciiWhiteSpace(c) ==> !IsAsciiWordChar(c) && !IsAsciiPunct(c) && !IsAsciiDigit(c)
  {
    WhiteSpaceList(c);
    PunctuationIs(c);
    hide IsInSet, IsAsciiWhiteSpace, IsAsciiPunct;
  }

  lemma WhiteSpaceList(c: char)
    ensures IsAsciiWhiteSpace(c) <==> 9 <= c as int <= 13 || c as int == 32
  {
  }

  /** An escaped letter in upper case stands for what the same letter in lower case does not match. */
  lemma ComplementsAre(c: char)
    ensures AtomMatchesChar(true, 'D', c) <==> !AtomMatchesChar(true, 'd', c)
    ensures AtomMatchesChar(true, 'S', c) <==> !AtomMatchesChar(true, 's', c)
    ensures AtomMatchesChar(true, 'W', c) <==> !AtomMatchesChar(true, 'w', c)
    ensures AtomMatchesChar(true, 'd', c) <==> 0x30 <= c as int <= 0x39
    ensures AtomMatchesChar(true, 's', c) <==> 9 <= c as int <= 13 || c as int == 32
    ensures AtomMatchesChar(true, 'w', c) <==> LetterOrDigit(c) || c == '_'
  {
    WhiteSpaceIs(c);
    WordCharactersAre(c);
  }

  /** The control escapes stand for five different characters, each of them white space. */
  lemma ControlEscapes(c: char)
    ensures AtomMatchesChar(true, 't', c) <==> c as int == 9
    ensures AtomMatchesChar(true, 'n', c) <==> c as int == 10
    ensures AtomMatchesChar(true, 'v', c) <==> c as int == 11
    ensures AtomMatchesChar(true, 'f', c) <==> c as int == 12
    ensures AtomMatchesChar(true, 'r', c) <==> c as int == 13
    ensures forall p :: p in {'t', 'n', 'v', 'f', 'r'} && AtomMatchesChar(true, p, c) ==> AtomMatchesChar(true, 's', c)
  {
    WhiteSpaceIs(c);
  }

  /** An escaped punctuation and an unescaped character other than the dot match themselves only; the dot
      matches everything but a newline. */
  lemma LiteralAtoms(p: char, c: char)
    ensures IsAsciiPunct(p) ==> (AtomMatchesChar(true, p, c) <==> c == p)
    ensures p != '.' ==> (AtomMatchesChar(false, p, c) <==> c == p)
    ensures AtomMatchesChar(false, '.', c) <==> c as int != 10
  {
    PunctuationIs(p);
    hide IsInSet;
  }

  /** An escape is supported exactly if it matches some character. */
  lemma EscapeIsValidIff(p: char)
    ensures IsValidEscape(p) <==> exists c :: AtomMatchesChar(true, p, c)
  {
    if IsValidEscape(p) {
      var c := if p == 'd' || p == 'w' then '0' else if p == 'D' || p == 'S' then 'a' else if p == 's' || p == 'W' then ' '
               else if p == 'f' then '\U{0C}' else if p == 'n' then '\n' else if p == 'r' then '\r' else if p == 't' then '\t'
               else if p == 'v' then '\U{0B}' else p;
      assert AtomMatchesChar(true, p, c);
    }
  }

  /** A repetition is one of three characters, each with its own meaning. */
  lemma RepetitionsAre(c: char)
    ensures IsRepeat(c) <==> RepeatOf(c) != Once
    ensures IsRepeat(c) ==> IsAsciiPunct(c)
    ensures RepeatOf(c) == AtMostOnce <==> c == '?'
    ensures RepeatOf(c) == Any <==> c == '*'
    ensures RepeatOf(c) == AtLeastOnce <==> c == '+'
  {
  }

  // ---------------------------------------------------------------- patterns and their language

  datatype Repeat = Once | AtMostOnce | Any | AtLeastOnce
  datatype Item = Item(escaped: bool, c: char, repeat: Repeat)

  function RepeatOf(ch: char): Repeat {
    if ch == '?' then AtMostOnce else if ch == '*' then Any else if ch == '+' then AtLeastOnce else Once
  }

  /** How often an atom may occur under a repetition. */
  predicate Allows(r: Repeat, n: nat) {
    match r
    case Once => n == 1
    case AtMostOnce => n <= 1
    case Any => true
    case AtLeastOnce => n >= 1
  }

  ghost predicate AtomsMatch(escaped: bool, c: char, t: string) {
    forall i :: 0 <= i < |t| ==> AtomMatchesChar(escaped, c, t[i])
  }

  ghost predicate ItemMatches(it: Item, t: string) {
    Allows(it.repeat, |t|) && AtomsMatch(it.escaped, it.c, t)
  }

  /** The whole of `t` is in the language of a sequence of items. */
  ghost predicate InLanguage(items: seq<Item>, t: string)
    decreases |items|
  {
    if items == [] then t == []
    else exists k :: 0 <= k <= |t| && ItemMatches(items[0], t[..k]) && InLanguage(items[1..], t[k..])
  }

  /** A parsed pattern: items, and whether it is pinned to the start and to the end. */
  datatype Pattern = Pattern(atStart: bool, items: seq<Item>, atEnd: bool)

  /** Some substring is in the language, respecting the pins. */
  ghost predicate Contains(p: Pattern, s: string) {
    exists i, j :: 0 <= i <= j <= |s| && (p.atStart ==> i == 0) && (p.atEnd ==> j == |s|) && InLanguage(p.items, s[i..j])
  }

  // ---------------------------------------------------------------- syntax

  /** The length of the atom at the start of `re`. */
  function AtomLength(re: string): nat
    requires re != []
  {
    if re[0] == '\\' then 2 else 1
  }

  /** An atom stands at the start of `re`. */
  predicate AtomAt(re: string) {
    if re == [] then false
    else if re[0] == '\\' then |re| >= 2 && IsValidEscape(re[1])
    else !IsInSet(re[0], "^$?*+()[]{}|")
  }

  /** A valid pattern after an optional '^': atoms, each perhaps repeated, and perhaps a final '$'. */
  predicate ValidTail(re: string)
    decreases |re|
  {
    if re == [] || re == "$" then true
    else if !AtomAt(re) then false
    else
      var n := AtomLength(re);
      ValidTail(if n < |re| && IsRepeat(re[n]) then re[n + 1..] else re[n..])
  }

  predicate ValidRegex(re: string) {
    ValidTail(if re != [] && re[0] == '^' then re[1..] else re)
  }

  function ParseItems(re: string): seq<Item>
    requires ValidTail(re)
    decreases |re|
  {
    if re == [] || re == "$" then [] else
    var n := AtomLength(re);
    if n < |re| && IsRepeat(re[n]) then [Item(re[0] == '\\', re[n - 1], RepeatOf(re[n]))] + ParseItems(re[n + 1..])
    else [Item(re[0] == '\\', re[n - 1], Once)] + ParseItems(re[n..])
  }

  /** A final '$' that is not escaped. */
  predicate EndsPinned(re: string)
    requires ValidTail(re)
    decreases |re|
  {
    if re == [] then false
    else if re == "$" then true
    else
      var n := AtomLength(re);
      EndsPinned(if n < |re| && IsRepeat(re[n]) then re[n + 1..] else re[n..])
  }

  function Parse(re: string): Pattern
    requires ValidRegex(re)
  {
    var tail := if re != [] && re[0] == '^' then re[1..] else re;
    Pattern(re != [] && re[0] == '^', ParseItems(tail), EndsPinned(tail))
  }

  // ---------------------------------------------------------------- ValidateRegex

  /** What the scan has yet to see, given whether a repetition may come next. */
  predicate ScanFrom(re: string, i: nat, repeatable: bool)
    requires i <= |re|
  {
    if i < |re| && repeatable && IsRepeat(re[i]) then ValidTail(re[i + 1..]) else ValidTail(re[i..])
  }

  method ValidateRegex(regex: Option<NulFree>) returns (ok: bool)
    ensures ok <==> regex.Some? && ValidRegex(regex.value)
  {
    if regex.None? {
      return false;
    }
    var re: string := regex.value;
    ok := true;
    var repeatable, i := false, 0;
    ghost var start := if re != [] && re[0] == '^' then 1 else 0;
    while i < |re|
      invariant 0 <= i <= |re|
      invariant i == 0 ==> ok && !repeatable
      invariant i == 1 && start == 1 ==> ok && !repeatable
      invariant i >= start ==> (ValidRegex(re) <==> ok && ScanFrom(re, i, repeatable))
    {
      if re[i] == '\\' {
        ScanEscape(re, i, repeatable);
        i := i + 1;
        if i == |re| {
          return false;
        }
        if !IsValidEscape(re[i]) {
          ok := false;
        }
        repeatable := true;
      } else {
        var ch := re[i];
        if !(i == 0 && ch == '^') {
          ScanPlain(re, i, repeatable);
        }
        if ch == '^' && i > 0 {
          ok := false;
        } else if ch == '$' && i + 1 < |re| {
          ok := false;
        } else if IsInSet(ch, "()[]{}|") {
          ok := false;
        } else if IsRepeat(ch) && !repeatable {
          ok := false;
        }
        repeatable := !IsInSet(ch, "^$?*+");
      }
      i := i + 1;
    }
    assert re[|re|..] == [];
  }

  lemma ScanEscape(re: string, i: nat, repeatable: bool)
    requires i < |re| && re[i] == '\\'
    ensures ScanFrom(re, i, repeatable) <==> i + 1 < |re| && IsValidEscape(re[i + 1]) && ScanFrom(re, i + 2, true)
  {
    var t := re[i..];
    assert i + 2 < |re| ==> t[2] == re[i + 2];
    assert i + 2 <= |re| ==> t[2..] == re[i + 2..];
    assert i + 3 <= |re| ==> t[3..] == re[i + 3..];
  }

  lemma ScanPlain(re: string, i: nat, repeatable: bool)
    requires i < |re| && re[i] != '\\'
    ensures var ch := re[i];
      var bad := ch == '^' || (ch == '$' && i + 1 < |re|) || IsInSet(ch, "()[]{}|") || (IsRepeat(ch) && !repeatable);
      ScanFrom(re, i, repeatable) <==> !bad && ScanFrom(re, i + 1, !IsInSet(ch, "^$?*+"))
  {
    var t := re[i..];
    assert i + 1 < |re| ==> t[1] == re[i + 1];
    assert t[1..] == re[i + 1..];
    assert i + 2 <= |re| ==> t[2..] == re[i + 2..];
    assert i + 1 == |re| ==> t == [re[i]] && re[i + 1..] == [];
    if re[i] == '$' && i + 1 < |re| {
      assert t != "$";
    }
  }

  // ---------------------------------------------------------------- the matcher

  /** Some prefix of `s` is in the language; the whole of `s` if pinned to the end. */
  ghost predicate AtHead(items: seq<Item>, atEnd: bool, s: string) {
    exists k :: 0 <= k <= |s| && (atEnd ==> k == |s|) && InLanguage(items, s[..k])
  }

  lemma HeadOfNothing(atEnd: bool, s: string)
    ensures AtHead([], atEnd, s) <==> !atEnd || s == []
  {
    assert s[..0] == [];
    if !atEnd || s == [] {
      assert InLanguage([], s[..0]);
    }
  }

  /** The first item takes `j` characters, and the other items match at the head of what is left. */
  ghost predicate SplitsAt(it: Item, rest: seq<Item>, atEnd: bool, s: string, j: int) {
    0 <= j <= |s| && ItemMatches(it, s[..j]) && AtHead(rest, atEnd, s[j..])
  }

  lemma HeadOfItem(it: Item, rest: seq<Item>, atEnd: bool, s: string)
    ensures AtHead([it] + rest, atEnd, s) <==> exists j :: SplitsAt(it, rest, atEnd, s, j)
  {
    var items := [it] + rest;
    assert items[0] == it && items[1..] == rest;
    if AtHead(items, atEnd, s) {
      var k :| 0 <= k <= |s| && (atEnd ==> k == |s|) && InLanguage(items, s[..k]);
      var j :| 0 <= j <= |s[..k]| && ItemMatches(items[0], s[..k][..j]) && InLanguage(items[1..], s[..k][j..]);
      assert s[..k][..j] == s[..j] && s[..k][j..] == s[j..][..k - j];
      assert SplitsAt(it, rest, atEnd, s, j);
    }
    if j :| SplitsAt(it, rest, atEnd, s, j) {
      var m :| 0 <= m <= |s[j..]| && (atEnd ==> m == |s[j..]|) && InLanguage(rest, s[j..][..m]);
      var k := j + m;
      assert s[..k][..j] == s[..j] && s[..k][j..] == s[j..][..m];
      assert InLanguage(items, s[..k]);
    }
  }

  lemma AtomsStop(escaped: bool, c: char, s: string, i: nat, j: nat)
    requires i < j <= |s| && !AtomMatchesChar(escaped, c, s[i])
    ensures !AtomsMatch(escaped, c, s[..j])
  {
    assert s[..j][i] == s[i];
  }

  /** An atom repeated, and then the rest of the pattern. */
  method MatchRepetitionAndRegexAtHead(escaped: bool, c: char, repeat: char, regex: string, str: string) returns (r: bool)
    requires IsRepeat(repeat) && ValidTail(regex)
    ensures r <==> AtHead([Item(escaped, c, RepeatOf(repeat))] + ParseItems(regex), EndsPinned(regex), str)
    decreases |regex|, 1
  {
    ghost var it, rest, atEnd := Item(escaped, c, RepeatOf(repeat)), ParseItems(regex), EndsPinned(regex);
    HeadOfItem(it, rest, atEnd, str);
    hide ParseItems, EndsPinned, ValidTail, AtHead, AtomMatchesChar;
    var minCount := if repeat == '+' then 1 else 0;
    var i := 0;
    while repeat != '?' || i <= 1
      invariant 0 <= i <= |str| && AtomsMatch(escaped, c, str[..i])
      invariant forall j :: 0 <= j < i ==> !SplitsAt(it, rest, atEnd, str, j)
      decreases |str| - i
    {
      if i >= minCount {
        var tail := MatchRegexAtHead(regex, str[i..]);
        if tail {
          assert SplitsAt(it, rest, atEnd, str, i);
          return true;
        }
      }
      assert !SplitsAt(it, rest, atEnd, str, i);
      if i == |str| || !AtomMatchesChar(escaped, c, str[i]) {
        forall j | i < j <= |str|
          ensures !SplitsAt(it, rest, atEnd, str, j)
        {
          AtomsStop(escaped, c, str, i, j);
        }
        return false;
      }
      assert str[..i + 1] == str[..i] + [str[i]];
      i := i + 1;
    }
    return false;
  }

  method MatchRegexAtHead(regex: string, str: string) returns (r: bool)
    requires ValidTail(regex)
    ensures r <==> AtHead(ParseItems(regex), EndsPinned(regex), str)
    decreases |regex|, 0
  {
    if regex == [] {
      HeadOfNothing(false, str);
      return true;
    }
    if regex[0] == '$' {
      HeadOfNothing(true, str);
      return str == [];
    }
    var escaped := regex[0] == '\\';
    var n := AtomLength(regex);
    if n < |regex| && IsRepeat(regex[n]) {
      r := MatchRepetitionAndRegexAtHead(escaped, regex[n - 1], regex[n], regex[n + 1..], str);
    } else {
      r := false;
      ghost var it, rest, atEnd := Item(escaped, regex[n - 1], Once), ParseItems(regex[n..]), EndsPinned(regex[n..]);
      HeadOfItem(it, rest, atEnd, str);
      OnceSplits(it, rest, atEnd, str);
      hide ParseItems, EndsPinned, AtHead;
      if str != [] && AtomMatchesChar(escaped, regex[n - 1], str[0]) {
        r := MatchRegexAtHead(regex[n..], str[1..]);
      }
    }
  }

  /** An atom without repetition takes exactly one character. */
  lemma OnceSplits(it: Item, rest: seq<Item>, atEnd: bool, s: string)
    requires it.repeat == Once
    ensures (exists j :: SplitsAt(it, rest, atEnd, s, j))
       <==> s != [] && AtomMatchesChar(it.escaped, it.c, s[0]) && AtHead(rest, atEnd, s[1..])
  {
    hide AtomMatchesChar, AtHead;
    if j :| SplitsAt(it, rest, atEnd, s, j) {
      assert j == 1 && s[..1][0] == s[0];
    }
    if s != [] && AtomMatchesChar(it.escaped, it.c, s[0]) && AtHead(rest, atEnd, s[1..]) {
      assert s[..1] == [s[0]];
      assert SplitsAt(it, rest, atEnd, s, 1);
    }
  }

  /** Contained in `s`: at the head of some suffix, or of `s` itself if pinned to the start. */
  lemma ContainsAtHead(p: Pattern, s: string)
    ensures Contains(p, s) <==> exists i :: 0 <= i <= |s| && (p.atStart ==> i == 0) && AtHead(p.items, p.atEnd, s[i..])
  {
    if Contains(p, s) {
      var i, j :| 0 <= i <= j <= |s| && (p.atStart ==> i == 0) && (p.atEnd ==> j == |s|) && InLanguage(p.items, s[i..j]);
      assert s[i..][..j - i] == s[i..j];
      assert AtHead(p.items, p.atEnd, s[i..]);
    }
    if i :| 0 <= i <= |s| && (p.atStart ==> i == 0) && AtHead(p.items, p.atEnd, s[i..]) {
      var k :| 0 <= k <= |s[i..]| && (p.atEnd ==> k == |s[i..]|) && InLanguage(p.items, s[i..][..k]);
      assert s[i..][..k] == s[i..i + k];
    }
  }

  /** Decides whether some substring of `str` is in the language of a valid pattern. */
  method MatchRegexAnywhere(regex: Option<NulFree>, str: Option<NulFree>) returns (r: bool)
    requires regex.Some? ==> ValidRegex(regex.value)
    ensures r <==> regex.Some? && str.Some? && Contains(Parse(regex.value), str.value)
  {
    if regex.None? || str.None? {
      return false;
    }
    var re: string, s: string := regex.value, str.value;
    ghost var p := Parse(re);
    ContainsAtHead(p, s);
    assert s[0..] == s;
    if re != [] && re[0] == '^' {
      r := MatchRegexAtHead(re[1..], s);
      return;
    }
    hide ParseItems, EndsPinned, ValidTail, AtHead, Contains;
    var i := 0;
    while true
      invariant 0 <= i <= |s|
      invariant forall k :: 0 <= k < i ==> !AtHead(p.items, p.atEnd, s[k..])
      decreases |s| - i
    {
      var here := MatchRegexAtHead(re, s[i..]);
      if here {
        return true;
      }
      if i == |s| {
        return false;
      }
      i := i + 1;
    }
  }

  // ---------------------------------------------------------------- full patterns

  /** The pattern that RE::Init builds for a full match: '^' in front and '$' behind, unless they are
      there already. */
  function FullPattern(re: string): string {
    (if re != [] && re[0] == '^' then [] else ['^']) + re + (if re == [] || re[|re| - 1] != '$' then ['$'] else [])
  }

  /** How many backslashes `s` ends with. */
  function Backslashes(s: string): nat {
    if s == [] || s[|s| - 1] != '\\' then 0 else 1 + Backslashes(s[..|s| - 1])
  }

  /** The pattern ends with an escaped dollar sign: RE::Init takes it for an anchor. */
  predicate EndsWithEscapedDollar(re: string) {
    re != [] && re[|re| - 1] == '$' && Backslashes(re[..|re| - 1]) % 2 == 1
  }

  /** A valid pattern that ends with '$' is pinned to the end unless that '$' is escaped. */
  lemma {:induction false} PinnedOrEscaped(re: string)
    requires ValidTail(re)
    ensures EndsPinned(re) <==> re != [] && re[|re| - 1] == '$' && !EndsWithEscapedDollar(re)
    decreases |re|
  {
    if re == [] {
    } else if re == "$" {
      assert re[..0] == [];
    } else {
      var n := AtomLength(re);
      var m := if n < |re| && IsRepeat(re[n]) then n + 1 else n;
      var rest := re[m..];
      PinnedOrEscaped(rest);
      if rest == [] {
        LastAtom(re, n, m);
      } else {
        TailBackslashes(re, n, m);
      }
    }
  }

  /** If the last thing in the pattern is an atom, perhaps repeated, there is no anchor. */
  lemma LastAtom(re: string, n: nat, m: nat)
    requires AtomAt(re) && n == AtomLength(re) && n <= m <= n + 1 && m == |re|
    requires m == n + 1 ==> IsRepeat(re[n])
    ensures re[|re| - 1] == '$' ==> EndsWithEscapedDollar(re)
  {
    if re[|re| - 1] == '$' {
      assert re[..1] == ['\\'];
      assert ['\\'][..0] == [];
      assert Backslashes(['\\']) == 1;
    }
  }

  /** Atoms in front do not change the parity of the backslashes before the final character. */
  lemma TailBackslashes(re: string, n: nat, m: nat)
    requires AtomAt(re) && n == AtomLength(re) && n <= m <= n + 1 && m < |re|
    requires m == n + 1 ==> IsRepeat(re[n])
    ensures re[|re| - 1] == re[m..][|re[m..]| - 1]
    ensures EndsWithEscapedDollar(re) <==> EndsWithEscapedDollar(re[m..])
  {
    var head, rest := re[..m], re[m..];
    var r := rest[..|rest| - 1];
    assert re[..|re| - 1] == head + r;
    EvenBackslashes(re, n, m);
    hide AtomAt;
    BackslashParity(head, r);
  }

  lemma EvenBackslashes(re: string, n: nat, m: nat)
    requires AtomAt(re) && n == AtomLength(re) && n <= m <= n + 1 && m <= |re|
    requires m == n + 1 ==> IsRepeat(re[n])
    ensures Backslashes(re[..m]) % 2 == 0
  {
    var head := re[..m];
    if head[m - 1] == '\\' {
      assert m == 2 && head[..1] == ['\\'] && ['\\'][..0] == [];
      assert Backslashes(['\\']) == 1;
    }
  }

  lemma {:induction false} BackslashParity(a: string, b: string)
    requires Backslashes(a) % 2 == 0
    ensures Backslashes(a + b) % 2 == Backslashes(b) % 2
    decreases |b|
  {
    if b == [] {
      assert a + b == a;
    } else {
      assert (a + b)[|a + b| - 1] == b[|b| - 1];
      assert (a + b)[..|a + b| - 1] == a + b[..|b| - 1];
      if b[|b| - 1] == '\\' {
        BackslashParity(a, b[..|b| - 1]);
      }
    }
  }

  /** Putting '$' behind a valid pattern that does not end with one keeps its items and pins it. */
  lemma {:induction false} AppendDollar(re: string)
    requires ValidTail(re) && (re == [] || re[|re| - 1] != '$')
    ensures ValidTail(re + "$") && ParseItems(re + "$") == ParseItems(re) && EndsPinned(re + "$")
    decreases |re|
  {
    hide *;
    if re == [] {
      assert re + "$" == "$";
      OnlyDollar();
    } else {
      TailStep(re);
      var m := AtomEnd(re);
      AppendDollar(re[m..]);
      FirstStays(re);
      assert (re + "$")[m..] == re[m..] + "$";
      TailStep(re + "$");
    }
  }

  /** Where the first atom with its repetition ends, and what it parses to. */
  function AtomEnd(re: string): nat
    requires re != []
  {
    var n := AtomLength(re);
    if n < |re| && IsRepeat(re[n]) then n + 1 else n
  }

  function FirstItemOf(re: string): Item
    requires AtomAt(re)
  {
    var n := AtomLength(re);
    Item(re[0] == '\\', re[n - 1], if n < |re| && IsRepeat(re[n]) then RepeatOf(re[n]) else Once)
  }

  lemma OnlyDollar()
    ensures ValidTail("$") && ValidTail([]) && ParseItems("$") == ParseItems([]) == [] && EndsPinned("$")
  {
  }

  lemma TailStep(re: string)
    requires re != [] && re != "$"
    ensures AtomAt(re) ==> 1 <= AtomEnd(re) <= |re|
    ensures ValidTail(re) <==> AtomAt(re) && ValidTail(re[AtomEnd(re)..])
    ensures ValidTail(re) ==>
      ParseItems(re) == [FirstItemOf(re)] + ParseItems(re[AtomEnd(re)..]) && (EndsPinned(re) <==> EndsPinned(re[AtomEnd(re)..]))
  {
    hide IsAsciiPunct, IsValidEscape, IsInSet;
  }

  lemma FirstStays(re: string)
    requires AtomAt(re)
    ensures AtomAt(re + "$") && AtomEnd(re + "$") == AtomEnd(re) && FirstItemOf(re + "$") == FirstItemOf(re) && re + "$" != "$"
    ensures re[AtomEnd(re)..] == [] || re[AtomEnd(re)..][|re[AtomEnd(re)..]| - 1] == re[|re| - 1]
  {
    var longer := re + "$";
    hide IsAsciiPunct, IsValidEscape, IsInSet;
    assert longer[0] == re[0] && longer[|re|] == '$' && (|re| >= 2 ==> longer[1] == re[1]);
    var n := AtomLength(re);
    assert n <= |re| && longer[n] == if n < |re| then re[n] else '$';
    DollarIsNoRepeat();
  }

  lemma DollarIsNoRepeat()
    ensures !IsRepeat('$')
  {
  }

  /** What the full pattern of a valid pattern means: the same items, pinned to the start, and pinned
      to the end unless the pattern ends with an escaped dollar sign. */
  lemma FullPatternMeans(re: string)
    requires ValidRegex(re)
    ensures ValidRegex(FullPattern(re))
    ensures Parse(FullPattern(re)) == Pattern(true, Parse(re).items, !EndsWithEscapedDollar(re))
  {
    hide ValidTail, ParseItems, EndsPinned, EndsWithEscapedDollar, FullPattern;
    var hat := re != [] && re[0] == '^';
    var tail := if hat then re[1..] else re;
    var pinned := if tail == [] || tail[|tail| - 1] != '$' then tail + "$" else tail;
    FullPatternIs(re);
    PinnedOrEscaped(tail);
    if hat {
      HatBackslashes(re);
    }
    if tail == [] || tail[|tail| - 1] != '$' {
      AppendDollar(tail);
      NoDollarNotEscaped(re);
    }
    assert FullPattern(re)[1..] == pinned;
  }

  lemma NoDollarNotEscaped(re: string)
    ensures re == [] || re[|re| - 1] != '$' ==> !EndsWithEscapedDollar(re)
  {
  }

  lemma FullPatternIs(re: string)
    ensures var tail := if re != [] && re[0] == '^' then re[1..] else re;
      FullPattern(re) == ['^'] + (if tail == [] || tail[|tail| - 1] != '$' then tail + "$" else tail)
  {
    var tail := if re != [] && re[0] == '^' then re[1..] else re;
    assert re != [] && re[0] == '^' ==> re == ['^'] + tail;
    assert tail != [] ==> re != [] && re[|re| - 1] == tail[|tail| - 1];
  }

  lemma HatBackslashes(re: string)
    requires re != [] && re[0] == '^'
    ensures EndsWithEscapedDollar(re) <==> EndsWithEscapedDollar(re[1..])
  {
    if |re| > 1 {
      assert re[..|re| - 1] == ['^'] + re[1..][..|re| - 2];
      assert ['^'][..0] == [] && Backslashes(['^']) == 0;
      BackslashParity(['^'], re[1..][..|re| - 2]);
    }
  }

  // ---------------------------------------------------------------- the class RE

  class RE {
    var mPattern: Option<NulFree>
    var mFullPattern: Option<NulFree>
    var mIsValid: bool

    /** The fields as Init leaves them. */
    ghost predicate Valid()
      reads this
    {
      && (mIsValid <==> mPattern.Some? && ValidRegex(mPattern.value))
      && (mIsValid ==> mFullPattern == Some(FullPattern(mPattern.value)))
      && (!mIsValid ==> mFullPattern.None?)
    }

    constructor (regex: Option<NulFree>)
      ensures Valid() && mPattern == regex
    {
      mPattern := regex;
      mFullPattern := None;
      var ok := ValidateRegex(regex);
      mIsValid := ok;
      if ok {
        var re := regex.value;
        var buffer: string := [];
        if re == [] || re[0] != '^' {
          buffer := buffer + ['^'];
        }
        buffer := buffer + re;
        if re == [] || re[|re| - 1] != '$' {
          buffer := buffer + ['$'];
        }
        assert buffer == FullPattern(re);
        mFullPattern := Some(buffer);
      }
    }

    /** An invalid expression matches nothing; a valid one that does not end with an escaped dollar
        sign matches exactly the texts in its language, the others every text with a prefix there. */
    method FullMatch(str: NulFree) returns (r: bool)
      requires Valid()
      ensures r <==> mIsValid && FullyMatches(mPattern.value, str)
    {
      r := false;
      if mIsValid {
        FullPatternMeans(mPattern.value);
        hide ValidTail, ParseItems, EndsPinned, FullPattern, Contains;
        r := MatchRegexAnywhere(mFullPattern, Some(str));
      }
    }

    method PartialMatch(str: NulFree) returns (r: bool)
      requires Valid()
      ensures r <==> mIsValid && Contains(Parse(mPattern.value), str)
    {
      r := false;
      if mIsValid {
        r := MatchRegexAnywhere(mPattern, Some(str));
      }
    }
  }

  /** What FullMatch decides for a valid pattern. */
  ghost predicate FullyMatches(re: string, s: string)
    requires ValidRegex(re)
  {
    Contains(Pattern(true, Parse(re).items, !EndsWithEscapedDollar(re)), s)
  }

  /** A pattern of one escape is found in a text of one character exactly if it matches that character. */
  lemma OneEscape(p: char, c: char)
    requires IsValidEscape(p)
    ensures ValidRegex(['\\', p])
    ensures Contains(Parse(['\\', p]), [c]) <==> AtomMatchesChar(true, p, c)
  {
    var re := ['\\', p];
    hide IsAsciiPunct, AtomMatchesChar;
    assert re != "$" && re[2..] == [];
    var items := ParseItems(re);
    assert items == [Item(true, p, Once)] + ParseItems([]);
    assert items[1..] == [] && !EndsPinned(re);
    OneItem(items[0], c);
    hide *;
    OneItemContained(Parse(re), items[0], c);
  }

  lemma OneItem(it: Item, c: char)
    requires it.repeat == Once
    ensures ItemMatches(it, [c]) <==> AtomMatchesChar(it.escaped, it.c, c)
    ensures !ItemMatches(it, [])
  {
    hide AtomMatchesChar;
    if ItemMatches(it, [c]) {
      assert AtomMatchesChar(it.escaped, it.c, [c][0]);
    }
  }

  lemma OneItemContained(pattern: Pattern, it: Item, c: char)
    requires pattern == Pattern(false, [it], false) && !ItemMatches(it, [])
    ensures Contains(pattern, [c]) <==> ItemMatches(it, [c])
  {
    hide ItemMatches;
    assert [it][1..] == [];
    var s := [c];
    assert s[0..1] == s && s[..1] == s && s[1..] == [] && s[0..0] == [] && s[1..1] == [];
    if ItemMatches(it, s) {
      assert InLanguage([], s[1..]);
      assert InLanguage([it], s[0..1]);
    }
    if Contains(pattern, s) {
      var i, j :| 0 <= i <= j <= |s| && InLanguage([it], s[i..j]);
      var t := s[i..j];
      var k :| 0 <= k <= |t| && ItemMatches(it, t[..k]) && InLanguage([it][1..], t[k..]);
      assert t[..k] == [] || t[..k] == s;
    }
  }

  // ---------------------------------------------------------------- when a full match is one

  /** A character that an atom of a valid pattern matches. */
  function Sample(escaped: bool, c: char): char {
    if escaped then
      match c
      case 'd' => '0' case 'D' => 'a' case 'f' => '\U{0C}' case 'n' => '\n' case 'r' => '\r' case 's' => ' '
      case 'S' => 'a' case 't' => '\t' case 'v' => '\U{0B}' case 'w' => 'a' case 'W' => ' ' case _ => c
    else if c == '.' then 'a' else c
  }

  /** The language of a valid pattern is never empty. */
  lemma {:induction false} SampleWord(re: string) returns (w: string)
    requires ValidTail(re) && '\0' !in re
    ensures InLanguage(ParseItems(re), w) && '\0' !in w
    decreases |re|
  {
    if re == [] || re == "$" {
      return [];
    }
    var n := AtomLength(re);
    var m := if n < |re| && IsRepeat(re[n]) then n + 1 else n;
    var rest := SampleWord(re[m..]);
    var it := ParseItems(re)[0];
    assert re[n - 1] in re;
    w := [Sample(it.escaped, it.c)] + rest;
    assert w[..1] == [Sample(it.escaped, it.c)] && w[1..] == rest;
    assert ParseItems(re)[1..] == ParseItems(re[m..]);
    SampleMatches(it.escaped, it.c);
    assert ItemMatches(it, w[..1]);
  }

  lemma SampleMatches(escaped: bool, c: char)
    requires escaped ==> IsValidEscape(c)
    requires c != '\0'
    ensures AtomMatchesChar(escaped, c, Sample(escaped, c)) && Sample(escaped, c) != '\0'
  {
  }

  /** Every text in the language of a pattern that ends with an escaped dollar sign ends with '$'. */
  lemma {:induction false} LastIsDollar(re: string, t: string)
    requires ValidTail(re) && EndsWithEscapedDollar(re) && InLanguage(ParseItems(re), t)
    ensures t != [] && t[|t| - 1] == '$'
    decreases |re|
  {
    hide *;
    NotOnlyDollar(re);
    var n, m, k := FirstItem(re, t);
    if m == |re| {
      LastAtomIsDollar(re, n, m, t, k);
    } else {
      TailBackslashes(re, n, m);
      LastIsDollar(re[m..], t[k..]);
    }
  }

  lemma NotOnlyDollar(re: string)
    requires EndsWithEscapedDollar(re)
    ensures re != [] && re != "$"
  {
    assert "$"[..0] == [];
  }

  /** The first atom of a pattern with its repetition ends at `m` and takes `k` characters. */
  lemma FirstItem(re: string, t: string) returns (n: nat, m: nat, k: nat)
    requires ValidTail(re) && re != [] && re != "$" && InLanguage(ParseItems(re), t)
    ensures AtomAt(re) && 1 <= n == AtomLength(re) <= m <= n + 1 && m <= |re|
    ensures m == n + 1 ==> IsRepeat(re[n])
    ensures ValidTail(re[m..]) && ParseItems(re) != [] && k <= |t|
    ensures m == n ==> ParseItems(re)[0] == Item(re[0] == '\\', re[n - 1], Once)
    ensures ItemMatches(ParseItems(re)[0], t[..k]) && InLanguage(ParseItems(re[m..]), t[k..])
  {
    hide IsAsciiPunct, IsValidEscape, ItemMatches, IsInSet;
    n := AtomLength(re);
    m := if n < |re| && IsRepeat(re[n]) then n + 1 else n;
    var items := ParseItems(re);
    k :| 0 <= k <= |t| && ItemMatches(items[0], t[..k]) && InLanguage(items[1..], t[k..]);
    assert items[1..] == ParseItems(re[m..]);
  }

  lemma LastAtomIsDollar(re: string, n: nat, m: nat, t: string, k: nat)
    requires re != [] && EndsWithEscapedDollar(re) && n == AtomLength(re) && n <= m <= n + 1 && m == |re|
    requires m == n + 1 ==> IsRepeat(re[n])
    requires k <= |t| && ValidTail(re[m..]) && InLanguage(ParseItems(re[m..]), t[k..])
    requires m == n ==> ItemMatches(Item(re[0] == '\\', re[n - 1], Once), t[..k])
    ensures t != [] && t[|t| - 1] == '$'
  {
    hide *;
    LastAtomShape(re, n, m);
    assert re[m..] == [];
    NothingLeft(t[k..]);
    assert t[..k] == t;
    OneDollar(t);
  }

  lemma LastAtomShape(re: string, n: nat, m: nat)
    requires re != [] && EndsWithEscapedDollar(re) && n == AtomLength(re) && n <= m <= n + 1 && m == |re|
    requires m == n + 1 ==> IsRepeat(re[n])
    ensures m == n == 2 && re[0] == '\\' && re[1] == '$'
  {
    var before := re[..|re| - 1];
    assert |before| == 0 ==> before == [];
  }

  lemma NothingLeft(t: string)
    ensures ValidTail([]) && (InLanguage(ParseItems([]), t) <==> t == [])
  {
  }

  lemma OneDollar(t: string)
    requires ItemMatches(Item(true, '$', Once), t)
    ensures t != [] && t[|t| - 1] == '$'
  {
  }

  /** The pattern of a backslash and a dollar sign stands for the text "$", but FullMatch accepts "$x". */
  lemma EscapedDollarIsNoAnchor()
    ensures ValidRegex("\\$") && FullyMatches("\\$", "$x") && !InLanguage(Parse("\\$").items, "$x")
  {
    var re := "\\$";
    assert re[2..] == "" && re[..1] == "\\" && "\\"[..0] == "";
    assert Backslashes("") == 0 && Backslashes(re[..1]) == 1;
    assert ParseItems(re) == [Item(true, '$', Once)] + ParseItems("");
    var items := ParseItems(re);
    assert "$x"[0..1] == "$" && "$"[..1] == "$" && "$"[1..] == "";
    assert ItemMatches(items[0], "$");
    assert InLanguage(items[1..], "");
    assert InLanguage(items, "$x"[0..1]);
    forall k | 0 <= k <= 2 && ItemMatches(items[0], "$x"[..k])
      ensures !InLanguage(items[1..], "$x"[k..])
    {
      assert k == 1;
    }
  }

  /** FullMatch means what it says for every text if and only if the pattern does not end with an
      escaped dollar sign. */
  lemma FullMatchIsWholeMatch(re: NulFree)
    requires ValidRegex(re)
    ensures (forall s: NulFree :: FullyMatches(re, s) <==> InLanguage(Parse(re).items, s)) <==> !EndsWithEscapedDollar(re)
  {
    var items := Parse(re).items;
    forall s: NulFree
      ensures InLanguage(items, s) ==> FullyMatches(re, s)
      ensures !EndsWithEscapedDollar(re) && FullyMatches(re, s) ==> InLanguage(items, s)
    {
      assert s[0..|s|] == s;
    }
    if EndsWithEscapedDollar(re) {
      var tail := if re[0] == '^' then re[1..] else re;
      if re[0] == '^' {
        HatBackslashes(re);
      }
      var w := SampleWord(tail);
      var s: NulFree := w + "x";
      assert s[0..|w|] == w;
      assert FullyMatches(re, s);
      if InLanguage(items, s) {
        LastIsDollar(tail, s);
        assert false;
      }
    }
  }
}
