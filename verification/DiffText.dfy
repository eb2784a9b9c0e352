/** The text of printed hunks, and reading it back.

    A hunk is a header line with one or two ranges in decimal numbers, then one line for each of its
    lines.  `DiffReads` says that the text of hunks whose lines hold no line break reads as those hunks. */
module DiffText {
  import opened Wrappers

  datatype Line = Line(tag: char, text: string)

  /** Start (counted from 1) and length of one side of a hunk. */
  datatype Span = Span(start: nat, length: nat)

  /** A side of the header is printed only if the hunk removes (adds) something. */
  datatype PrintedHunk = PrintedHunk(leftSpan: Option<Span>, rightSpan: Option<Span>, lines: seq<Line>)

  // ---------------------------------------------------------------- printing

  function Digit(d: nat): char
    requires d < 10
  {
    "0123456789"[d]
  }

  function Decimal(n: nat): string {
    if n < 10 then [Digit(n)] else Decimal(n / 10) + [Digit(n % 10)]
  }

  function Range(s: Span): string {
    Decimal(s.start) + "," + Decimal(s.length)
  }

  function Header(left: Option<Span>, right: Option<Span>): string {
    "@@ " + (if left.Some? then "-" + Range(left.value) else "")
    + (if left.Some? && right.Some? then " " else "")
    + (if right.Some? then "+" + Range(right.value) else "") + " @@"
  }

  /** The characters before the first NUL. */
  function CText(s: string): string {
    if s == [] || s[0] == '\0' then [] else [s[0]] + CText(s[1..])
  }

  function LineText(l: Line): string {
    [l.tag] + CText(l.text) + "\n"
  }

  function Body(ls: seq<Line>): string {
    if ls == [] then "" else LineText(ls[0]) + Body(ls[1..])
  }

  function HunkText(h: PrintedHunk): string {
    Header(h.leftSpan, h.rightSpan) + "\n" + Body(h.lines)
  }

  function DiffOf(hs: seq<PrintedHunk>): string {
    if hs == [] then "" else DiffOf(hs[..|hs| - 1]) + HunkText(hs[|hs| - 1])
  }

  // ---------------------------------------------------------------- reading

  predicate IsDigit(c: char) {
    '0' <= c <= '9'
  }

  /** How many digits `s` starts with. */
  function Digits(s: string): (n: nat)
    ensures n <= |s| && forall i :: 0 <= i < n ==> IsDigit(s[i])
  {
    if s == [] || !IsDigit(s[0]) then 0 else 1 + Digits(s[1..])
  }

  function Value(s: string): nat
    requires forall i :: 0 <= i < |s| ==> IsDigit(s[i])
  {
    if s == [] then 0
    else
      assert IsDigit(s[|s| - 1]);
      10 * Value(s[..|s| - 1]) + (s[|s| - 1] as nat - '0' as nat)
  }

  /** A range, and what follows it. */
  function ReadRange(s: string): Option<(Span, string)> {
    var n := Digits(s);
    if n == 0 || n == |s| || s[n] != ',' then None else
    var t := s[n + 1..];
    var m := Digits(t);
    if m == 0 then None else Some((Span(Value(s[..n]), Value(t[..m])), t[m..]))
  }

  /** The two sides that a header line names. */
  function ReadHeader(s: string): Option<(Option<Span>, Option<Span>)> {
    if !("@@ " <= s) then None else
    var t := s[3..];
    if t != [] && t[0] == '-' then
      var (left, u) :- ReadRange(t[1..]);
      if u == " @@" then Some((Some(left), None))
      else if " +" <= u then
        var (right, w) :- ReadRange(u[2..]);
        if w == " @@" then Some((Some(left), Some(right))) else None
      else None
    else if t != [] && t[0] == '+' then
      var (right, w) :- ReadRange(t[1..]);
      if w == " @@" then Some((None, Some(right))) else None
    else if t == " @@" then Some((None, None))
    else None
  }

  /** Where the first line ends. */
  function LineEnd(s: string): (n: nat)
    ensures n <= |s| && '\n' !in s[..n] && (n < |s| ==> s[n] == '\n')
  {
    if s == [] || s[0] == '\n' then 0
    else
      var n := LineEnd(s[1..]);
      assert s[..n + 1] == [s[0]] + s[1..][..n];
      n + 1
  }

  /** The lines up to the next header, and what follows them. */
  function ReadBody(s: string): (r: (seq<Line>, string))
    ensures |r.1| <= |s|
    decreases |s|
  {
    if s == [] || s[0] == '@' || LineEnd(s) == |s| || LineEnd(s) == 0 then ([], s)
    else
      var n := LineEnd(s);
      var (rest, after) := ReadBody(s[n + 1..]);
      ([Line(s[0], s[1..n])] + rest, after)
  }

  function ReadDiff(s: string): Option<seq<PrintedHunk>>
    decreases |s|
  {
    if s == [] then Some([]) else
    var n := LineEnd(s);
    if n == |s| then None else
    var (left, right) :- ReadHeader(s[..n]);
    var (lines, after) := ReadBody(s[n + 1..]);
    var rest :- ReadDiff(after);
    Some([PrintedHunk(left, right, lines)] + rest)
  }

  // ---------------------------------------------------------------- numbers and ranges

  lemma DigitIs(d: nat)
    requires d < 10
    ensures IsDigit(Digit(d)) && Digit(d) as nat - '0' as nat == d
  {
  }

  lemma {:induction false} DecimalReads(n: nat)
    ensures Decimal(n) != [] && (forall i :: 0 <= i < |Decimal(n)| ==> IsDigit(Decimal(n)[i])) && Value(Decimal(n)) == n
  {
    var s := Decimal(n);
    hide Digit, IsDigit;
    if n < 10 {
      DigitIs(n);
      assert s[..0] == [];
    } else {
      DecimalReads(n / 10);
      DigitIs(n % 10);
      assert s[..|s| - 1] == Decimal(n / 10);
    }
  }

  lemma {:induction false} DigitsEnd(a: string, rest: string)
    requires forall i :: 0 <= i < |a| ==> IsDigit(a[i])
    requires rest == [] || !IsDigit(rest[0])
    ensures Digits(a + rest) == |a|
  {
    if a == [] {
      assert a + rest == rest;
    } else {
      assert (a + rest)[1..] == a[1..] + rest;
      DigitsEnd(a[1..], rest);
    }
  }

  lemma RangeReads(s: Span, rest: string)
    requires rest == [] || !IsDigit(rest[0])
    ensures ReadRange(Range(s) + rest) == Some((s, rest))
  {
    hide Decimal, Digits, Value;
    var a, b := Decimal(s.start), Decimal(s.length);
    DecimalReads(s.start);
    DecimalReads(s.length);
    var text := Range(s) + rest;
    assert text == a + ("," + (b + rest));
    DigitsEnd(a, "," + (b + rest));
    DigitsEnd(b, rest);
    assert text[|a| + 1..] == b + rest && text[..|a|] == a;
    assert (b + rest)[..|b|] == b && (b + rest)[|b|..] == rest;
  }

  lemma HeaderReads(left: Option<Span>, right: Option<Span>)
    ensures ReadHeader(Header(left, right)) == Some((left, right))
  {
    hide Range, ReadRange;
    var s := Header(left, right);
    var t := s[3..];
    if left.Some? {
      var u := if right.Some? then " +" + (Range(right.value) + " @@") else " @@";
      assert t == "-" + (Range(left.value) + u);
      assert t[1..] == Range(left.value) + u;
      RangeReads(left.value, u);
      if right.Some? {
        assert u[2..] == Range(right.value) + " @@";
        RangeReads(right.value, " @@");
      }
    } else if right.Some? {
      assert t == "+" + (Range(right.value) + " @@");
      assert t[1..] == Range(right.value) + " @@";
      RangeReads(right.value, " @@");
    } else {
      assert t == " @@";
    }
  }

  // ---------------------------------------------------------------- lines

  /** One line of a text file, and a C string. */
  predicate Unbroken(s: string) {
    '\n' !in s && '\0' !in s
  }

  /** Every line has a tag that no header starts with, and holds no line break. */
  ghost predicate Plain(ls: seq<Line>) {
    forall i :: 0 <= i < |ls| ==> ls[i].tag != '@' && ls[i].tag != '\n' && Unbroken(ls[i].text)
  }

  lemma {:induction false} CTextIs(s: string)
    requires '\0' !in s
    ensures CText(s) == s
  {
    if s != [] {
      CTextIs(s[1..]);
    }
  }

  lemma {:induction false} LineSplits(a: string, rest: string)
    requires '\n' !in a
    ensures LineEnd(a + "\n" + rest) == |a|
  {
    var s := a + "\n" + rest;
    if a != [] {
      assert s[1..] == a[1..] + "\n" + rest;
      LineSplits(a[1..], rest);
    }
  }

  lemma HeaderIsUnbroken(left: Option<Span>, right: Option<Span>)
    ensures '\n' !in Header(left, right)
  {
    if left.Some? {
      RangeIsUnbroken(left.value);
    }
    if right.Some? {
      RangeIsUnbroken(right.value);
    }
    hide Range;
  }

  lemma RangeIsUnbroken(s: Span)
    ensures '\n' !in Range(s)
  {
    DecimalReads(s.start);
    DecimalReads(s.length);
    hide Decimal, Value;
  }

  lemma {:induction false} BodyReads(ls: seq<Line>, rest: string)
    requires Plain(ls) && (rest == [] || rest[0] == '@')
    ensures ReadBody(Body(ls) + rest) == (ls, rest)
  {
    if ls == [] {
      assert Body(ls) + rest == rest;
    } else {
      hide *;
      var l, after := ls[0], Body(ls[1..]) + rest;
      var a := [l.tag] + l.text;
      PlainLines(ls);
      BodyStarts(ls);
      assert Body(ls) + rest == a + "\n" + after;
      BodyReads(ls[1..], rest);
      LineSplits(a, after);
      OneLineRead(l, after);
      assert ls == [l] + ls[1..];
    }
  }

  lemma PlainLines(ls: seq<Line>)
    requires ls != [] && Plain(ls)
    ensures Plain(ls[1..]) && ls[0].tag != '@' && ls[0].tag != '\n' && '\n' !in ls[0].text && '\n' !in [ls[0].tag] + ls[0].text
  {
    assert Unbroken(ls[0].text);
  }

  lemma BodyStarts(ls: seq<Line>)
    requires ls != [] && Plain(ls)
    ensures Body(ls) == [ls[0].tag] + ls[0].text + "\n" + Body(ls[1..])
  {
    assert Unbroken(ls[0].text);
    CTextIs(ls[0].text);
  }

  lemma OneLineRead(l: Line, after: string)
    requires l.tag != '@' && l.tag != '\n'
    requires LineEnd([l.tag] + l.text + "\n" + after) == |l.text| + 1
    ensures ReadBody([l.tag] + l.text + "\n" + after) == ([l] + ReadBody(after).0, ReadBody(after).1)
  {
    hide LineEnd;
    var n, s := |l.text| + 1, [l.tag] + l.text + "\n" + after;
    assert s[n + 1..] == after && s[1..n] == l.text && s[0] == l.tag;
  }

  // ---------------------------------------------------------------- hunks

  ghost predicate AllPlain(hs: seq<PrintedHunk>) {
    forall i :: 0 <= i < |hs| ==> Plain(hs[i].lines)
  }

  /** The text of hunks, from the first one on. */
  lemma {:induction false} DiffStarts(hs: seq<PrintedHunk>)
    requires hs != []
    ensures DiffOf(hs) == HunkText(hs[0]) + DiffOf(hs[1..])
  {
    hide HunkText;
    var n := |hs| - 1;
    if n == 0 {
      assert hs[..0] == [] && hs[1..] == [];
      assert DiffOf([]) == "";
    } else {
      DiffStarts(hs[..n]);
      assert hs[..n][0] == hs[0] && hs[..n][1..] == hs[1..][..n - 1] && hs[1..][n - 1] == hs[n];
    }
  }

  lemma DiffBegins(hs: seq<PrintedHunk>)
    ensures DiffOf(hs) == [] || DiffOf(hs)[0] == '@'
  {
    if hs != [] {
      DiffStarts(hs);
    }
  }

  lemma HunkReads(h: PrintedHunk, rest: string)
    requires Plain(h.lines) && (rest == [] || rest[0] == '@') && ReadDiff(rest).Some?
    ensures ReadDiff(HunkText(h) + rest) == Some([h] + ReadDiff(rest).value)
  {
    hide *;
    var header, body := Header(h.leftSpan, h.rightSpan), Body(h.lines) + rest;
    HunkTextIs(h);
    assert HunkText(h) + rest == header + "\n" + body;
    HeaderIsUnbroken(h.leftSpan, h.rightSpan);
    HeaderReads(h.leftSpan, h.rightSpan);
    LineSplits(header, body);
    BodyReads(h.lines, rest);
    OneHunkRead(header, body, h.leftSpan, h.rightSpan, h.lines, rest);
  }

  lemma HunkTextIs(h: PrintedHunk)
    ensures HunkText(h) == Header(h.leftSpan, h.rightSpan) + "\n" + Body(h.lines)
  {
  }

  lemma OneHunkRead(header: string, body: string, left: Option<Span>, right: Option<Span>, lines: seq<Line>, rest: string)
    requires LineEnd(header + "\n" + body) == |header| && ReadHeader(header) == Some((left, right))
    requires ReadBody(body) == (lines, rest) && ReadDiff(rest).Some?
    ensures ReadDiff(header + "\n" + body) == Some([PrintedHunk(left, right, lines)] + ReadDiff(rest).value)
  {
    hide ReadHeader, ReadBody, LineEnd;
    var s := header + "\n" + body;
    assert s[..|header|] == header && s[|header| + 1..] == body && s != [];
  }

  /** The text of hunks whose lines hold no line break reads as those hunks. */
  lemma {:induction false} DiffReads(hs: seq<PrintedHunk>)
    requires AllPlain(hs)
    ensures ReadDiff(DiffOf(hs)) == Some(hs)
  {
    if hs != [] {
      hide *;
      DiffStarts(hs);
      PlainParts(hs);
      DiffBegins(hs[1..]);
      DiffReads(hs[1..]);
      HunkReads(hs[0], DiffOf(hs[1..]));
      assert hs == [hs[0]] + hs[1..];
    }
  }

  lemma PlainParts(hs: seq<PrintedHunk>)
    requires hs != [] && AllPlain(hs)
    ensures Plain(hs[0].lines) && AllPlain(hs[1..])
  {
    hide Plain;
  }
}
