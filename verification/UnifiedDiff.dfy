/** Hunks of a unified diff, and what it means to replay them.

    `Replay` reads a list of printed hunks the way `patch` would: it trusts only what was printed.
    Whether replaying a diff of `left` and `right` on `left` gives `right` depends on the context
    alone: see the contract of `CreateUnifiedDiff`. */
module UnifiedDiff {
  import opened Wrappers
  import opened EditDistance
  import opened DiffText

  // ---------------------------------------------------------------- lines of a hunk

  /** The lines of a hunk that belong to the left text: ' ' and '-'. */
  function LeftOf(ls: seq<Line>): seq<string> {
    if ls == [] then []
    else LeftOf(ls[..|ls| - 1]) + (if ls[|ls| - 1].tag == '+' then [] else [ls[|ls| - 1].text])
  }

  /** ... and to the right text: ' ' and '+'. */
  function RightOf(ls: seq<Line>): seq<string> {
    if ls == [] then []
    else RightOf(ls[..|ls| - 1]) + (if ls[|ls| - 1].tag == '-' then [] else [ls[|ls| - 1].text])
  }

  function Count(ls: seq<Line>, tag: char): nat {
    if ls == [] then 0 else Count(ls[..|ls| - 1], tag) + (if ls[|ls| - 1].tag == tag then 1 else 0)
  }

  ghost predicate AllTagged(ls: seq<Line>, tag: char) {
    forall i :: 0 <= i < |ls| ==> ls[i].tag == tag
  }

  lemma {:induction false} ConcatLeft(a: seq<Line>, b: seq<Line>)
    ensures LeftOf(a + b) == LeftOf(a) + LeftOf(b)
  {
    if b == [] {
      assert a + b == a;
    } else {
      ConcatLeft(a, b[..|b| - 1]);
      assert (a + b)[..|a + b| - 1] == a + b[..|b| - 1];
    }
  }

  lemma {:induction false} ConcatRight(a: seq<Line>, b: seq<Line>)
    ensures RightOf(a + b) == RightOf(a) + RightOf(b)
  {
    if b == [] {
      assert a + b == a;
    } else {
      ConcatRight(a, b[..|b| - 1]);
      assert (a + b)[..|a + b| - 1] == a + b[..|b| - 1];
    }
  }

  lemma ConcatSides(a: seq<Line>, b: seq<Line>)
    ensures LeftOf(a + b) == LeftOf(a) + LeftOf(b)
    ensures RightOf(a + b) == RightOf(a) + RightOf(b)
  {
    ConcatLeft(a, b);
    ConcatRight(a, b);
  }

  lemma {:induction false} ConcatCounts(a: seq<Line>, b: seq<Line>)
    ensures forall tag :: Count(a + b, tag) == Count(a, tag) + Count(b, tag)
  {
    if b == [] {
      assert a + b == a;
    } else {
      ConcatCounts(a, b[..|b| - 1]);
      assert (a + b)[..|a + b| - 1] == a + b[..|b| - 1];
    }
  }

  lemma {:induction false} OneSided(ls: seq<Line>)
    ensures AllTagged(ls, '-') ==> RightOf(ls) == []
    ensures AllTagged(ls, '+') ==> LeftOf(ls) == []
  {
    if ls != [] {
      OneSided(ls[..|ls| - 1]);
    }
  }

  lemma {:induction false} SideLengths(ls: seq<Line>)
    requires Tagged(ls)
    ensures |LeftOf(ls)| == Count(ls, ' ') + Count(ls, '-')
    ensures |RightOf(ls)| == Count(ls, ' ') + Count(ls, '+')
  {
    if ls != [] {
      SideLengths(ls[..|ls| - 1]);
    }
  }

  /** The lines with another tag, in order: without '+' those of the left side, without '-' those of the
      right side. */
  function Without(ls: seq<Line>, tag: char): seq<Line> {
    if ls == [] then [] else Without(ls[..|ls| - 1], tag) + (if ls[|ls| - 1].tag == tag then [] else [ls[|ls| - 1]])
  }

  lemma {:induction false} ConcatWithout(a: seq<Line>, b: seq<Line>, tag: char)
    ensures Without(a + b, tag) == Without(a, tag) + Without(b, tag)
  {
    hide *;
    if b == [] {
      assert a + b == a;
      NoLines(tag);
    } else {
      ConcatWithout(a, b[..|b| - 1], tag);
      assert (a + b)[..|a + b| - 1] == a + b[..|b| - 1];
      LastWithout(a + b, tag);
      LastWithout(b, tag);
    }
  }

  lemma OneWithout(l: Line, tag: char)
    ensures Without([l], tag) == if l.tag == tag then [] else [l]
  {
    assert [l][..0] == [] && Without([], tag) == [];
  }

  lemma {:induction false} NoneWithout(ls: seq<Line>, tag: char)
    requires AllTagged(ls, tag)
    ensures Without(ls, tag) == []
  {
    if ls != [] {
      NoneWithout(ls[..|ls| - 1], tag);
    }
  }

  /** Two lists of lines with the same left lines, the same right lines, and as many lines of each kind. */
  ghost predicate SameText(a: seq<Line>, b: seq<Line>) {
    && Without(a, '+') == Without(b, '+') && Without(a, '-') == Without(b, '-')
    && LeftOf(a) == LeftOf(b) && RightOf(a) == RightOf(b)
    && Count(a, ' ') == Count(b, ' ') && Count(a, '-') == Count(b, '-') && Count(a, '+') == Count(b, '+')
  }

  lemma PushBoth(a: seq<Line>, b: seq<Line>, l: Line)
    requires SameText(a, b)
    ensures SameText(a + [l], b + [l])
    ensures forall tag :: Count(a + [l], tag) == Count(a, tag) + (if l.tag == tag then 1 else 0)
  {
    assert (a + [l])[..|a|] == a && (b + [l])[..|b|] == b;
  }

  /** A removal can be put before the pending additions. */
  lemma RemovalFirst(h: seq<Line>, adds: seq<Line>, l: Line)
    requires AllTagged(adds, '+') && l.tag == '-'
    ensures SameText(h + [l] + adds, h + adds + [l])
  {
    ConcatSides(h + [l], adds);
    ConcatSides(h, [l]);
    ConcatSides(h + adds, [l]);
    ConcatSides(h, adds);
    ConcatCounts(h + [l], adds);
    ConcatCounts(h, [l]);
    ConcatCounts(h + adds, [l]);
    ConcatCounts(h, adds);
    OneSided(adds);
    OneSided([l]);
    hide LeftOf, RightOf, Count, Without;
    SameWithout(h, adds, l, '+');
    SameWithout(h, adds, l, '-');
  }

  lemma SameWithout(h: seq<Line>, adds: seq<Line>, l: Line, tag: char)
    requires AllTagged(adds, '+') && l.tag == '-' && tag in {'+', '-'}
    ensures Without(h + [l] + adds, tag) == Without(h + adds + [l], tag)
  {
    hide *;
    ConcatWithout(h + [l], adds, tag);
    ConcatWithout(h, [l], tag);
    ConcatWithout(h + adds, [l], tag);
    ConcatWithout(h, adds, tag);
    OneWithout(l, tag);
    var x, y, z := Without(h, tag), Without([l], tag), Without(adds, tag);
    if tag == '+' {
      NoneWithout(adds, tag);
    }
    assert x + y + z == x + z + y;
  }

  // ---------------------------------------------------------------- the order of printed lines

  /** Between two common lines every removal stands before every addition. */
  ghost predicate RemovalsFirst(ls: seq<Line>) {
    forall i, j :: 0 <= i < j < |ls| && ls[i].tag == '+' && ls[j].tag == '-' ==> CommonBetween(ls, i, j)
  }

  ghost predicate CommonBetween(ls: seq<Line>, i: int, j: int) {
    exists k :: 0 <= i < k < j < |ls| && ls[k].tag == ' '
  }

  lemma OrderedParts(h: seq<Line>, removes: seq<Line>, adds: seq<Line>)
    requires RemovalsFirst(h) && (h == [] || h[|h| - 1].tag == ' ')
    requires AllTagged(removes, '-') && AllTagged(adds, '+')
    ensures RemovalsFirst(h + removes + adds)
  {
    var all := h + removes + adds;
    forall i, j | 0 <= i < j < |all| && all[i].tag == '+' && all[j].tag == '-'
      ensures CommonBetween(all, i, j)
    {
      if j < |h| {
        assert CommonBetween(h, i, j);
        var k :| i < k < j && h[k].tag == ' ';
        assert all[k] == h[k];
      } else {
        assert i < |h|;
        assert all[|h| - 1].tag == ' ';
      }
    }
  }

  lemma CommonLast(ls: seq<Line>, l: Line)
    requires RemovalsFirst(ls) && l.tag == ' '
    ensures RemovalsFirst(ls + [l])
  {
    var all := ls + [l];
    forall i, j | 0 <= i < j < |all| && all[i].tag == '+' && all[j].tag == '-'
      ensures CommonBetween(all, i, j)
    {
      assert CommonBetween(ls, i, j);
      var k :| i < k < j && ls[k].tag == ' ';
      assert all[k] == ls[k];
    }
  }

  /** Exactly `n` common lines at the start ... */
  ghost predicate CommonStart(ls: seq<Line>, n: nat) {
    n < |ls| && AllTagged(ls[..n], ' ') && ls[n].tag != ' '
  }

  /** ... and at the end. */
  ghost predicate CommonEnd(ls: seq<Line>, n: nat) {
    n < |ls| && AllTagged(ls[|ls| - n..], ' ') && ls[|ls| - n - 1].tag != ' '
  }

  ghost predicate Tagged(ls: seq<Line>) {
    forall i :: 0 <= i < |ls| ==> ls[i].tag in {' ', '-', '+'}
  }

  lemma FirstWithout(ls: seq<Line>, tag: char)
    requires ls != []
    ensures Without(ls, tag) == (if ls[0].tag == tag then [] else [ls[0]]) + Without(ls[1..], tag)
  {
    assert ls == [ls[0]] + ls[1..];
    ConcatWithout([ls[0]], ls[1..], tag);
    OneWithout(ls[0], tag);
  }

  /** Regrouping does not move common lines at the start ... */
  lemma {:induction false} SameStart(a: seq<Line>, b: seq<Line>, n: nat)
    requires Without(a, '+') == Without(b, '+') && Without(a, '-') == Without(b, '-')
    requires Tagged(a) && Tagged(b) && CommonStart(b, n)
    ensures CommonStart(a, n)
  {
    FirstWithout(b, '+');
    FirstWithout(b, '-');
    assert a != [] by {
      assert Without([], '+') == [] && Without([], '-') == [];
    }
    FirstWithout(a, '+');
    FirstWithout(a, '-');
    hide Without;
    FirstsAgree(a[0], b[0], Without(a[1..], '+'), Without(a[1..], '-'), Without(b[1..], '+'), Without(b[1..], '-'));
    if n > 0 {
      assert b[0] == b[..n][0];
      RestWithout(a[0], Without(a[1..], '+'), Without(b[1..], '+'));
      RestWithout(a[0], Without(a[1..], '-'), Without(b[1..], '-'));
      assert b[1..][..n - 1] == b[..n][1..];
      SameStart(a[1..], b[1..], n - 1);
      StartGrows(a, n);
    }
  }

  lemma FirstsAgree(a: Line, b: Line, a1: seq<Line>, a2: seq<Line>, b1: seq<Line>, b2: seq<Line>)
    requires a.tag in {' ', '-', '+'} && b.tag in {' ', '-', '+'}
    requires (if a.tag == '+' then [] else [a]) + a1 == (if b.tag == '+' then [] else [b]) + b1
    requires (if a.tag == '-' then [] else [a]) + a2 == (if b.tag == '-' then [] else [b]) + b2
    ensures a.tag == ' ' <==> b.tag == ' '
    ensures a.tag == ' ' ==> a == b
  {
    assert ([a] + a1)[0] == a && ([a] + a2)[0] == a && ([b] + b1)[0] == b && ([b] + b2)[0] == b;
    assert [] + a1 == a1 && [] + a2 == a2 && [] + b1 == b1 && [] + b2 == b2;
  }

  lemma RestWithout<T>(x: T, a: seq<T>, b: seq<T>)
    requires [x] + a == [x] + b
    ensures a == b
  {
    assert ([x] + a)[1..] == a && ([x] + b)[1..] == b;
  }

  lemma StartGrows(ls: seq<Line>, n: nat)
    requires ls != [] && n > 0 && ls[0].tag == ' ' && CommonStart(ls[1..], n - 1)
    ensures CommonStart(ls, n)
  {
    forall i | 0 <= i < n
      ensures ls[i].tag == ' '
    {
      assert i > 0 ==> ls[i] == ls[1..][..n - 1][i - 1];
    }
  }

  /** ... or at the end. */
  lemma {:induction false} SameEnd(a: seq<Line>, b: seq<Line>, n: nat)
    requires Without(a, '+') == Without(b, '+') && Without(a, '-') == Without(b, '-')
    requires Tagged(a) && Tagged(b) && CommonEnd(b, n)
    ensures CommonEnd(a, n)
    decreases n
  {
    hide *;
    EndParts(b, n);
    LastWithout(b, '+');
    LastWithout(b, '-');
    NoLines('+');
    NoLines('-');
    LastTagged(b);
    LastTagged(a);
    LastWithout(a, '+');
    LastWithout(a, '-');
    var x, y := a[|a| - 1], b[|b| - 1];
    if n == 0 {
      if x.tag == ' ' {
        LastsAgree(Without(a[..|a| - 1], '+'), x, Without(b, '+'));
        LastsAgree(Without(a[..|a| - 1], '-'), x, Without(b, '-'));
      }
    } else {
      LastsAgree(Without(b[..|b| - 1], '+'), y, Without(a, '+'));
      LastsAgree(Without(b[..|b| - 1], '-'), y, Without(a, '-'));
      assert x == y;
      FrontWithout(x, Without(a[..|a| - 1], '+'), Without(b[..|b| - 1], '+'));
      FrontWithout(x, Without(a[..|a| - 1], '-'), Without(b[..|b| - 1], '-'));
      SameEnd(a[..|a| - 1], b[..|b| - 1], n - 1);
      EndGrows(a, n);
    }
    IsCommonEnd(a);
  }

  lemma IsCommonEnd(ls: seq<Line>)
    ensures ls != [] && ls[|ls| - 1].tag != ' ' ==> CommonEnd(ls, 0)
  {
  }

  lemma EndParts(ls: seq<Line>, n: nat)
    requires CommonEnd(ls, n)
    ensures ls != [] && (ls[|ls| - 1].tag == ' ' <==> n > 0)
    ensures n > 0 ==> CommonEnd(ls[..|ls| - 1], n - 1)
  {
    if n > 0 {
      assert ls[|ls| - 1] == ls[|ls| - n..][n - 1];
      var front := ls[..|ls| - 1];
      assert front[|front| - (n - 1)..] == ls[|ls| - n..][..n - 1];
    }
  }

  lemma NoLines(tag: char)
    ensures Without([], tag) == []
  {
  }

  lemma LastTagged(ls: seq<Line>)
    requires Tagged(ls)
    ensures ls != [] ==> ls[|ls| - 1].tag in {' ', '-', '+'} && Tagged(ls[..|ls| - 1])
  {
  }

  lemma LastWithout(ls: seq<Line>, tag: char)
    requires ls != []
    ensures var l := ls[|ls| - 1];
      Without(ls, tag) == Without(ls[..|ls| - 1], tag) + (if l.tag == tag then [] else [l])
  {
  }

  lemma LastsAgree<T>(front: seq<T>, x: T, all: seq<T>)
    requires all == front + [x]
    ensures all != [] && all[|all| - 1] == x
  {
  }

  lemma FrontWithout<T>(x: T, a: seq<T>, b: seq<T>)
    requires a + [x] == b + [x]
    ensures a == b
  {
    assert (a + [x])[..|a + [x]| - 1] == a && (b + [x])[..|b + [x]| - 1] == b;
  }

  lemma EndGrows(ls: seq<Line>, n: nat)
    requires ls != [] && n > 0 && ls[|ls| - 1].tag == ' ' && CommonEnd(ls[..|ls| - 1], n - 1)
    ensures CommonEnd(ls, n)
  {
    var front := ls[..|ls| - 1];
    forall i | |ls| - n <= i < |ls|
      ensures ls[i].tag == ' '
    {
      assert i < |ls| - 1 ==> ls[i] == front[|front| - (n - 1)..][i - (|ls| - n)];
    }
  }

  lemma SameTextTrans(a: seq<Line>, b: seq<Line>, c: seq<Line>)
    requires SameText(a, b) && SameText(c, b)
    ensures SameText(a, c)
  {
  }

  // ---------------------------------------------------------------- Hunk

  /** The state of a hunk: finished lines, and the removals and additions since the last common line. */
  class Hunk {
    const mLeftStart: nat
    const mRightStart: nat
    var mAdds: nat
    var mRemoves: nat
    var mCommon: nat
    var mHunk: seq<Line>
    var mHunkAdds: seq<Line>
    var mHunkRemoves: seq<Line>
    ghost var mPushed: seq<Line>  // every line pushed so far, in order

    /** Regrouping has lost nothing and has not moved a line past another of the same side. */
    ghost predicate Valid()
      reads this
    {
      && AllTagged(mHunkAdds, '+') && AllTagged(mHunkRemoves, '-')
      && Tagged(mHunk) && RemovalsFirst(mHunk)
      && SameText(mPushed, mHunk + mHunkRemoves + mHunkAdds)
      && mCommon == Count(mPushed, ' ') && mRemoves == Count(mPushed, '-') && mAdds == Count(mPushed, '+')
    }

    /** Nothing has been flushed since the last common line. */
    ghost predicate Open()
      reads this
    {
      mHunk == [] || mHunk[|mHunk| - 1].tag == ' '
    }

    constructor (leftStart: nat, rightStart: nat)
      ensures Valid() && Open() && mPushed == [] && mLeftStart == leftStart && mRightStart == rightStart
    {
      mLeftStart, mRightStart := leftStart, rightStart;
      mAdds, mRemoves, mCommon := 0, 0, 0;
      mHunk, mHunkAdds, mHunkRemoves := [], [], [];
      mPushed := [];
    }

    /** Removals first, then additions. */
    method FlushEdits()
      modifies `mHunk, `mHunkAdds, `mHunkRemoves
      ensures mHunkAdds == [] && mHunkRemoves == [] && mHunk == old(mHunk) + old(mHunkRemoves) + old(mHunkAdds)
    {
      mHunk, mHunkRemoves := mHunk + mHunkRemoves, [];
      mHunk, mHunkAdds := mHunk + mHunkAdds, [];
    }

    method PushLine(edit: char, line: string)
      requires Valid() && Open() && edit in {' ', '-', '+'}
      modifies this
      ensures Valid() && Open() && mPushed == old(mPushed) + [Line(edit, line)]
    {
      hide SameText, Count, RemovalsFirst;
      ghost var l := Line(edit, line);
      ghost var all := mHunk + mHunkRemoves + mHunkAdds;
      PushBoth(mPushed, all, l);
      if edit == ' ' {
        mCommon := mCommon + 1;
        OrderedParts(mHunk, mHunkRemoves, mHunkAdds);
        CommonLast(all, l);
        FlushEdits();
        mHunk := mHunk + [Line(' ', line)];
        assert mHunk + mHunkRemoves + mHunkAdds == all + [l];
      } else if edit == '-' {
        RemovalFirst(mHunk + mHunkRemoves, mHunkAdds, l);
        SameTextTrans(mPushed + [l], all + [l], mHunk + mHunkRemoves + [l] + mHunkAdds);
        mRemoves := mRemoves + 1;
        mHunkRemoves := mHunkRemoves + [Line('-', line)];
        assert mHunk + mHunkRemoves + mHunkAdds == old(mHunk + mHunkRemoves) + [l] + mHunkAdds;
      } else {
        mAdds := mAdds + 1;
        mHunkAdds := mHunkAdds + [Line('+', line)];
        assert mHunk + mHunkRemoves + mHunkAdds == all + [l];
      }
      mPushed := mPushed + [l];
    }

    predicate HasEdits()
      reads this
    {
      mAdds > 0 || mRemoves > 0
    }

    /** The hunk that is printed. */
    ghost function Printed(): PrintedHunk
      reads this
    {
      PrintedHunk(if mRemoves > 0 then Some(Span(mLeftStart, mRemoves + mCommon)) else None,
                  if mAdds > 0 then Some(Span(mRightStart, mAdds + mCommon)) else None,
                  mHunk + mHunkRemoves + mHunkAdds)
    }

    method PrintHeader(os: string) returns (text: string)
      ensures text == os + (Header(Printed().leftSpan, Printed().rightSpan) + "\n")
    {
      hide Decimal;
      text := os + "@@ ";
      if mRemoves > 0 {
        text := text + "-" + Decimal(mLeftStart) + "," + Decimal(mRemoves + mCommon);
      }
      if mRemoves > 0 && mAdds > 0 {
        text := text + " ";
      }
      if mAdds > 0 {
        text := text + "+" + Decimal(mRightStart) + "," + Decimal(mAdds + mCommon);
      }
      text := text + " @@\n";
    }

    method PrintTo(os: string) returns (text: string, ghost p: PrintedHunk)
      requires Valid() && Open()
      modifies this
      ensures Valid() && mPushed == old(mPushed)
      ensures p == old(Printed()) && text == os + HunkText(p)
      ensures LeftOf(p.lines) == LeftOf(mPushed) && RightOf(p.lines) == RightOf(mPushed)
      ensures |LeftOf(p.lines)| == old(mRemoves + mCommon) && |RightOf(p.lines)| == old(mAdds + mCommon)
      ensures Tagged(p.lines) && RemovalsFirst(p.lines) && SameText(mPushed, p.lines)
    {
      hide Header, Body, LineText, SameText, Count, RemovalsFirst;
      OrderedParts(mHunk, mHunkRemoves, mHunkAdds);
      p := Printed();
      text := PrintHeader(os);
      FlushEdits();
      assert mHunk + mHunkRemoves + mHunkAdds == mHunk == p.lines;
      FlushedSides();
      var i := 0;
      assert mHunk[0..] == mHunk;
      HunkIs(os, p);
      while i < |mHunk|
        invariant 0 <= i <= |mHunk| && text + Body(mHunk[i..]) == os + HunkText(p)
        modifies {}
      {
        BodyStep(text, mHunk, i);
        text := text + LineText(mHunk[i]);
        i := i + 1;
      }
      BodyEnds(text, mHunk[i..]);
    }

    lemma FlushedSides()
      requires Valid() && mHunkRemoves == [] && mHunkAdds == []
      ensures LeftOf(mHunk) == LeftOf(mPushed) && RightOf(mHunk) == RightOf(mPushed)
      ensures |LeftOf(mHunk)| == mRemoves + mCommon && |RightOf(mHunk)| == mAdds + mCommon
    {
      assert mHunk + mHunkRemoves + mHunkAdds == mHunk;
      SideLengths(mHunk);
    }
  }

  lemma HunkIs(os: string, p: PrintedHunk)
    ensures os + (Header(p.leftSpan, p.rightSpan) + "\n") + Body(p.lines) == os + HunkText(p)
  {
    hide Header, Body;
    assert os + (Header(p.leftSpan, p.rightSpan) + "\n") + Body(p.lines)
        == os + (Header(p.leftSpan, p.rightSpan) + "\n" + Body(p.lines));
  }

  lemma BodyStep(text: string, ls: seq<Line>, i: nat)
    requires i < |ls|
    ensures text + Body(ls[i..]) == text + LineText(ls[i]) + Body(ls[i + 1..])
  {
    hide LineText;
    assert ls[i..][1..] == ls[i + 1..];
    assert text + (LineText(ls[i]) + Body(ls[i + 1..])) == text + LineText(ls[i]) + Body(ls[i + 1..]);
  }

  lemma BodyEnds(text: string, ls: seq<Line>)
    requires ls == []
    ensures text + Body(ls) == text
  {
  }

  // ---------------------------------------------------------------- positions in an edit script

  /** How many left lines a script consumes, and how many right lines it produces. */
  function LeftLen(edits: seq<EditType>): nat {
    if edits == [] then 0 else LeftLen(edits[..|edits| - 1]) + (if edits[|edits| - 1] == Add then 0 else 1)
  }

  function RightLen(edits: seq<EditType>): nat {
    if edits == [] then 0 else RightLen(edits[..|edits| - 1]) + (if edits[|edits| - 1] == Remove then 0 else 1)
  }

  /** Step `k` of a script finds what it needs. */
  ghost predicate StepFits(edits: seq<EditType>, left: seq<string>, right: seq<string>, k: nat)
    requires k < |edits|
  {
    var l, r := LeftLen(edits[..k]), RightLen(edits[..k]);
    && (edits[k] != Add ==> l < |left|) && (edits[k] != Remove ==> r < |right|)
    && (edits[k] == Match ==> left[l] == right[r])
  }

  /** A script read from its start. */
  ghost predicate Forward(edits: seq<EditType>, left: seq<string>, right: seq<string>) {
    && LeftLen(edits) == |left| && RightLen(edits) == |right|
    && forall k :: 0 <= k < |edits| ==> StepFits(edits, left, right, k)
  }

  lemma {:induction false} TransformsForward(edits: seq<EditType>, left: seq<string>, right: seq<string>)
    requires Transforms(edits, left, right)
    ensures Forward(edits, left, right)
    decreases |edits|
  {
    if edits != [] {
      var n := |edits| - 1;
      var before, last := edits[..n], edits[n];
      var left' := if last == Add then left else left[..|left| - 1];
      var right' := if last == Remove then right else right[..|right| - 1];
      TransformsForward(before, left', right');
      forall k | 0 <= k < |edits|
        ensures StepFits(edits, left, right, k)
      {
        if k < n {
          assert before[..k] == edits[..k];
          assert StepFits(before, left', right', k);
        }
      }
    }
  }

  lemma PositionStep(edits: seq<EditType>, k: nat)
    requires k < |edits|
    ensures LeftLen(edits[..k + 1]) == LeftLen(edits[..k]) + (if edits[k] == Add then 0 else 1)
    ensures RightLen(edits[..k + 1]) == RightLen(edits[..k]) + (if edits[k] == Remove then 0 else 1)
  {
    assert edits[..k + 1][..k] == edits[..k];
  }

  lemma {:induction false} PositionsGrow(edits: seq<EditType>, j: nat, k: nat)
    requires j <= k <= |edits|
    ensures LeftLen(edits[..j]) <= LeftLen(edits[..k]) && RightLen(edits[..j]) <= RightLen(edits[..k])
  {
    if j < k {
      PositionStep(edits, k - 1);
      PositionsGrow(edits, j, k - 1);
    }
  }

  ghost predicate AllMatch(edits: seq<EditType>, j: nat, k: nat)
    requires j <= k <= |edits|
  {
    forall i :: j <= i < k ==> edits[i] == Match
  }

  lemma SlicesJoin<T>(s: seq<T>, a: nat, b: nat, c: nat)
    requires a <= b <= c <= |s|
    ensures s[a..b] + s[b..c] == s[a..c]
  {
  }

  /** Along matches both positions advance together, over equal lines. */
  lemma {:induction false} MatchRun(edits: seq<EditType>, left: seq<string>, right: seq<string>, j: nat, k: nat)
    requires j <= k <= |edits| && AllMatch(edits, j, k) && Forward(edits, left, right)
    ensures LeftLen(edits[..k]) == LeftLen(edits[..j]) + (k - j) <= |left|
    ensures RightLen(edits[..k]) == RightLen(edits[..j]) + (k - j) <= |right|
    ensures left[LeftLen(edits[..j])..LeftLen(edits[..k])] == right[RightLen(edits[..j])..RightLen(edits[..k])]
  {
    hide LeftLen, RightLen;
    PositionsGrow(edits, k, |edits|);
    assert edits[..|edits|] == edits;
    if j < k {
      MatchRun(edits, left, right, j, k - 1);
      PositionStep(edits, k - 1);
      assert StepFits(edits, left, right, k - 1);
      var l, r := LeftLen(edits[..k - 1]), RightLen(edits[..k - 1]);
      SlicesJoin(left, LeftLen(edits[..j]), l, l + 1);
      SlicesJoin(right, RightLen(edits[..j]), r, r + 1);
      assert left[l..l + 1] == [left[l]] == right[r..r + 1];
    }
  }

  /** The lines a hunk is given for step `k` of a script ... */
  function StepLines(edits: seq<EditType>, left: seq<string>, right: seq<string>, k: nat): seq<Line>
    requires k < |edits| && StepFits(edits, left, right, k)
  {
    var l, r := LeftLen(edits[..k]), RightLen(edits[..k]);
    match edits[k]
    case Match => [Line(' ', left[l])]
    case Remove => [Line('-', left[l])]
    case Add => [Line('+', right[r])]
    case Replace => [Line('-', left[l]), Line('+', right[r])]
  }

  /** ... and for steps `s` up to `f`. */
  function Lines(edits: seq<EditType>, left: seq<string>, right: seq<string>, s: nat, f: nat): seq<Line>
    requires s <= f <= |edits| && Forward(edits, left, right)
  {
    if s == f then [] else
    assert StepFits(edits, left, right, f - 1);
    Lines(edits, left, right, s, f - 1) + StepLines(edits, left, right, f - 1)
  }

  lemma OneLine(l: Line)
    ensures LeftOf([l]) == if l.tag == '+' then [] else [l.text]
    ensures RightOf([l]) == if l.tag == '-' then [] else [l.text]
    ensures forall tag :: Count([l], tag) == if l.tag == tag then 1 else 0
  {
    assert [l][..0] == [];
    assert LeftOf([]) == [] && RightOf([]) == [] && forall tag :: Count([], tag) == 0;
  }

  /** What the lines of one step spell, and that only a match pushes no edit. */
  lemma StepSides(edits: seq<EditType>, left: seq<string>, right: seq<string>, k: nat)
    requires k < |edits| && StepFits(edits, left, right, k)
    ensures var ls := StepLines(edits, left, right, k);
      && LeftOf(ls) == (if edits[k] == Add then [] else [left[LeftLen(edits[..k])]])
      && RightOf(ls) == (if edits[k] == Remove then [] else [right[RightLen(edits[..k])]])
      && (Count(ls, '-') == 0 && Count(ls, '+') == 0 <==> edits[k] == Match)
  {
    var ls := StepLines(edits, left, right, k);
    hide LeftOf, RightOf, LeftLen, RightLen, Count;
    OneLine(ls[0]);
    if edits[k] == Replace {
      OneLine(ls[1]);
      assert ls == [ls[0]] + [ls[1]];
      ConcatSides([ls[0]], [ls[1]]);
      ConcatCounts([ls[0]], [ls[1]]);
    } else {
      assert ls == [ls[0]];
    }
  }

  lemma StepSpells(edits: seq<EditType>, left: seq<string>, right: seq<string>, k: nat)
    requires k < |edits| && Forward(edits, left, right)
    ensures LeftLen(edits[..k]) <= LeftLen(edits[..k + 1]) <= |left|
    ensures RightLen(edits[..k]) <= RightLen(edits[..k + 1]) <= |right|
    ensures LeftOf(StepLines(edits, left, right, k)) == left[LeftLen(edits[..k])..LeftLen(edits[..k + 1])]
    ensures RightOf(StepLines(edits, left, right, k)) == right[RightLen(edits[..k])..RightLen(edits[..k + 1])]
  {
    hide *;
    StepFitsAt(edits, left, right, k);
    PositionStep(edits, k);
    PositionsBounded(edits, left, right, k + 1);
    StepSides(edits, left, right, k);
    SliceStep(left, LeftLen(edits[..k]), LeftLen(edits[..k + 1]));
    SliceStep(right, RightLen(edits[..k]), RightLen(edits[..k + 1]));
  }

  lemma StepFitsAt(edits: seq<EditType>, left: seq<string>, right: seq<string>, k: nat)
    requires k < |edits| && Forward(edits, left, right)
    ensures StepFits(edits, left, right, k)
  {
  }

  lemma SliceStep<T>(s: seq<T>, a: nat, b: nat)
    requires a <= b <= a + 1 && b <= |s|
    ensures s[a..b] == if a == b then [] else [s[a]]
  {
  }

  /** They spell exactly the part of each text that those steps walk over. */
  lemma {:induction false} LinesSpell(edits: seq<EditType>, left: seq<string>, right: seq<string>, s: nat, f: nat)
    requires s <= f <= |edits| && Forward(edits, left, right)
    ensures LeftLen(edits[..s]) <= LeftLen(edits[..f]) <= |left|
    ensures RightLen(edits[..s]) <= RightLen(edits[..f]) <= |right|
    ensures LeftOf(Lines(edits, left, right, s, f)) == left[LeftLen(edits[..s])..LeftLen(edits[..f])]
    ensures RightOf(Lines(edits, left, right, s, f)) == right[RightLen(edits[..s])..RightLen(edits[..f])]
  {
    hide *;
    if s == f {
      NothingSpelled(edits, left, right, s);
      PositionsBounded(edits, left, right, s);
    } else {
      LastLines(edits, left, right, s, f);
      LinesSpell(edits, left, right, s, f - 1);
      StepSpells(edits, left, right, f - 1);
      ConcatSides(Lines(edits, left, right, s, f - 1), StepLines(edits, left, right, f - 1));
      SlicesJoin(left, LeftLen(edits[..s]), LeftLen(edits[..f - 1]), LeftLen(edits[..f]));
      SlicesJoin(right, RightLen(edits[..s]), RightLen(edits[..f - 1]), RightLen(edits[..f]));
    }
  }

  lemma NothingSpelled(edits: seq<EditType>, left: seq<string>, right: seq<string>, s: nat)
    requires s <= |edits| && Forward(edits, left, right)
    ensures LeftOf(Lines(edits, left, right, s, s)) == [] && RightOf(Lines(edits, left, right, s, s)) == []
  {
  }

  lemma LastLines(edits: seq<EditType>, left: seq<string>, right: seq<string>, s: nat, f: nat)
    requires s < f <= |edits| && Forward(edits, left, right)
    ensures StepFits(edits, left, right, f - 1)
    ensures Lines(edits, left, right, s, f) == Lines(edits, left, right, s, f - 1) + StepLines(edits, left, right, f - 1)
  {
  }

  lemma PositionsBounded(edits: seq<EditType>, left: seq<string>, right: seq<string>, k: nat)
    requires k <= |edits| && Forward(edits, left, right)
    ensures LeftLen(edits[..k]) <= |left| && RightLen(edits[..k]) <= |right|
  {
    PositionsGrow(edits, k, |edits|);
    assert edits[..|edits|] == edits;
  }

  // ---------------------------------------------------------------- replaying printed hunks

  /** Position in `left` and the text produced so far. */
  datatype State = State(pos: nat, text: seq<string>)

  /** Copy what lies before the hunk, check its left lines against the text, and take its right lines.
      Where the hunk starts is read from whichever side of the header was printed. */
  function ReplayHunk(h: PrintedHunk, left: seq<string>, st: State): Option<State> {
    var skip: int :=
      if h.leftSpan.Some? then h.leftSpan.value.start - 1 - st.pos
      else if h.rightSpan.Some? then h.rightSpan.value.start - 1 - |st.text|
      else -1;
    if skip < 0 || st.pos + skip > |left| then None else
    var pos := st.pos + skip;
    var text := st.text + left[st.pos..pos];
    if (h.leftSpan.Some? ==> h.leftSpan.value == Span(pos + 1, |LeftOf(h.lines)|))
       && (h.rightSpan.Some? ==> h.rightSpan.value == Span(|text| + 1, |RightOf(h.lines)|))
       && LeftOf(h.lines) <= left[pos..]
    then Some(State(pos + |LeftOf(h.lines)|, text + RightOf(h.lines)))
    else None
  }

  function ReplayHunks(hs: seq<PrintedHunk>, left: seq<string>): (r: Option<State>)
    ensures r.Some? ==> r.value.pos <= |left|
  {
    if hs == [] then Some(State(0, [])) else
    var st :- ReplayHunks(hs[..|hs| - 1], left);
    ReplayHunk(hs[|hs| - 1], left, st)
  }

  /** The hunks in order, and then the rest of the text. */
  function Replay(hs: seq<PrintedHunk>, left: seq<string>): Option<seq<string>> {
    var st :- ReplayHunks(hs, left);
    Some(st.text + left[st.pos..])
  }

  /** Replaying what the text of a diff says. */
  function ReplayText(text: string, left: seq<string>): Option<seq<string>> {
    var hs :- ReadDiff(text);
    Replay(hs, left)
  }

  // ---------------------------------------------------------------- where the lines come from

  ghost predicate AllUnbroken(lines: seq<string>) {
    forall i :: 0 <= i < |lines| ==> Unbroken(lines[i])
  }

  /** The lines of a hunk are lines of the two texts. */
  ghost predicate TakenFrom(ls: seq<Line>, left: seq<string>, right: seq<string>) {
    forall i :: 0 <= i < |ls| ==> ls[i].tag in {' ', '-', '+'} && (ls[i].text in left || ls[i].text in right)
  }

  lemma {:induction false} OnItsSide(ls: seq<Line>, i: nat)
    requires i < |ls|
    ensures ls[i].tag != '+' ==> ls[i].text in LeftOf(ls)
    ensures ls[i].tag != '-' ==> ls[i].text in RightOf(ls)
  {
    if i < |ls| - 1 {
      OnItsSide(ls[..|ls| - 1], i);
    }
  }

  lemma SidesTaken(ls: seq<Line>, left: seq<string>, right: seq<string>, l1: nat, l2: nat, r1: nat, r2: nat)
    requires Tagged(ls)
    requires l1 <= l2 <= |left| && r1 <= r2 <= |right| && LeftOf(ls) == left[l1..l2] && RightOf(ls) == right[r1..r2]
    ensures TakenFrom(ls, left, right)
  {
    hide LeftOf, RightOf;
    forall i | 0 <= i < |ls|
      ensures ls[i].text in left || ls[i].text in right
    {
      OnItsSide(ls, i);
    }
  }

  lemma TakenIsPlain(ls: seq<Line>, left: seq<string>, right: seq<string>)
    requires TakenFrom(ls, left, right) && AllUnbroken(left) && AllUnbroken(right)
    ensures Plain(ls)
  {
    hide Unbroken;
  }

  ghost predicate AllTaken(hs: seq<PrintedHunk>, left: seq<string>, right: seq<string>) {
    forall i :: 0 <= i < |hs| ==> TakenFrom(hs[i].lines, left, right)
  }

  /** If no line of the two texts holds a line break, the text of the diff says what the hunks say. */
  lemma TextSaysTheSame(hs: seq<PrintedHunk>, left: seq<string>, right: seq<string>)
    requires AllTaken(hs, left, right) && AllUnbroken(left) && AllUnbroken(right)
    ensures ReplayText(DiffOf(hs), left) == Replay(hs, left)
  {
    hide TakenFrom, Replay, Plain, AllUnbroken, ReadDiff;
    forall i | 0 <= i < |hs|
      ensures Plain(hs[i].lines)
    {
      TakenIsPlain(hs[i].lines, left, right);
    }
    DiffReads(hs);
  }

  // ---------------------------------------------------------------- what one hunk does

  /** After the hunks so far, `left` has been read and `right` written up to step `h`. */
  ghost predicate ReplayedTo(hs: seq<PrintedHunk>, edits: seq<EditType>, left: seq<string>, right: seq<string>, h: nat)
    requires h <= |edits|
  {
    var l, r := LeftLen(edits[..h]), RightLen(edits[..h]);
    r <= |right| && ReplayHunks(hs, left) == Some(State(l, right[..r]))
  }

  /** A hunk without removals and additions is one whose steps all match. */
  lemma {:induction false} EditsCounted(edits: seq<EditType>, left: seq<string>, right: seq<string>, s: nat, f: nat)
    requires s <= f <= |edits| && Forward(edits, left, right)
    ensures Count(Lines(edits, left, right, s, f), '-') == 0 && Count(Lines(edits, left, right, s, f), '+') == 0
       <==> AllMatch(edits, s, f)
  {
    hide *;
    if s == f {
      NothingCounted(edits, left, right, s);
    } else {
      EditsCounted(edits, left, right, s, f - 1);
      LastLines(edits, left, right, s, f);
      StepSides(edits, left, right, f - 1);
      LastMatch(edits, s, f);
      ConcatCounts(Lines(edits, left, right, s, f - 1), StepLines(edits, left, right, f - 1));
    }
  }

  lemma NothingCounted(edits: seq<EditType>, left: seq<string>, right: seq<string>, s: nat)
    requires s <= |edits| && Forward(edits, left, right)
    ensures Count(Lines(edits, left, right, s, s), '-') == 0 && Count(Lines(edits, left, right, s, s), '+') == 0
    ensures AllMatch(edits, s, s)
  {
  }

  lemma LastMatch(edits: seq<EditType>, s: nat, f: nat)
    requires s < f <= |edits|
    ensures AllMatch(edits, s, f) <==> AllMatch(edits, s, f - 1) && edits[f - 1] == Match
  {
  }

  /** A printed hunk for steps `s` to `f` takes the replay from any earlier step `h`, from which only
      matches lead to `s`, to step `f`. */
  lemma HunkReplays(p: PrintedHunk, edits: seq<EditType>, left: seq<string>, right: seq<string>, h: nat, s: nat, f: nat)
    requires h <= s <= f <= |edits| && Forward(edits, left, right) && AllMatch(edits, h, s)
    requires LeftOf(p.lines) == LeftOf(Lines(edits, left, right, s, f))
    requires RightOf(p.lines) == RightOf(Lines(edits, left, right, s, f))
    requires p.leftSpan.Some? || p.rightSpan.Some?
    requires p.leftSpan.Some? ==> p.leftSpan.value == Span(LeftLen(edits[..s]) + 1, |LeftOf(p.lines)|)
    requires p.rightSpan.Some? ==> p.rightSpan.value == Span(RightLen(edits[..s]) + 1, |RightOf(p.lines)|)
    requires RightLen(edits[..h]) <= |right|
    ensures RightLen(edits[..f]) <= |right|
    ensures ReplayHunk(p, left, State(LeftLen(edits[..h]), right[..RightLen(edits[..h])]))
         == Some(State(LeftLen(edits[..f]), right[..RightLen(edits[..f])]))
  {
    LinesSpell(edits, left, right, s, f);
    MatchRun(edits, left, right, h, s);
    PositionsGrow(edits, h, s);
    hide *;
    ReplaySlices(p, left, right, LeftLen(edits[..h]), LeftLen(edits[..s]), LeftLen(edits[..f]),
                 RightLen(edits[..h]), RightLen(edits[..s]), RightLen(edits[..f]));
  }

  /** The same in terms of positions in the two texts. */
  lemma ReplaySlices(p: PrintedHunk, left: seq<string>, right: seq<string>, l0: nat, l1: nat, l2: nat, r0: nat, r1: nat, r2: nat)
    requires l0 <= l1 <= l2 <= |left| && r0 <= r1 <= r2 <= |right| && l1 - l0 == r1 - r0
    requires left[l0..l1] == right[r0..r1]
    requires LeftOf(p.lines) == left[l1..l2] && RightOf(p.lines) == right[r1..r2]
    requires p.leftSpan.Some? || p.rightSpan.Some?
    requires p.leftSpan.Some? ==> p.leftSpan.value == Span(l1 + 1, |LeftOf(p.lines)|)
    requires p.rightSpan.Some? ==> p.rightSpan.value == Span(r1 + 1, |RightOf(p.lines)|)
    ensures ReplayHunk(p, left, State(l0, right[..r0])) == Some(State(l2, right[..r2]))
  {
    hide LeftOf, RightOf;
    SlicesJoin(right, 0, r0, r1);
    SlicesJoin(right, 0, r1, r2);
    assert left[l1..l2] <= left[l1..];
    assert right[..r0] + left[l0..l1] == right[..r1];
  }

  lemma AppendHunk(hs: seq<PrintedHunk>, p: PrintedHunk, edits: seq<EditType>, left: seq<string>, right: seq<string>, h: nat, f: nat)
    requires h <= f <= |edits| && ReplayedTo(hs, edits, left, right, h)
    requires RightLen(edits[..h]) <= |right| && RightLen(edits[..f]) <= |right|
    requires ReplayHunk(p, left, State(LeftLen(edits[..h]), right[..RightLen(edits[..h])]))
          == Some(State(LeftLen(edits[..f]), right[..RightLen(edits[..f])]))
    ensures ReplayedTo(hs + [p], edits, left, right, f)
  {
    assert (hs + [p])[..|hs|] == hs;
  }

  /** What is left when only matches remain. */
  lemma RestReplays(hs: seq<PrintedHunk>, edits: seq<EditType>, left: seq<string>, right: seq<string>, h: nat)
    requires h <= |edits| && Forward(edits, left, right) && AllMatch(edits, h, |edits|)
    requires ReplayedTo(hs, edits, left, right, h)
    ensures Replay(hs, left) == Some(right)
  {
    hide *;
    var l, r := LeftLen(edits[..h]), RightLen(edits[..h]);
    MatchRun(edits, left, right, h, |edits|);
    WholeScript(edits, left, right);
    ReplayedIs(hs, edits, left, right, h);
    assert right[..r] + right[r..|right|] == right && left[l..] == left[l..|left|];
  }

  lemma WholeScript(edits: seq<EditType>, left: seq<string>, right: seq<string>)
    requires Forward(edits, left, right)
    ensures edits[..|edits|] == edits && LeftLen(edits) == |left| && RightLen(edits) == |right|
  {
  }

  lemma ReplayedIs(hs: seq<PrintedHunk>, edits: seq<EditType>, left: seq<string>, right: seq<string>, h: nat)
    requires h <= |edits| && ReplayedTo(hs, edits, left, right, h) && LeftLen(edits[..h]) <= |left|
    ensures RightLen(edits[..h]) <= |right|
    ensures Replay(hs, left) == Some(right[..RightLen(edits[..h])] + left[LeftLen(edits[..h])..])
  {
    hide LeftLen, RightLen, ReplayHunks;
  }

  // ---------------------------------------------------------------- how a script is cut into hunks

  /** The steps `s` up to `f` of a hunk; its edits stand from `a` to `b`. */
  datatype Cut = Cut(s: nat, a: nat, b: nat, f: nat)

  /** How many matches stand from step `i` on. */
  function MatchesFrom(edits: seq<EditType>, i: nat): nat
    decreases |edits| - i
  {
    if i < |edits| && edits[i] == Match then 1 + MatchesFrom(edits, i + 1) else 0
  }

  lemma {:induction false} MatchesAre(edits: seq<EditType>, i: nat, n: nat)
    requires i + n <= |edits| && AllMatch(edits, i, i + n)
    ensures n <= MatchesFrom(edits, i)
    ensures i + n == |edits| || edits[i + n] != Match ==> MatchesFrom(edits, i) == n
    decreases n
  {
    if n > 0 {
      MatchesAre(edits, i + 1, n - 1);
    }
  }

  /** Between two successive edits from `a` to `b` there are fewer matches than two contexts. */
  ghost predicate Joined(edits: seq<EditType>, context: nat, a: nat, b: nat)
    requires a <= b < |edits|
  {
    forall p, q :: a <= p < q <= b && edits[p] != Match && edits[q] != Match && AllMatch(edits, p + 1, q) ==> q - p - 1 < 2 * context
  }

  /** The hunk starts as far before its first edit and ends as far behind its last one as the context says
      and the text allows. */
  ghost predicate CutRight(edits: seq<EditType>, context: nat, c: Cut) {
    && c.s <= c.a <= c.b < c.f <= |edits| && edits[c.a] != Match && edits[c.b] != Match
    && AllMatch(edits, c.s, c.a) && AllMatch(edits, c.b + 1, c.f) && Joined(edits, context, c.a, c.b)
    && c.a - c.s == Min(context, LeftLen(edits[..c.a]))
    && c.f - c.b - 1 == Min(context, MatchesFrom(edits, c.b + 1))
  }

  /** The lines of the hunk: as many common lines at each end, every removal before every addition between
      two of them, and otherwise the lines of the steps. */
  ghost predicate PrintedAs(p: PrintedHunk, edits: seq<EditType>, left: seq<string>, right: seq<string>, c: Cut)
    requires Forward(edits, left, right)
  {
    && c.s <= c.a <= c.b < c.f <= |edits|
    && CommonStart(p.lines, c.a - c.s) && CommonEnd(p.lines, c.f - c.b - 1) && RemovalsFirst(p.lines)
    && SameText(Lines(edits, left, right, c.s, c.f), p.lines)
  }

  /** The cuts come one after the other, all edits are in them, and between two of them there are at least
      two contexts of matches. */
  ghost predicate WellCut(edits: seq<EditType>, context: nat, cuts: seq<Cut>) {
    && (forall k :: 0 <= k < |cuts| ==> CutRight(edits, context, cuts[k]))
    && (forall k :: 0 <= k < |cuts| - 1 ==> Apart(edits, context, cuts[k], cuts[k + 1]))
    && AllMatch(edits, 0, if cuts == [] then |edits| else cuts[0].a)
    && AllMatch(edits, if cuts == [] then 0 else cuts[|cuts| - 1].b + 1, |edits|)
  }

  ghost predicate Apart(edits: seq<EditType>, context: nat, c: Cut, d: Cut) {
    c.b < d.a <= |edits| && AllMatch(edits, c.b + 1, d.a) && d.a - c.b - 1 >= 2 * context
  }

  /** Two successive edits are in the same hunk if and only if fewer matches than two contexts lie between
      them. */
  lemma SharedIff(edits: seq<EditType>, context: nat, cuts: seq<Cut>, p: nat, q: nat)
    requires WellCut(edits, context, cuts)
    requires p < q < |edits| && edits[p] != Match && edits[q] != Match && AllMatch(edits, p + 1, q)
    ensures (exists k :: 0 <= k < |cuts| && cuts[k].a <= p && q <= cuts[k].b) <==> q - p - 1 < 2 * context
  {
    if exists k :: 0 <= k < |cuts| && cuts[k].a <= p && q <= cuts[k].b {
      var k :| 0 <= k < |cuts| && cuts[k].a <= p && q <= cuts[k].b;
      assert CutRight(edits, context, cuts[k]);
    } else {
      var k := LastCutBefore(edits, context, cuts, p);
      assert CutRight(edits, context, cuts[k]) && cuts[k].b < q;
      NextCut(edits, context, cuts, k, p, q);
    }
  }

  /** The hunk that an edit is in. */
  lemma {:induction false} LastCutBefore(edits: seq<EditType>, context: nat, cuts: seq<Cut>, p: nat) returns (k: nat)
    requires WellCut(edits, context, cuts) && p < |edits| && edits[p] != Match
    ensures k < |cuts| && cuts[k].a <= p && (k + 1 < |cuts| ==> p < cuts[k + 1].a)
  {
    assert cuts != [] && cuts[0].a <= p;
    k := 0;
    while k + 1 < |cuts| && cuts[k + 1].a <= p
      invariant k < |cuts| && cuts[k].a <= p
    {
      k := k + 1;
    }
  }

  lemma NextCut(edits: seq<EditType>, context: nat, cuts: seq<Cut>, k: nat, p: nat, q: nat)
    requires WellCut(edits, context, cuts) && k < |cuts| && cuts[k].a <= p && (k + 1 < |cuts| ==> p < cuts[k + 1].a)
    requires p < q < |edits| && edits[p] != Match && edits[q] != Match && AllMatch(edits, p + 1, q) && cuts[k].b < q
    ensures q - p - 1 >= 2 * context
  {
    assert CutRight(edits, context, cuts[k]);
    if k + 1 < |cuts| {
      assert Apart(edits, context, cuts[k], cuts[k + 1]) && CutRight(edits, context, cuts[k + 1]);
      assert p == cuts[k].b && q == cuts[k + 1].a;
    }
  }

  // ---------------------------------------------------------------- the lines of a cut

  lemma {:induction false} MatchLines(edits: seq<EditType>, left: seq<string>, right: seq<string>, s: nat, a: nat)
    requires s <= a <= |edits| && Forward(edits, left, right) && AllMatch(edits, s, a)
    ensures |Lines(edits, left, right, s, a)| == a - s && AllTagged(Lines(edits, left, right, s, a), ' ')
  {
    if s < a {
      MatchLines(edits, left, right, s, a - 1);
      LastLines(edits, left, right, s, a);
      StepTags(edits, left, right, a - 1);
      hide Lines, StepLines, Forward;
    }
  }

  /** A match pushes one common line; any other step starts and ends with a line that is not common. */
  lemma StepTags(edits: seq<EditType>, left: seq<string>, right: seq<string>, k: nat)
    requires k < |edits| && StepFits(edits, left, right, k)
    ensures var ls := StepLines(edits, left, right, k);
      && ls != [] && Tagged(ls)
      && (if edits[k] == Match then |ls| == 1 && ls[0].tag == ' ' else ls[0].tag != ' ' && ls[|ls| - 1].tag != ' ')
  {
  }

  lemma {:induction false} LinesTagged(edits: seq<EditType>, left: seq<string>, right: seq<string>, s: nat, f: nat)
    requires s <= f <= |edits| && Forward(edits, left, right)
    ensures Tagged(Lines(edits, left, right, s, f))
  {
    if s < f {
      LinesTagged(edits, left, right, s, f - 1);
      LastLines(edits, left, right, s, f);
      StepTags(edits, left, right, f - 1);
      hide Lines, StepLines, Forward;
    }
  }

  lemma {:induction false} LinesStart(edits: seq<EditType>, left: seq<string>, right: seq<string>, s: nat, a: nat, f: nat)
    requires s <= a < f <= |edits| && Forward(edits, left, right) && AllMatch(edits, s, a) && edits[a] != Match
    ensures CommonStart(Lines(edits, left, right, s, f), a - s)
    decreases f
  {
    hide *;
    LastLines(edits, left, right, s, f);
    StepTags(edits, left, right, f - 1);
    if f == a + 1 {
      MatchLines(edits, left, right, s, a);
      StartThenStep(Lines(edits, left, right, s, a), StepLines(edits, left, right, a));
    } else {
      LinesStart(edits, left, right, s, a, f - 1);
      StartStays(Lines(edits, left, right, s, f - 1), StepLines(edits, left, right, f - 1), a - s);
    }
  }

  lemma StartThenStep(a: seq<Line>, b: seq<Line>)
    requires AllTagged(a, ' ') && b != [] && b[0].tag != ' '
    ensures CommonStart(a + b, |a|)
  {
    assert (a + b)[..|a|] == a;
  }

  lemma StartStays(a: seq<Line>, b: seq<Line>, n: nat)
    requires CommonStart(a, n)
    ensures CommonStart(a + b, n)
  {
    assert (a + b)[..n] == a[..n];
  }

  lemma {:induction false} LinesEnd(edits: seq<EditType>, left: seq<string>, right: seq<string>, s: nat, b: nat, f: nat)
    requires s <= b < f <= |edits| && Forward(edits, left, right) && AllMatch(edits, b + 1, f) && edits[b] != Match
    ensures CommonEnd(Lines(edits, left, right, s, f), f - b - 1)
    decreases f
  {
    hide *;
    LastLines(edits, left, right, s, f);
    StepTags(edits, left, right, f - 1);
    if f == b + 1 {
      EndOfStep(Lines(edits, left, right, s, b), StepLines(edits, left, right, b));
    } else {
      FewerMatches(edits, b + 1, f);
      LinesEnd(edits, left, right, s, b, f - 1);
      EndThenMatch(Lines(edits, left, right, s, f - 1), StepLines(edits, left, right, f - 1), f - b - 2);
    }
  }

  lemma FewerMatches(edits: seq<EditType>, i: nat, f: nat)
    requires i < f <= |edits| && AllMatch(edits, i, f)
    ensures AllMatch(edits, i, f - 1) && edits[f - 1] == Match
  {
  }

  lemma EndOfStep(a: seq<Line>, b: seq<Line>)
    requires b != [] && b[|b| - 1].tag != ' '
    ensures CommonEnd(a + b, 0)
  {
  }

  lemma EndThenMatch(a: seq<Line>, b: seq<Line>, n: nat)
    requires CommonEnd(a, n) && |b| == 1 && b[0].tag == ' '
    ensures CommonEnd(a + b, n + 1)
  {
    var ls := a + b;
    forall i | |ls| - (n + 1) <= i < |ls|
      ensures ls[i].tag == ' '
    {
      assert i < |a| ==> ls[i] == a[|a| - n..][i - (|a| - n)];
    }
  }

  lemma PrintedRight(p: PrintedHunk, edits: seq<EditType>, left: seq<string>, right: seq<string>, c: Cut)
    requires c.s <= c.a <= c.b < c.f <= |edits| && Forward(edits, left, right) && edits[c.a] != Match && edits[c.b] != Match
    requires AllMatch(edits, c.s, c.a) && AllMatch(edits, c.b + 1, c.f)
    requires SameText(Lines(edits, left, right, c.s, c.f), p.lines) && Tagged(p.lines) && RemovalsFirst(p.lines)
    ensures PrintedAs(p, edits, left, right, c)
  {
    hide *;
    var ls := Lines(edits, left, right, c.s, c.f);
    SameTextIs(ls, p.lines);
    LinesTagged(edits, left, right, c.s, c.f);
    LinesStart(edits, left, right, c.s, c.a, c.f);
    LinesEnd(edits, left, right, c.s, c.b, c.f);
    SameStart(p.lines, ls, c.a - c.s);
    SameEnd(p.lines, ls, c.f - c.b - 1);
    IsPrintedAs(p, edits, left, right, c);
  }

  lemma SameTextIs(a: seq<Line>, b: seq<Line>)
    requires SameText(a, b)
    ensures Without(b, '+') == Without(a, '+') && Without(b, '-') == Without(a, '-')
  {
  }

  lemma IsPrintedAs(p: PrintedHunk, edits: seq<EditType>, left: seq<string>, right: seq<string>, c: Cut)
    requires Forward(edits, left, right) && c.s <= c.a <= c.b < c.f <= |edits|
    requires CommonStart(p.lines, c.a - c.s) && CommonEnd(p.lines, c.f - c.b - 1) && RemovalsFirst(p.lines)
    requires SameText(Lines(edits, left, right, c.s, c.f), p.lines)
    ensures PrintedAs(p, edits, left, right, c)
  {
    hide Forward, Lines, SameText, CommonStart, CommonEnd, RemovalsFirst;
  }

  // ---------------------------------------------------------------- the program

  /** The first step from `e` on that is no match. */
  method SkipMatches(edits: seq<EditType>, from: nat) returns (e: nat)
    requires from <= |edits|
    ensures from <= e <= |edits| && AllMatch(edits, from, e)
    ensures e < |edits| ==> edits[e] != Match
  {
    e := from;
    while e < |edits| && edits[e] == Match
      invariant from <= e <= |edits| && AllMatch(edits, from, e)
    {
      e := e + 1;
    }
  }

  /** Enough matches were collected, and the next edit (if any) is too far away. */
  ghost predicate Closed(edits: seq<EditType>, context: nat, f: nat)
    requires f <= |edits|
  {
    && context <= f && AllMatch(edits, f - context, f)
    && (AllMatch(edits, f, |edits|) || (f + context <= |edits| && AllMatch(edits, f, f + context)))
  }

  /** The lines before a hunk are matched lines, so neither start position underflows; and unless
      the script is over, they come after the previous hunk. */
  lemma PrefixFits(edits: seq<EditType>, left: seq<string>, right: seq<string>, context: nat, h: nat, e: nat, prefix: nat)
    requires h <= e <= |edits| && Forward(edits, left, right) && AllMatch(edits, h, e)
    requires e < |edits| ==> edits[e] != Match
    requires h == 0 || context == 0 || Closed(edits, context, h)
    requires prefix <= LeftLen(edits[..e]) && prefix <= context
    ensures prefix <= e && AllMatch(edits, e - prefix, e) && prefix <= RightLen(edits[..e])
    ensures e < |edits| ==> h <= e - prefix
  {
    assert edits[..0] == [];
    hide Forward;
    MatchRun(edits, left, right, h, e);
    if h != 0 && prefix > 0 {
      if e < |edits| {
        assert !AllMatch(edits, h, |edits|);
        assert e >= h + context;
      }
      MatchRun(edits, left, right, e - prefix, e);
    }
  }

  /** The inner loop: steps go into the hunk until it has its suffix or the script is over. */
  method PushEdits(edits: seq<EditType>, left: seq<string>, right: seq<string>, context: nat, hunk: Hunk,
                   ghost s: nat, from: nat, l0: nat, r0: nat) returns (e: nat, l: nat, r: nat, ghost b: nat)
    requires Forward(edits, left, right) && s <= from <= |edits|
    requires l0 == LeftLen(edits[..from]) && r0 == RightLen(edits[..from])
    requires from < |edits| ==> edits[from] != Match
    requires hunk.Valid() && hunk.Open() && hunk.mPushed == Lines(edits, left, right, s, from)
    modifies hunk
    ensures from <= e <= |edits| && l == LeftLen(edits[..e]) && r == RightLen(edits[..e])
    ensures hunk.Valid() && hunk.Open() && hunk.mPushed == Lines(edits, left, right, s, e)
    ensures context == 0 ==> e == from
    ensures context > 0 && from < |edits| ==> from < e
    ensures context > 0 ==> e == |edits| || Closed(edits, context, e)
    ensures context > 0 && from < |edits| ==> EditsEnd(edits, context, from, b, e)
  {
    hide Joined, Count, LeftOf, RightOf, LeftLen, RightLen, Hunk.Valid, Hunk.Open, Lines;
    e, l, r, b := from, l0, r0, from;
    var suffix := 0;
    ghost var goal: nat := from;
    while e < |edits|
      invariant from <= e <= |edits| && l == LeftLen(edits[..e]) && r == RightLen(edits[..e])
      invariant hunk.Valid() && hunk.Open() && hunk.mPushed == Lines(edits, left, right, s, e)
      invariant suffix <= e - from && AllMatch(edits, e - suffix, e)
      invariant from < e ==> context > 0
      invariant context > 0 && from == e ==> suffix == 0
      invariant from < e ==> b < e && suffix == e - b - 1 && EditsSoFar(edits, context, from, b, e)
      invariant suffix > context ==> NextEdit(edits, context, b, e, goal)
    {
      if suffix >= context {
        var it := SkipMatches(edits, e);
        if from < e {
          LookAhead(edits, context, from, b, e, it, goal);
        }
        if it == |edits| || it - e >= context {
          break;
        }
        goal := it;
      }
      if from < e {
        OneMoreStep(edits, context, from, b, e, goal);
      } else {
        FirstStep(edits, context, from);
      }
      var edit := edits[e];
      b := if edit == Match then b else e;
      suffix := if edit == Match then suffix + 1 else 0;
      PushStep(edits, left, right, hunk, s, e, l, r);
      PositionStep(edits, e);
      l, r := if edit == Add then l else l + 1, if edit == Remove then r else r + 1;
      e := e + 1;
    }
    if context > 0 && from < |edits| {
      NoMoreEdits(edits, context, from, b, e, goal);
    }
  }

  /** The edits of a hunk so far: the last one is at `b`, and only matches follow up to `e`. */
  ghost predicate EditsSoFar(edits: seq<EditType>, context: nat, a: nat, b: nat, e: nat) {
    && a <= b < e <= |edits| && edits[a] != Match && edits[b] != Match
    && AllMatch(edits, b + 1, e) && Joined(edits, context, a, b)
  }

  /** The next edit is so near that the hunk goes on. */
  ghost predicate NextEdit(edits: seq<EditType>, context: nat, b: nat, e: nat, goal: nat) {
    e <= goal < |edits| && edits[goal] != Match && AllMatch(edits, e, goal) && goal - b - 1 < 2 * context
  }

  /** The hunk has its suffix, and after it there is no edit within two contexts. */
  ghost predicate EditsEnd(edits: seq<EditType>, context: nat, a: nat, b: nat, e: nat) {
    && EditsSoFar(edits, context, a, b, e)
    && e - b - 1 == Min(context, MatchesFrom(edits, b + 1))
    && (AllMatch(edits, b + 1, |edits|) || MatchesFrom(edits, b + 1) >= 2 * context)
  }

  /** What is seen when there are enough matches. */
  lemma LookAhead(edits: seq<EditType>, context: nat, a: nat, b: nat, e: nat, it: nat, goal: nat)
    requires EditsSoFar(edits, context, a, b, e) && e <= it <= |edits| && AllMatch(edits, e, it)
    requires it < |edits| ==> edits[it] != Match
    requires e - b - 1 >= context && (e - b - 1 > context ==> NextEdit(edits, context, b, e, goal))
    ensures it < |edits| && it - e < context ==> NextEdit(edits, context, b, e, it)
    ensures it == |edits| || it - e >= context ==> EditsEnd(edits, context, a, b, e)
  {
    hide Joined;
    if e - b - 1 > context {
      assert goal == it;
    }
    if it == |edits| || it - e >= context {
      MatchesAre(edits, b + 1, e - b - 1);
      MatchesAre(edits, b + 1, it - b - 1);
    }
  }

  lemma FirstStep(edits: seq<EditType>, context: nat, from: nat)
    requires from < |edits| && edits[from] != Match
    ensures EditsSoFar(edits, context, from, from, from + 1)
  {
  }

  /** One more step of the hunk. */
  lemma OneMoreStep(edits: seq<EditType>, context: nat, a: nat, b: nat, e: nat, goal: nat)
    requires EditsSoFar(edits, context, a, b, e) && e < |edits| && context > 0
    requires e - b - 1 >= context ==> NextEdit(edits, context, b, e, goal)
    ensures edits[e] == Match ==> EditsSoFar(edits, context, a, b, e + 1)
    ensures edits[e] == Match && e - b - 1 >= context ==> NextEdit(edits, context, b, e + 1, goal)
    ensures edits[e] != Match ==> EditsSoFar(edits, context, a, e, e + 1)
  {
    if edits[e] == Match {
      hide Joined;
    } else {
      assert e - b - 1 < 2 * context;
      JoinStep(edits, context, a, b, e);
    }
  }

  lemma JoinStep(edits: seq<EditType>, context: nat, a: nat, b: nat, e: nat)
    requires a <= b < e < |edits| && Joined(edits, context, a, b) && AllMatch(edits, b + 1, e) && e - b - 1 < 2 * context
    requires edits[b] != Match
    ensures Joined(edits, context, a, e)
  {
    forall p, q | a <= p < q <= e && edits[p] != Match && edits[q] != Match && AllMatch(edits, p + 1, q)
      ensures q - p - 1 < 2 * context
    {
      if q > b {
        assert q == e || q == b;
      }
    }
  }

  /** The script is over, or the hunk was left. */
  lemma NoMoreEdits(edits: seq<EditType>, context: nat, a: nat, b: nat, e: nat, goal: nat)
    requires EditsSoFar(edits, context, a, b, e)
    requires e == |edits| || EditsEnd(edits, context, a, b, e)
    requires e - b - 1 > context ==> NextEdit(edits, context, b, e, goal) || EditsEnd(edits, context, a, b, e)
    ensures EditsEnd(edits, context, a, b, e)
  {
    hide Joined;
    if e == |edits| {
      MatchesAre(edits, b + 1, e - b - 1);
    }
  }

  /** What one step pushes. */
  method PushStep(edits: seq<EditType>, left: seq<string>, right: seq<string>, hunk: Hunk, ghost s: nat, e: nat, l: nat, r: nat)
    requires Forward(edits, left, right) && s <= e < |edits|
    requires l == LeftLen(edits[..e]) && r == RightLen(edits[..e])
    requires hunk.Valid() && hunk.Open() && hunk.mPushed == Lines(edits, left, right, s, e)
    modifies hunk
    ensures hunk.Valid() && hunk.Open() && hunk.mPushed == Lines(edits, left, right, s, e + 1)
  {
    assert StepFits(edits, left, right, e);
    var edit := edits[e];
    if edit == Match || edit == Remove || edit == Replace {
      hunk.PushLine(if edit == Match then ' ' else '-', left[l]);
    }
    if edit == Add || edit == Replace {
      hunk.PushLine('+', right[r]);
    }
    hide LeftLen, RightLen, Hunk.Valid, Hunk.Open;
    assert Lines(edits, left, right, s, e + 1) == Lines(edits, left, right, s, e) + StepLines(edits, left, right, e);
  }

  /** One matched step before step `e` pushes the line as far before the position at `e`. */
  lemma MatchedLine(edits: seq<EditType>, left: seq<string>, right: seq<string>, s: nat, k: nat, e: nat)
    requires s <= k < e <= |edits| && Forward(edits, left, right) && AllMatch(edits, k, e)
    ensures 0 <= LeftLen(edits[..e]) - (e - k) < |left|
    ensures Lines(edits, left, right, s, k + 1)
         == Lines(edits, left, right, s, k) + [Line(' ', left[LeftLen(edits[..e]) - (e - k)])]
  {
    assert edits[k] == Match && StepFits(edits, left, right, k);
    MatchRun(edits, left, right, k, e);
  }

  /** The `prefix` lines before step `e`, all of them matched. */
  method PushPrefix(edits: seq<EditType>, left: seq<string>, ghost right: seq<string>, hunk: Hunk, ghost e: nat, l: nat, prefix: nat)
    requires Forward(edits, left, right) && prefix <= e <= |edits| && AllMatch(edits, e - prefix, e)
    requires l == LeftLen(edits[..e]) && prefix <= l
    requires hunk.Valid() && hunk.Open() && hunk.mPushed == []
    modifies hunk
    ensures hunk.Valid() && hunk.Open() && hunk.mPushed == Lines(edits, left, right, e - prefix, e)
  {
    hide Hunk.Valid, Hunk.Open, LeftLen, RightLen, Forward;
    var i := prefix;
    while i > 0
      invariant 0 <= i <= prefix && hunk.Valid() && hunk.Open()
      invariant hunk.mPushed == Lines(edits, left, right, e - prefix, e - i)
    {
      MatchedLine(edits, left, right, e - prefix, e - i, e);
      hunk.PushLine(' ', left[l - i]);
      i := i - 1;
    }
  }

  /** One turn of the outer loop: the next hunk, if there is one. */
  method NextHunk(os: string, edits: seq<EditType>, left: seq<string>, right: seq<string>, context: nat, h: nat, l0: nat, r0: nat)
    returns (text: string, more: bool, ghost p: Option<PrintedHunk>, ghost c: Cut, e: nat, l: nat, r: nat)
    requires Forward(edits, left, right) && h < |edits| && l0 == LeftLen(edits[..h]) && r0 == RightLen(edits[..h])
    requires h == 0 || context == 0 || Closed(edits, context, h)
    requires r0 <= |right|
    ensures h <= e <= |edits| && l == LeftLen(edits[..e]) && r == RightLen(edits[..e]) <= |right|
    ensures context == 0 ==> p.None?
    ensures context >= 1 && p.None? ==> AllMatch(edits, h, |edits|)
    ensures p.Some? ==> h < e && (e == |edits| || Closed(edits, context, e))
    ensures p.Some? ==> ReplayHunk(p.value, left, State(l0, right[..r0])) == Some(State(l, right[..r]))
    ensures more == p.Some? && (if more then text == os + HunkText(p.value) && TakenFrom(p.value.lines, left, right) else text == os)
    ensures p.Some? ==>
      && CutRight(edits, context, c) && FarEnough(edits, context, c) && PrintedAs(p.value, edits, left, right, c)
      && h <= c.a && AllMatch(edits, h, c.a) && c.f == e
  {
    hide *;
    e := SkipMatches(edits, h);
    ghost var first := e;
    MatchRun(edits, left, right, h, e);
    l, r := l0 + (e - h), r0 + (e - h);
    var prefix := if l <= context then l else context;
    PrefixFits(edits, left, right, context, h, e, prefix);
    ghost var s: nat := e - prefix;
    MatchRun(edits, left, right, s, e);
    var hunk := new Hunk(l - prefix + 1, r - prefix + 1);
    PushPrefix(edits, left, right, hunk, e, l, prefix);
    ghost var b;
    e, l, r, b := PushEdits(edits, left, right, context, hunk, s, e, l, r);
    Skipped(edits, context, h, s, first, e);
    PositionsBounded(edits, left, right, e);
    text, more, p := PrintIfAny(os, edits, left, right, hunk, h, s, e);
    c := Cut(s, first, b, e);
    if p.Some? {
      MinIs(context, LeftLen(edits[..first]));
      IsCutRight(edits, context, c);
      CutParts(edits, context, c);
      PrintedRight(p.value, edits, left, right, c);
    }
  }

  /** After the hunk the script is over or no edit comes within two contexts. */
  ghost predicate FarEnough(edits: seq<EditType>, context: nat, c: Cut) {
    c.b < |edits| && (AllMatch(edits, c.b + 1, |edits|) || MatchesFrom(edits, c.b + 1) >= 2 * context)
  }

  lemma MinIs(a: nat, b: nat)
    ensures Min(a, b) == if a <= b then a else b
  {
  }

  lemma CutParts(edits: seq<EditType>, context: nat, c: Cut)
    requires CutRight(edits, context, c)
    ensures c.s <= c.a <= c.b < c.f <= |edits| && edits[c.a] != Match && edits[c.b] != Match
    ensures AllMatch(edits, c.s, c.a) && AllMatch(edits, c.b + 1, c.f)
  {
  }

  lemma IsCutRight(edits: seq<EditType>, context: nat, c: Cut)
    requires c.s <= c.a <= |edits| && AllMatch(edits, c.s, c.a) && EditsEnd(edits, context, c.a, c.b, c.f)
    requires c.a - c.s == Min(context, LeftLen(edits[..c.a]))
    ensures CutRight(edits, context, c) && FarEnough(edits, context, c)
  {
    hide Joined, LeftLen;
  }

  /** What the steps between the last hunk and this one say about the steps in the hunk. */
  lemma Skipped(edits: seq<EditType>, context: nat, h: nat, s: nat, first: nat, e: nat)
    requires h <= first <= e <= |edits| && s <= first && AllMatch(edits, h, first) && AllMatch(edits, s, first)
    requires first < |edits| ==> edits[first] != Match && h <= s
    requires if context == 0 then e == first else first < |edits| ==> first < e
    ensures !AllMatch(edits, s, e) ==> context > 0 && h <= s && h < e && AllMatch(edits, h, s) && first < |edits|
    ensures context > 0 && AllMatch(edits, s, e) ==> AllMatch(edits, h, |edits|)
  {
  }

  method PrintIfAny(os: string, ghost edits: seq<EditType>, ghost left: seq<string>, ghost right: seq<string>, hunk: Hunk,
                    ghost h: nat, ghost s: nat, ghost e: nat) returns (text: string, more: bool, ghost p: Option<PrintedHunk>)
    requires Forward(edits, left, right) && h <= |edits| && s <= e <= |edits| && RightLen(edits[..h]) <= |right|
    requires hunk.Valid() && hunk.Open() && hunk.mPushed == Lines(edits, left, right, s, e)
    requires hunk.mLeftStart == LeftLen(edits[..s]) + 1 && hunk.mRightStart == RightLen(edits[..s]) + 1
    requires !AllMatch(edits, s, e) ==> h <= s && AllMatch(edits, h, s)
    modifies hunk
    ensures more == p.Some? == !AllMatch(edits, s, e)
    ensures p.Some? ==> RightLen(edits[..e]) <= |right|
    ensures p.Some? ==>
      ReplayHunk(p.value, left, State(LeftLen(edits[..h]), right[..RightLen(edits[..h])]))
      == Some(State(LeftLen(edits[..e]), right[..RightLen(edits[..e])]))
    ensures if more then text == os + HunkText(p.value) && TakenFrom(p.value.lines, left, right) else text == os
    ensures p.Some? ==> SameText(Lines(edits, left, right, s, e), p.value.lines) && Tagged(p.value.lines) && RemovalsFirst(p.value.lines)
  {
    hide *;
    EditsCounted(edits, left, right, s, e);
    LinesSpell(edits, left, right, s, e);
    EditsOf(hunk);
    if !hunk.HasEdits() {
      return os, false, None;
    }
    ghost var printed;
    text, printed := hunk.PrintTo(os);
    HunkReplays(printed, edits, left, right, h, s, e);
    SidesTaken(printed.lines, left, right, LeftLen(edits[..s]), LeftLen(edits[..e]), RightLen(edits[..s]), RightLen(edits[..e]));
    more, p := true, Some(printed);
  }

  /** A hunk has edits if it removes or adds a line, and a side is printed if it has any. */
  lemma EditsOf(hunk: Hunk)
    requires hunk.Valid()
    ensures hunk.HasEdits() <==> !(Count(hunk.mPushed, '-') == 0 && Count(hunk.mPushed, '+') == 0)
    ensures var p := hunk.Printed();
      && (p.leftSpan.Some? <==> hunk.mRemoves > 0) && (p.rightSpan.Some? <==> hunk.mAdds > 0)
      && (hunk.HasEdits() ==> p.leftSpan.Some? || p.rightSpan.Some?)
      && (p.leftSpan.Some? ==> p.leftSpan.value == Span(hunk.mLeftStart, hunk.mRemoves + hunk.mCommon))
      && (p.rightSpan.Some? ==> p.rightSpan.value == Span(hunk.mRightStart, hunk.mAdds + hunk.mCommon))
  {
    hide Count;
  }

  /** The cuts up to step `h` are right, and nothing but matches lies in front of `h` since the last edit. */
  ghost predicate CutSoFar(edits: seq<EditType>, context: nat, cuts: seq<Cut>, h: nat) {
    && h <= |edits|
    && (forall k :: 0 <= k < |cuts| ==> CutRight(edits, context, cuts[k]))
    && (forall k :: 0 <= k < |cuts| - 1 ==> Apart(edits, context, cuts[k], cuts[k + 1]))
    && (if cuts == [] then h == 0 else
          var c := cuts[|cuts| - 1];
          AllMatch(edits, 0, cuts[0].a) && c.f == h && FarEnough(edits, context, c))
  }

  lemma OneMoreCut(edits: seq<EditType>, context: nat, cuts: seq<Cut>, h: nat, c: Cut)
    requires CutSoFar(edits, context, cuts, h) && CutRight(edits, context, c) && FarEnough(edits, context, c)
    requires h <= c.a <= |edits| && AllMatch(edits, h, c.a)
    ensures CutSoFar(edits, context, cuts + [c], c.f)
  {
    hide *;
    CutsAre(edits, context, cuts, h);
    CutParts(edits, context, c);
    if cuts != [] {
      CutParts(edits, context, cuts[|cuts| - 1]);
      NextApart(edits, context, cuts[|cuts| - 1], h, c);
    }
    IsCutSoFar(edits, context, cuts + [c], c.f);
  }

  lemma CutsAre(edits: seq<EditType>, context: nat, cuts: seq<Cut>, h: nat)
    requires CutSoFar(edits, context, cuts, h)
    ensures h <= |edits| && (forall k :: 0 <= k < |cuts| ==> CutRight(edits, context, cuts[k]))
    ensures forall k :: 0 <= k < |cuts| - 1 ==> Apart(edits, context, cuts[k], cuts[k + 1])
    ensures if cuts == [] then h == 0
            else cuts[0].a <= |edits| && AllMatch(edits, 0, cuts[0].a) && cuts[|cuts| - 1].f == h
                 && FarEnough(edits, context, cuts[|cuts| - 1])
  {
    if cuts != [] {
      assert CutRight(edits, context, cuts[0]);
    }
    hide Joined, LeftLen, Apart, FarEnough;
  }

  lemma IsCutSoFar(edits: seq<EditType>, context: nat, cuts: seq<Cut>, h: nat)
    requires h <= |edits| && cuts != [] && (forall k :: 0 <= k < |cuts| ==> CutRight(edits, context, cuts[k]))
    requires forall k :: 0 <= k < |cuts| - 1 ==> Apart(edits, context, cuts[k], cuts[k + 1])
    requires cuts[0].a <= |edits| && AllMatch(edits, 0, cuts[0].a) && cuts[|cuts| - 1].f == h && FarEnough(edits, context, cuts[|cuts| - 1])
    ensures CutSoFar(edits, context, cuts, h)
  {
    hide CutRight, Apart, FarEnough;
  }

  lemma NextApart(edits: seq<EditType>, context: nat, d: Cut, h: nat, c: Cut)
    requires d.b < d.f == h <= c.a < |edits| && AllMatch(edits, d.b + 1, h) && AllMatch(edits, h, c.a) && edits[c.a] != Match
    requires FarEnough(edits, context, d)
    ensures Apart(edits, context, d, c)
  {
    MatchesAre(edits, d.b + 1, c.a - d.b - 1);
  }

  lemma AllCut(edits: seq<EditType>, context: nat, cuts: seq<Cut>, h: nat)
    requires CutSoFar(edits, context, cuts, h) && AllMatch(edits, h, |edits|)
    ensures WellCut(edits, context, cuts)
  {
    if cuts != [] {
      var c := cuts[|cuts| - 1];
      assert CutRight(edits, context, c);
    }
    hide Joined, LeftLen;
  }

  /** With at least one line of context, replaying the printed hunks on `left` gives `right`.  Without
      context nothing is printed at all, which is right only for equal texts.  If no line holds a line
      break, the text alone says as much.  The hunks are cut out of the edit script as the context asks. */
  method CreateUnifiedDiff(left: seq<string>, right: seq<string>, context: nat)
    returns (text: string, ghost hunks: seq<PrintedHunk>, ghost cuts: seq<Cut>)
    ensures text == DiffOf(hunks) && AllTaken(hunks, left, right)
    ensures Replay(hunks, left) == Some(right) <==> context >= 1 || left == right
    ensures context == 0 ==> hunks == [] && text == ""
    ensures var edits := Path(left, right, |left|, |right|);
      && Forward(edits, left, right) && |cuts| == |hunks| && (context >= 1 ==> WellCut(edits, context, cuts))
      && forall k :: 0 <= k < |cuts| ==> CutRight(edits, context, cuts[k]) && PrintedAs(hunks[k], edits, left, right, cuts[k])
    ensures AllUnbroken(left) && AllUnbroken(right) ==>
      (ReplayText(text, left) == Some(right) <==> context >= 1 || left == right)
  {
    hide *;
    var edits := CalculateLineEdits(left, right);
    LineScript(left, right);
    hunks, text, cuts := [], "", [];
    var l, r, e := 0, 0, 0;
    NothingPrinted(edits, left, right, context);
    ghost var h := 0;
    while e < |edits|
      invariant h == e <= |edits| && l == LeftLen(edits[..e]) && r == RightLen(edits[..e]) <= |right|
      invariant context >= 1 ==> ReplayedTo(hunks, edits, left, right, e)
      invariant e == 0 || context == 0 || e == |edits| || Closed(edits, context, e)
      invariant context == 0 ==> hunks == []
      invariant text == DiffOf(hunks) && AllTaken(hunks, left, right)
      invariant |cuts| == |hunks| && CutSoFar(edits, context, cuts, e)
      invariant forall k :: 0 <= k < |cuts| ==> CutRight(edits, context, cuts[k]) && PrintedAs(hunks[k], edits, left, right, cuts[k])
    {
      var more: bool;
      ghost var p, c;
      text, more, p, c, e, l, r := NextHunk(text, edits, left, right, context, e, l, r);
      if !more {
        break;
      }
      AppendHunk(hunks, p.value, edits, left, right, h, e);
      AppendText(hunks, p.value, left, right);
      CutParts(edits, context, c);
      OneMoreCut(edits, context, cuts, h, c);
      hunks := hunks + [p.value];
      cuts := cuts + [c];
      h := e;
    }
    if context >= 1 {
      if h == |edits| {
        NothingLeft(edits);
      }
      AllCut(edits, context, cuts, h);
      RestReplays(hunks, edits, left, right, h);
    } else {
      NoHunks(left);
    }
    if AllUnbroken(left) && AllUnbroken(right) {
      TextSaysTheSame(hunks, left, right);
    }
  }

  lemma LineScript(left: seq<string>, right: seq<string>)
    ensures Forward(Path(left, right, |left|, |right|), left, right)
  {
    PathTransforms(left, right, |left|, |right|);
    assert left[..|left|] == left && right[..|right|] == right;
    hide Path, Transforms, Forward;
    TransformsForward(Path(left, right, |left|, |right|), left, right);
  }

  lemma NothingPrinted(edits: seq<EditType>, left: seq<string>, right: seq<string>, context: nat)
    ensures LeftLen(edits[..0]) == 0 && RightLen(edits[..0]) == 0 && ReplayedTo([], edits, left, right, 0)
    ensures DiffOf([]) == "" && AllTaken([], left, right) && CutSoFar(edits, context, [], 0)
  {
  }

  lemma AppendText(hunks: seq<PrintedHunk>, p: PrintedHunk, left: seq<string>, right: seq<string>)
    requires AllTaken(hunks, left, right) && TakenFrom(p.lines, left, right)
    ensures DiffOf(hunks + [p]) == DiffOf(hunks) + HunkText(p) && AllTaken(hunks + [p], left, right)
  {
    hide TakenFrom, HunkText;
    assert (hunks + [p])[..|hunks|] == hunks;
  }

  lemma NothingLeft(edits: seq<EditType>)
    ensures AllMatch(edits, |edits|, |edits|)
  {
  }

  lemma NoHunks(left: seq<string>)
    ensures Replay([], left) == Some(left)
  {
    assert [] + left[0..] == left;
  }
}
