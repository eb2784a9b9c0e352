/** Writing arbitrary text as CDATA sections, and reading XML content back.

    `Content` follows sections 2.4, 2.7 and 4.6 of XML 1.0: character data must not contain "]]>", a CDATA
    section ends at the first "]]>" after its start. */
module Cdata {
  import opened Wrappers

  const Start := "<![CDATA["
  const End := "]]>"
  const EscapedEnd := "]]&gt;"

  /** What is written for "]]>": the end of the section, its escaped form, and a new section. */
  function Reopen(): string {
    End + EscapedEnd + Start
  }

  predicate EndAt(s: string, k: nat) {
    k + 3 <= |s| && s[k] == ']' && s[k + 1] == ']' && s[k + 2] == '>'
  }

  /** strstr: where "]]>" first stands. */
  function FindEnd(s: string): (r: Option<nat>)
    ensures r.Some? ==> EndAt(s, r.value)
    ensures forall k: nat :: k < |s| && (r.Some? ==> k < r.value) ==> !EndAt(s, k)
  {
    if s == [] then None
    else if EndAt(s, 0) then Some(0)
    else
      assert forall k: nat :: 0 < k < |s| && EndAt(s, k) ==> EndAt(s[1..], k - 1);
      match FindEnd(s[1..]) case None => None case Some(k) => Some(k + 1)
  }

  /** What is written after the first section has been opened. */
  function Rest(segment: string): string
    decreases |segment|
  {
    match FindEnd(segment)
    case None => segment + End
    case Some(k) => segment[..k] + Reopen() + Rest(segment[k + 3..])
  }

  lemma Regroup<T>(a: seq<T>, b: seq<T>, c: seq<T>, d: seq<T>)
    ensures a + (b + c + d) == a + b + c + d == a + b + (c + d)
  {
  }

  lemma LastSegment(stream: string, segment: string)
    requires FindEnd(segment).None?
    ensures stream + Rest(segment) == stream + segment + End
  {
    assert Rest(segment) == segment + End;
    hide *;
    Regroup(stream, segment, End, []);
    assert segment + End + [] == segment + End && stream + segment + End + [] == stream + segment + End;
  }

  lemma EndFits(s: string, k: nat)
    requires FindEnd(s) == Some(k)
    ensures EndAt(s, k) && k + 3 <= |s|
  {
  }

  lemma RestStep(segment: string, k: nat)
    requires k + 3 <= |segment| && FindEnd(segment) == Some(k)
    ensures Rest(segment) == segment[..k] + Reopen() + Rest(segment[k + 3..])
  {
    hide Reopen, FindEnd, EndAt;
  }

  lemma NextSegment(stream: string, segment: string, k: nat)
    requires FindEnd(segment) == Some(k)
    ensures k + 3 <= |segment|
    ensures stream + Rest(segment) == stream + segment[..k] + Reopen() + Rest(segment[k + 3..])
  {
    hide *;
    EndFits(segment, k);
    RestStep(segment, k);
    Regroup(stream, segment[..k], Reopen(), Rest(segment[k + 3..]));
  }

  /** The marks, written out: an empty section, and the end mark taken apart. */
  lemma WrittenMarks()
    ensures Start + Rest("") == "<![CDATA[]]>"
    ensures Start + Rest("]]>") == "<![CDATA[]]>]]&gt;<![CDATA[]]>"
  {
    assert Rest("") == "]]>";
    assert FindEnd("]]>") == Some(0) && "]]>"[..0] == "" && "]]>"[3..] == "";
    assert Rest("]]>") == "" + Reopen() + Rest("");
  }

  method OutputXmlCDataSection(data: string) returns (stream: string)
    ensures stream == Start + Rest(data)
  {
    var segment := data;
    stream := Start;
    hide *;
    ghost var written := Start + Rest(data);
    var open := true;
    while open
      invariant written == if open then stream + Rest(segment) else stream + End
      decreases |segment|, open
    {
      var nextSegment := FindEnd(segment);
      match nextSegment {
        case Some(k) =>
          NextSegment(stream, segment, k);
          stream := stream + segment[..k];
          stream := stream + Reopen();
          segment := segment[k + 3..];
        case None =>
          LastSegment(stream, segment);
          stream := stream + segment;
          open := false;
      }
    }
    stream := stream + End;
  }

  // ---------------------------------------------------------------- reading

  /** The predefined entities: the character and the length of the reference. */
  function Entity(s: string): Option<(char, nat)> {
    if "&lt;" <= s then Some(('<', 4))
    else if "&gt;" <= s then Some(('>', 4))
    else if "&amp;" <= s then Some(('&', 5))
    else if "&apos;" <= s then Some(('\'', 6))
    else if "&quot;" <= s then Some(('"', 6))
    else None
  }

  /** The text that content made of character data and CDATA sections stands for. */
  function Content(s: string): Option<string>
    decreases |s|
  {
    if s == [] then Some([])
    else if Start <= s then
      (match FindEnd(s[9..])
       case None => None
       case Some(k) => var rest :- Content(s[9..][k + 3..]); Some(s[9..][..k] + rest))
    else if EndAt(s, 0) || s[0] == '<' then None
    else if s[0] == '&' then
      (match Entity(s)
       case None => None
       case Some((c, n)) => if 0 < n <= |s| then (var rest :- Content(s[n..]); Some([c] + rest)) else None)
    else (var rest :- Content(s[1..]); Some([s[0]] + rest))
  }

  /** A section ends where it was meant to: no "]]>" arises between the text and the end mark. */
  lemma EndsThere(text: string, rest: string)
    requires FindEnd(text).None?
    ensures FindEnd(text + End + rest) == Some(|text|)
  {
    var s := text + End + rest;
    hide FindEnd;
    assert EndAt(s, |text|);
    forall k: nat | k < |text|
      ensures !EndAt(s, k)
    {
      assert EndAt(s, k) ==> EndAt(text, k);
    }
  }

  lemma NoEndBefore(s: string, k: nat)
    requires FindEnd(s) == Some(k)
    ensures FindEnd(s[..k]).None?
  {
    hide FindEnd;
    forall j: nat | j < k
      ensures !EndAt(s[..k], j)
    {
      assert EndAt(s[..k], j) ==> EndAt(s, j);
    }
  }

  lemma SectionReads(text: string, rest: string)
    requires FindEnd(text).None?
    ensures Content(Start + (text + End + rest))
      == match Content(rest) case None => None case Some(t) => Some(text + t)
  {
    EndsThere(text, rest);
    var inner := text + End + rest;
    var s := Start + inner;
    assert s[9..] == inner && inner[..|text|] == text && inner[|text| + 3..] == rest;
    hide FindEnd;
  }

  /** The escaped end mark between two sections is read as "]]>". */
  lemma EscapedEndReads(rest: string)
    ensures Content(EscapedEnd + rest)
      == match Content(rest) case None => None case Some(t) => Some(End + t)
  {
    var s0, s1, s2 := "]]&gt;" + rest, "]&gt;" + rest, "&gt;" + rest;
    assert s0[0] == ']' && s0[2] == '&' && s0[1..] == s1;
    assert s1[0] == ']' && s1[1] == '&' && s1[1..] == s2;
    assert s2[0] == '&' && s2[1] == 'g' && s2[4..] == rest && s2[..4] == "&gt;";
    assert !(Start <= s0) && !(Start <= s1) && !(Start <= s2);
    assert Entity(s2) == Some(('>', 4));
    if Content(rest).Some? {
      var t := Content(rest).value;
      assert Content(s2) == Some(['>'] + t);
      assert Content(s1) == Some([']'] + (['>'] + t));
      assert Content(s0) == Some([']'] + ([']'] + (['>'] + t)));
      assert End + t == [']'] + ([']'] + (['>'] + t));
    }
  }

  /** Whatever is written reads back as the text, for every text. */
  lemma {:induction false} CDataReadsBack(data: string)
    ensures Content(Start + Rest(data)) == Some(data)
    decreases |data|
  {
    match FindEnd(data)
    case None =>
      SectionReads(data, "");
      assert data + End + "" == data + End && data + "" == data;
    case Some(k) =>
      var after := data[k + 3..];
      CDataReadsBack(after);
      AroundEnd(data, k);
      ReopenedReads(data, k);
  }

  lemma ReopenedReads(data: string, k: nat)
    requires FindEnd(data) == Some(k) && k + 3 <= |data|
    requires Content(Start + Rest(data[k + 3..])) == Some(data[k + 3..])
    ensures Content(Start + Rest(data)) == Some(data)
  {
    hide *;
    var after := data[k + 3..];
    var rest := Rest(after);
    NoEndBefore(data, k);
    EscapedEndReads(Start + rest);
    SectionReads(data[..k], EscapedEnd + (Start + rest));
    NextSegment(Start, data, k);
    Reopened(data[..k], rest);
    AroundEnd(data, k);
  }

  lemma ReopenIs()
    ensures Reopen() == End + EscapedEnd + Start
  {
  }

  lemma Reopened(text: string, rest: string)
    ensures Start + (text + End + (EscapedEnd + (Start + rest))) == Start + text + Reopen() + rest
  {
    hide *;
    ReopenIs();
    Regroup(End, EscapedEnd, Start, rest);
    Regroup(text, End, EscapedEnd, Start + rest);
    Regroup(Start, text, End + EscapedEnd + Start, rest);
    Regroup(End, EscapedEnd, Start + rest, []);
    assert End + (EscapedEnd + (Start + rest)) == End + EscapedEnd + Start + rest;
    assert text + End + (EscapedEnd + (Start + rest)) == text + (End + (EscapedEnd + (Start + rest)));
    assert Start + (text + (End + EscapedEnd + Start + rest)) == Start + text + (End + EscapedEnd + Start) + rest;
  }

  lemma AroundEnd(data: string, k: nat)
    requires FindEnd(data) == Some(k)
    ensures k + 3 <= |data| && data == data[..k] + (End + data[k + 3..])
  {
    hide FindEnd;
    assert EndAt(data, k);
    var mid, after := data[k..k + 3], data[k + 3..];
    assert mid == [']', ']', '>'] == End;
    assert data[k..] == mid + after && data == data[..k] + data[k..];
  }
}
