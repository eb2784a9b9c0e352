/** Printing narrow characters as a C++ string literal, and reading such literals back.

    `Read` follows the lexical rules for narrow string literals (sections 2.14.3 and 2.14.5 of
    ISO/IEC 14882:2011): adjacent literals are joined, a hexadecimal escape takes as many digits as
    there are, an octal escape at most three.  `ReadsBackIff` says exactly which texts survive. */
module StringLiteral {
  import opened Wrappers

  // ---------------------------------------------------------------- the printer

  datatype CharFormat = AsIs | HexEscape | SpecialEscape

  /** std::hex and std::uppercase, without padding. */
  function HexText(b: Byte): string {
    if b < 16 then [HexDigit(b)] else [HexDigit(b / 16), HexDigit(b % 16)]
  }

  predicate IsPrintableAscii(b: Byte) {
    0x20 <= b <= 0x7E
  }

  /** A character as in a character literal, without the quotes. */
  function CharLiteral(b: Byte): (string, CharFormat) {
    match b
    case 0 => ("\\0", SpecialEscape)
    case 0x27 => ("\\'", SpecialEscape)
    case 0x5C => ("\\\\", SpecialEscape)
    case 7 => ("\\a", SpecialEscape)
    case 8 => ("\\b", SpecialEscape)
    case 12 => ("\\f", SpecialEscape)
    case 10 => ("\\n", SpecialEscape)
    case 13 => ("\\r", SpecialEscape)
    case 9 => ("\\t", SpecialEscape)
    case 11 => ("\\v", SpecialEscape)
    case _ => if IsPrintableAscii(b) then ([b as char], AsIs) else ("\\x" + HexText(b), HexEscape)
  }

  /** A character as part of a string literal. */
  function StringLiteralChar(b: Byte): (string, CharFormat) {
    match b
    case 0x27 => ("'", AsIs)
    case 0x22 => ("\\\"", SpecialEscape)
    case _ => CharLiteral(b)
  }

  /** A byte is printed as it is, as a simple escape, or in hexadecimal digits. */
  lemma FormatIs(b: Byte)
    ensures var (text, format) := StringLiteralChar(b);
      && (format == AsIs <==> 0x20 <= b <= 0x7E && b != 0x22 && b != 0x5C)
      && (format == SpecialEscape <==> b == 0 || b == 0x22 || b == 0x5C || 7 <= b <= 13)
      && (format == AsIs ==> text == [b as char])
      && (format == SpecialEscape ==> (text == "\\0" && b == 0) || (|text| == 2 && text[0] == '\\' && SimpleEscape(text[1]) == Some(b)))
      && (format == HexEscape ==> text == "\\x" + HexText(b))
  {
  }

  /** So a hexadecimal escape is used exactly if the byte is neither printable nor NUL nor the value of a
      simple escape. */
  lemma HexEscapeIff(b: Byte)
    ensures StringLiteralChar(b).1 == HexEscape
       <==> !(0x20 <= b <= 0x7E) && b != 0 && forall c :: SimpleEscape(c) != Some(b)
  {
    FormatIs(b);
    if b == 0x22 || b == 0x5C || 7 <= b <= 13 {
      assert SimpleEscape(StringLiteralChar(b).0[1]) == Some(b);
    }
    hide StringLiteralChar;
  }

  /** Upper-case digits, without a leading zero. */
  lemma HexTextIs(b: Byte)
    ensures |HexText(b)| == (if b < 16 then 1 else 2)
    ensures b >= 16 ==> HexText(b)[0] != '0'
    ensures forall c :: c in HexText(b) ==> '0' <= c <= '9' || 'A' <= c <= 'F'
  {
  }

  predicate IsXDigit(b: Byte) {
    0x30 <= b <= 0x39 || 0x41 <= b <= 0x46 || 0x61 <= b <= 0x66
  }

  /** What follows the opening quote, given whether a hexadecimal escape came just before. */
  function Body(bs: seq<Byte>, previousHex: bool): string {
    if bs == [] then "\"" else
    var (text, format) := StringLiteralChar(bs[0]);
    (if previousHex && IsXDigit(bs[0]) then "\" \"" else "") + text + Body(bs[1..], format == HexEscape)
  }

  /** The loop of PrintCharsAsStringTo over narrow characters. */
  method PrintCharsAsStringTo(begin: seq<Byte>) returns (os: string, printFormat: CharFormat)
    ensures os == "\"" + Body(begin, false)
    ensures printFormat == HexEscape <==> exists i :: 0 <= i < |begin| && StringLiteralChar(begin[i]).1 == HexEscape
    ensures printFormat != SpecialEscape
  {
    hide StringLiteralChar;
    os := "\"";
    var previousHex := false;
    printFormat := AsIs;
    var index := 0;
    assert begin[0..] == begin;
    while index < |begin|
      invariant 0 <= index <= |begin|
      invariant "\"" + Body(begin, false) == os + Body(begin[index..], previousHex)
      invariant printFormat == HexEscape <==> exists i :: 0 <= i < index && StringLiteralChar(begin[i]).1 == HexEscape
      invariant printFormat != SpecialEscape
    {
      var cur := begin[index];
      assert begin[index..][1..] == begin[index + 1..];
      if previousHex && IsXDigit(cur) {
        os := os + "\" \"";
      }
      var (text, format) := StringLiteralChar(cur);
      os := os + text;
      previousHex := format == HexEscape;
      if previousHex {
        printFormat := HexEscape;
      }
      index := index + 1;
    }
    os := os + "\"";
  }

  // ---------------------------------------------------------------- the reader

  predicate IsHexChar(c: char) {
    '0' <= c <= '9' || 'A' <= c <= 'F' || 'a' <= c <= 'f'
  }

  /** The literal is broken exactly before characters that would be read as a part of the escape. */
  lemma BreakIff(b: Byte)
    ensures var text := StringLiteralChar(b).0; text != "" && (IsXDigit(b) <==> IsHexChar(text[0]))
  {
    FormatIs(b);
  }

  predicate IsOctalChar(c: char) {
    '0' <= c <= '7'
  }

  function DigitValue(c: char): nat
    requires IsHexChar(c)
  {
    if c <= '9' then c as int - '0' as int else if c <= 'F' then c as int - 'A' as int + 10 else c as int - 'a' as int + 10
  }

  /** How many hexadecimal digits stand at the start of `s`. */
  function HexRun(s: string): (n: nat)
    ensures n <= |s| && forall i :: 0 <= i < n ==> IsHexChar(s[i])
  {
    if s == [] || !IsHexChar(s[0]) then 0 else 1 + HexRun(s[1..])
  }

  /** How many octal digits, but no more than `most`. */
  function OctalRun(s: string, most: nat): (n: nat)
    ensures n <= |s| && n <= most && forall i :: 0 <= i < n ==> IsOctalChar(s[i])
  {
    if most == 0 || s == [] || !IsOctalChar(s[0]) then 0 else 1 + OctalRun(s[1..], most - 1)
  }

  function Number(s: string, base: nat): nat
    requires forall i :: 0 <= i < |s| ==> IsHexChar(s[i])
  {
    if s == [] then 0 else Number(s[..|s| - 1], base) * base + DigitValue(s[|s| - 1])
  }

  /** The simple escape sequences. */
  function SimpleEscape(c: char): Option<Byte> {
    match c
    case '\'' => Some(0x27)
    case '"' => Some(0x22)
    case '?' => Some(0x3F)
    case '\\' => Some(0x5C)
    case 'a' => Some(7)
    case 'b' => Some(8)
    case 'f' => Some(12)
    case 'n' => Some(10)
    case 'r' => Some(13)
    case 't' => Some(9)
    case 'v' => Some(11)
    case _ => None
  }

  /** The next element of a literal: its value and its length. */
  function Element(s: string): Option<(Byte, nat)>
    requires s != []
  {
    if s[0] != '\\' then (if s[0] != '\n' && s[0] <= '\U{7F}' then Some((s[0] as int, 1)) else None)
    else if |s| == 1 then None
    else if s[1] == 'x' then
      var n := HexRun(s[2..]);
      if n > 0 && Number(s[2..2 + n], 16) < 256 then Some((Number(s[2..2 + n], 16), 2 + n)) else None
    else if IsOctalChar(s[1]) then
      var n := OctalRun(s[1..], 3);
      if Number(s[1..1 + n], 8) < 256 then Some((Number(s[1..1 + n], 8), 1 + n)) else None
    else if SimpleEscape(s[1]).Some? then Some((SimpleEscape(s[1]).value, 2))
    else None
  }

  /** Inside a literal, and between literals. */
  function Inside(s: string): Option<seq<Byte>>
    decreases |s|
  {
    if s == [] then None
    else if s[0] == '"' then Outside(s[1..])
    else
      match Element(s)
      case None => None
      case Some((b, n)) =>
        if 0 < n <= |s| then (var rest :- Inside(s[n..]); Some([b] + rest)) else None
  }

  function Outside(s: string): Option<seq<Byte>>
    decreases |s|
  {
    if s == [] then Some([])
    else if s[0] == ' ' then Outside(s[1..])
    else if s[0] == '"' then Inside(s[1..])
    else None
  }

  function Read(s: string): Option<seq<Byte>> {
    Outside(s)
  }

  // ---------------------------------------------------------------- reading back

  /** No NUL is followed by an octal digit. */
  predicate Clean(bs: seq<Byte>) {
    forall i :: 0 <= i < |bs| - 1 ==> !(bs[i] == 0 && 0x30 <= bs[i + 1] <= 0x37)
  }

  /** After a hexadecimal escape the next character is never a hexadecimal digit: the quote break
      sees to that. */
  lemma NoDigitAfterHex(bs: seq<Byte>)
    ensures Body(bs, true) != [] && !IsHexChar(Body(bs, true)[0])
  {
  }

  /** After anything else, it is an octal digit exactly if the next byte is one. */
  lemma DigitAfterPlain(bs: seq<Byte>)
    ensures Body(bs, false) != []
    ensures IsOctalChar(Body(bs, false)[0]) <==> bs != [] && 0x30 <= bs[0] <= 0x37
    ensures bs != [] && 0x30 <= bs[0] <= 0x37 ==> Body(bs, false) == [bs[0] as char] + Body(bs[1..], false)
  {
  }

  lemma DigitOfValue(d: nat)
    requires d < 16
    ensures IsHexChar(HexDigit(d)) && DigitValue(HexDigit(d)) == d
  {
  }

  lemma HexNumber(b: Byte)
    ensures (forall i :: 0 <= i < |HexText(b)| ==> IsHexChar(HexText(b)[i])) && Number(HexText(b), 16) == b
  {
    var h := HexText(b);
    if b < 16 {
      DigitOfValue(b);
      assert h[..0] == [] && Number([], 16) == 0;
    } else {
      DigitOfValue(b / 16);
      DigitOfValue(b % 16);
      assert h[..1] == [h[0]] && [h[0]][..0] == [] && Number([], 16) == 0;
      assert Number([h[0]], 16) == b / 16;
    }
  }

  lemma HexReads(b: Byte, rest: string)
    requires rest != [] && !IsHexChar(rest[0])
    ensures var s := "\\x" + HexText(b) + rest;
      Element(s) == Some((b, 2 + |HexText(b)|))
  {
    var h := HexText(b);
    var s := "\\x" + h + rest;
    HexNumber(b);
    assert h != [];
    hide HexText, IsHexChar, Number;
    HexRunIs(h, rest);
    assert s[2..] == h + rest && s[2..2 + |h|] == h;
  }

  lemma {:induction false} HexRunIs(h: string, rest: string)
    requires rest != [] && !IsHexChar(rest[0]) && forall i :: 0 <= i < |h| ==> IsHexChar(h[i])
    ensures HexRun(h + rest) == |h|
  {
    if h == [] {
      assert h + rest == rest;
    } else {
      assert (h + rest)[1..] == h[1..] + rest;
      HexRunIs(h[1..], rest);
    }
  }

  /** A printed byte is read as that byte, unless it is a NUL before an octal digit. */
  lemma ElementReads(b: Byte, bs: seq<Byte>)
    requires !(b == 0 && bs != [] && 0x30 <= bs[0] <= 0x37)
    ensures var (text, format) := StringLiteralChar(b);
      var s := text + Body(bs, format == HexEscape);
      text != [] && s[0] != '"' && Element(s) == Some((b, |text|)) && s[|text|..] == Body(bs, format == HexEscape)
  {
    var (text, format) := StringLiteralChar(b);
    var rest := Body(bs, format == HexEscape);
    var s := text + rest;
    if format == HexEscape {
      NoDigitAfterHex(bs);
      hide Body;
      HexReads(b, rest);
      assert s == "\\x" + HexText(b) + rest;
    } else if b == 0 {
      DigitAfterPlain(bs);
      hide Body;
      assert s[1..] == "0" + rest && ("0" + rest)[1..] == rest;
      assert OctalRun(rest, 2) == 0;
      assert OctalRun("0" + rest, 3) == 1;
      assert s[1..2] == "0" && "0"[..0] == [] && Number([], 8) == 0;
    } else {
      hide Body;
    }
  }

  /** A NUL before octal digits swallows one or two of them. */
  lemma NulSwallows(bs: seq<Byte>)
    requires |bs| >= 2 && bs[0] == 0 && 0x30 <= bs[1] <= 0x37
    ensures var k := if |bs| >= 3 && 0x30 <= bs[2] <= 0x37 then 3 else 2;
      TakesAsOne(Body(bs, false), k + 1, Body(bs[k..], false)) && Body(bs, false)[0] == '\\'
  {
    hide *;
    var d, rest := bs[1] as char, Body(bs[2..], false);
    NulText(bs);
    DigitAfterPlain(bs[2..]);
    if |bs| >= 3 && 0x30 <= bs[2] <= 0x37 {
      var e, rest3 := bs[2] as char, Body(bs[3..], false);
      assert bs[2..][1..] == bs[3..];
      assert rest == [e] + rest3;
      assert "\\0" + [d] + ([e] + rest3) == "\\0" + [d, e] + rest3;
      OctalOfByte(bs[1]);
      OctalOfByte(bs[2]);
      ThreeOctal(d, e, rest3);
    } else {
      OctalOfByte(bs[1]);
      TwoOctal(d, rest);
    }
  }

  lemma OctalOfByte(b: Byte)
    ensures IsOctalChar(b as char) <==> 0x30 <= b <= 0x37
  {
  }

  lemma NulText(bs: seq<Byte>)
    requires |bs| >= 2 && bs[0] == 0 && 0x30 <= bs[1] <= 0x37
    ensures Body(bs, false) == "\\0" + [bs[1] as char] + Body(bs[2..], false)
  {
    hide *;
    NulStart(bs);
    DigitAfterPlain(bs[1..]);
    assert bs[1..][1..] == bs[2..];
    var rest := Body(bs[2..], false);
    assert "\\0" + ([bs[1] as char] + rest) == "\\0" + [bs[1] as char] + rest;
  }

  lemma NulStart(bs: seq<Byte>)
    requires bs != [] && bs[0] == 0
    ensures Body(bs, false) == "\\0" + Body(bs[1..], false)
  {
  }

  /** `n` characters of `s` make one element, and `rest` is left. */
  ghost predicate TakesAsOne(s: string, n: nat, rest: string) {
    s != [] && n <= |s| && Element(s).Some? && Element(s).value.1 == n && s[n..] == rest
  }

  lemma ThreeOctal(d: char, e: char, rest: string)
    requires IsOctalChar(d) && IsOctalChar(e)
    ensures TakesAsOne("\\0" + [d, e] + rest, 4, rest)
  {
    var s := "\\0" + [d, e] + rest;
    var t := s[1..];
    assert t == ['0', d, e] + rest && t[1..] == [d, e] + rest && t[1..][1..] == [e] + rest && t[1..][1..][1..] == rest;
    assert OctalRun(rest, 0) == 0 && OctalRun([e] + rest, 1) == 1 && OctalRun([d, e] + rest, 2) == 2;
    assert OctalRun(t, 3) == 3;
    assert s[1..4] == ['0', d, e];
    OctalNumber('0', d, e);
    assert Element(s) == Some((Number(['0', d, e], 8), 4));
  }

  lemma TwoOctal(d: char, rest: string)
    requires IsOctalChar(d) && rest != [] && !IsOctalChar(rest[0])
    ensures TakesAsOne("\\0" + [d] + rest, 3, rest)
  {
    var s := "\\0" + [d] + rest;
    var t := s[1..];
    assert t == ['0', d] + rest && t[1..] == [d] + rest && t[1..][1..] == rest;
    assert OctalRun(rest, 1) == 0 && OctalRun([d] + rest, 2) == 1;
    assert OctalRun(t, 3) == 2;
    assert s[1..3] == ['0', d];
    OctalNumber('0', d, '0');
    assert Element(s) == Some((Number(['0', d], 8), 3));
  }

  lemma OctalNumber(z: char, d: char, e: char)
    requires z == '0' && IsOctalChar(d) && IsOctalChar(e)
    ensures Number([z, d], 8) < 8 && Number([z, d, e], 8) < 64
  {
    assert [z, d][..1] == [z] && [z][..0] == [] && [z, d, e][..2] == [z, d];
    assert Number([], 8) == 0 && Number([z], 8) == 0;
  }

  /** The break is read as nothing. */
  lemma BreakReads(s: string)
    ensures Inside("\" \"" + s) == Inside(s)
  {
    var t, u, v := "\" \"" + s, " \"" + s, "\"" + s;
    assert t != [] && t[0] == '"' && t[1..] == u;
    assert u != [] && u[0] == ' ' && u[1..] == v;
    assert v != [] && v[0] == '"' && v[1..] == s;
    assert Inside(t) == Outside(u);
    assert Outside(u) == Outside(v);
    assert Outside(v) == Inside(s);
  }

  lemma CleanTail(bs: seq<Byte>)
    requires bs != [] && !(|bs| >= 2 && bs[0] == 0 && 0x30 <= bs[1] <= 0x37)
    ensures Clean(bs) <==> Clean(bs[1..])
  {
    var t := bs[1..];
    if Clean(t) {
      forall i | 0 <= i < |bs| - 1 ensures !(bs[i] == 0 && 0x30 <= bs[i + 1] <= 0x37) {
        if i > 0 {
          assert !(t[i - 1] == 0 && 0x30 <= t[i - 1 + 1] <= 0x37);
        }
      }
    }
  }

  lemma OneRead(s: string, b: Byte, n: nat, rest: string)
    requires 0 < n <= |s| && s[0] != '"' && Element(s) == Some((b, n)) && s[n..] == rest
    ensures Inside(s) == match Inside(rest) case None => None case Some(bs) => Some([b] + bs)
  {
    hide Element;
  }

  lemma BodyBreaks(bs: seq<Byte>)
    requires bs != [] && IsXDigit(bs[0])
    ensures Body(bs, true) == "\" \"" + Body(bs, false)
  {
    hide StringLiteralChar;
  }

  lemma BodyGoesOn(bs: seq<Byte>, previousHex: bool)
    requires bs != [] && !(previousHex && IsXDigit(bs[0]))
    ensures var (text, format) := StringLiteralChar(bs[0]);
      Body(bs, previousHex) == text + Body(bs[1..], format == HexEscape)
  {
    hide StringLiteralChar;
  }

  /** What follows the opening quote always reads as some bytes, never more than were printed, and as
      the very same bytes exactly when no NUL is followed by an octal digit. */
  lemma {:induction false} BodyReads(bs: seq<Byte>, previousHex: bool)
    ensures var r := Inside(Body(bs, previousHex));
      r.Some? && |r.value| <= |bs| && (r.value == bs <==> Clean(bs))
    decreases |bs|, previousHex, 1
  {
    if bs == [] {
      assert "\""[1..] == [];
    } else if previousHex && IsXDigit(bs[0]) {
      BodyBreaks(bs);
      hide *;
      BodyReads(bs, false);
      BreakReads(Body(bs, false));
    } else if |bs| >= 2 && bs[0] == 0 && 0x30 <= bs[1] <= 0x37 {
      BodyGoesOn(bs, previousHex);
      BodyGoesOn(bs, false);
      hide *;
      NulReads(bs);
    } else {
      hide *;
      PlainReads(bs, previousHex);
    }
  }

  lemma {:induction false} PlainReads(bs: seq<Byte>, previousHex: bool)
    requires bs != [] && !(previousHex && IsXDigit(bs[0]))
    requires !(|bs| >= 2 && bs[0] == 0 && 0x30 <= bs[1] <= 0x37)
    ensures var r := Inside(Body(bs, previousHex));
      r.Some? && |r.value| <= |bs| && (r.value == bs <==> Clean(bs))
    decreases |bs|, previousHex, 0
  {
    hide *;
    BodyGoesOn(bs, previousHex);
    var (text, format) := StringLiteralChar(bs[0]);
    ElementReads(bs[0], bs[1..]);
    var rest := Body(bs[1..], format == HexEscape);
    OneRead(text + rest, bs[0], |text|, rest);
    BodyReads(bs[1..], format == HexEscape);
    CleanTail(bs);
    assert bs == [bs[0]] + bs[1..];
  }

  lemma {:induction false} NulReads(bs: seq<Byte>)
    requires |bs| >= 2 && bs[0] == 0 && 0x30 <= bs[1] <= 0x37
    ensures var r := Inside(Body(bs, false));
      r.Some? && |r.value| < |bs| && !Clean(bs)
    decreases |bs|, false, 0
  {
    var k := if |bs| >= 3 && 0x30 <= bs[2] <= 0x37 then 3 else 2;
    NulSwallows(bs);
    var s, rest := Body(bs, false), Body(bs[k..], false);
    assert !Clean(bs);
    hide Body, Clean, Element;
    OneRead(s, Element(s).value.0, k + 1, rest);
    BodyReads(bs[k..], false);
  }

  /** The printed text is always a valid sequence of literals, and it reads back as what was printed if
      and only if no NUL is followed by an octal digit. */
  lemma ReadsBackIff(bs: seq<Byte>)
    ensures Read("\"" + Body(bs, false)).Some?
    ensures Read("\"" + Body(bs, false)) == Some(bs) <==> Clean(bs)
  {
    BodyReads(bs, false);
    assert ("\"" + Body(bs, false))[1..] == Body(bs, false);
  }

  /** A NUL before the digit 1 is printed as "\01", which reads as the byte 1. */
  lemma NulBeforeDigit()
    ensures "\"" + Body([0, 0x31], false) == "\"\\01\"" && Read("\"\\01\"") == Some([1])
  {
    hide *;
    NulThenOne();
    OctalOne();
    QuoteEnds();
    var t := "\\01\"";
    assert t[3..] == "\"" && ("\"" + t)[1..] == t;
    InsideStep(t, 1, 3);
    assert [1] + [] == [1];
    LiteralStart(t);
  }

  lemma NulThenOne()
    ensures Body([0, 0x31], false) == "\\01\""
  {
    NulText([0, 0x31]);
    assert [0, 0x31][2..] == [];
  }

  lemma OctalOne()
    ensures Element("\\01\"") == Some((1, 3))
  {
    var t := "\\01\"";
    var u := t[1..];
    assert u == "01\"" && u[1..] == "1\"" && u[1..][1..] == "\"";
    assert OctalRun("\"", 1) == 0;
    assert OctalRun("1\"", 2) == 1;
    assert OctalRun(u, 3) == 2;
    assert t[1..3] == ['0', '1'];
    OctalNumber('0', '1', '0');
    assert Number(['0', '1'], 8) == 1 by {
      assert ['0', '1'][..1] == ['0'] && ['0'][..0] == [];
      assert Number(['0'], 8) == 0;
    }
  }

  lemma QuoteEnds()
    ensures Inside("\"") == Some([])
  {
    assert "\""[1..] == "";
  }

  lemma InsideStep(t: string, b: Byte, n: nat)
    requires t != [] && t[0] != '"' && Element(t) == Some((b, n)) && 0 < n <= |t| && Inside(t[n..]).Some?
    ensures Inside(t) == Some([b] + Inside(t[n..]).value)
  {
    hide Element;
  }

  lemma LiteralStart(t: string)
    ensures Read("\"" + t) == Inside(t)
  {
    assert ("\"" + t)[1..] == t;
  }
}
