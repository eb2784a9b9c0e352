/** UTF-8: the encoder, the validator, and the conversion of wide strings.

    Bytes are numbers below 256; `x & 63` and `x >> 6` are written `x % 64` and `x / 64`. */
module Utf8 {
  import opened Wrappers

  /** Unicode scalar values. */
  predicate IsScalar(cp: nat) {
    cp <= 0x10FFFF && !(0xD800 <= cp <= 0xDFFF)
  }

  ghost predicate AllScalars(cps: seq<nat>) {
    forall i :: 0 <= i < |cps| ==> IsScalar(cps[i])
  }

  // ---------------------------------------------------------------- one code point

  /** The one to four bytes of a code point of at most 21 bits. */
  function Encode(cp: nat): (r: seq<Byte>)
    requires cp <= 0x1FFFFF
    ensures 1 <= |r| <= 4
  {
    var c1 := cp / 64;
    var c2 := c1 / 64;
    if cp <= 0x7F then [cp]
    else if cp <= 0x7FF then [0xC0 + c1, 0x80 + cp % 64]
    else if cp <= 0xFFFF then [0xE0 + c2, 0x80 + c1 % 64, 0x80 + cp % 64]
    else [0xF0 + c2 / 64, 0x80 + c2 % 64, 0x80 + c1 % 64, 0x80 + cp % 64]
  }

  predicate IsTrail(b: Byte) {
    0x80 <= b <= 0xBF
  }

  /** How many bytes IsValidUTF8 takes for the character at the start of `s`; 0 if it gives up. */
  function CharLength(s: seq<Byte>): (n: nat)
    requires s != []
    ensures n <= |s| && n <= 4
  {
    var lead := s[0];
    if lead <= 0x7F then 1
    else if lead < 0xC2 then 0
    else if lead <= 0xDF && |s| >= 2 && IsTrail(s[1]) then 2
    else if 0xE0 <= lead <= 0xEF && |s| >= 3 && IsTrail(s[1]) && IsTrail(s[2])
            && (lead != 0xE0 || s[1] >= 0xA0) && (lead != 0xED || s[1] < 0xA0) then 3
    else if 0xF0 <= lead <= 0xF4 && |s| >= 4 && IsTrail(s[1]) && IsTrail(s[2]) && IsTrail(s[3])
            && (lead != 0xF0 || s[1] >= 0x90) && (lead != 0xF4 || s[1] < 0x90) then 4
    else 0
  }

  /** The number that the first `n` bytes of `s` carry. */
  function Payload(s: seq<Byte>, n: nat): nat
    requires 1 <= n <= 4 && n <= |s|
  {
    match n
    case 1 => s[0]
    case 2 => Join(s[0] % 32, s[1])
    case 3 => Join(Join(s[0] % 16, s[1]), s[2])
    case 4 => Join(Join(Join(s[0] % 8, s[1]), s[2]), s[3])
  }

  /** Six more bits, from a trail byte. */
  function Join(q: nat, trail: Byte): (r: nat)
    ensures r / 64 == q && r % 64 == trail % 64
  {
    q * 64 + trail % 64
  }

  lemma Joined(q: nat, r: nat, trail: Byte)
    requires IsTrail(trail) && trail == 0x80 + r
    ensures Join(q, trail) == 64 * q + r && (64 * q + r) / 64 == q && (64 * q + r) % 64 == r
  {
  }

  /** An accepted character is the encoding of the scalar value it carries. */
  lemma AcceptedIsEncoded(s: seq<Byte>)
    requires s != [] && CharLength(s) > 0
    ensures var n := CharLength(s);
      IsScalar(Payload(s, n)) && Encode(Payload(s, n)) == s[..n]
  {
    var n := CharLength(s);
    if n == 1 {
      assert s[..1] == [s[0]];
    } else if n == 2 {
      Joined(s[0] % 32, s[1] % 64, s[1]);
      assert s[..2] == [s[0], s[1]];
    } else if n == 3 {
      Accepted3(s, s[0] % 16, s[1] % 64, s[2] % 64);
    } else {
      Accepted4(s, s[0] % 8, s[1] % 64, s[2] % 64, s[3] % 64);
    }
  }

  lemma Accepted3(s: seq<Byte>, a: nat, b: nat, c: nat)
    requires s != [] && CharLength(s) == 3 && s[0] % 16 == a
    requires s[0] == 0xE0 + a && s[1] == 0x80 + b && s[2] == 0x80 + c
    ensures IsScalar(Payload(s, 3)) && Encode(Payload(s, 3)) == s[..3]
  {
    Joined(a, b, s[1]);
    Joined(64 * a + b, c, s[2]);
    assert Payload(s, 3) == 64 * (64 * a + b) + c;
    hide Join, Payload;
    assert s[..3] == [s[0], s[1], s[2]];
  }

  lemma Accepted4(s: seq<Byte>, a: nat, b: nat, c: nat, d: nat)
    requires s != [] && CharLength(s) == 4 && s[0] % 8 == a
    requires s[0] == 0xF0 + a && s[1] == 0x80 + b && s[2] == 0x80 + c && s[3] == 0x80 + d
    ensures IsScalar(Payload(s, 4)) && Encode(Payload(s, 4)) == s[..4]
  {
    Joined(a, b, s[1]);
    Joined(64 * a + b, c, s[2]);
    Joined(64 * (64 * a + b) + c, d, s[3]);
    assert Payload(s, 4) == 64 * (64 * (64 * a + b) + c) + d;
    hide Join, Payload;
    assert s[..4] == [s[0], s[1], s[2], s[3]];
  }

  /** Whatever follows, the encoding of a code point is accepted if and only if it is a scalar value,
      and then it is taken whole. */
  lemma EncodedIsAccepted(cp: nat, rest: seq<Byte>)
    requires cp <= 0x1FFFFF
    ensures var s := Encode(cp) + rest;
      && (IsScalar(cp) ==> CharLength(s) == |Encode(cp)| && Payload(s, CharLength(s)) == cp)
      && (!IsScalar(cp) ==> CharLength(s) == 0)
  {
    var e := Encode(cp);
    var s := e + rest;
    assert s[0] == e[0];
    assert |e| > 1 ==> s[1] == e[1];
    assert |e| > 2 ==> s[2] == e[2];
    assert |e| > 3 ==> s[3] == e[3];
    Encoded(cp, s);
  }

  lemma Encoded(cp: nat, s: seq<Byte>)
    requires cp <= 0x1FFFFF
    requires |s| >= |Encode(cp)| && forall i :: 0 <= i < |Encode(cp)| ==> s[i] == Encode(cp)[i]
    ensures IsScalar(cp) ==> CharLength(s) == |Encode(cp)| && Payload(s, CharLength(s)) == cp
    ensures !IsScalar(cp) ==> CharLength(s) == 0
  {
    if cp > 0xFFFF {
      Encoded4(cp, s, cp / 64, cp % 64, cp / 64 / 64, cp / 64 % 64, cp / 64 / 64 / 64, cp / 64 / 64 % 64);
    } else if cp > 0x7FF {
      Encoded3(cp, s, cp / 64, cp % 64, cp / 64 / 64, cp / 64 % 64);
    }
  }

  lemma Encoded3(cp: nat, s: seq<Byte>, c1: nat, r0: nat, c2: nat, r1: nat)
    requires 0x7FF < cp <= 0xFFFF && cp == 64 * c1 + r0 && c1 == 64 * c2 + r1 && r0 < 64 && r1 < 64
    requires |s| >= 3 && s[0] == 0xE0 + c2 && s[1] == 0x80 + r1 && s[2] == 0x80 + r0
    ensures IsScalar(cp) ==> CharLength(s) == 3 && Payload(s, 3) == cp
    ensures !IsScalar(cp) ==> CharLength(s) == 0
  {
  }

  lemma Encoded4(cp: nat, s: seq<Byte>, c1: nat, r0: nat, c2: nat, r1: nat, c3: nat, r2: nat)
    requires 0xFFFF < cp <= 0x1FFFFF
    requires cp == 64 * c1 + r0 && c1 == 64 * c2 + r1 && c2 == 64 * c3 + r2 && r0 < 64 && r1 < 64 && r2 < 64
    requires |s| >= 4 && s[0] == 0xF0 + c3 && s[1] == 0x80 + r2 && s[2] == 0x80 + r1 && s[3] == 0x80 + r0
    ensures IsScalar(cp) ==> CharLength(s) == 4 && Payload(s, 4) == cp
    ensures !IsScalar(cp) ==> CharLength(s) == 0
  {
  }

  // ---------------------------------------------------------------- strings

  function EncodeAll(cps: seq<nat>): seq<Byte>
    requires forall i :: 0 <= i < |cps| ==> cps[i] <= 0x1FFFFF
  {
    if cps == [] then [] else Encode(cps[0]) + EncodeAll(cps[1..])
  }

  /** The code points of a byte string, if the validator accepts it. */
  function Decode(s: seq<Byte>): Option<seq<nat>> {
    if s == [] then Some([]) else
    var n := CharLength(s);
    if n == 0 then None else
    var rest :- Decode(s[n..]);
    Some([Payload(s, n)] + rest)
  }

  /** What is accepted is the encoding of scalar values ... */
  lemma {:induction false} DecodeIsScalars(s: seq<Byte>)
    requires Decode(s).Some?
    ensures AllScalars(Decode(s).value) && EncodeAll(Decode(s).value) == s
  {
    if s != [] {
      var n := CharLength(s);
      DecodeIsScalars(s[n..]);
      AcceptedIsEncoded(s);
      hide CharLength, Payload, Encode;
      var cps := Decode(s).value;
      assert cps[1..] == Decode(s[n..]).value;
      assert s == s[..n] + s[n..];
    }
  }

  /** ... and the encoding of code points is accepted if and only if they are scalar values, which can
      then be read back: no two sequences of scalar values have the same encoding. */
  lemma {:induction false} EncodeAllDecodes(cps: seq<nat>)
    requires forall i :: 0 <= i < |cps| ==> cps[i] <= 0x1FFFFF
    ensures Decode(EncodeAll(cps)).Some? <==> AllScalars(cps)
    ensures AllScalars(cps) ==> Decode(EncodeAll(cps)) == Some(cps)
  {
    if cps != [] {
      EncodeAllDecodes(cps[1..]);
      EncodedIsAccepted(cps[0], EncodeAll(cps[1..]));
      var s := EncodeAll(cps);
      assert s[|Encode(cps[0])|..] == EncodeAll(cps[1..]);
      assert cps == [cps[0]] + cps[1..];
      hide Payload, CharLength, Encode;
    }
  }

  /** The validator's loop. */
  method IsValidUTF8(s: seq<Byte>) returns (ok: bool)
    ensures ok <==> Decode(s).Some?
  {
    var i := 0;
    while i < |s|
      invariant 0 <= i <= |s| && (Decode(s).Some? <==> Decode(s[i..]).Some?)
    {
      ghost var before := i;
      ghost var t := s[i..];
      assert forall k :: 0 <= k < |t| ==> t[k] == s[i + k];
      var lead := s[i];
      i := i + 1;
      if lead <= 0x7F {
        assert t[1..] == s[i..];
        continue;
      }
      if lead < 0xC2 {
        return false;
      } else if lead <= 0xDF && i + 1 <= |s| && IsTrail(s[i]) {
        i := i + 1;
      } else if 0xE0 <= lead <= 0xEF && i + 2 <= |s| && IsTrail(s[i]) && IsTrail(s[i + 1])
                && (lead != 0xE0 || s[i] >= 0xA0) && (lead != 0xED || s[i] < 0xA0) {
        i := i + 2;
      } else if 0xF0 <= lead <= 0xF4 && i + 3 <= |s| && IsTrail(s[i]) && IsTrail(s[i + 1]) && IsTrail(s[i + 2])
                && (lead != 0xF0 || s[i] >= 0x90) && (lead != 0xF4 || s[i] < 0x90) {
        i := i + 3;
      } else {
        return false;
      }
      assert i == before + CharLength(t);
      assert t[i - before..] == s[i..];
    }
    return true;
  }

  /** A byte string is accepted if and only if it is the encoding of some scalar values. */
  lemma AcceptedIffEncoded(s: seq<Byte>)
    ensures Decode(s).Some? <==> exists cps: seq<nat> :: AllScalars(cps) && EncodeAll(cps) == s
  {
    if Decode(s).Some? {
      DecodeIsScalars(s);
      var cps := Decode(s).value;
      assert AllScalars(cps) && EncodeAll(cps) == s;
    }
    if cps: seq<nat> :| AllScalars(cps) && EncodeAll(cps) == s {
      EncodeAllDecodes(cps);
    }
  }

  // ---------------------------------------------------------------- CodePointToUtf8

  /** Upper-case hexadecimal, without leading zeros. */
  function Hex(n: nat): string {
    if n < 16 then [HexDigit(n)] else Hex(n / 16) + [HexDigit(n % 16)]
  }

  function DigitValue(c: char): nat {
    if '0' <= c <= '9' then c as nat - '0' as nat else if 'A' <= c <= 'F' then c as nat - 'A' as nat + 10 else 0
  }

  function FromHex(s: string): nat {
    if s == [] then 0 else 16 * FromHex(s[..|s| - 1]) + DigitValue(s[|s| - 1])
  }

  /** The digits are those of the number, in upper case, and the first one is not zero. */
  lemma {:induction false} HexIs(n: nat)
    ensures Hex(n) != [] && FromHex(Hex(n)) == n && (n > 0 ==> Hex(n)[0] != '0')
    ensures forall c :: c in Hex(n) ==> '0' <= c <= '9' || 'A' <= c <= 'F'
  {
    var s := Hex(n);
    OneDigit(n % 16);
    if n < 16 {
      assert s[..0] == [];
      assert FromHex([]) == 0;
    } else {
      HexIs(n / 16);
      assert s[..|s| - 1] == Hex(n / 16);
    }
    hide HexDigit, DigitValue;
  }

  lemma OneDigit(d: nat)
    requires d < 16
    ensures DigitValue(HexDigit(d)) == d && (HexDigit(d) == '0' <==> d == 0)
    ensures '0' <= HexDigit(d) <= '9' || 'A' <= HexDigit(d) <= 'F'
  {
  }

  function Ascii(s: string): seq<Byte> {
    seq(|s|, i requires 0 <= i < |s| => if s[i] <= '\U{7F}' then s[i] as int else 0)
  }

  /** What CodePointToUtf8 gives for a 32-bit number.  The characters leave the function as a C string,
      so that the encoding of 0 is cut off before its only byte. */
  function Utf8Of(cp: nat): seq<Byte> {
    if cp > 0x1FFFFF then Ascii("(Invalid Unicode 0x" + Hex(cp) + ")")
    else if cp == 0 then []
    else Encode(cp)
  }

  /** The bytes of a buffer up to the first NUL. */
  function UpToNul(s: seq<Byte>): (r: seq<Byte>)
    ensures |r| <= |s| && r == s[..|r|] && 0 !in r
    ensures |r| < |s| ==> s[|r|] == 0
  {
    if s == [] || s[0] == 0 then [] else
    var r := UpToNul(s[1..]);
    assert [s[0]] + r == s[..1 + |r|];
    [s[0]] + r
  }

  lemma {:induction false} UpToNulIs(s: seq<Byte>, r: seq<Byte>)
    requires r + [0] <= s && 0 !in r
    ensures UpToNul(s) == r
  {
    assert s[|r|] == (r + [0])[|r|];
    if r != [] {
      assert s[0] == (r + [0])[0] == r[0];
      assert s[1..][..|r|] == s[..|r| + 1][1..] == (r + [0])[1..] == r[1..] + [0];
      UpToNulIs(s[1..], r[1..]);
      assert r == [r[0]] + r[1..];
    }
  }

  /** The low six bits are chopped off one trail byte at a time, from the last byte backwards. */
  method CodePointToUtf8(cp: nat) returns (r: seq<Byte>)
    ensures r == Utf8Of(cp)
  {
    if cp > 0x1FFFFF {
      return Ascii("(Invalid Unicode 0x" + Hex(cp) + ")");
    }
    var bits := cp;
    var str := new Byte[5](_ => 0);
    if cp <= 0x7F {
      str[1] := 0;
      str[0] := bits;
    } else if cp <= 0x7FF {
      str[2] := 0;
      str[1], bits := 0x80 + bits % 64, bits / 64;
      str[0] := 0xC0 + bits;
    } else if cp <= 0xFFFF {
      str[3] := 0;
      str[2], bits := 0x80 + bits % 64, bits / 64;
      str[1], bits := 0x80 + bits % 64, bits / 64;
      str[0] := 0xE0 + bits;
    } else {
      str[4] := 0;
      str[3], bits := 0x80 + bits % 64, bits / 64;
      str[2], bits := 0x80 + bits % 64, bits / 64;
      str[1], bits := 0x80 + bits % 64, bits / 64;
      str[0] := 0xF0 + bits;
    }
    assert Encode(cp) + [0] <= str[..];
    EncodedHasNoNul(cp);
    if cp == 0 {
      assert [] + [0] <= str[..];
      UpToNulIs(str[..], []);
    } else {
      UpToNulIs(str[..], Encode(cp));
    }
    r := UpToNul(str[..]);
  }

  lemma EncodedHasNoNul(cp: nat)
    requires cp <= 0x1FFFFF
    ensures 0 in Encode(cp) <==> cp == 0
  {
  }

  // ---------------------------------------------------------------- WideStringToUtf8

  /** The code points of a wide string of `width`-byte characters: surrogate pairs are combined if
      the characters have two bytes, and everything else stands for itself. */
  function CodePoints(str: seq<nat>, width: nat): seq<nat> {
    if str == [] then []
    else if width == 2 && |str| >= 2 && IsPair(str[0], str[1]) then [FromPair(str[0], str[1])] + CodePoints(str[2..], width)
    else [str[0]] + CodePoints(str[1..], width)
  }

  predicate IsPair(first: nat, second: nat) {
    first / 0x400 == 0x36 && second / 0x400 == 0x37
  }

  function FromPair(first: nat, second: nat): nat {
    first % 0x400 * 0x400 + second % 0x400 + 0x10000
  }

  /** The text for a list of code points. */
  function TextOf(cps: seq<nat>): seq<Byte> {
    if cps == [] then [] else Utf8Of(cps[0]) + TextOf(cps[1..])
  }

  /** A limit beyond the end needs a NUL to stop at. */
  predicate Stops(str: seq<nat>, limit: int) {
    limit <= |str| || 0 in str
  }

  /** The characters that are looked at: up to a NUL, or `limit` of them, none if that is negative. */
  function Considered(str: seq<nat>, limit: int): seq<nat>
    requires Stops(str, limit)
  {
    if limit <= 0 || str[0] == 0 then [] else [str[0]] + Considered(str[1..], limit - 1)
  }

  lemma {:induction false} ConsideredAt(str: seq<nat>, limit: int)
    requires Stops(str, limit)
    ensures var n := |Considered(str, limit)|;
      && n <= |str| && Considered(str, limit) == str[..n] && (forall i :: 0 <= i < n ==> str[i] != 0)
      && (if limit <= 0 then n == 0 else n <= limit && (n < limit ==> n < |str| && str[n] == 0))
  {
    if limit > 0 && str[0] != 0 {
      ConsideredAt(str[1..], limit - 1);
      var n := |Considered(str, limit)|;
      assert str[..n] == [str[0]] + str[1..][..n - 1];
    }
  }

  /** The length of a terminated wide string is where its first NUL is. */
  lemma {:induction false} WcsLen(str: seq<nat>, n: nat)
    requires n < |str| && str[n] == 0 && forall i :: 0 <= i < n ==> str[i] != 0
    ensures Considered(str, n) == Considered(str, |str|)
  {
    if n > 0 {
      WcsLen(str[1..], n - 1);
    }
  }

  method WideStringToUtf8(str: seq<nat>, width: nat, numChars: int) returns (r: seq<Byte>)
    requires Stops(str, if numChars == -1 then |str| + 1 else numChars)
    ensures r == TextOf(CodePoints(Considered(str, if numChars == -1 then |str| else numChars), width))
  {
    var limit := numChars;
    if numChars == -1 {
      limit := 0;
      while str[limit] != 0
        invariant 0 <= limit < |str| && 0 in str[limit..]
        invariant forall i :: 0 <= i < limit ==> str[i] != 0
        decreases |str| - limit
      {
        assert str[limit..] == [str[limit]] + str[limit + 1..];
        limit := limit + 1;
      }
      WcsLen(str, limit);
    }
    ConsideredAt(str, limit);
    r := ConvertUpTo(str, width, limit, Considered(str, limit));
  }

  /** The loop over the characters; `all` are those before the first NUL. */
  method ConvertUpTo(str: seq<nat>, width: nat, limit: int, ghost all: seq<nat>) returns (r: seq<Byte>)
    requires |all| <= |str| && all == str[..|all|]
    requires forall i :: 0 <= i < |all| ==> str[i] != 0
    requires if limit <= 0 then all == [] else |all| <= limit && (|all| < limit ==> |all| < |str| && str[|all|] == 0)
    ensures r == TextOf(CodePoints(all, width))
  {
    hide *;
    NothingConverted(width);
    r := [];
    var i := 0;
    assert all[0..] == all && [] + TextOf(CodePoints(all, width)) == TextOf(CodePoints(all, width));
    while i < limit
      invariant 0 <= i <= |all|
      invariant TextOf(CodePoints(all, width)) == r + TextOf(CodePoints(all[i..], width))
      decreases limit - i
    {
      if str[i] == 0 {
        break;
      }
      var cp := str[i];
      if i + 1 < limit && width == 2 && IsPair(str[i], str[i + 1]) {
        PairHasNoNul(str[i], str[i + 1]);
        NextPair(all, width, i);
        cp := FromPair(str[i], str[i + 1]);
        i := i + 1;
      } else {
        NextSingle(all, width, i);
      }
      i := i + 1;
      var bytes := CodePointToUtf8(cp);
      r := r + bytes;
    }
    assert all[|all|..] == [];
  }

  lemma PairHasNoNul(first: nat, second: nat)
    requires IsPair(first, second)
    ensures second != 0
  {
  }

  lemma NothingConverted(width: nat)
    ensures TextOf(CodePoints([], width)) == []
  {
  }

  lemma NextPair(all: seq<nat>, width: nat, i: nat)
    requires i + 1 < |all| && width == 2 && IsPair(all[i], all[i + 1])
    ensures TextOf(CodePoints(all[i..], width)) == Utf8Of(FromPair(all[i], all[i + 1])) + TextOf(CodePoints(all[i + 2..], width))
  {
    hide Utf8Of, FromPair;
    assert all[i..][2..] == all[i + 2..];
    var cps := CodePoints(all[i..], width);
    assert cps[1..] == CodePoints(all[i + 2..], width);
  }

  lemma NextSingle(all: seq<nat>, width: nat, i: nat)
    requires i < |all| && !(i + 1 < |all| && width == 2 && IsPair(all[i], all[i + 1]))
    ensures TextOf(CodePoints(all[i..], width)) == Utf8Of(all[i]) + TextOf(CodePoints(all[i + 1..], width))
  {
    hide Utf8Of, FromPair;
    assert all[i..][1..] == all[i + 1..];
    var cps := CodePoints(all[i..], width);
    assert cps[1..] == CodePoints(all[i + 1..], width);
  }

  // ---------------------------------------------------------------- UTF-16

  /** The one or two 16-bit units of a scalar value (section 2.1 of RFC 2781). */
  function Utf16(cp: nat): seq<nat>
    requires cp <= 0x10FFFF
  {
    if cp < 0x10000 then [cp] else [0xD800 + (cp - 0x10000) / 0x400, 0xDC00 + (cp - 0x10000) % 0x400]
  }

  function Utf16All(cps: seq<nat>): seq<nat>
    requires AllScalars(cps)
  {
    if cps == [] then [] else
    assert IsScalar(cps[0]);
    Utf16(cps[0]) + Utf16All(cps[1..])
  }

  lemma PairRoundTrip(first: nat, second: nat)
    requires IsPair(first, second)
    ensures IsScalar(FromPair(first, second)) && Utf16(FromPair(first, second)) == [first, second]
  {
  }

  lemma ScalarPair(cp: nat)
    requires 0x10000 <= cp <= 0x10FFFF
    ensures var u := Utf16(cp); IsPair(u[0], u[1]) && FromPair(u[0], u[1]) == cp
  {
  }

  /** Well-formed UTF-16 keeps its scalar values. */
  lemma {:induction false} CodePointsOfUtf16(cps: seq<nat>)
    requires AllScalars(cps)
    ensures CodePoints(Utf16All(cps), 2) == cps
  {
    if cps != [] {
      var cp, u := cps[0], Utf16All(cps);
      assert IsScalar(cp);
      CodePointsOfUtf16(cps[1..]);
      if cp >= 0x10000 {
        ScalarPair(cp);
        assert u[2..] == Utf16All(cps[1..]);
      } else {
        assert u[1..] == Utf16All(cps[1..]);
        assert !(0xD800 <= cp < 0xDC00);
      }
      assert cps == [cps[0]] + cps[1..];
    }
  }

  /** Units whose code points are scalar values are well-formed UTF-16. */
  lemma {:induction false} ScalarsAreUtf16(str: seq<nat>)
    requires AllScalars(CodePoints(str, 2))
    requires forall i :: 0 <= i < |str| ==> str[i] < 0x10000
    ensures Utf16All(CodePoints(str, 2)) == str
  {
    if str != [] {
      var cps := CodePoints(str, 2);
      var pair := |str| >= 2 && IsPair(str[0], str[1]);
      var n := if pair then 2 else 1;
      assert cps[1..] == CodePoints(str[n..], 2);
      ScalarsAreUtf16(str[n..]);
      if pair {
        PairRoundTrip(str[0], str[1]);
      }
      assert str == str[..n] + str[n..];
    }
  }

  lemma {:induction false} TextIsEncoding(cps: seq<nat>)
    requires forall i :: 0 <= i < |cps| ==> 0 < cps[i] <= 0x1FFFFF
    ensures TextOf(cps) == EncodeAll(cps)
  {
    if cps != [] {
      assert cps == [cps[0]] + cps[1..];
      TextIsEncoding(cps[1..]);
    }
  }

  lemma {:induction false} CodePointsBounded(str: seq<nat>)
    requires forall i :: 0 <= i < |str| ==> 0 < str[i] < 0x10000
    ensures forall i :: 0 <= i < |CodePoints(str, 2)| ==> 0 < CodePoints(str, 2)[i] <= 0x10FFFF
  {
    if str != [] {
      if |str| >= 2 && IsPair(str[0], str[1]) {
        CodePointsBounded(str[2..]);
        PairRoundTrip(str[0], str[1]);
      } else {
        CodePointsBounded(str[1..]);
      }
    }
  }

  /** The conversion of NUL-free 16-bit units is accepted by the validator if and only if the units are
      well-formed UTF-16, and then it decodes to the scalar values the units stand for. */
  lemma Utf16ToUtf8(str: seq<nat>)
    requires forall i :: 0 <= i < |str| ==> 0 < str[i] < 0x10000
    ensures Decode(TextOf(CodePoints(str, 2))).Some? <==> exists cps :: AllScalars(cps) && Utf16All(cps) == str
    ensures forall cps :: AllScalars(cps) && Utf16All(cps) == str ==> Decode(TextOf(CodePoints(str, 2))) == Some(cps)
  {
    var points := CodePoints(str, 2);
    CodePointsBounded(str);
    TextIsEncoding(points);
    EncodeAllDecodes(points);
    if AllScalars(points) {
      ScalarsAreUtf16(str);
    }
    forall cps | AllScalars(cps) && Utf16All(cps) == str
      ensures cps == points
    {
      CodePointsOfUtf16(cps);
    }
  }

  /** `s` is what CodePointToUtf8 gives for these scalar values, one after the other. */
  ghost predicate ScalarText(cps: seq<nat>, s: seq<Byte>) {
    AllScalars(cps) && 0 !in cps && TextOf(cps) == s
  }

  /** A NUL-free byte string is accepted if and only if it is what CodePointToUtf8 gives, one after the
      other, for some scalar values other than 0; and there is only one such list of them. */
  lemma ValidIffCodePoints(s: seq<Byte>)
    requires 0 !in s
    ensures Decode(s).Some? <==> exists cps :: ScalarText(cps, s)
    ensures forall a, b :: ScalarText(a, s) && ScalarText(b, s) ==> a == b
  {
    hide *;
    if Decode(s).Some? {
      DecodedText(s);
      assert ScalarText(Decode(s).value, s);
    }
    forall cps | ScalarText(cps, s)
      ensures Decode(s) == Some(cps)
    {
      ScalarTextDecodes(s, cps);
    }
  }

  lemma DecodedText(s: seq<Byte>)
    requires 0 !in s && Decode(s).Some?
    ensures ScalarText(Decode(s).value, s)
  {
    DecodeIsScalars(s);
    var cps := Decode(s).value;
    NoNulEncoded(cps);
    TextIsEncoding(cps);
  }

  lemma ScalarTextDecodes(s: seq<Byte>, cps: seq<nat>)
    requires ScalarText(cps, s)
    ensures Decode(s) == Some(cps)
  {
    forall i | 0 <= i < |cps|
      ensures 0 < cps[i] <= 0x1FFFFF
    {
      assert cps[i] in cps && IsScalar(cps[i]);
    }
    TextIsEncoding(cps);
    EncodeAllDecodes(cps);
  }

  lemma {:induction false} NoNulEncoded(cps: seq<nat>)
    requires AllScalars(cps) && 0 !in EncodeAll(cps)
    ensures forall i :: 0 <= i < |cps| ==> 0 < cps[i] <= 0x1FFFFF
    ensures 0 !in cps
  {
    if cps != [] {
      assert IsScalar(cps[0]);
      var e, rest := Encode(cps[0]), EncodeAll(cps[1..]);
      assert forall b :: b in e || b in rest ==> b in e + rest;
      EncodedHasNoNul(cps[0]);
      NoNulEncoded(cps[1..]);
      assert cps == [cps[0]] + cps[1..];
    }
  }
}
