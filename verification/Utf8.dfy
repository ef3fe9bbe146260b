// UTF-16 code units, Unicode scalar values and UTF-8 octets, and the maps between them
// that the sandbox's TextEncoder and TextDecoder compute.

module Utf8 {
  import opened Bytes

  /** One UTF-16 code unit of a guest string. */
  type codeUnit = x: int | 0 <= x < 0x1_0000

  type scalar = x: int | 0 <= x < 0xD800 || 0xE000 <= x < 0x11_0000

  const REPLACEMENT: scalar := 0xFFFD

  predicate High(u: codeUnit) { 0xD800 <= u < 0xDC00 }

  predicate Low(u: codeUnit) { 0xDC00 <= u < 0xE000 }

  /** A surrogate pair starts at `i`. */
  predicate PairAt(s: seq<codeUnit>, i: nat)
  {
    i + 1 < |s| && High(s[i]) && Low(s[i + 1])
  }

  // ── Strings and scalar values ───────────────────────────────────────────

  /** Code units the first character of a non-empty string takes. */
  function FirstWidth(s: seq<codeUnit>): nat
  {
    if PairAt(s, 0) then 2 else 1
  }

  function FirstScalar(s: seq<codeUnit>): scalar
    requires s != []
  {
    if PairAt(s, 0) then 0x1_0000 + (s[0] - 0xD800) * 1024 + (s[1] - 0xDC00)
    else if High(s[0]) || Low(s[0]) then REPLACEMENT
    else s[0]
  }

  function Scalars(s: seq<codeUnit>): seq<scalar>
    decreases |s|
  {
    if s == [] then [] else [FirstScalar(s)] + Scalars(s[FirstWidth(s)..])
  }

  function UnitsOf(c: scalar): seq<codeUnit>
  {
    if c > 0xFFFF then [0xD800 + (c - 0x1_0000) / 1024, 0xDC00 + (c - 0x1_0000) % 1024] else [c]
  }

  function Units(cs: seq<scalar>): seq<codeUnit>
  {
    if cs == [] then [] else UnitsOf(cs[0]) + Units(cs[1..])
  }

  /** A surrogate that is not half of a pair. */
  predicate Lone(s: seq<codeUnit>, i: nat)
    requires i < |s|
  {
    (High(s[i]) && !PairAt(s, i)) || (Low(s[i]) && !(i > 0 && High(s[i - 1])))
  }

  /** The string with every lone surrogate replaced by U+FFFD. */
  function Scrubbed(s: seq<codeUnit>): seq<codeUnit>
  {
    seq(|s|, i requires 0 <= i < |s| => if Lone(s, i) then REPLACEMENT else s[i])
  }

  // ── Scalar values and octets ────────────────────────────────────────────

  function EncodeScalar(c: scalar): (b: seq<byte>)
    ensures 1 <= |b| <= 4
  {
    if c < 0x80 then [c]
    else if c < 0x800 then [0xC0 + c / 64, 0x80 + c % 64]
    else if c < 0x1_0000 then [0xE0 + c / 0x1000, 0x80 + c / 64 % 64, 0x80 + c % 64]
    else [0xF0 + c / 0x4_0000, 0x80 + c / 0x1000 % 64, 0x80 + c / 64 % 64, 0x80 + c % 64]
  }

  function EncodeScalars(cs: seq<scalar>): seq<byte>
  {
    if cs == [] then [] else EncodeScalar(cs[0]) + EncodeScalars(cs[1..])
  }

  /** What `encode` writes for a string. */
  function Encoded(s: seq<codeUnit>): seq<byte>
  {
    EncodeScalars(Scalars(s))
  }

  predicate Tail(b: byte) { b / 64 == 2 }

  /** Every byte after the first is a continuation. */
  predicate Tails(c: seq<byte>)
  {
    forall k :: 1 <= k < |c| ==> Tail(c[k])
  }

  /** Length a lead byte announces; 0 = not a lead byte. */
  function LeadLength(b0: byte): nat
  {
    if b0 < 0x80 then 1
    else if 0xC2 <= b0 <= 0xDF then 2
    else if 0xE0 <= b0 <= 0xEF then 3
    else if 0xF0 <= b0 <= 0xF4 then 4
    else 0
  }

  /** The code point of a lead byte and its continuations, whatever its range. */
  function CodePoint(b: seq<byte>): int
    requires b != []
  {
    if |b| == 1 then
      match LeadLength(b[0])
      case 2 => b[0] % 32
      case 3 => b[0] % 16
      case 4 => b[0] % 8
      case _ => b[0]
    else CodePoint(b[..|b| - 1]) * 64 + b[|b| - 1] % 64
  }

  function Smallest(length: nat): int
  {
    match length
    case 2 => 0x80
    case 3 => 0x800
    case 4 => 0x1_0000
    case _ => 0
  }

  /** The decoder's attempt at the start of `b`: a scalar value and its length. */
  function First(b: seq<byte>): (r: (bool, scalar, nat))
    requires b != []
    ensures r.0 ==> 1 <= r.2 <= |b|
  {
    var n := LeadLength(b[0]);
    if n == 0 || n > |b| || !Tails(b[..n]) then (false, REPLACEMENT, 1)
    else
      var cp := CodePoint(b[..n]);
      if cp < Smallest(n) || cp > 0x10FFFF || 0xD800 <= cp <= 0xDFFF then (false, REPLACEMENT, 1)
      else (true, cp, n)
  }

  /** On any error one U+FFFD, and one byte is skipped. */
  function DecodedScalars(b: seq<byte>): seq<scalar>
    decreases |b|
  {
    if b == [] then [] else [First(b).1] + DecodedScalars(b[First(b).2..])
  }

  /** What `decode` returns for the bytes. */
  function Decoded(b: seq<byte>): seq<codeUnit>
  {
    Units(DecodedScalars(b))
  }

  // ── The syntax of section 4 of RFC 3629 ─────────────────────────────────

  /** `UTF8-char`, row by row. */
  predicate Utf8Char(b: seq<byte>)
  {
    || (|b| == 1 && b[0] <= 0x7F)
    || (|b| == 2 && 0xC2 <= b[0] <= 0xDF && Tail(b[1]))
    || (|b| == 3 && b[0] == 0xE0 && 0xA0 <= b[1] <= 0xBF && Tail(b[2]))
    || (|b| == 3 && 0xE1 <= b[0] <= 0xEC && Tail(b[1]) && Tail(b[2]))
    || (|b| == 3 && b[0] == 0xED && 0x80 <= b[1] <= 0x9F && Tail(b[2]))
    || (|b| == 3 && 0xEE <= b[0] <= 0xEF && Tail(b[1]) && Tail(b[2]))
    || (|b| == 4 && b[0] == 0xF0 && 0x90 <= b[1] <= 0xBF && Tail(b[2]) && Tail(b[3]))
    || (|b| == 4 && 0xF1 <= b[0] <= 0xF3 && Tail(b[1]) && Tail(b[2]) && Tail(b[3]))
    || (|b| == 4 && b[0] == 0xF4 && 0x80 <= b[1] <= 0x8F && Tail(b[2]) && Tail(b[3]))
  }

  /** `UTF8-octets`: a concatenation of characters. */
  ghost predicate WellFormed(b: seq<byte>)
    decreases |b|
  {
    b == [] || exists n :: 1 <= n <= |b| && Utf8Char(b[..n]) && WellFormed(b[n..])
  }

  // ── One character ───────────────────────────────────────────────────────

  lemma CodePoint2(b: seq<byte>)
    requires |b| == 2
    ensures CodePoint(b) == CodePoint([b[0]]) * 64 + b[1] % 64
  {
    assert b[..1] == [b[0]];
  }

  lemma CodePoint3(b: seq<byte>)
    requires |b| == 3
    ensures CodePoint(b) == (CodePoint([b[0]]) * 64 + b[1] % 64) * 64 + b[2] % 64
  {
    assert b[..2] == [b[0], b[1]];
    CodePoint2([b[0], b[1]]);
  }

  lemma CodePoint4(b: seq<byte>)
    requires |b| == 4
    ensures CodePoint(b) == ((CodePoint([b[0]]) * 64 + b[1] % 64) * 64 + b[2] % 64) * 64 + b[3] % 64
  {
    assert b[..3] == [b[0], b[1], b[2]];
    CodePoint3([b[0], b[1], b[2]]);
  }

  /** The decoder's checks on a lead byte and the bytes it announces. */
  predicate Accepted(c: seq<byte>)
    requires c != []
  {
    && Tails(c)
    && Smallest(|c|) <= CodePoint(c) <= 0x10FFFF && !(0xD800 <= CodePoint(c) <= 0xDFFF)
  }

  lemma TwoBytes(c: seq<byte>)
    requires |c| == 2 && LeadLength(c[0]) == 2
    ensures Accepted(c) <==> Utf8Char(c)
    ensures Accepted(c) ==> EncodeScalar(CodePoint(c)) == c
  {
    CodePoint2(c);
    if Tail(c[1]) {
      var cp := CodePoint(c);
      assert cp == (c[0] as int - 0xC0) * 64 + (c[1] as int - 0x80);
      assert cp / 64 == c[0] - 0xC0 && cp % 64 == c[1] - 0x80;
    }
  }

  lemma ThreeBytes(c: seq<byte>)
    requires |c| == 3 && LeadLength(c[0]) == 3
    ensures Accepted(c) <==> Utf8Char(c)
    ensures Accepted(c) ==> EncodeScalar(CodePoint(c)) == c
  {
    CodePoint3(c);
    if Tail(c[1]) && Tail(c[2]) {
      var cp := CodePoint(c);
      var m: int := (c[0] as int - 0xE0) * 64 + (c[1] as int - 0x80);
      assert cp == m * 64 + (c[2] as int - 0x80);
      assert cp / 64 == m && cp % 64 == c[2] - 0x80;
      assert m / 64 == c[0] - 0xE0 && m % 64 == c[1] - 0x80;
      assert cp / 0x1000 == m / 64;
    }
  }

  lemma FourBytes(c: seq<byte>)
    requires |c| == 4 && LeadLength(c[0]) == 4
    ensures Accepted(c) <==> Utf8Char(c)
    ensures Accepted(c) ==> EncodeScalar(CodePoint(c)) == c
  {
    hide CodePoint;
    CodePoint4(c);
    Lead(c[0]);
    if Tails(c) { SixBits(c[0] as int - 0xF0, c[1] as int - 0x80, c[2] as int - 0x80, c[3] as int - 0x80); }
  }

  /** Four groups of six bits come apart again. */
  lemma SixBits(a: nat, b: nat, c: nat, d: nat)
    requires b < 64 && c < 64 && d < 64
    ensures var cp := ((a * 64 + b) * 64 + c) * 64 + d;
            cp / 0x4_0000 == a && cp / 0x1000 % 64 == b && cp / 64 % 64 == c && cp % 64 == d
  {
    var l := a * 64 + b;
    var m := l * 64 + c;
    var cp := m * 64 + d;
    assert cp / 64 == m && m / 64 == l && l / 64 == a;
    assert cp / 0x1000 == l && cp / 0x4_0000 == a;
  }

  /** On a character's worth of bytes, the decoder's checks are the RFC's rows. */
  lemma AcceptedIsChar(c: seq<byte>)
    requires c != [] && LeadLength(c[0]) == |c|
    ensures Accepted(c) <==> Utf8Char(c)
    ensures Accepted(c) ==> EncodeScalar(CodePoint(c)) == c
  {
    match |c|
    case 2 => TwoBytes(c);
    case 3 => ThreeBytes(c);
    case 4 => FourBytes(c);
    case _ =>
  }

  lemma CharLength(c: seq<byte>)
    requires Utf8Char(c)
    ensures LeadLength(c[0]) == |c|
  {
  }

  /** The decoder takes exactly a character of the RFC's syntax, and the scalar value it encodes. */
  lemma FirstIsChar(b: seq<byte>)
    requires b != []
    ensures First(b).0 ==> Utf8Char(b[..First(b).2]) && EncodeScalar(First(b).1) == b[..First(b).2]
    ensures forall n :: 1 <= n <= |b| && Utf8Char(b[..n]) ==> First(b).0 && First(b).2 == n
  {
    hide Utf8Char, EncodeScalar, CodePoint, LeadLength;
    var n := LeadLength(b[0]);
    forall m | 1 <= m <= |b| && Utf8Char(b[..m]) ensures m == n { CharLength(b[..m]); }
    if 0 < n <= |b| {
      var c := b[..n];
      assert c[0] == b[0];
      AcceptedIsChar(c);
    }
  }

  lemma CodePointEncoded(c: scalar)
    ensures Utf8Char(EncodeScalar(c)) && CodePoint(EncodeScalar(c)) == c
  {
    hide CodePoint;
    var e := EncodeScalar(c);
    var l, m := c / 0x1000, c / 64;
    assert l == m / 64 && c == m * 64 + c % 64 && m == l * 64 + m % 64;
    if c < 0x80 { OneByte(e); }
    else if c < 0x800 { CodePoint2(e); Lead(e[0]); }
    else if c < 0x1_0000 { CodePoint3(e); Lead(e[0]); }
    else {
      assert c / 0x4_0000 == l / 64 && l == l / 64 * 64 + l % 64;
      CodePoint4(e);
      Lead(e[0]);
    }
  }

  lemma OneByte(b: seq<byte>)
    requires |b| == 1 && b[0] < 0x80
    ensures CodePoint(b) == b[0]
  {
  }

  lemma Lead(b0: byte)
    requires LeadLength(b0) > 1
    ensures CodePoint([b0]) == b0 - (if LeadLength(b0) == 2 then 0xC0 else if LeadLength(b0) == 3 then 0xE0 else 0xF0)
  {
  }

  /** The encoding of a scalar value is one character, and the decoder reads it back whatever follows. */
  lemma ScalarRoundTrip(c: scalar, rest: seq<byte>)
    ensures Utf8Char(EncodeScalar(c))
    ensures First(EncodeScalar(c) + rest) == (true, c, |EncodeScalar(c)|)
  {
    hide Utf8Char, EncodeScalar, CodePoint, LeadLength;
    var e := EncodeScalar(c);
    var b := e + rest;
    assert b[..|e|] == e;
    CodePointEncoded(c);
    FirstIsChar(b);
    CodePointEncoded(First(b).1);
  }

  // ── Whole strings ───────────────────────────────────────────────────────

  lemma {:induction false} DecodeEncodedScalars(cs: seq<scalar>)
    ensures DecodedScalars(EncodeScalars(cs)) == cs
    ensures WellFormed(EncodeScalars(cs))
  {
    if cs != [] {
      var e, rest := EncodeScalar(cs[0]), EncodeScalars(cs[1..]);
      DecodeEncodedScalars(cs[1..]);
      ScalarRoundTrip(cs[0], rest);
      assert (e + rest)[..|e|] == e && (e + rest)[|e|..] == rest;
    }
  }

  lemma {:induction false} EncodeDecodedScalars(b: seq<byte>)
    requires WellFormed(b)
    ensures EncodeScalars(DecodedScalars(b)) == b
    decreases |b|
  {
    hide Utf8Char, EncodeScalar, First;
    if b != [] {
      var n :| 1 <= n <= |b| && Utf8Char(b[..n]) && WellFormed(b[n..]);
      FirstIsChar(b);
      EncodeDecodedScalars(b[n..]);
      assert b[..n] + b[n..] == b;
    }
  }

  lemma UnitsOfPair(s: seq<codeUnit>)
    requires s != []
    ensures UnitsOf(FirstScalar(s)) == if PairAt(s, 0) then s[..2] else if Lone(s, 0) then [0xFFFD] else [s[0]]
  {
  }

  /** Scalar values written as UTF-16 are read back, whatever their neighbours. */
  lemma {:induction false} ScalarsUnits(cs: seq<scalar>)
    ensures Scalars(Units(cs)) == cs
  {
    if cs != [] {
      var u, rest := UnitsOf(cs[0]), Units(cs[1..]);
      var s := u + rest;
      ScalarsUnits(cs[1..]);
      assert s[|u|..] == rest;
      assert FirstWidth(s) == |u| && FirstScalar(s) == cs[0];
    }
  }

  /** Reading a string as scalar values and writing them back replaces the lone surrogates, only them. */
  lemma {:induction false} UnitsScalars(s: seq<codeUnit>)
    ensures Units(Scalars(s)) == Scrubbed(s)
    decreases |s|
  {
    if s != [] {
      var n := FirstWidth(s);
      UnitsScalars(s[n..]);
      UnitsOfPair(s);
      ScrubbedSplit(s);
    }
  }

  lemma ScrubbedSplit(s: seq<codeUnit>)
    requires s != []
    ensures var n := FirstWidth(s); Scrubbed(s) == UnitsOf(FirstScalar(s)) + Scrubbed(s[n..])
  {
    var n := FirstWidth(s);
    UnitsOfPair(s);
    forall i | n <= i < |s| ensures Lone(s, i) == Lone(s[n..], i - n) {
    }
  }

  /** Decoding an encoded string gives it back with every lone surrogate replaced by U+FFFD. */
  lemma DecodeEncoded(s: seq<codeUnit>)
    ensures Decoded(Encoded(s)) == Scrubbed(s)
  {
    DecodeEncodedScalars(Scalars(s));
    UnitsScalars(s);
  }

  /** Encoding decoded bytes gives them back exactly if they match the RFC's syntax. */
  lemma EncodeDecoded(b: seq<byte>)
    ensures Encoded(Decoded(b)) == b <==> WellFormed(b)
  {
    ScalarsUnits(DecodedScalars(b));
    DecodeEncodedScalars(DecodedScalars(b));
    if WellFormed(b) { EncodeDecodedScalars(b); }
  }

  /** Every encoding is well formed, and no string without lone surrogates shares its encoding. */
  lemma EncodedIsFaithful(s: seq<codeUnit>, t: seq<codeUnit>)
    ensures WellFormed(Encoded(s))
    ensures Encoded(s) == Encoded(t) <==> Scrubbed(s) == Scrubbed(t)
  {
    DecodeEncodedScalars(Scalars(s));
    DecodeEncoded(s);
    DecodeEncoded(t);
    UnitsScalars(s);
    UnitsScalars(t);
    ScalarsUnits(Scalars(s));
    ScalarsUnits(Scalars(t));
  }

  // ── The numbers ─────────────────────────────────────────────────────────

  function Above(x: int, mark: int): int { x - mark }

  /** The octets of a scalar value, in the ranges and with the bits of section 3 of RFC 3629. */
  lemma Octets(c: scalar)
    ensures var b := EncodeScalar(c);
            && (|b| == 1 <==> c <= 0x7F) && (|b| == 2 <==> 0x80 <= c <= 0x7FF) && (|b| == 3 <==> 0x800 <= c <= 0xFFFF)
            && (forall k :: 1 <= k < |b| ==> 0x80 <= b[k] < 0xC0)
            && (|b| == 1 ==> c == b[0])
            && (|b| == 2 ==> c == Above(b[0], 0xC0) * 64 + Above(b[1], 0x80))
            && (|b| == 3 ==> c == (Above(b[0], 0xE0) * 64 + Above(b[1], 0x80)) * 64 + Above(b[2], 0x80))
            && (|b| == 4 ==> c == ((Above(b[0], 0xF0) * 64 + Above(b[1], 0x80)) * 64 + Above(b[2], 0x80)) * 64 + Above(b[3], 0x80))
  {
    var l, m := c / 0x1000, c / 64;
    assert c == m * 64 + c % 64 && m == l * 64 + m % 64 && l == l / 64 * 64 + l % 64;
    assert l == m / 64 && c / 0x4_0000 == l / 64;
  }

  /** The scalar values of a string: a surrogate pair is one, twenty bits above 0x10000; a lone surrogate is U+FFFD. */
  lemma CharacterAt(s: seq<codeUnit>)
    requires s != []
    ensures |s| > 1 && 0xD800 <= s[0] < 0xDC00 && 0xDC00 <= s[1] < 0xE000 ==>
              Scalars(s) == [0x1_0000 + Above(s[0], 0xD800) * 0x400 + Above(s[1], 0xDC00)] + Scalars(s[2..])
    ensures !(|s| > 1 && 0xD800 <= s[0] < 0xDC00 && 0xDC00 <= s[1] < 0xE000) ==>
              Scalars(s) == [if 0xD800 <= s[0] < 0xE000 then 0xFFFD else s[0]] + Scalars(s[1..])
  {
    hide Scalars;
    ScalarsStep(s);
  }

  lemma ScalarsStep(s: seq<codeUnit>)
    requires s != []
    ensures Scalars(s) == [FirstScalar(s)] + Scalars(s[FirstWidth(s)..])
  {
  }

  /** What is decoded: a character of the RFC's syntax as its scalar value, and otherwise one U+FFFD for one byte. */
  lemma DecodedStep(b: seq<byte>)
    requires b != []
    ensures forall n, c: scalar :: 1 <= n <= |b| && Utf8Char(b[..n]) && EncodeScalar(c) == b[..n] ==>
              Decoded(b) == UnitsOf(c) + Decoded(b[n..])
    ensures (forall n :: 1 <= n <= |b| ==> !Utf8Char(b[..n])) ==> Decoded(b) == [0xFFFD] + Decoded(b[1..])
  {
    hide Utf8Char, EncodeScalar, CodePoint, LeadLength;
    FirstIsChar(b);
    forall n, c: scalar | 1 <= n <= |b| && Utf8Char(b[..n]) && EncodeScalar(c) == b[..n] ensures First(b).1 == c && First(b).2 == n {
      ScalarRoundTrip(c, b[n..]);
      assert b[..n] + b[n..] == b;
    }
  }

  lemma FirstFits(s: seq<codeUnit>)
    requires s != []
    ensures Encoded(s) == EncodeScalar(FirstScalar(s)) + Encoded(s[FirstWidth(s)..])
    ensures |EncodeScalar(FirstScalar(s))| <= 3 * FirstWidth(s)
  {
  }

  // ── Validity, as a check ────────────────────────────────────────────────

  /** `String::from_utf8`: every decoding step succeeds. */
  predicate ValidUtf8(b: seq<byte>)
    decreases |b|
  {
    b == [] || (First(b).0 && ValidUtf8(b[First(b).2..]))
  }

  /** The check accepts exactly the RFC's syntax. */
  lemma {:induction false} ValidIsWellFormed(b: seq<byte>)
    ensures ValidUtf8(b) <==> WellFormed(b)
    decreases |b|
  {
    hide First, Utf8Char;
    if b != [] {
      FirstIsChar(b);
      var n := First(b).2;
      if First(b).0 { ValidIsWellFormed(b[n..]); }
      if WellFormed(b) {
        var m :| 1 <= m <= |b| && Utf8Char(b[..m]) && WellFormed(b[m..]);
        assert m == n;
      }
    }
  }
}
