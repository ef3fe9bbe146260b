// The encoder and decoder loops over their byte buffers, against the maps of module Utf8.

module TextCodec {
  import opened Bytes
  import opened Utf8

  const FLUSH_AT := 4096

  /** Stores these bytes from the cursor on: `out[p++] = ...` in turn, and `dest.set`. */
  method Put(out: array<byte>, p: nat, bytes: seq<byte>) returns (next: nat)
    requires p + |bytes| <= out.Length
    modifies out
    ensures next == p + |bytes|
    ensures out[..p] == old(out[..p]) && out[p..next] == bytes && out[next..] == old(out[next..])
  {
    var k := 0;
    while k < |bytes|
      invariant 0 <= k <= |bytes|
      invariant out[..p] == old(out[..p]) && out[p..p + k] == bytes[..k] && out[p + k..] == old(out[p + k..])
    {
      out[p + k] := bytes[k];
      k := k + 1;
    }
    next := p + k;
  }

  /** One turn of the encoder's loop: the character at `i` written at the cursor. */
  method EncodeCharacter(str: seq<codeUnit>, i: nat, out: array<byte>, p: nat) returns (nextI: nat, nextP: nat)
    requires i < |str| && out.Length == 3 * |str| && p <= 3 * i
    modifies out
    ensures nextI == i + FirstWidth(str[i..]) && nextI <= |str|
    ensures p <= nextP <= 3 * nextI
    ensures out[..p] == old(out[..p]) && out[p..nextP] == EncodeScalar(FirstScalar(str[i..]))
  {
    var width := 1;
    var c: int := str[i];
    if c < 0x80 {
      nextP := Put(out, p, [c]);
    } else if c < 0x800 {
      nextP := Put(out, p, [0xC0 + c / 64, 0x80 + c % 64]);
    } else if 0xD800 <= c <= 0xDBFF && i + 1 < |str| {
      var next := str[i + 1];
      if 0xDC00 <= next <= 0xDFFF {
        c := 0x1_0000 + (c - 0xD800) * 1024 + (next as int - 0xDC00);
        width := 2;
        nextP := Put(out, p, [0xF0 + c / 0x4_0000, 0x80 + c / 0x1000 % 64, 0x80 + c / 64 % 64, 0x80 + c % 64]);
      } else {
        nextP := Put(out, p, [0xEF, 0xBF, 0xBD]);
      }
    } else if 0xD800 <= c <= 0xDFFF {
      nextP := Put(out, p, [0xEF, 0xBF, 0xBD]);
    } else {
      nextP := Put(out, p, [0xE0 + c / 0x1000, 0x80 + c / 64 % 64, 0x80 + c % 64]);
    }
    nextI := i + width;
  }

  /** `utf8Encode`: a buffer of three bytes for each code unit is never overrun. */
  method Encode(str: seq<codeUnit>) returns (bytes: seq<byte>)
    ensures bytes == Encoded(str) && |bytes| <= 3 * |str|
  {
    hide Encoded;
    var out := new byte[3 * |str|];
    var p, i := 0, 0;
    while i < |str|
      invariant 0 <= i <= |str| && 0 <= p <= 3 * i
      invariant out[..p] + Encoded(str[i..]) == Encoded(str)
    {
      ghost var was, todo := out[..p], str[i..];
      ghost var at := p;
      i, p := EncodeCharacter(str, i, out, p);
      assert out[..p] == was + out[at..p];
      assert todo[FirstWidth(todo)..] == str[i..];
      Advanced(was, todo, out[..p]);
    }
    assert str[i..] == [] && Encoded([]) == [] by { NothingEncoded(); }
    bytes := out[..p];
  }

  lemma NothingEncoded()
    ensures Encoded([]) == []
  {
  }

  /** One character further, what is written and what is to come still make up the whole. */
  lemma Advanced(was: seq<byte>, todo: seq<codeUnit>, now: seq<byte>)
    requires todo != [] && now == was + EncodeScalar(FirstScalar(todo))
    ensures now + Encoded(todo[FirstWidth(todo)..]) == was + Encoded(todo)
    ensures |now| <= |was| + 3 * FirstWidth(todo)
  {
    FirstFits(todo);
  }

  /** The output string and the code units not yet appended to it. */
  class Output {
    var text: seq<codeUnit>
    var buf: seq<codeUnit>

    function Value(): seq<codeUnit>
      reads this
    {
      text + buf
    }

    constructor ()
      ensures Value() == [] && |buf| < FLUSH_AT
    {
      text, buf := [], [];
    }

    method Flush()
      modifies this
      ensures Value() == old(Value()) && buf == []
    {
      text := text + buf;
      buf := [];
    }

    /** One code point, as one or two code units; never more than a chunk waits. */
    method Emit(cp: scalar)
      requires |buf| < FLUSH_AT
      modifies this
      ensures Value() == old(Value()) + UnitsOf(cp) && |buf| < FLUSH_AT
    {
      if cp > 0xFFFF {
        var v := cp - 0x1_0000;
        buf := buf + [0xD800 + v / 1024, 0xDC00 + v % 1024];
      } else {
        buf := buf + [cp];
      }
      if |buf| >= FLUSH_AT { Flush(); }
    }
  }

  /** The continuation bytes folded into the code point; false at the first that is not one. */
  method Continue(bytes: seq<byte>, i: nat, len: nat, lead: int) returns (ok: bool, cp: int)
    requires 1 <= len && i + len <= |bytes| && lead == CodePoint([bytes[i]])
    ensures ok <==> Tails(bytes[i..i + len])
    ensures ok ==> cp == CodePoint(bytes[i..i + len])
  {
    hide CodePoint;
    ok, cp := true, lead;
    var k := 1;
    ghost var c := bytes[i..i + len];
    assert c[..1] == [bytes[i]];
    while k < len
      invariant 1 <= k <= len
      invariant ok && cp == CodePoint(c[..k])
      invariant forall j :: 1 <= j < k ==> Tail(c[j])
    {
      var b := bytes[i + k];
      assert b == c[k];
      if b / 64 != 2 {
        ok := false;
        return;
      }
      OneMore(c, k);
      cp := cp * 64 + b % 64;
      k := k + 1;
    }
    assert c[..len] == c;
  }

  lemma OneMore(c: seq<byte>, k: nat)
    requires 1 <= k < |c|
    ensures CodePoint(c[..k + 1]) == CodePoint(c[..k]) * 64 + c[k] % 64
  {
    assert c[..k + 1][..k] == c[..k];
  }

  /** `utf8Decode`: on any error one U+FFFD, and the byte after the bad lead is looked at afresh. */
  method Decode(bytes: seq<byte>) returns (text: seq<codeUnit>)
    ensures text == Decoded(bytes)
  {
    hide CodePoint, First, DecodedScalars;
    var out := new Output();
    var i := 0;
    while i < |bytes|
      invariant 0 <= i <= |bytes| && |out.buf| < FLUSH_AT && fresh(out)
      invariant out.Value() + Units(DecodedScalars(bytes[i..])) == Units(DecodedScalars(bytes))
    {
      ghost var rest, was := bytes[i..], out.Value();
      ghost var start := i;
      var b0 := bytes[i];
      var cp, len, lower: int := -1, 0, 0;
      LeadPoint(b0);
      FirstOf(rest);
      if b0 < 0x80 {
        cp, len, lower := b0, 1, 0;
      } else if 0xC2 <= b0 <= 0xDF {
        cp, len, lower := b0 % 32, 2, 0x80;
      } else if 0xE0 <= b0 <= 0xEF {
        cp, len, lower := b0 % 16, 3, 0x800;
      } else if 0xF0 <= b0 <= 0xF4 {
        cp, len, lower := b0 % 8, 4, 0x1_0000;
      }
      if len == 0 || i + len > |bytes| {
        out.Emit(REPLACEMENT);
        i := i + 1;
      } else {
        assert rest[..len] == bytes[i..i + len];
        var ok;
        ok, cp := Continue(bytes, i, len, cp);
        if !ok || cp < lower || cp > 0x10FFFF || 0xD800 <= cp <= 0xDFFF {
          out.Emit(REPLACEMENT);
          i := i + 1;
        } else {
          out.Emit(cp);
          i := i + len;
        }
      }
      assert rest[First(rest).2..] == bytes[i..];
      Appended(was, rest, out.Value());
    }
    out.Flush();
    text := out.text;
    assert bytes[i..] == [] && DecodedScalars([]) == [] by { NothingDecoded(); }
  }

  lemma NothingDecoded()
    ensures DecodedScalars([]) == []
  {
  }

  /** The decoder's first step, by what its lead byte announces. */
  lemma FirstOf(b: seq<byte>)
    requires b != []
    ensures var n := LeadLength(b[0]);
            if n == 0 || n > |b| || !Tails(b[..n]) then First(b) == (false, REPLACEMENT, 1)
            else
              var cp := CodePoint(b[..n]);
              if cp < Smallest(n) || cp > 0x10FFFF || 0xD800 <= cp <= 0xDFFF then First(b) == (false, REPLACEMENT, 1)
              else First(b) == (true, cp, n)
  {
  }

  lemma LeadPoint(b0: byte)
    ensures LeadLength(b0) == 1 ==> CodePoint([b0]) == b0
    ensures LeadLength(b0) == 2 ==> CodePoint([b0]) == b0 % 32
    ensures LeadLength(b0) == 3 ==> CodePoint([b0]) == b0 % 16
    ensures LeadLength(b0) == 4 ==> CodePoint([b0]) == b0 % 8
  {
  }

  lemma Appended(was: seq<codeUnit>, rest: seq<byte>, now: seq<codeUnit>)
    requires rest != [] && now == was + UnitsOf(First(rest).1)
    ensures now + Units(DecodedScalars(rest[First(rest).2..])) == was + Units(DecodedScalars(rest))
  {
    hide First;
  }

  // ── encodeInto ──────────────────────────────────────────────────────────

  /** No character of the string reaches across position `i`. */
  predicate Boundary(s: seq<codeUnit>, i: nat)
  {
    i <= |s| && !(i > 0 && PairAt(s, i - 1))
  }

  /** Cutting a string between characters cuts its encoding. */
  lemma {:induction false} EncodedCut(s: seq<codeUnit>, i: nat)
    requires Boundary(s, i)
    ensures Encoded(s) == Encoded(s[..i]) + Encoded(s[i..])
    decreases |s|
  {
    hide EncodeScalar, Encoded, FirstScalar;
    if i == 0 {
      assert s[..0] == [] && s[0..] == s && Encoded([]) == [] by { NothingEncoded(); }
    } else {
      var n := FirstWidth(s);
      SameFirst(s, i);
      assert s[..i][n..] == s[n..][..i - n] && s[n..][i - n..] == s[i..];
      EncodedCut(s[n..], i - n);
      FirstFits(s);
      FirstFits(s[..i]);
    }
  }

  /** Before a boundary the first character is whole. */
  lemma SameFirst(s: seq<codeUnit>, i: nat)
    requires Boundary(s, i) && i > 0
    ensures FirstWidth(s) <= i && FirstWidth(s[..i]) == FirstWidth(s) && FirstScalar(s[..i]) == FirstScalar(s)
    ensures Boundary(s[FirstWidth(s)..], i - FirstWidth(s))
  {
  }

  /**
   * `encodeInto`: `read` code units are consumed up to a character boundary, exactly their
   * encoding is written, and the next character would not have fitted.
   */
  method EncodeInto(source: seq<codeUnit>, dest: array<byte>) returns (read: nat, written: nat)
    modifies dest
    ensures Boundary(source, read) && written <= dest.Length
    ensures dest[..written] == Encoded(source[..read]) && dest[written..] == old(dest[written..])
    ensures read < |source| ==> written + |EncodeScalar(FirstScalar(source[read..]))| > dest.Length
  {
    hide Encoded, EncodeScalar, FirstScalar;
    read, written := 0, 0;
    var i := 0;
    assert source[..0] == [] && Encoded([]) == [] by { NothingEncoded(); }
    while i < |source|
      invariant i == read && Boundary(source, i) && 0 <= written <= dest.Length
      invariant dest[..written] == Encoded(source[..i]) && dest[written..] == old(dest[written..])
    {
      var code := source[i];
      var pair := 0xD800 <= code <= 0xDBFF && i + 1 < |source| && 0xDC00 <= source[i + 1] <= 0xDFFF;
      var units := if pair then 2 else 1;
      var bytes := Encode(source[i..i + units]);
      OneCharacter(source, i, units);
      if written + |bytes| > dest.Length { return; }
      ghost var was := dest[..written];
      ghost var at := written;
      assert old(dest[at..])[|bytes|..] == old(dest[at + |bytes|..]);
      written := Put(dest, written, bytes);
      assert dest[..written] == was + dest[at..written];
      read := read + units;
      i := i + units;
    }
  }

  /** The slice taken is one character, and encodes as it does in the string. */
  lemma OneCharacter(s: seq<codeUnit>, i: nat, units: nat)
    requires i < |s| && Boundary(s, i) && units == FirstWidth(s[i..])
    ensures i + units <= |s| && Boundary(s, i + units)
    ensures Encoded(s[i..i + units]) == EncodeScalar(FirstScalar(s[i..]))
    ensures Encoded(s[..i + units]) == Encoded(s[..i]) + Encoded(s[i..i + units])
  {
    hide EncodeScalar;
    var c := s[i..i + units];
    assert FirstScalar(c) == FirstScalar(s[i..]) && FirstWidth(c) == units;
    FirstFits(c);
    assert c[units..] == [];
    assert Encoded([]) == [];
    var t := s[..i + units];
    assert Boundary(t, i) && t[..i] == s[..i] && t[i..] == c;
    EncodedCut(t, i);
  }

  /** Between the two ends nothing is lost: what is written and what is left encode the whole source. */
  lemma EncodeIntoResumes(source: seq<codeUnit>, read: nat, written: seq<byte>)
    requires Boundary(source, read) && written == Encoded(source[..read])
    ensures written + Encoded(source[read..]) == Encoded(source)
  {
    EncodedCut(source, read);
  }
}
