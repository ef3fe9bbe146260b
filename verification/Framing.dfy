// The frame envelope: u32 big-endian length (type byte + payload), type byte, payload.
// One decoder function, the reader that refines it for any chunking of the byte
// source, and what decoding a possibly cut-off stream of encoded frames yields.

module Framing {
  import opened Wrappers
  import opened Bytes

  const DEFAULT_MAX_FRAME_LENGTH: u32 := 64 * 1024 * 1024

  datatype Frame = Frame(kind: byte, payload: seq<byte>)

  /** A frame the default ceiling admits; the length word covers the type byte. */
  type Sendable = f: Frame | |f.payload| + 1 <= DEFAULT_MAX_FRAME_LENGTH witness Frame(0, [])

  function Encode(f: Frame): (b: seq<byte>)
    requires |f.payload| + 1 < 0x1_0000_0000
    ensures |b| == |f.payload| + 5
  {
    BE32(|f.payload| + 1) + [f.kind] + f.payload
  }

  function EncodeAll(fs: seq<Sendable>): seq<byte>
  {
    if fs == [] then [] else Encode(fs[0]) + EncodeAll(fs[1..])
  }

  /** A frame on the wire: four bytes for one more than the payload's length, the type, the payload. */
  lemma FrameLayout(f: Sendable)
    ensures var b := Encode(f);
            && |b| == |f.payload| + 5
            && b[0] as int * 0x100_0000 + b[1] as int * 0x1_0000 + b[2] as int * 0x100 + b[3] == |f.payload| + 1
            && b[4] == f.kind && b[5..] == f.payload
  {
    MostSignificantFirst(|f.payload| + 1);
  }

  // ── Decoding ────────────────────────────────────────────────────────────

  /** What one read of a frame concludes about the bytes that were left. */
  datatype Decoded =
    | Got(frame: Frame, used: nat)
    | Closed      // the bytes ended before the first one: an orderly close
    | Malformed   // zero or oversized length, or the bytes ended inside a frame

  function Decode(bytes: seq<byte>, max: u32): (d: Decoded)
    ensures d.Got? ==> 5 <= d.used <= |bytes|
  {
    if bytes == [] then Closed
    else if |bytes| < 4 then Malformed
    else
      var length := FromBE32(bytes[..4]);
      if length == 0 || length > max || |bytes| - 4 < length then Malformed
      else Got(Frame(bytes[4], bytes[5..4 + length]), 4 + length)
  }

  datatype Stream = Stream(frames: seq<Frame>, clean: bool)

  /** Reading frames until one read fails; `clean` says it failed with the orderly close. */
  function DecodeAll(bytes: seq<byte>, max: u32): Stream
    decreases |bytes|
  {
    match Decode(bytes, max)
    case Closed => Stream([], true)
    case Malformed => Stream([], false)
    case Got(frame, used) =>
      var more := DecodeAll(bytes[used..], max);
      Stream([frame] + more.frames, more.clean)
  }

  lemma DecodeEncode(f: Frame, rest: seq<byte>, max: u32)
    requires |f.payload| + 1 <= max
    ensures Decode(Encode(f) + rest, max) == Got(f, |f.payload| + 5)
  {
    var bytes := Encode(f) + rest;
    assert bytes[..4] == BE32(|f.payload| + 1);
    WordRoundTrip(|f.payload| + 1);
    assert bytes[5..|f.payload| + 5] == f.payload;
  }

  /** The reader accepts a byte string as a whole frame only if it is that frame's encoding. */
  lemma DecodeIsEncoding(bytes: seq<byte>, max: u32)
    requires Decode(bytes, max).Got?
    ensures var d := Decode(bytes, max);
            |d.frame.payload| + 1 <= max && bytes[..d.used] == Encode(d.frame)
  {
    var d := Decode(bytes, max);
    WordCanonical(bytes[..4]);
    assert bytes[..d.used] == bytes[..4] + [bytes[4]] + bytes[5..d.used];
  }

  /** A proper, non-empty prefix of one encoded frame never decodes. */
  lemma DecodeCut(f: Sendable, n: nat)
    requires 0 < n < |Encode(f)|
    ensures Decode(Encode(f)[..n], DEFAULT_MAX_FRAME_LENGTH) == Malformed
  {
    var bytes := Encode(f)[..n];
    if n >= 4 {
      assert bytes[..4] == BE32(|f.payload| + 1);
      WordRoundTrip(|f.payload| + 1);
    }
  }

  /** Number of whole frames inside the first `n` bytes of the encoding. */
  function WholeFrames(fs: seq<Sendable>, n: nat): (k: nat)
    ensures k <= |fs|
  {
    if fs == [] || n < |Encode(fs[0])| then 0 else 1 + WholeFrames(fs[1..], n - |Encode(fs[0])|)
  }

  /** The peer's view `d` of a stream cut at `n` bytes: `k` whole frames, clean on a boundary. */
  ghost predicate CutAt(fs: seq<Sendable>, n: nat, k: nat, d: Stream)
  {
    && k <= |fs| && d.frames == fs[..k]
    && |EncodeAll(fs[..k])| <= n && (k < |fs| ==> n < |EncodeAll(fs[..k + 1])|)
    && (d.clean <==> n == |EncodeAll(fs[..k])|)
  }

  /**
   * Whatever prefix `w` of an encoded stream the peer has received, it decodes exactly
   * the frames that are wholly inside it, in order, and the end is the orderly close
   * exactly when `w` stops on a frame boundary.
   */
  lemma {:induction false} DecodePrefix(fs: seq<Sendable>, w: seq<byte>)
    requires w <= EncodeAll(fs)
    ensures CutAt(fs, |w|, WholeFrames(fs, |w|), DecodeAll(w, DEFAULT_MAX_FRAME_LENGTH))
  {
    if fs == [] {
      assert w == [];
    } else if |w| < |Encode(fs[0])| {
      TakePrefix(w, Encode(fs[0]), EncodeAll(fs[1..]));
      EncodeAllCons(fs, 0);
      if w != [] { DecodeCut(fs[0], |w|); }
    } else {
      var rest := w[|Encode(fs[0])|..];
      DropPrefix(w, Encode(fs[0]), EncodeAll(fs[1..]));
      DecodeEncode(fs[0], rest, DEFAULT_MAX_FRAME_LENGTH);
      DecodePrefix(fs[1..], rest);
      CutAtCons(fs, |rest|, WholeFrames(fs[1..], |rest|), DecodeAll(rest, DEFAULT_MAX_FRAME_LENGTH));
    }
  }

  lemma CutAtCons(fs: seq<Sendable>, n: nat, k: nat, d: Stream)
    requires fs != [] && CutAt(fs[1..], n, k, d)
    ensures CutAt(fs, |Encode(fs[0])| + n, k + 1, Stream([fs[0]] + d.frames, d.clean))
  {
    EncodeAllCons(fs, k);
    if k + 1 < |fs| { EncodeAllCons(fs, k + 1); }
  }

  /** A stream received whole decodes whole. */
  lemma {:induction false} DecodeEncodeAll(fs: seq<Sendable>)
    ensures DecodeAll(EncodeAll(fs), DEFAULT_MAX_FRAME_LENGTH) == Stream(fs, true)
  {
    if fs != [] {
      DecodeEncode(fs[0], EncodeAll(fs[1..]), DEFAULT_MAX_FRAME_LENGTH);
      DecodeEncodeAll(fs[1..]);
    }
  }

  lemma EncodeAllCons(fs: seq<Sendable>, k: nat)
    requires k < |fs|
    ensures fs[..k + 1] == [fs[0]] + fs[1..][..k]
    ensures EncodeAll(fs[..k + 1]) == Encode(fs[0]) + EncodeAll(fs[1..][..k])
  {
    assert fs[..k + 1][1..] == fs[1..][..k];
  }

  lemma TakePrefix(w: seq<byte>, first: seq<byte>, rest: seq<byte>)
    requires w <= first + rest && |w| <= |first|
    ensures w == first[..|w|]
  {
    assert forall i :: 0 <= i < |w| ==> w[i] == (first + rest)[i];
  }

  lemma DropPrefix(w: seq<byte>, first: seq<byte>, rest: seq<byte>)
    requires w <= first + rest && |w| >= |first|
    ensures w == first + w[|first|..] && w[|first|..] <= rest
  {
    assert forall i :: 0 <= i < |w| ==> w[i] == (first + rest)[i];
  }

  lemma {:induction false} EncodeAllAppend(fs: seq<Sendable>, gs: seq<Sendable>)
    ensures EncodeAll(fs + gs) == EncodeAll(fs) + EncodeAll(gs)
  {
    if fs == [] {
      assert fs + gs == gs;
    } else {
      assert (fs + gs)[1..] == fs[1..] + gs;
      EncodeAllAppend(fs[1..], gs);
    }
  }

  // ── The reader ──────────────────────────────────────────────────────────

  /** How the byte source answers one `read` call. */
  datatype Reaction = Chunk(extra: nat) | Interrupted | Fault

  /**
   * A byte source: the bytes still to come and how it will cut them up. A read hands
   * over at least one byte unless the bytes are exhausted (end of file); once the
   * script runs out, reads are as large as possible.
   */
  class Source {
    var data: seq<byte>
    var script: seq<Reaction>

    constructor (data: seq<byte>, script: seq<Reaction>)
      ensures this.data == data && this.script == script
    {
      this.data, this.script := data, script;
    }

    /** One `read` into `buf[from..]`: the number of bytes, or `-1` interrupted, `-2` failed. */
    method Read(buf: array<byte>, from: nat) returns (n: int)
      requires from < buf.Length
      modifies this, buf
      ensures n == -2 ==> Fault in old(script)
      ensures n < 0 ==> (n == -1 || n == -2) && data == old(data) && buf[..] == old(buf[..])
      ensures n >= 0 ==> n <= buf.Length - from && n <= |old(data)| && data == old(data)[n..]
      ensures n >= 0 ==> buf[..] == old(buf[..from]) + old(data)[..n] + old(buf[..])[from + n..]
      ensures n == 0 ==> old(data) == []
      ensures script == if old(script) == [] then [] else old(script)[1..]
      ensures n == -1 ==> |script| < |old(script)|
    {
      var reaction := if script == [] then Chunk(buf.Length) else script[0];
      script := if script == [] then [] else script[1..];
      match reaction
      case Interrupted => n := -1;
      case Fault => n := -2;
      case Chunk(extra) =>
        n := Min(extra + 1, Min(buf.Length - from, |data|));
        forall i | 0 <= i < n { buf[from + i] := data[i]; }
        data := data[n..];
    }
  }

  function Min(a: nat, b: nat): nat { if a < b then a else b }

  datatype ReadError = UnexpectedEof | InvalidData | Io

  /** Fills `buf`, stopping early only at the end of the bytes; `none` is an i/o error. */
  method ReadUntilEof(src: Source, buf: array<byte>) returns (got: nat, failed: bool)
    modifies src, buf
    ensures got <= buf.Length && got <= |old(src.data)|
    ensures buf[..got] == old(src.data)[..got] && src.data == old(src.data)[got..]
    ensures failed ==> Fault in old(src.script)
    ensures forall r :: r in src.script ==> r in old(src.script)
    ensures !failed && got < buf.Length ==> src.data == []
  {
    got, failed := 0, false;
    while got < buf.Length
      invariant got <= buf.Length && got <= |old(src.data)|
      invariant buf[..got] == old(src.data)[..got] && src.data == old(src.data)[got..]
      invariant forall r :: r in src.script ==> r in old(src.script)
      decreases buf.Length - got, |src.script|
    {
      ghost var before := buf[..got];
      var n := src.Read(buf, got);
      if n == 0 { return; }
      if n == -2 { failed := true; return; }
      if n > 0 {
        assert buf[..got + n] == before + old(src.data)[got..][..n];
        got := got + n;
      }
    }
  }

  /**
   * Reads one frame. For every byte string, every chunking and every interruption the
   * verdict is the decoder's, and exactly the decoded frame's bytes are consumed.
   */
  method ReadFrameWithLimit(src: Source, max: u32) returns (r: Result<Frame, ReadError>)
    modifies src
    ensures r == Err(Io) ==> Fault in old(src.script)
    ensures r != Err(Io) ==>
              match Decode(old(src.data), max)
              case Got(frame, used) => r == Ok(frame) && src.data == old(src.data)[used..]
              case Closed => r == Err(UnexpectedEof)
              case Malformed => r == Err(InvalidData)
    ensures forall reaction :: reaction in src.script ==> reaction in old(src.script)
  {
    ghost var all := src.data;
    var prefix := new byte[4];
    var got, failed := ReadUntilEof(src, prefix);
    if failed { return Err(Io); }
    if got == 0 { return Err(UnexpectedEof); }
    if got != 4 { return Err(InvalidData); }
    assert prefix[..] == prefix[..4] == all[..4];
    var length := FromBE32(prefix[..]);
    if length == 0 { return Err(InvalidData); }
    if length > max { return Err(InvalidData); }
    var buffer := new byte[length];
    var n, broke := ReadUntilEof(src, buffer);
    if broke { return Err(Io); }
    if n < buffer.Length { return Err(InvalidData); }
    assert buffer[..] == buffer[..length] == all[4..4 + length];
    r := Ok(Frame(buffer[0], buffer[1..]));
    assert buffer[1..] == buffer[..][1..] == all[5..4 + length];
    assert all[4..][length..] == all[4 + length..];
  }

  /**
   * The connection's read loop, a frame at a time until a read fails. For every chunking
   * and every interruption it gets exactly the frames the bytes hold, and its last error
   * is the orderly close exactly when they end on a frame boundary.
   */
  method ReadFrames(src: Source, max: u32) returns (frames: seq<Frame>, last: ReadError)
    modifies src
    ensures last == Io ==> Fault in old(src.script)
    ensures last == Io ==> frames <= DecodeAll(old(src.data), max).frames
    ensures last != Io ==> DecodeAll(old(src.data), max) == Stream(frames, last == UnexpectedEof)
  {
    ghost var all := DecodeAll(src.data, max);
    frames := [];
    while true
      invariant all == Stream(frames + DecodeAll(src.data, max).frames, DecodeAll(src.data, max).clean)
      invariant forall reaction :: reaction in src.script ==> reaction in old(src.script)
      decreases |src.data|
    {
      ghost var rest := src.data;
      var r := ReadFrameWithLimit(src, max);
      if r.Err? { return frames, r.error; }
      ghost var more := DecodeAll(src.data, max).frames;
      assert frames + ([r.value] + more) == (frames + [r.value]) + more;
      frames := frames + [r.value];
    }
  }

  // ── The direct writer ───────────────────────────────────────────────────

  class Sink {
    var out: seq<byte>

    constructor ()
      ensures out == []
    {
      out := [];
    }
  }

  /** Appends one frame, or refuses it (`InvalidInput`) with nothing written. */
  method WriteFrameWithLimit(w: Sink, kind: byte, payload: seq<byte>, max: u32) returns (ok: bool)
    modifies w
    ensures ok <==> |payload| + 1 <= max
    ensures !ok ==> w.out == old(w.out)
    ensures old(w.out) <= w.out
    ensures ok ==> Decode(w.out[|old(w.out)|..], max) == Got(Frame(kind, payload), |w.out| - |old(w.out)|)
  {
    if |payload| >= 0x1_0000_0000 { return false; }
    if |payload| + 1 >= 0x1_0000_0000 { return false; }
    if |payload| + 1 > max { return false; }
    ghost var before := w.out;
    w.out := w.out + BE32(|payload| + 1);
    w.out := w.out + [kind];
    w.out := w.out + payload;
    ok := true;
    var f := Frame(kind, payload);
    assert w.out == before + Encode(f);
    assert w.out[|before|..] == Encode(f) + [];
    DecodeEncode(f, [], max);
  }
}
