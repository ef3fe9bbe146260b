// The resumable vectored write of one outbound unit: three byte slices and one cursor
// over their concatenation, driven by a socket that may take any number of bytes,
// interrupt, stall or break at every attempt.

module FrameProgress {
  import opened Bytes

  function Join(parts: seq<seq<byte>>): seq<byte>
  {
    if parts == [] then [] else parts[0] + Join(parts[1..])
  }

  lemma {:induction false} JoinAppend(parts: seq<seq<byte>>, last: seq<byte>)
    ensures Join(parts + [last]) == Join(parts) + last
  {
    if parts == [] {
      assert parts + [last] == [last] && [last][1..] == [];
    } else {
      assert (parts + [last])[1..] == parts[1..] + [last];
      JoinAppend(parts[1..], last);
    }
  }

  /** The bytes past an offset, by whether it falls in the first slice. */
  lemma RestOf(parts: seq<seq<byte>>, i: nat, offset: nat)
    requires i < |parts| && offset <= |Join(parts[i..])|
    ensures offset >= |parts[i]| ==>
              && offset - |parts[i]| <= |Join(parts[i + 1..])|
              && Join(parts[i..])[offset..] == Join(parts[i + 1..])[offset - |parts[i]|..]
    ensures offset < |parts[i]| ==> Join(parts[i..])[offset..] == parts[i][offset..] + Join(parts[i + 1..])[0..]
  {
    assert parts[i..][0] == parts[i] && parts[i..][1..] == parts[i + 1..];
  }

  lemma NothingLeft(parts: seq<seq<byte>>)
    ensures Join(parts[|parts|..]) == []
  {
  }

  /** How the socket answers one vectored write; `late` = the deadline has passed by then. */
  datatype Reaction = Took(n: nat, late: bool) | Interrupted(late: bool) | WouldBlock | Broken

  /** The socket: what it has taken so far, and how it will answer. A spent script stalls. */
  class Socket {
    var wire: seq<byte>
    var script: seq<Reaction>

    constructor (script: seq<Reaction>)
      ensures wire == [] && this.script == script
    {
      wire, this.script := [], script;
    }

    /** One `write_vectored`: takes a prefix of the slices, nothing, or fails. */
    method WriteVectored(bufs: seq<seq<byte>>) returns (r: Reaction)
      modifies this
      ensures old(script) == [] ==> r == WouldBlock && script == []
      ensures old(script) != [] ==> script == old(script)[1..]
      ensures old(script) != [] && !r.Took? ==> r == old(script)[0]
      ensures r.Took? ==> old(script) != [] && old(script)[0].Took? && r.late == old(script)[0].late
      ensures r.Took? ==> r.n == if old(script)[0].n < |Join(bufs)| then old(script)[0].n else |Join(bufs)|
      ensures r.Took? ==> wire == old(wire) + Join(bufs)[..r.n]
      ensures !r.Took? ==> wire == old(wire)
    {
      if script == [] { return WouldBlock; }
      r := script[0];
      script := script[1..];
      if r.Took? {
        var all := Join(bufs);
        r := r.(n := if r.n < |all| then r.n else |all|);
        wire := wire + all[..r.n];
      }
    }
  }

  /** Written out, stopped with a remainder left (stall or deadline), or a broken socket. */
  datatype Attempt = Done | Stopped | Failed

  /** How many bytes a pass got out, how it ended, and the answers the socket has left. */
  datatype PassResult = PassResult(taken: nat, outcome: Attempt, rest: seq<Reaction>)

  /**
   * What one pass comes to with `left` bytes to go. `hurry`: an attempt was made and the
   * deadline has passed.
   */
  function Pass(script: seq<Reaction>, left: nat, deadline: bool, hurry: bool): (r: PassResult)
    ensures r.taken <= left && (r.outcome == Done <==> r.taken == left)
  {
    if left == 0 then PassResult(0, Done, script)
    else if hurry || script == [] then PassResult(0, Stopped, script)
    else match script[0]
      case Took(n, late) =>
        var taken := if n < left then n else left;
        if taken == 0 then PassResult(0, Failed, script[1..])
        else After(taken, Pass(script[1..], left - taken, deadline, deadline && late))
      case Interrupted(late) => Pass(script[1..], left, deadline, deadline && late)
      case WouldBlock => PassResult(0, Stopped, script[1..])
      case Broken => PassResult(0, Failed, script[1..])
  }

  function After(taken: nat, p: PassResult): PassResult { p.(taken := taken + p.taken) }

  /** A pass, by its first attempt. */
  lemma PassStep(script: seq<Reaction>, left: nat, deadline: bool, hurry: bool)
    ensures left == 0 ==> Pass(script, left, deadline, hurry) == PassResult(0, Done, script)
    ensures left > 0 && (hurry || script == []) ==> Pass(script, left, deadline, hurry) == PassResult(0, Stopped, script)
    ensures left > 0 && !hurry && script != [] ==>
              match script[0]
              case Took(n, late) =>
                var taken := if n < left then n else left;
                Pass(script, left, deadline, hurry) ==
                  if taken == 0 then PassResult(0, Failed, script[1..])
                  else After(taken, Pass(script[1..], left - taken, deadline, deadline && late))
              case Interrupted(late) => Pass(script, left, deadline, hurry) == Pass(script[1..], left, deadline, deadline && late)
              case WouldBlock => Pass(script, left, deadline, hurry) == PassResult(0, Stopped, script[1..])
              case Broken => Pass(script, left, deadline, hurry) == PassResult(0, Failed, script[1..])
  {
  }

  /** An attempt that finds the socket broken, or takes no byte. */
  predicate Breaks(r: Reaction)
  {
    r.Broken? || (r.Took? && r.n == 0)
  }

  /**
   * A pass without a deadline uses up a beginning of the socket's answers; it stops only
   * where the socket blocks, and fails only at a broken or zero-byte attempt.
   */
  lemma {:induction false} PassEnds(script: seq<Reaction>, left: nat) returns (used: nat)
    ensures var p := Pass(script, left, false, false);
            && used <= |script| && p.rest == script[used..]
            && (p.outcome == Stopped ==> used == |script| || (used > 0 && script[used - 1] == WouldBlock))
            && (p.outcome == Failed ==> used > 0 && Breaks(script[used - 1]))
    decreases |script|
  {
    hide Pass;
    PassStep(script, left, false, false);
    used := 0;
    if left > 0 && script != [] {
      var r := script[0];
      if r.Interrupted? || (r.Took? && r.n > 0) {
        var more := PassEnds(script[1..], if r.Interrupted? then left else left - if r.n < left then r.n else left);
        used := 1 + more;
        assert script[1..][more..] == script[used..];
        if more > 0 { assert script[1..][more - 1] == script[used - 1]; }
      } else {
        used := 1;
      }
    }
  }

  /** The deadline had passed by the time of this answer. */
  predicate IsLate(r: Reaction)
  {
    (r.Took? || r.Interrupted?) && r.late
  }

  /** What an attempt took, of what it was offered. */
  function Bite(r: Reaction, left: nat): nat
  {
    if r.Took? then (if r.n < left then r.n else left) else 0
  }

  /**
   * A pass under a deadline always makes one attempt and goes on until one takes the rest,
   * breaks or blocks, or ends late: it never attempts again after the first late answer, and
   * never stops before one.
   */
  lemma {:induction false} DeadlineEnds(script: seq<Reaction>, left: nat) returns (used: nat)
    requires left > 0 && script != []
    ensures var p := Pass(script, left, true, false);
            && 0 < used <= |script| && p.rest == script[used..]
            && (forall i :: 0 <= i < used - 1 ==> !IsLate(script[i]) && !script[i].WouldBlock? && !Breaks(script[i]))
            && (p.outcome == Stopped ==> used == |script| || script[used - 1].WouldBlock? || IsLate(script[used - 1]))
            && (p.outcome == Failed <==> p.taken < left && Breaks(script[used - 1]))
            && (p.taken >= Bite(script[0], left))
    decreases |script|
  {
    hide Pass;
    PassStep(script, left, true, false);
    used := 1;
    var r, after := script[0], left - Bite(script[0], left);
    if !r.WouldBlock? && !Breaks(r) {
      PassStep(script[1..], after, true, IsLate(r));
      if !IsLate(r) && after > 0 && script[1..] != [] {
        var more := DeadlineEnds(script[1..], after);
        used := 1 + more;
        assert script[1..][more..] == script[used..];
        assert script[1..][more - 1] == script[used - 1];
        forall i | 0 <= i < used - 1 ensures !IsLate(script[i]) && !script[i].WouldBlock? && !Breaks(script[i]) {
          if i > 0 { assert script[1..][i - 1] == script[i]; }
        }
      }
    }
  }

  class Progress {
    const parts: seq<seq<byte>>
    var written: nat

    ghost predicate Valid() reads this { |parts| == 3 && written <= |Join(parts)| }

    constructor (envelope: seq<byte>, head: seq<byte>, tail: seq<byte>)
      ensures Valid() && written == 0 && Join(parts) == envelope + head + tail
    {
      parts, written := [envelope, head, tail], 0;
      new;
      assert parts[1..] == [head, tail] && parts[1..][1..] == [tail] && [tail][1..] == [];
      assert Join([tail]) == tail && Join([head, tail]) == head + tail;
    }

    method Total() returns (n: nat)
      requires Valid()
      ensures n == |Join(parts)|
    {
      n := 0;
      for i := 0 to 3
        invariant n + |Join(parts[i..])| == |Join(parts)|
      {
        assert parts[i..][1..] == parts[i + 1..];
        n := n + |parts[i]|;
      }
    }

    /** The slices past the cursor, skipping the parts already written. */
    method Unwritten() returns (bufs: seq<seq<byte>>)
      requires Valid()
      ensures Join(bufs) == Join(parts)[written..]
    {
      hide Join;
      var offset: nat := written;
      bufs := [];
      assert parts[0..] == parts && Join([]) == [] by { NothingLeft([]); }
      for i := 0 to 3
        invariant offset <= |Join(parts[i..])| && (bufs != [] ==> offset == 0)
        invariant Join(bufs) + Join(parts[i..])[offset..] == Join(parts)[written..]
      {
        RestOf(parts, i, offset);
        if offset >= |parts[i]| {
          offset := offset - |parts[i]|;
          continue;
        }
        JoinAppend(bufs, parts[i][offset..]);
        bufs := bufs + [parts[i][offset..]];
        offset := 0;
      }
      NothingLeft(parts);
    }

    /** One attempt: offer the unwritten slices, move the cursor by what was taken. */
    method WriteOnce(socket: Socket) returns (r: Reaction)
      requires Valid()
      modifies this`written, socket
      ensures Valid() && written == old(written) + (if r.Took? then r.n else 0)
      ensures socket.wire == old(socket.wire) + Join(parts)[old(written)..written]
      ensures old(socket.script) == [] ==> r == WouldBlock && socket.script == []
      ensures old(socket.script) != [] ==>
                && socket.script == old(socket.script)[1..]
                && r == match old(socket.script)[0]
                        case Took(n, late) =>
                          Took(if n < |Join(parts)| - old(written) then n else |Join(parts)| - old(written), late)
                        case other => other
    {
      var bufs := Unwritten();
      r := socket.WriteVectored(bufs);
      if r.Took? {
        assert Join(parts)[written..][..r.n] == Join(parts)[written..written + r.n];
        written := written + r.n;
      }
    }

    /**
     * One bounded pass. Whatever the socket does, it receives exactly the bytes between
     * the old and the new cursor, and `Done` means the whole unit is out.
     */
    method WriteSome(socket: Socket, deadline: bool) returns (outcome: Attempt)
      requires Valid()
      modifies this`written, socket
      ensures Valid() && old(written) <= written
      ensures socket.wire == old(socket.wire) + Join(parts)[old(written)..written]
      ensures outcome == Done <==> written == |Join(parts)|
      ensures PassResult(written - old(written), outcome, socket.script)
              == Pass(old(socket.script), |Join(parts)| - old(written), deadline, false)
    {
      hide Join, Pass;
      var attempted, late := false, false;
      ghost var all, start := Join(parts), written;
      ghost var plan := Pass(socket.script, |all| - start, deadline, false);
      var total := Total();
      while written < total
        invariant Join(parts) == all && start <= written <= |all|
        invariant socket.wire == old(socket.wire) + all[start..written]
        invariant plan == After(written - start,
                                Pass(socket.script, |all| - written, deadline, attempted && deadline && late))
        decreases |socket.script|
      {
        PassStep(socket.script, |all| - written, deadline, attempted && deadline && late);
        if attempted && deadline && late { return Stopped; }
        attempted := true;
        ghost var mid := written;
        var r := WriteOnce(socket);
        assert all[start..mid] + all[mid..written] == all[start..written];
        match r {
          case Took(n, l) =>
            if n == 0 { return Failed; }
            late := l;
          case Interrupted(l) => late := l;
          case WouldBlock => return Stopped;
          case Broken => return Failed;
        }
      }
      PassStep(socket.script, |all| - written, deadline, attempted && deadline && late);
      outcome := Done;
    }

    /** The unwritten bytes as one buffer. */
    method Remainder() returns (out: seq<byte>)
      requires Valid()
      ensures out == Join(parts)[written..]
    {
      hide Join;
      var offset: nat := written;
      out := [];
      assert parts[0..] == parts;
      for i := 0 to 3
        invariant offset <= |Join(parts[i..])| && (out != [] ==> offset == 0)
        invariant out + Join(parts[i..])[offset..] == Join(parts)[written..]
      {
        RestOf(parts, i, offset);
        if offset >= |parts[i]| {
          offset := offset - |parts[i]|;
          continue;
        }
        out := out + parts[i][offset..];
        offset := 0;
      }
      NothingLeft(parts);
    }
  }
}
