// The two places that write to the socket with the lock let go: a producer's single
// bounded pass, and the writer thread's patient loop. Each hands the socket a prefix of
// its unit and reports exactly what the protocol's write and finish steps need.

module OutboxWriters {
  import opened Wrappers
  import opened Bytes
  import opened Framing
  import opened OutboxState
  import opened OutboxProtocol
  import FrameProgress

  /** `n` bytes of `unit` went out; how that ends for a producer. */
  ghost predicate InlineEnds(unit: seq<byte>, n: nat, o: InlineOutcome)
  {
    && n <= |unit|
    && match o
       case Sent => n == |unit|
       case Jammed(rest) => n < |unit| && rest == unit[n..]
       case Failed => n < |unit|
  }

  lemma EnvelopeParts(m: Admitted)
    ensures BE32(|m.head| + |m.tail| + 1) + [m.kind] + m.head + m.tail == Encode(AsFrame(m))
  {
    assert AsFrame(m).payload == m.head + m.tail;
  }

  method WriteInline(m: Admitted, socket: FrameProgress.Socket) returns (o: InlineOutcome, ghost n: nat)
    modifies socket
    ensures InlineEnds(Encode(AsFrame(m)), n, o)
    ensures socket.wire == old(socket.wire) + Encode(AsFrame(m))[..n]
    ensures var p := FrameProgress.Pass(old(socket.script), Size(m), true, false);
            (n, o.Sent?, o.Failed?, socket.script) == (p.taken, p.outcome.Done?, p.outcome.Failed?, p.rest)
  {
    var envelope := BE32(|m.head| + |m.tail| + 1) + [m.kind];
    var progress := new FrameProgress.Progress(envelope, m.head, m.tail);
    EnvelopeParts(m);
    var outcome := progress.WriteSome(socket, true);
    n := progress.written;
    match outcome
    case Done => o := Sent;
    case Failed => o := Failed;
    case Stopped =>
      var rest := progress.Remainder();
      o := Jammed(rest);
  }

  /**
   * Passes without a deadline, one after another, until the unit is out, the socket breaks,
   * or a pass gains nothing with the stall bound reached. `expired[i]`: the i-th pass that
   * gained nothing found it reached; past the end of the list it always is.
   */
  function Patience(script: seq<FrameProgress.Reaction>, left: nat, expired: seq<bool>): (r: (nat, Option<Reason>))
    ensures r.0 <= left && (r.1 == None <==> r.0 == left)
    decreases left, |expired|
  {
    var p := FrameProgress.Pass(script, left, false, false);
    match p.outcome
    case Done => (left, None)
    case Failed => (p.taken, Some(WriteFailed))
    case Stopped =>
      if p.taken > 0 then
        var (more, failed) := Patience(p.rest, left - p.taken, expired);
        (p.taken + more, failed)
      else if expired == [] || expired[0] then (0, Some(WriterStalled))
      else Patience(p.rest, left, expired[1..])
  }

  /** A pass from here takes nothing of the `left` bytes and finds the socket blocked, the bound reached. */
  ghost predicate StalledAt(script: seq<FrameProgress.Reaction>, left: nat, expired: seq<bool>)
  {
    var p := FrameProgress.Pass(script, left, false, false);
    && p.taken == 0 && p.outcome == FrameProgress.Stopped && (expired == [] || expired[0])
  }

  /** A pass from here ends at a broken socket or an attempt that takes no byte. */
  ghost predicate FailsAt(script: seq<FrameProgress.Reaction>, left: nat)
  {
    FrameProgress.Pass(script, left, false, false).outcome == FrameProgress.Failed
    && exists r :: r in script && FrameProgress.Breaks(r)
  }

  /**
   * The loop gives a unit up as stalled only at a pass without any progress with the bound
   * reached, and as failed only at a broken or zero-byte attempt; the answers used before
   * that are a beginning of the socket's.
   */
  lemma {:induction false} GivesUpOnlyFor(script: seq<FrameProgress.Reaction>, left: nat, expired: seq<bool>)
    ensures var (n, failed) := Patience(script, left, expired);
            && (failed == Some(WriterStalled) ==>
                  exists i, j :: 0 <= i <= |script| && 0 <= j <= |expired| && StalledAt(script[i..], left - n, expired[j..]))
            && (failed == Some(WriteFailed) ==> exists i, here :: 0 <= i <= |script| && left - n <= here <= left && FailsAt(script[i..], here))
            && (failed == None || failed == Some(WriterStalled) || failed == Some(WriteFailed))
    decreases left, |expired|
  {
    hide FrameProgress.Pass;
    var used := FrameProgress.PassEnds(script, left);
    var p := FrameProgress.Pass(script, left, false, false);
    var (n, failed) := Patience(script, left, expired);
    assert script[0..] == script && expired[0..] == expired;
    match p.outcome
    case Done =>
    case Failed => assert FailsAt(script[0..], left);
    case Stopped =>
      if p.taken == 0 && (expired == [] || expired[0]) {
        assert StalledAt(script[0..], left - n, expired[0..]);
      } else {
        var skipped := if p.taken > 0 then 0 else 1;
        GivesUpOnlyFor(p.rest, left - p.taken, expired[skipped..]);
        Later(script, used, left, expired, skipped, left - p.taken, n, failed);
      }
  }

  /** Stalled with the bound reached, the loop gives up at once; broken, too; otherwise it makes another pass. */
  lemma NeverSatOut(script: seq<FrameProgress.Reaction>, left: nat, expired: seq<bool>)
    ensures StalledAt(script, left, expired) ==> Patience(script, left, expired) == (0, Some(WriterStalled))
    ensures FailsAt(script, left) ==> Patience(script, left, expired).1 == Some(WriteFailed)
    ensures var p := FrameProgress.Pass(script, left, false, false);
            p.outcome == FrameProgress.Stopped && !StalledAt(script, left, expired) ==>
              var next := Patience(p.rest, left - p.taken, if p.taken > 0 then expired else expired[1..]);
              Patience(script, left, expired) == (p.taken + next.0, next.1)
  {
  }

  /** What holds of a later pass holds of the whole loop. */
  lemma Later(script: seq<FrameProgress.Reaction>, used: nat, left: nat, expired: seq<bool>, skipped: nat, rest: nat, n: nat, failed: Option<Reason>)
    requires used <= |script| && skipped <= |expired| && rest <= left && n <= left
    requires failed == Some(WriterStalled) ==>
               exists i, j :: 0 <= i <= |script[used..]| && 0 <= j <= |expired[skipped..]| && StalledAt(script[used..][i..], left - n, expired[skipped..][j..])
    requires failed == Some(WriteFailed) ==>
               exists i, here :: 0 <= i <= |script[used..]| && left - n <= here <= rest && FailsAt(script[used..][i..], here)
    ensures failed == Some(WriterStalled) ==>
              exists i, j :: 0 <= i <= |script| && 0 <= j <= |expired| && StalledAt(script[i..], left - n, expired[j..])
    ensures failed == Some(WriteFailed) ==> exists i, here :: 0 <= i <= |script| && left - n <= here <= left && FailsAt(script[i..], here)
  {
    hide StalledAt, FailsAt;
    if failed == Some(WriterStalled) {
      var i, j :| 0 <= i <= |script[used..]| && 0 <= j <= |expired[skipped..]| && StalledAt(script[used..][i..], left - n, expired[skipped..][j..]);
      assert script[used..][i..] == script[used + i..] && expired[skipped..][j..] == expired[skipped + j..];
      assert StalledAt(script[used + i..], left - n, expired[skipped + j..]);
    }
    if failed == Some(WriteFailed) {
      var i, here :| 0 <= i <= |script[used..]| && left - n <= here <= rest && FailsAt(script[used..][i..], here);
      assert script[used..][i..] == script[used + i..];
      assert FailsAt(script[used + i..], here);
    }
  }

  /** The writer thread's unit. */
  method WriteQueued(f: OutFrame, socket: FrameProgress.Socket, expired: seq<bool>)
      returns (failed: Option<Reason>, ghost n: nat)
    modifies socket
    ensures n <= |Wire(f)| && socket.wire == old(socket.wire) + Wire(f)[..n]
    ensures (n, failed) == Patience(old(socket.script), |Wire(f)|, expired)
  {
    var envelope, head, tail := [], [], [];
    match f {
      case Whole(m) =>
        envelope, head, tail := BE32(|m.head| + |m.tail| + 1) + [m.kind], m.head, m.tail;
        EnvelopeParts(m);
      case Remainder(bytes) => head := bytes;
    }
    var progress := new FrameProgress.Progress(envelope, head, tail);
    assert FrameProgress.Join(progress.parts) == Wire(f);
    failed := WritePatiently(progress, socket, expired);
    n := progress.written;
  }

  method WritePatiently(progress: FrameProgress.Progress, socket: FrameProgress.Socket, expired: seq<bool>)
      returns (failed: Option<Reason>)
    requires progress.Valid() && progress.written == 0
    modifies progress`written, socket
    ensures progress.Valid()
    ensures socket.wire == old(socket.wire) + FrameProgress.Join(progress.parts)[..progress.written]
    ensures (progress.written, failed) == Patience(old(socket.script), |FrameProgress.Join(progress.parts)|, expired)
  {
    hide FrameProgress.Join, FrameProgress.Pass;
    ghost var unit := FrameProgress.Join(progress.parts);
    ghost var plan := Patience(socket.script, |unit|, expired);
    var i := 0;
    assert expired[0..] == expired;
    while true
      invariant progress.Valid()
      invariant socket.wire == old(socket.wire) + unit[..progress.written]
      invariant i <= |expired|
      invariant var p := Patience(socket.script, |unit| - progress.written, expired[i..]);
                plan == (progress.written + p.0, p.1)
      decreases |unit| - progress.written, |expired| - i
    {
      var before := progress.written;
      var outcome := progress.WriteSome(socket, false);
      assert unit[..before] + unit[before..progress.written] == unit[..progress.written];
      match outcome {
        case Done => return None;
        case Failed => return Some(WriteFailed);
        case Stopped =>
          if progress.written == before {
            if i == |expired| || expired[i] { return Some(WriterStalled); }
            assert expired[i..][1..] == expired[i + 1..];
            i := i + 1;
          }
      }
    }
  }

  // ── Both are protocol steps ─────────────────────────────────────────────

  function InlineEnd(t: Tid, o: InlineOutcome): Action
  {
    match o
    case Sent => InlineDone(t)
    case Jammed(_) => InlineJam(t)
    case Failed => InlineFail(t)
  }

  /** What `WriteInline` does and returns is one write step and the matching end step. */
  lemma InlineIsTwoSteps(s: State, t: Tid, m: Admitted, n: nat, o: InlineOutcome)
    requires t in s.senders && s.senders[t] == Inline(m, 0) && InlineEnds(Encode(AsFrame(m)), n, o)
    ensures var s' := Next(Next(s, InlineWrite(t, n)), InlineEnd(t, o));
            && s'.wire == s.wire + Encode(AsFrame(m))[..n]
            && s'.core == InlineFinished(s.core, o).0
            && t !in s'.senders
  {
    var unit := Encode(AsFrame(m));
    var s1 := Next(s, InlineWrite(t, n));
    assert InlineAt(s, t) && Left(s, t) == unit;
    assert InlineAt(s1, t) && Left(s1, t) == unit[n..];
  }

  /** What `WriteQueued` does and returns is one write step and the matching end step. */
  lemma QueuedIsTwoSteps(s: State, f: OutFrame, n: nat, failed: Option<Reason>)
    requires s.writer == Draining(f, 0) && n <= |Wire(f)| && (failed == None <==> n == |Wire(f)|)
    ensures var s1 := Next(s, WriterWrite(n));
            var s' := Next(s1, if failed == None then WriterDone else WriterFail(failed.value));
            && s'.wire == s.wire + Wire(f)[..n]
            && s'.core == WriterFinished(s.core, failed)
            && !s'.writer.Draining?
  {
    var s1 := Next(s, WriterWrite(n));
    assert DrainingIn(s) && WriterLeft(s) == Wire(f);
    assert DrainingIn(s1) && WriterLeft(s1) == Wire(f)[n..];
  }
}
