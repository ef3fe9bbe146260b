// The outbox's promises, for every run: what is on the wire, what the peer decodes, that
// nothing is left behind, and how much the queue can hold.

module OutboxTheorems {
  import opened Wrappers
  import opened Bytes
  import opened Framing
  import opened OutboxState
  import opened OutboxProtocol
  import opened OutboxSafety

  /** The wire is a prefix of the accepted frames' encodings, dead or alive. */
  lemma WireIsPrefix(acts: seq<Action>)
    ensures Exec(acts).wire <= EncodeAll(Frames(Exec(acts).accepted))
  {
    EveryRun(acts);
    var s := Exec(acts);
    PrefixOfSum(s.wire, InHand(s), QueueWire(s.core.queue));
  }

  /** Until a write fails, wire, frame in hand and queue make up the accepted frames exactly. */
  lemma NothingMissing(acts: seq<Action>)
    ensures var s := Exec(acts);
            !s.lost ==> s.wire + InHand(s) + QueueWire(s.core.queue) == EncodeAll(Frames(s.accepted))
    ensures Exec(acts).core.dead.None? ==> !Exec(acts).lost
  {
    EveryRun(acts);
  }

  /**
   * The peer's reader gets the first `k` accepted frames, whole and in acceptance order,
   * and reports an orderly close exactly when the bytes stop after one of them.
   */
  lemma PeerDecodes(acts: seq<Action>)
    ensures var s := Exec(acts);
            var fs := Frames(s.accepted);
            CutAt(fs, |s.wire|, WholeFrames(fs, |s.wire|), DecodeAll(s.wire, DEFAULT_MAX_FRAME_LENGTH))
  {
    WireIsPrefix(acts);
    DecodePrefix(Frames(Exec(acts).accepted), Exec(acts).wire);
  }

  /**
   * The peer's read loop on any reachable wire, however the bytes are cut up: while its reads
   * do not fail it gets exactly the frames of `PeerDecodes`.
   */
  method PeerReads(ghost acts: seq<Action>, src: Source) returns (frames: seq<Frame>, last: ReadError)
    requires src.data == Exec(acts).wire && Fault !in src.script
    modifies src
    ensures last != Io
    ensures var fs, n := Frames(Exec(acts).accepted), |Exec(acts).wire|;
            CutAt(fs, n, WholeFrames(fs, n), Stream(frames, last == UnexpectedEof))
  {
    PeerDecodes(acts);
    frames, last := ReadFrames(src, DEFAULT_MAX_FRAME_LENGTH);
  }

  /**
   * Seen from one thread: of the accepted frames, in any number from the front, its own are
   * the ones its sends returned Ok for, in call order, then at most one more (in progress or
   * torn). A refused or timed-out send is not among them.
   */
  lemma ThreadOrder(acts: seq<Action>, t: Tid, k: nat)
    requires k <= |Exec(acts).accepted|
    ensures var s := Exec(acts);
            && Only(s.accepted[..k], t) <= Only(s.accepted, t)
            && Returned(s.returned, t) <= Only(s.accepted, t)
            && |Only(s.accepted, t)| <= |Returned(s.returned, t)| + 1
            && (s.core.dead.None? && t !in s.senders ==> Only(s.accepted, t) == Returned(s.returned, t))
  {
    hide BE32, Encode, Frames, EncodeAll, QueueWire, QueueLen, Only;
    EveryRun(acts);
    assert OrderAt(Exec(acts), t);
    OnlyPrefix(Exec(acts).accepted, t, k);
  }

  lemma {:induction false} OnlyPrefix(es: seq<Entry>, t: Tid, k: nat)
    requires k <= |es|
    ensures Only(es[..k], t) <= Only(es, t)
  {
    if k < |es| {
      assert es[..|es| - 1][..k] == es[..k];
      OnlyPrefix(es[..|es| - 1], t, k);
    } else {
      assert es[..k] == es;
    }
  }

  /**
   * The writer is never asleep on work: parked or gone while the outbox is alive and no
   * producer is mid-write, the queue is empty, every accepted frame is on the wire, and the
   * peer has decoded all of them.
   */
  lemma NoLostWakeup(acts: seq<Action>)
    ensures var s := Exec(acts);
            s.core.dead.None? && (s.writer.Parked? || s.writer.Exited?) && (forall t :: !InlineAt(s, t)) ==>
              && s.core.queue == []
              && (s.writer.Parked? ==> s.core.producers > 0)
              && s.wire == EncodeAll(Frames(s.accepted))
              && DecodeAll(s.wire, DEFAULT_MAX_FRAME_LENGTH) == Stream(Frames(s.accepted), true)
  {
    EveryRun(acts);
    var s := Exec(acts);
    if s.core.dead.None? && (s.writer.Parked? || s.writer.Exited?) && forall t :: !InlineAt(s, t) {
      InHandFree(s);
      assert s.wire + InHand(s) + QueueWire(s.core.queue) == s.wire;
      DecodeEncodeAll(Frames(s.accepted));
    }
  }

  /** A producer has to wait only while somebody else is up and able to make room. */
  lemma WaitersHaveADrainer(acts: seq<Action>, m: Admitted)
    ensures var s := Exec(acts);
            Sending(s.core, m).1.MustWait? ==>
              && s.core.queue != []
              && (s.writer.Scanning? || s.writer.Draining? || exists t :: InlineAt(s, t))
  {
    EveryRun(acts);
  }

  /** Queue accounting: exact, never negative, bounded; one remainder at most, in front, token free. */
  lemma QueueBounded(acts: seq<Action>)
    ensures var c := Exec(acts).core;
            && c.bytes == QueueLen(c.queue)
            && 0 <= c.bytes <= 128 * 1024 * 1024 + 3
            && (forall i :: 0 <= i < |c.queue| && c.queue[i].Remainder? ==> i == 0 && !c.writing)
  {
    EveryRun(acts);
  }

  // ── Runs only extend the wire and the acceptance order ──────────────────

  function RunFrom(s: State, acts: seq<Action>): State
    decreases |acts|
  {
    if acts == [] then s else RunFrom(Next(s, acts[0]), acts[1..])
  }

  lemma {:induction false} ExecAppend(acts: seq<Action>, more: seq<Action>)
    ensures Exec(acts + more) == RunFrom(Exec(acts), more)
    decreases |more|
  {
    if more == [] {
      assert acts + more == acts;
    } else {
      var a := acts + [more[0]];
      assert a[..|a| - 1] == acts;
      assert acts + more == a + more[1..];
      ExecAppend(a, more[1..]);
    }
  }

  lemma NextGrows(s: State, a: Action)
    ensures s.wire <= Next(s, a).wire && s.accepted <= Next(s, a).accepted
  {
    hide BE32, Encode, Fits;
  }

  lemma {:induction false} RunGrows(s: State, acts: seq<Action>)
    ensures s.wire <= RunFrom(s, acts).wire && s.accepted <= RunFrom(s, acts).accepted
    decreases |acts|
  {
    if acts != [] {
      NextGrows(s, acts[0]);
      RunGrows(Next(s, acts[0]), acts[1..]);
    }
  }

  // ── Draining ────────────────────────────────────────────────────────────

  /** The actions of whoever holds the token and of the writer thread, without a spurious wakeup. */
  predicate IsDrainStep(a: Action)
  {
    a.InlineWrite? || a.InlineDone? || a.WriterScan? || a.WriterWrite? || a.WriterDone?
  }

  ghost predicate Drains(s: State, more: seq<Action>)
  {
    var end := RunFrom(s, more);
    && (forall a :: a in more ==> IsDrainStep(a))
    && end.core.dead.None? && end.core.queue == [] && !end.core.writing
    && end.accepted == s.accepted && end.wire == EncodeAll(Frames(s.accepted))
  }

  /** Alive, token free, and the writer up if there is anything to do. */
  ghost predicate Settled(s: State)
  {
    Inv(s) && s.core.dead.None? && !s.core.writing && (s.core.queue == [] || s.writer.Scanning?)
  }

  lemma RunThree(s: State, a: Action, b: Action, c: Action, rest: seq<Action>)
    ensures RunFrom(s, [a, b] + rest) == RunFrom(Next(Next(s, a), b), rest)
    ensures RunFrom(s, [a, b, c] + rest) == RunFrom(Next(Next(Next(s, a), b), c), rest)
  {
    assert ([a, b, c] + rest)[1..] == [b, c] + rest && ([b, c] + rest)[1..] == [c] + rest;
    assert ([a, b] + rest)[1..] == [b] + rest && ([b] + rest)[1..] == rest && ([c] + rest)[1..] == rest;
    assert RunFrom(Next(s, a), [b, c] + rest) == RunFrom(Next(Next(s, a), b), [c] + rest);
  }

  /** The writer thread writes out what it holds. */
  lemma WriterFinishes(s: State)
    requires Inv(s) && s.core.dead.None? && s.writer.Draining?
    ensures var s1 := Next(s, WriterWrite(|WriterLeft(s)|));
            var s2 := Next(s1, WriterDone);
            Settled(s2) && s2.core.queue == s.core.queue && s2.accepted == s.accepted
  {
    hide BE32, Encode, Only, Frames, EncodeAll, QueueWire, QueueLen;
    var s1 := Next(s, WriterWrite(|WriterLeft(s)|));
    WriterWriteKeeps(s, |WriterLeft(s)|);
    assert WriterLeft(s1) == [];
    WriterEndKeeps(s1, WriterDone);
  }

  /** A producer writes out its frame, waking the writer if others queued meanwhile. */
  lemma InlineFinishes(s: State, t: Tid)
    requires Inv(s) && s.core.dead.None? && InlineAt(s, t)
    ensures var s1 := Next(s, InlineWrite(t, |Left(s, t)|));
            var s2 := Next(s1, InlineDone(t));
            Settled(s2) && s2.core.queue == s.core.queue && s2.accepted == s.accepted
  {
    hide BE32, Encode, Only, Frames, EncodeAll, QueueWire, QueueLen;
    var s1 := Next(s, InlineWrite(t, |Left(s, t)|));
    InlineWriteKeeps(s, t, |Left(s, t)|);
    assert InlineAt(s1, t) && Left(s1, t) == [];
    InlineDoneKeeps(s1, t);
  }

  lemma QueueDrains(s: State) returns (more: seq<Action>)
    requires Settled(s)
    ensures Drains(s, more)
    decreases |s.core.queue|
  {
    hide BE32, Encode, Only, QueueLen;
    if s.core.queue == [] {
      InHandFree(s);
      assert s.wire + InHand(s) + QueueWire(s.core.queue) == s.wire;
      more := [];
    } else {
      var s1 := Next(s, WriterScan);
      WriterScanKeeps(s);
      var write := WriterWrite(|WriterLeft(s1)|);
      WriterFinishes(s1);
      var rest := QueueDrains(Next(Next(s1, write), WriterDone));
      RunThree(s, WriterScan, write, WriterDone, rest);
      more := [WriterScan, write, WriterDone] + rest;
    }
  }

  /**
   * From every reachable live state, the party holding the token and the writer thread can
   * put every accepted frame on the wire by themselves: no new send, no spurious wakeup.
   */
  lemma CanDrain(s: State) returns (more: seq<Action>)
    requires Inv(s) && s.core.dead.None?
    ensures Drains(s, more)
  {
    hide BE32, Encode, Only, QueueLen, QueueWire;
    if t :| InlineAt(s, t) {
      var write := InlineWrite(t, |Left(s, t)|);
      InlineFinishes(s, t);
      var rest := QueueDrains(Next(Next(s, write), InlineDone(t)));
      RunThree(s, write, InlineDone(t), InlineDone(t), rest);
      more := [write, InlineDone(t)] + rest;
    } else if s.writer.Draining? {
      var write := WriterWrite(|WriterLeft(s)|);
      WriterFinishes(s);
      var rest := QueueDrains(Next(Next(s, write), WriterDone));
      RunThree(s, write, WriterDone, WriterDone, rest);
      more := [write, WriterDone] + rest;
    } else {
      more := QueueDrains(s);
    }
  }

  lemma EveryRunCanDrain(acts: seq<Action>)
    requires Exec(acts).core.dead.None?
    ensures exists more :: Drains(Exec(acts), more)
  {
    EveryRun(acts);
    var more := CanDrain(Exec(acts));
  }
}
