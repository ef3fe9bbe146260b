// What every run of the outbox keeps, proved one action at a time, and what the peer at
// the other end of the socket decodes from it.

module OutboxSafety {
  import opened Wrappers
  import opened Bytes
  import opened Framing
  import opened OutboxState
  import opened OutboxProtocol

  // ── Helpers ─────────────────────────────────────────────────────────────

  lemma InHandInline(s: State, t: Tid)
    requires TokenOk(s) && InlineAt(s, t)
    ensures InHand(s) == Left(s, t)
  {
  }

  lemma InHandFree(s: State)
    requires TokenOk(s) && !s.core.writing
    ensures InHand(s) == []
  {
  }

  /** Entering a thread that is not the writer, or leaving one, does not touch the hand. */
  lemma InHandSame(s: State, s': State)
    requires TokenOk(s) && TokenOk(s')
    requires s.writer.Draining? || s'.writer.Draining? ==> s.writer == s'.writer
    requires forall t :: InlineAt(s, t) <==> InlineAt(s', t)
    requires forall t :: InlineAt(s, t) ==> s.senders[t] == s'.senders[t]
    ensures InHand(s) == InHand(s')
  {
    hide BE32, Encode;
    if t :| InlineAt(s, t) {
      InHandInline(s, t);
      InHandInline(s', t);
    }
  }

  lemma {:induction false} FramesAppend(es: seq<Entry>, e: Entry)
    ensures Frames(es + [e]) == Frames(es) + [AsFrame(e.m)]
  {
  }

  lemma AcceptedAppend(es: seq<Entry>, e: Entry)
    ensures EncodeAll(Frames(es + [e])) == EncodeAll(Frames(es)) + Encode(AsFrame(e.m))
  {
    FramesAppend(es, e);
    EncodeAllAppend(Frames(es), [AsFrame(e.m)]);
    assert [AsFrame(e.m)][1..] == [];
  }

  lemma {:induction false} QueueAppend(q: seq<OutFrame>, f: OutFrame)
    ensures QueueWire(q + [f]) == QueueWire(q) + Wire(f)
    ensures QueueLen(q + [f]) == QueueLen(q) + Len(f)
  {
    if q == [] {
      assert q + [f] == [f] && [f][1..] == [];
    } else {
      assert (q + [f])[1..] == q[1..] + [f];
      QueueAppend(q[1..], f);
    }
  }

  lemma OnlyAppend(es: seq<Entry>, e: Entry, t: Tid)
    ensures Only(es + [e], t) == Only(es, t) + if e.tid == t then [e.m] else []
  {
    assert (es + [e])[..|es|] == es;
  }

  lemma Regroup(w: seq<byte>, h: seq<byte>, n: nat, q: seq<byte>, f: seq<byte>)
    requires n <= |h|
    ensures w + h[..n] + h[n..] + q == w + h + q
    ensures w + h + (q + f) == w + h + q + f
    ensures w + [] + (h + q) == w + h + q
  {
  }

  /** Acceptance order is untouched by an action that neither accepts nor ends a send. */
  lemma OrderSame(s: State, s': State)
    requires OrderOk(s)
    requires s'.accepted == s.accepted && s'.returned == s.returned && s'.torn == s.torn && (s.lost ==> s'.lost)
    requires forall t :: InlineAt(s', t) ==> InlineAt(s, t)
    requires forall t :: InlineAt(s, t) ==> InlineAt(s', t) && s.senders[t].m == s'.senders[t].m
    ensures OrderOk(s')
  {
    hide BE32, Encode, Frames, EncodeAll, Only;
    forall t: Tid ensures OrderAt(s', t) {
      assert OrderAt(s, t) && Pending(s, t) == Pending(s', t);
    }
  }

  /** A step that moves neither bytes nor frames, only waiting threads, handles or the writer's sleep. */
  lemma Bystander(s: State, s': State)
    requires Inv(s)
    requires s'.core == s.core.(dead := s'.core.dead, producers := s'.core.producers)
    requires s.core.dead.Some? ==> s'.core.dead.Some?
    requires s' == s.(core := s'.core, senders := s'.senders, writer := s'.writer)
    requires s.writer.Draining? || s'.writer.Draining? ==> s.writer == s'.writer
    requires forall t :: t in s'.senders && s'.senders[t].Inline? ==> t in s.senders && s.senders[t] == s'.senders[t]
    requires forall t :: InlineAt(s, t) ==> t in s'.senders && s.senders[t] == s'.senders[t]
    requires WakeOk(s')
    ensures Inv(s')
  {
    hide BE32, Encode, Frames, EncodeAll, QueueWire, QueueLen, Only;
    assert forall t :: InlineAt(s, t) <==> InlineAt(s', t);
    assert TokenOk(s');
    InHandSame(s, s');
    OrderSame(s, s');
  }

  lemma PrefixOfSum(a: seq<byte>, b: seq<byte>, c: seq<byte>)
    ensures a <= a + b + c
  {
  }

  // ── One action at a time ────────────────────────────────────────────────

  lemma StartKeeps()
    ensures Inv(START)
  {
  }

  lemma AttemptRefused(s: State, t: Tid, m: Admitted)
    requires Inv(s) && s.core.producers > 0 && (t in s.senders ==> s.senders[t] == Waiting(m))
    requires Sending(s.core, m).1.BrokenPipe? || Sending(s.core, m).1.MustWait?
    ensures Inv(Attempt(s, t, m))
  {
    hide QueueOk, WireOk, OrderOk, TokenOk;
    Bystander(s, Attempt(s, t, m));
  }

  lemma AttemptInline(s: State, t: Tid, m: Admitted)
    requires Inv(s) && s.core.producers > 0 && (t in s.senders ==> s.senders[t] == Waiting(m))
    requires Sending(s.core, m).1.TakeToken?
    ensures Inv(Attempt(s, t, m))
  {
    hide Encode, Only, BE32;
    var s' := Attempt(s, t, m);
    assert InlineAt(s', t);
    assert forall u :: InlineAt(s', u) ==> u == t || InlineAt(s, u);
    assert TokenOk(s');
    assert WireOk(s') by {
      InHandFree(s);
      InHandInline(s', t);
      AcceptedAppend(s.accepted, Entry(t, m));
      Regroup(s.wire, [], 0, [], Encode(AsFrame(m)));
    }
    InlineOrder(s, t, m);
  }

  lemma InlineOrderAt(s: State, t: Tid, m: Admitted, u: Tid)
    requires OrderAt(s, u) && Pending(s, u) == [] && s.torn.None?
    requires Sending(s.core, m).1.TakeToken?
    ensures OrderAt(Attempt(s, t, m), u)
  {
    hide Encode, QueueWire, QueueLen, Frames, EncodeAll, BE32;
    OnlyAppend(s.accepted, Entry(t, m), u);
  }

  lemma InlineOrder(s: State, t: Tid, m: Admitted)
    requires OrderOk(s) && !s.lost && forall u :: !InlineAt(s, u)
    requires Sending(s.core, m).1.TakeToken?
    ensures OrderOk(Attempt(s, t, m))
  {
    hide Encode, QueueWire, QueueLen, Frames, EncodeAll, BE32, Only;
    forall u: Tid ensures OrderAt(Attempt(s, t, m), u) {
      assert OrderAt(s, u);
      InlineOrderAt(s, t, m, u);
    }
  }

  lemma AttemptQueued(s: State, t: Tid, m: Admitted)
    requires Inv(s) && s.core.producers > 0 && (t in s.senders ==> s.senders[t] == Waiting(m))
    requires Sending(s.core, m).1.Queued?
    ensures Inv(Attempt(s, t, m))
  {
    hide BE32, Only, QueueLen, Size;
    var s' := Attempt(s, t, m);
    assert forall u :: InlineAt(s', u) <==> InlineAt(s, u);
    assert TokenOk(s');
    assert WireOk(s') by {
      InHandSame(s, s');
      AcceptedAppend(s.accepted, Entry(t, m));
      QueueAppend(s.core.queue, Whole(m));
      Regroup(s.wire, InHand(s), 0, QueueWire(s.core.queue), Encode(AsFrame(m)));
    }
    QueuedFits(s.core, m);
    assert WakeOk(s');
    QueuedOrder(s, t, m);
  }

  lemma QueuedOrderAt(s: State, t: Tid, m: Admitted, u: Tid)
    requires OrderAt(s, u) && s.torn.None? && (t in s.senders ==> s.senders[t] == Waiting(m))
    requires Sending(s.core, m).1.Queued?
    ensures OrderAt(Attempt(s, t, m), u)
  {
    hide Encode, QueueWire, QueueLen, Frames, EncodeAll, BE32;
    OnlyAppend(s.accepted, Entry(t, m), u);
    assert u == t ==> Pending(s, u) == [];
  }

  lemma QueuedOrder(s: State, t: Tid, m: Admitted)
    requires OrderOk(s) && !s.lost && (t in s.senders ==> s.senders[t] == Waiting(m))
    requires Sending(s.core, m).1.Queued?
    ensures OrderOk(Attempt(s, t, m))
  {
    hide Encode, QueueWire, QueueLen, Frames, EncodeAll, BE32, Only;
    forall u: Tid ensures OrderAt(Attempt(s, t, m), u) {
      assert OrderAt(s, u);
      QueuedOrderAt(s, t, m, u);
    }
  }

  lemma QueuedFits(c: Core, m: Admitted)
    requires QueueOk(c) && !NoRoom(c, m)
    ensures QueueOk(c.(queue := c.queue + [Whole(m)], bytes := c.bytes + Len(Whole(m))))
  {
    hide Wire, QueueWire, Encode, BE32;
    QueueAppend(c.queue, Whole(m));
    if c.queue != [] {
      assert (c.queue + [Whole(m)])[1..] == c.queue[1..] + [Whole(m)];
      QueueAppend(c.queue[1..], Whole(m));
    }
  }

  lemma AttemptKeeps(s: State, t: Tid, m: Admitted)
    requires Inv(s) && s.core.producers > 0 && (t in s.senders ==> s.senders[t] == Waiting(m))
    ensures Inv(Attempt(s, t, m))
  {
    match Sending(s.core, m).1
    case BrokenPipe(_) => AttemptRefused(s, t, m);
    case MustWait => AttemptRefused(s, t, m);
    case TakeToken => AttemptInline(s, t, m);
    case Queued => AttemptQueued(s, t, m);
  }

  lemma TimeoutKeeps(s: State, t: Tid)
    requires Inv(s)
    ensures Inv(Next(s, Timeout(t)))
  {
    hide QueueOk, WireOk, OrderOk, TokenOk;
    var s' := Next(s, Timeout(t));
    if t in s.senders && s.senders[t].Waiting? {
      if GivenUp(s.core, s.senders[t].m).1 {
        Bystander(s, s');
      } else {
        AttemptKeeps(s, t, s.senders[t].m);
      }
    }
  }

  lemma InlineWriteToken(s: State, t: Tid, n: nat)
    requires TokenOk(s) && InlineAt(s, t) && n <= |Left(s, t)|
    ensures var s' := Next(s, InlineWrite(t, n));
            TokenOk(s') && InlineAt(s', t) && Left(s', t) == Left(s, t)[n..]
            && forall u :: InlineAt(s', u) <==> InlineAt(s, u)
  {
    hide BE32, Encode;
    var s' := Next(s, InlineWrite(t, n));
    assert forall u :: u != t && u in s'.senders ==> s'.senders[u] == s.senders[u];
    assert InlineAt(s', t);
  }

  lemma InlineWriteKeeps(s: State, t: Tid, n: nat)
    requires Inv(s)
    ensures Inv(Next(s, InlineWrite(t, n)))
  {
    hide BE32, Only, QueueOk, Encode;
    if InlineAt(s, t) && n <= |Left(s, t)| {
      var s' := Next(s, InlineWrite(t, n));
      InlineWriteToken(s, t, n);
      assert WireOk(s') by {
        InHandInline(s, t);
        InHandInline(s', t);
        Regroup(s.wire, Left(s, t), n, QueueWire(s.core.queue), []);
      }
      OrderSame(s, s');
    }
  }

  lemma InlineEndsToken(s: State, s': State, t: Tid)
    requires Inv(s) && InlineAt(s, t)
    requires s'.senders == s.senders - {t} && !s'.core.writing
    requires s'.writer == s.writer || (s.writer.Parked? && s'.writer.Scanning?)
    ensures TokenOk(s') && InHand(s') == [] && InHand(s) == Left(s, t)
    ensures forall u :: !InlineAt(s', u)
    ensures !s.lost && s.core.writing && !s.writer.Draining?
  {
    hide BE32, Only, QueueOk, Encode, Frames, EncodeAll, QueueWire;
    InHandInline(s, t);
    assert forall u :: InlineAt(s', u) ==> InlineAt(s, u);
    InHandFree(s');
  }

  lemma InlineReturns(s: State, s': State, t: Tid)
    requires OrderOk(s) && TokenOk(s) && InlineAt(s, t) && !s.lost && !s'.lost && s'.torn == s.torn
    requires forall u :: !InlineAt(s', u)
    requires s'.accepted == s.accepted
    requires s'.returned == s.returned[t := Returned(s.returned, t) + [s.senders[t].m]]
    ensures OrderOk(s')
  {
    forall u: Tid ensures OrderAt(s', u) { assert OrderAt(s, u); }
  }

  lemma InlineDoneKeeps(s: State, t: Tid)
    requires Inv(s)
    ensures Inv(Next(s, InlineDone(t)))
  {
    var s' := Next(s, InlineDone(t));
    if InlineAt(s, t) && Left(s, t) == [] {
      InlineEndsToken(s, s', t);
      InlineReturns(s, s', t);
    }
  }

  lemma InlineJamKeeps(s: State, t: Tid)
    requires Inv(s)
    ensures Inv(Next(s, InlineJam(t)))
  {
    hide BE32, Only, Frames, EncodeAll, QueueOk;
    var s' := Next(s, InlineJam(t));
    if InlineAt(s, t) && Left(s, t) != [] {
      InlineEndsToken(s, s', t);
      assert WireOk(s') by {
        assert s'.core.queue[1..] == s.core.queue;
        Regroup(s.wire, Left(s, t), 0, QueueWire(s.core.queue), []);
      }
      InlineReturns(s, s', t);
      JamFits(s.core, Left(s, t));
    }
  }

  lemma JamFits(c: Core, rest: seq<byte>)
    requires QueueOk(c) && c.writing && |rest| <= DEFAULT_MAX_FRAME_LENGTH + 4
    ensures QueueOk(InlineFinished(c, Jammed(rest)).0)
  {
    hide Wire, QueueWire, Encode, BE32;
    var c' := InlineFinished(c, Jammed(rest)).0;
    assert c'.queue[1..] == c.queue;
    assert forall i :: 1 <= i < |c'.queue| ==> c'.queue[i] == c.queue[i - 1];
  }

  lemma InlineFailKeeps(s: State, t: Tid)
    requires Inv(s)
    ensures Inv(Next(s, InlineFail(t)))
  {
    var s' := Next(s, InlineFail(t));
    if InlineAt(s, t) && Left(s, t) != [] {
      InlineEndsToken(s, s', t);
      PrefixOfSum(s.wire, InHand(s), QueueWire(s.core.queue));
      forall u: Tid ensures OrderAt(s', u) { assert OrderAt(s, u) && Pending(s', u) == Pending(s, u); }
    }
  }

  lemma WriterScanKeeps(s: State)
    requires Inv(s)
    ensures Inv(Next(s, WriterScan))
  {
    hide BE32, Only, Frames, EncodeAll, QueueOk, Encode;
    var s' := Next(s, WriterScan);
    if s.writer.Scanning? {
      match Scanned(s.core).1
      case Exit => Bystander(s, s');
      case Park => Bystander(s, s');
      case Pop(f) =>
        assert forall u :: InlineAt(s', u) <==> InlineAt(s, u);
        assert TokenOk(s');
        assert WireOk(s') by {
          InHandFree(s);
          assert InHand(s') == Wire(f);
          Regroup(s.wire, Wire(f), 0, QueueWire(s'.core.queue), []);
        }
        PopFits(s.core);
        OrderSame(s, s');
    }
  }

  lemma PopFits(c: Core)
    requires QueueOk(c) && Scanned(c).1.Pop?
    ensures QueueOk(Scanned(c).0)
  {
    hide Wire, QueueWire, Encode, BE32;
    var c' := Scanned(c).0;
    assert forall i :: 0 <= i < |c'.queue| ==> c'.queue[i] == c.queue[i + 1];
  }

  lemma WriterWriteKeeps(s: State, n: nat)
    requires Inv(s)
    ensures Inv(Next(s, WriterWrite(n)))
  {
    hide BE32, Only, Frames, EncodeAll, QueueOk, Encode, QueueWire;
    var s' := Next(s, WriterWrite(n));
    if DrainingIn(s) && n <= |WriterLeft(s)| {
      assert forall u :: InlineAt(s', u) <==> InlineAt(s, u);
      assert TokenOk(s');
      assert WireOk(s') by {
        assert WriterLeft(s') == WriterLeft(s)[n..];
        Regroup(s.wire, WriterLeft(s), n, QueueWire(s.core.queue), []);
      }
      OrderSame(s, s');
    }
  }

  lemma WriterEndKeeps(s: State, a: Action)
    requires Inv(s) && (a.WriterDone? || a.WriterFail?)
    ensures Inv(Next(s, a))
  {
    hide BE32, Frames, EncodeAll, Encode, QueueWire, QueueLen;
    var s' := Next(s, a);
    if s' != s {
      assert forall u :: InlineAt(s', u) <==> InlineAt(s, u);
      assert TokenOk(s');
      assert WireOk(s') by {
        InHandFree(s');
        if a.WriterFail? { PrefixOfSum(s.wire, InHand(s), QueueWire(s.core.queue)); }
      }
      assert forall u :: !InlineAt(s, u);
      OrderSame(s, s');
    }
  }

  lemma HandleKeeps(s: State, a: Action)
    requires Inv(s) && (a.CloneHandle? || a.DropHandle? || a.WriterWake?)
    ensures Inv(Next(s, a))
  {
    hide QueueOk, WireOk, OrderOk, TokenOk;
    Bystander(s, Next(s, a));
  }

  lemma NextKeeps(s: State, a: Action)
    requires Inv(s)
    ensures Inv(Next(s, a))
  {
    match a
    case SendFrame(t, msg) =>
      if !(t in s.senders || s.core.producers == 0 || !Fits(msg)) { AttemptKeeps(s, t, msg); }
    case Retry(t) => if t in s.senders && s.senders[t].Waiting? { AttemptKeeps(s, t, s.senders[t].m); }
    case Timeout(t) => TimeoutKeeps(s, t);
    case InlineWrite(t, n) => InlineWriteKeeps(s, t, n);
    case InlineDone(t) => InlineDoneKeeps(s, t);
    case InlineJam(t) => InlineJamKeeps(s, t);
    case InlineFail(t) => InlineFailKeeps(s, t);
    case WriterScan => WriterScanKeeps(s);
    case WriterWrite(n) => WriterWriteKeeps(s, n);
    case WriterWake => HandleKeeps(s, a);
    case WriterDone => WriterEndKeeps(s, a);
    case WriterFail(_) => WriterEndKeeps(s, a);
    case CloneHandle => HandleKeeps(s, a);
    case DropHandle => HandleKeeps(s, a);
  }

  /** Every state any run reaches satisfies the whole invariant. */
  lemma {:induction false} EveryRun(acts: seq<Action>)
    ensures Inv(Exec(acts))
  {
    if acts == [] {
      StartKeeps();
    } else {
      EveryRun(acts[..|acts| - 1]);
      NextKeeps(Exec(acts[..|acts| - 1]), acts[|acts| - 1]);
    }
  }
}
