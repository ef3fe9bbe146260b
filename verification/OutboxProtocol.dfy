// The outbox as a step system: any number of producer threads, the writer thread, a
// socket that takes bytes at its own pace, and every interleaving of them. `Exec` runs
// an arbitrary list of actions; an action that is not enabled changes nothing.

module OutboxProtocol {
  import opened Wrappers
  import opened Bytes
  import opened Framing
  import opened OutboxState

  type Tid = nat

  /** What a thread inside `send_frame` is doing, the lock let go. */
  datatype Sender = Inline(m: Admitted, written: nat) | Waiting(m: Admitted)

  /** The writer thread: about to look at the state, parked on its signal, or writing. */
  datatype Writer = Scanning | Parked | Draining(f: OutFrame, written: nat) | Exited

  datatype Entry = Entry(tid: Tid, m: Admitted)

  datatype State = State(
    core: Core,
    senders: map<Tid, Sender>,
    writer: Writer,
    wire: seq<byte>,            // what the socket has taken
    accepted: seq<Entry>,       // frames in acceptance order: token taken, or pushed to the back
    returned: map<Tid, seq<Admitted>>,  // per thread, the sends that returned Ok, in order
    torn: Option<Entry>,        // the inline frame whose write failed, if any
    lost: bool)                 // a write failed

  datatype Action =
    | SendFrame(t: Tid, msg: Message)
    | Retry(t: Tid)                    // woken, or a spurious or timed-out wait that looks again
    | Timeout(t: Tid)
    | InlineWrite(t: Tid, n: nat)      // the socket takes n bytes
    | InlineDone(t: Tid)
    | InlineJam(t: Tid)
    | InlineFail(t: Tid)
    | WriterScan
    | WriterWake                       // spurious
    | WriterWrite(n: nat)
    | WriterDone
    | WriterFail(reason: Reason)
    | CloneHandle
    | DropHandle

  const START := State(INITIAL, map[], Scanning, [], [], map[], None, false)

  /** A notification reaches the writer thread only while it is parked. */
  function Notified(w: Writer, notify: bool): Writer
  {
    if notify && w.Parked? then Scanning else w
  }

  function Returned(r: map<Tid, seq<Admitted>>, t: Tid): seq<Admitted>
  {
    if t in r then r[t] else []
  }

  /** Thread `t` is inside the lock with message `m`. */
  function Attempt(s: State, t: Tid, m: Admitted): State
  {
    var (core, verdict) := Sending(s.core, m);
    match verdict
    case BrokenPipe(_) => s.(core := core, senders := s.senders - {t})
    case TakeToken =>
      s.(core := core, senders := s.senders[t := Inline(m, 0)], accepted := s.accepted + [Entry(t, m)])
    case Queued =>
      s.(core := core, senders := s.senders - {t}, accepted := s.accepted + [Entry(t, m)],
         returned := s.returned[t := Returned(s.returned, t) + [m]], writer := Notified(s.writer, true))
    case MustWait => s.(core := core, senders := s.senders[t := Waiting(m)])
  }

  function Next(s: State, a: Action): State
  {
    match a
    case SendFrame(t, msg) =>
      // A handle is borrowed for the whole call.
      if t in s.senders || s.core.producers == 0 || !Fits(msg) then s else Attempt(s, t, msg)
    case Retry(t) =>
      if t in s.senders && s.senders[t].Waiting? then Attempt(s, t, s.senders[t].m) else s
    case Timeout(t) =>
      if t in s.senders && s.senders[t].Waiting? then
        var (core, gaveUp) := GivenUp(s.core, s.senders[t].m);
        if gaveUp then s.(core := core, senders := s.senders - {t}, writer := Notified(s.writer, true))
        else Attempt(s, t, s.senders[t].m)
      else s
    case InlineWrite(t, n) =>
      if InlineAt(s, t) && n <= |Left(s, t)| then
        s.(wire := s.wire + Left(s, t)[..n],
           senders := s.senders[t := Inline(s.senders[t].m, s.senders[t].written + n)])
      else s
    case InlineDone(t) =>
      if InlineAt(s, t) && Left(s, t) == [] then
        var (core, notify) := InlineFinished(s.core, Sent);
        s.(core := core, senders := s.senders - {t}, writer := Notified(s.writer, notify),
           returned := s.returned[t := Returned(s.returned, t) + [s.senders[t].m]])
      else s
    case InlineJam(t) =>
      if InlineAt(s, t) && Left(s, t) != [] then
        var (core, notify) := InlineFinished(s.core, Jammed(Left(s, t)));
        s.(core := core, senders := s.senders - {t}, writer := Notified(s.writer, notify),
           returned := s.returned[t := Returned(s.returned, t) + [s.senders[t].m]])
      else s
    case InlineFail(t) =>
      if InlineAt(s, t) && Left(s, t) != [] then
        var (core, notify) := InlineFinished(s.core, Failed);
        s.(core := core, senders := s.senders - {t}, writer := Notified(s.writer, notify),
           torn := Some(Entry(t, s.senders[t].m)), lost := true)
      else s
    case WriterScan =>
      if s.writer.Scanning? then
        var (core, verdict) := Scanned(s.core);
        match verdict
        case Exit => s.(core := core, writer := Exited)
        case Pop(f) => s.(core := core, writer := Draining(f, 0))
        case Park => s.(core := core, writer := Parked)
      else s
    case WriterWake => s.(writer := Notified(s.writer, true))
    case WriterWrite(n) =>
      if DrainingIn(s) && n <= |WriterLeft(s)| then
        s.(wire := s.wire + WriterLeft(s)[..n], writer := Draining(s.writer.f, s.writer.written + n))
      else s
    case WriterDone =>
      if DrainingIn(s) && WriterLeft(s) == [] then
        s.(core := WriterFinished(s.core, None), writer := Scanning)
      else s
    case WriterFail(reason) =>
      if DrainingIn(s) && WriterLeft(s) != [] then
        s.(core := WriterFinished(s.core, Some(reason)), writer := Exited, lost := true)
      else s
    case CloneHandle =>
      if s.core.producers > 0 then s.(core := s.core.(producers := s.core.producers + 1)) else s
    case DropHandle =>
      // The last handle cannot go while a send borrows it.
      if s.core.producers > 1 || (s.core.producers == 1 && s.senders == map[]) then
        var core := s.core.(producers := s.core.producers - 1);
        s.(core := core, writer := Notified(s.writer, core.producers == 0))
      else s
  }

  predicate InlineAt(s: State, t: Tid)
  {
    t in s.senders && s.senders[t].Inline? && s.senders[t].written <= Size(s.senders[t].m)
  }

  /** The bytes of thread `t`'s frame the socket has not taken yet. */
  function Left(s: State, t: Tid): seq<byte>
    requires InlineAt(s, t)
  {
    Encode(AsFrame(s.senders[t].m))[s.senders[t].written..]
  }

  predicate DrainingIn(s: State)
  {
    s.writer.Draining? && s.writer.written <= |Wire(s.writer.f)|
  }

  function WriterLeft(s: State): seq<byte>
    requires DrainingIn(s)
  {
    Wire(s.writer.f)[s.writer.written..]
  }

  function Exec(acts: seq<Action>): State
  {
    if acts == [] then START else Next(Exec(acts[..|acts| - 1]), acts[|acts| - 1])
  }

  // ── The invariant ───────────────────────────────────────────────────────

  function Frames(es: seq<Entry>): (fs: seq<Sendable>)
    ensures |fs| == |es| && forall i :: 0 <= i < |es| ==> fs[i] == AsFrame(es[i].m)
  {
    if es == [] then [] else [AsFrame(es[0].m)] + Frames(es[1..])
  }

  function QueueWire(q: seq<OutFrame>): seq<byte>
  {
    if q == [] then [] else Wire(q[0]) + QueueWire(q[1..])
  }

  function QueueLen(q: seq<OutFrame>): nat
  {
    if q == [] then 0 else Len(q[0]) + QueueLen(q[1..])
  }

  /** What the token holder still has to write; nothing when the token is free. */
  ghost function InHand(s: State): seq<byte>
  {
    if DrainingIn(s) then WriterLeft(s)
    else if exists t :: InlineAt(s, t) then
      var t :| InlineAt(s, t);
      Left(s, t)
    else []
  }

  /** Exactly one party holds the token when it is taken, none when it is free. */
  ghost predicate TokenOk(s: State)
  {
    && (s.core.writing <==> s.writer.Draining? || exists t :: InlineAt(s, t))
    && (forall t, u :: InlineAt(s, t) && InlineAt(s, u) ==> t == u)
    && (forall t :: InlineAt(s, t) ==> !s.writer.Draining?)
    && (forall t :: t in s.senders && s.senders[t].Inline? ==> InlineAt(s, t))
    && (s.writer.Draining? ==> DrainingIn(s))
  }

  /** No torn, reordered or interleaved frame, and nothing is missing until a write fails. */
  ghost predicate WireOk(s: State)
  {
    if s.lost then s.core.dead.Some? && !s.core.writing && s.wire <= EncodeAll(Frames(s.accepted))
    else s.wire + InHand(s) + QueueWire(s.core.queue) == EncodeAll(Frames(s.accepted))
  }

  function Larger(a: nat, b: nat): nat { if a < b then b else a }

  /** The most the whole frames in the queue can add up to. */
  const WHOLE_BOUND: nat := Larger(OUTBOX_CAP_BYTES, DEFAULT_MAX_FRAME_LENGTH - 1)

  /** A remainder is alone, in front, while the token is free, and shorter than a frame. */
  ghost predicate QueueOk(c: Core)
  {
    && c.bytes == QueueLen(c.queue)
    && (forall i :: 1 <= i < |c.queue| ==> c.queue[i].Whole?)
    && if c.queue != [] && c.queue[0].Remainder? then
         !c.writing && Len(c.queue[0]) <= DEFAULT_MAX_FRAME_LENGTH + 4 && QueueLen(c.queue[1..]) <= WHOLE_BOUND
       else QueueLen(c.queue) <= WHOLE_BOUND
  }

  /** No lost wakeup: the writer is parked only when it has nothing it could do. */
  ghost predicate WakeOk(s: State)
  {
    && (s.writer.Parked? ==>
          s.core.dead.None? && (s.core.writing || (s.core.queue == [] && s.core.producers > 0)))
    && (s.writer.Exited? && s.core.dead.None? ==>
          s.core.queue == [] && s.core.producers == 0 && !s.core.writing)
    && (s.senders != map[] ==> s.core.producers > 0)
  }

  function Only(es: seq<Entry>, t: Tid): seq<Admitted>
  {
    if es == [] then []
    else Only(es[..|es| - 1], t) + if es[|es| - 1].tid == t then [es[|es| - 1].m] else []
  }

  /** The accepted frame of a thread no send has returned Ok for: being written, or torn. */
  function Pending(s: State, t: Tid): seq<Admitted>
  {
    if InlineAt(s, t) then [s.senders[t].m]
    else if s.torn.Some? && s.torn.value.tid == t then [s.torn.value.m]
    else []
  }

  /** A thread's accepted frames are its sends that returned Ok, in call order, then the pending one. */
  ghost predicate OrderAt(s: State, t: Tid)
  {
    Only(s.accepted, t) == Returned(s.returned, t) + Pending(s, t)
  }

  ghost predicate OrderOk(s: State)
  {
    && (s.torn.Some? ==> s.lost)
    && forall t: Tid :: OrderAt(s, t)
  }

  ghost predicate Inv(s: State)
  {
    TokenOk(s) && WireOk(s) && QueueOk(s.core) && WakeOk(s) && OrderOk(s)
  }
}
