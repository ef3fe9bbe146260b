// The outbound queue of one connection: the state behind the mutex and the critical
// sections that change it. Each section is a function on the state (`Core`), which the
// protocol in OutboxProtocol.dfy steps through, and a method of the class `Outbox`
// proved equal to it.

module OutboxState {
  import opened Wrappers
  import opened Bytes
  import opened Framing

  const OUTBOX_CAP_BYTES: nat := 16 * 1024 * 1024

  /** A frame as a producer hands it over: the payload in two pieces. */
  datatype Message = Message(kind: byte, head: seq<byte>, tail: seq<byte>)

  predicate Fits(m: Message)
  {
    |m.head| + |m.tail| + 1 <= DEFAULT_MAX_FRAME_LENGTH
  }

  /** A message that passed the synchronous ceiling check. */
  type Admitted = m: Message | Fits(m) witness Message(0, [], [])

  function AsFrame(m: Admitted): Sendable { Frame(m.kind, m.head + m.tail) }

  /** Bytes on the wire: the payload and its five envelope bytes. */
  function Size(m: Admitted): nat { |m.head| + |m.tail| + 5 }

  /** One queued unit: a whole frame, or the raw rest of a jammed one. */
  datatype OutFrame = Whole(m: Admitted) | Remainder(bytes: seq<byte>)

  /** The charge against the byte budget: envelopes of whole frames are not counted. */
  function Len(f: OutFrame): nat
  {
    match f
    case Whole(m) => |m.head| + |m.tail|
    case Remainder(bytes) => |bytes|
  }

  /** What the unit puts on the socket. */
  function Wire(f: OutFrame): seq<byte>
  {
    match f
    case Whole(m) => Encode(AsFrame(m))
    case Remainder(bytes) => bytes
  }

  datatype Reason = WriteFailed | WriterStalled | ProducerStalled

  datatype Core = Core(queue: seq<OutFrame>, bytes: int, dead: Option<Reason>, producers: nat, writing: bool)

  const INITIAL := Core([], 0, None, 1, false)

  // ── Critical sections as functions ──────────────────────────────────────

  /** The first reason wins. */
  function Killed(c: Core, reason: Reason): Core
  {
    if c.dead.None? then c.(dead := Some(reason)) else c
  }

  datatype SendVerdict = BrokenPipe(reason: Reason) | TakeToken | Queued | MustWait

  predicate NoRoom(c: Core, m: Admitted)
  {
    c.queue != [] && c.bytes + Len(Whole(m)) > OUTBOX_CAP_BYTES
  }

  /** One turn of the send loop up to the point where it lets go of the lock. */
  function Sending(c: Core, m: Admitted): (Core, SendVerdict)
  {
    if c.dead.Some? then (c, BrokenPipe(c.dead.value))
    else if c.queue == [] && !c.writing then (c.(writing := true), TakeToken)
    else if NoRoom(c, m) then (c, MustWait)
    else (c.(queue := c.queue + [Whole(m)], bytes := c.bytes + Len(Whole(m))), Queued)
  }

  /** A wait for space that timed out: gives up, unless the state says to look again. */
  function GivenUp(c: Core, m: Admitted): (Core, bool)
  {
    if c.dead.None? && NoRoom(c, m) then (Killed(c, ProducerStalled), true) else (c, false)
  }

  datatype InlineOutcome = Sent | Jammed(rest: seq<byte>) | Failed

  /** The inline writer returns the token; the flag says whether it signals the writer thread. */
  function InlineFinished(c: Core, o: InlineOutcome): (Core, bool)
  {
    var free := c.(writing := false);
    match o
    case Sent => (free, free.queue != [])
    case Jammed(rest) => (free.(queue := [Remainder(rest)] + free.queue, bytes := free.bytes + |rest|), true)
    case Failed => (Killed(free, WriteFailed), true)
  }

  datatype ScanVerdict = Exit | Pop(f: OutFrame) | Park

  /** One look of the writer thread at the state. */
  function Scanned(c: Core): (Core, ScanVerdict)
  {
    if c.dead.Some? then (c, Exit)
    else if !c.writing && c.queue != [] then
      var f := c.queue[0];
      (c.(queue := c.queue[1..], bytes := c.bytes - Len(f), writing := true), Pop(f))
    else if !c.writing && c.producers == 0 then (c, Exit)
    else (c, Park)
  }

  function WriterFinished(c: Core, failed: Option<Reason>): Core
  {
    var free := c.(writing := false);
    if failed.Some? then Killed(free, failed.value) else free
  }

  // ── The class ───────────────────────────────────────────────────────────

  class Outbox {
    var queue: seq<OutFrame>
    var bytes: int
    var dead: Option<Reason>
    var producers: nat
    var writing: bool

    ghost function View(): Core
      reads this
    {
      Core(queue, bytes, dead, producers, writing)
    }

    constructor ()
      ensures View() == INITIAL
    {
      queue, bytes, dead, producers, writing := [], 0, None, 1, false;
    }

    method Kill(reason: Reason)
      modifies this`dead
      ensures View() == Killed(old(View()), reason)
    {
      if dead.None? { dead := Some(reason); }
    }

    /**
     * The send loop's locked part for a message just handed in: `none` is the
     * synchronous `InvalidInput`, reported before the state is looked at.
     */
    method SendFrame(m: Message) returns (v: Option<SendVerdict>)
      modifies this
      ensures v == None <==> |m.head| + |m.tail| + 1 > 64 * 1024 * 1024
      ensures !Fits(m) ==> View() == old(View())
      ensures Fits(m) ==> (View(), v) == (Sending(old(View()), m).0, Some(Sending(old(View()), m).1))
    {
      if |m.head| + |m.tail| >= 0x1_0000_0000 { return None; }
      var payloadLen := |m.head| + |m.tail| + 1;
      if payloadLen > DEFAULT_MAX_FRAME_LENGTH { return None; }
      var verdict := Attempt(m);
      v := Some(verdict);
    }

    method Attempt(m: Admitted) returns (v: SendVerdict)
      modifies this
      ensures (View(), v) == Sending(old(View()), m)
    {
      var len := |m.head| + |m.tail|;
      if dead.Some? { return BrokenPipe(dead.value); }
      if queue == [] && !writing {
        writing := true;
        return TakeToken;
      }
      if queue == [] || bytes + len <= OUTBOX_CAP_BYTES {
        queue := queue + [Whole(m)];
        bytes := bytes + len;
        return Queued;
      }
      v := MustWait;
    }

    method WaitTimedOut(m: Admitted) returns (gaveUp: bool)
      modifies this`dead
      ensures (View(), gaveUp) == GivenUp(old(View()), m)
    {
      var len := |m.head| + |m.tail|;
      if dead.None? && queue != [] && bytes + len > OUTBOX_CAP_BYTES {
        Kill(ProducerStalled);
        return true;
      }
      gaveUp := false;
    }

    method FinishInline(o: InlineOutcome) returns (notify: bool)
      modifies this
      ensures (View(), notify) == InlineFinished(old(View()), o)
    {
      writing := false;
      match o
      case Sent => notify := queue != [];
      case Jammed(rest) =>
        bytes := bytes + |rest|;
        queue := [Remainder(rest)] + queue;
        notify := true;
      case Failed =>
        Kill(WriteFailed);
        notify := true;
    }

    method Scan() returns (v: ScanVerdict)
      modifies this
      ensures (View(), v) == Scanned(old(View()))
    {
      if dead.Some? { return Exit; }
      if !writing {
        if queue != [] {
          var f := queue[0];
          queue := queue[1..];
          bytes := bytes - Len(f);
          writing := true;
          return Pop(f);
        }
        if producers == 0 { return Exit; }
      }
      v := Park;
    }

    method FinishWriter(failed: Option<Reason>)
      modifies this
      ensures View() == WriterFinished(old(View()), failed)
    {
      writing := false;
      if failed.Some? { Kill(failed.value); }
    }

    method CloneHandle()
      modifies this`producers
      ensures View() == old(View()).(producers := old(producers) + 1)
    {
      producers := producers + 1;
    }

    /** The flag says whether the writer thread is signalled. */
    method DropHandle() returns (notify: bool)
      requires producers > 0
      modifies this`producers
      ensures View() == old(View()).(producers := old(producers) - 1)
      ensures notify <==> producers == 0
    {
      producers := producers - 1;
      notify := producers == 0;
    }
  }
}
