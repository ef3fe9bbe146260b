// What a send is told and what a kill leaves, in terms of the frames queued.

module OutboxVerdicts {
  import opened Wrappers
  import opened Bytes
  import opened Framing
  import opened OutboxState
  import opened OutboxProtocol
  import opened OutboxSafety
  import opened OutboxTheorems

  /** Payload bytes of the whole frames queued, and raw bytes of a remainder. */
  function Backlog(q: seq<OutFrame>): nat
  {
    if q == [] then 0
    else
      Backlog(q[1..]) + match q[0] case Whole(m) => |m.head| + |m.tail| case Remainder(bytes) => |bytes|
  }

  /** An empty queue takes any frame; otherwise the budget of 16 MB must hold it. */
  predicate Room(q: seq<OutFrame>, m: Message)
  {
    q == [] || Backlog(q) + |m.head| + |m.tail| <= 16 * 1024 * 1024
  }

  lemma {:induction false} BacklogIsLength(q: seq<OutFrame>)
    ensures QueueLen(q) == Backlog(q)
  {
    if q != [] { BacklogIsLength(q[1..]); }
  }

  /** In every reachable state the byte count is the backlog, and no room is no room in it. */
  lemma CountIsBacklog(acts: seq<Action>, m: Admitted)
    ensures var c := Exec(acts).core; c.bytes == Backlog(c.queue) && (NoRoom(c, m) <==> !Room(c.queue, m))
  {
    EveryRun(acts);
    BacklogIsLength(Exec(acts).core.queue);
  }

  /**
   * What a send is told in any reachable state: broken with the reason of the death; alive,
   * the token exactly if nothing is queued and nobody writes; else queued at the back
   * exactly if there is room, and told to wait exactly if there is none.
   */
  lemma SendExactly(acts: seq<Action>, m: Admitted)
    ensures var c := Exec(acts).core;
            var (c', verdict) := Sending(c, m);
            if c.dead.Some? then c' == c && verdict == BrokenPipe(c.dead.value)
            else if c.queue == [] && !c.writing then c' == c.(writing := true) && verdict == TakeToken
            else if Room(c.queue, m) then
              c' == c.(queue := c.queue + [Whole(m)], bytes := Backlog(c.queue) + |m.head| + |m.tail|) && verdict == Queued
            else c' == c && verdict == MustWait
  {
    CountIsBacklog(acts, m);
  }

  /** A wait that times out kills the connection exactly if it is alive and there is still no room. */
  lemma GiveUpExactly(acts: seq<Action>, m: Admitted)
    ensures var c := Exec(acts).core;
            GivenUp(c, m) == if c.dead == None && !Room(c.queue, m) then (c.(dead := Some(ProducerStalled)), true) else (c, false)
  {
    CountIsBacklog(acts, m);
  }

  // ── Death ───────────────────────────────────────────────────────────────

  /** What kills an alive connection, and with which reason. */
  function Kills(s: State, a: Action): Option<Reason>
  {
    match a
    case Timeout(t) =>
      if t in s.senders && s.senders[t].Waiting? && NoRoom(s.core, s.senders[t].m) then Some(ProducerStalled) else None
    case InlineFail(t) => if InlineAt(s, t) && Left(s, t) != [] then Some(WriteFailed) else None
    case WriterFail(reason) => if DrainingIn(s) && WriterLeft(s) != [] then Some(reason) else None
    case _ => None
  }

  /** The first reason is kept; an alive connection dies of exactly the action's own. */
  lemma ReasonStep(s: State, a: Action)
    ensures Next(s, a).core.dead == if s.core.dead.Some? then s.core.dead else Kills(s, a)
  {
    hide BE32, Encode, Fits;
  }

  /** Once dead, a connection stays dead of that reason and accepts no frame. */
  lemma {:induction false} DeadForGood(s: State, more: seq<Action>)
    requires s.core.dead.Some?
    ensures RunFrom(s, more).core.dead == s.core.dead && RunFrom(s, more).accepted == s.accepted
    decreases |more|
  {
    hide Next;
    if more != [] {
      ReasonStep(s, more[0]);
      DeadAcceptsNothing(s, more[0]);
      DeadForGood(Next(s, more[0]), more[1..]);
    }
  }

  lemma DeadAcceptsNothing(s: State, a: Action)
    requires s.core.dead.Some?
    ensures Next(s, a).accepted == s.accepted
  {
    hide BE32, Encode, Fits;
  }

  /** The writer ends when the connection is dead, or drained with the last handle gone, and only then. */
  lemma WriterExits(acts: seq<Action>)
    ensures var s := Exec(acts);
            s.writer.Scanning? ==>
              (Next(s, WriterScan).writer.Exited? <==>
                 s.core.dead.Some? || (!s.core.writing && s.core.queue == [] && s.core.producers == 0))
  {
    hide Exec;
  }
}
