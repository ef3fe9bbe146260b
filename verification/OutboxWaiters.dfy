// Producers waiting for room: the signal they wait for, and why none of them sleeps on room.

module OutboxWaiters {
  import opened Wrappers
  import opened Bytes
  import opened Framing
  import opened OutboxState
  import opened OutboxProtocol
  import opened OutboxTheorems
  import opened OutboxVerdicts

  /** The protocol's state, and the waiting producers signalled since they went to sleep. */
  datatype Watched = Watched(s: State, signalled: set<Tid>)

  predicate Waits(s: State, t: Tid)
  {
    t in s.senders && s.senders[t].Waiting?
  }

  /** The action wakes every producer waiting for room: the writer's pop, and each kill. */
  predicate Signals(s: State, a: Action)
  {
    match a
    case WriterScan => s.writer.Scanning? && Scanned(s.core).1.Pop?
    case InlineFail(t) => InlineAt(s, t) && Left(s, t) != []
    case WriterFail(_) => DrainingIn(s) && WriterLeft(s) != []
    case Timeout(t) => Waits(s, t) && GivenUp(s.core, s.senders[t].m).1
    case _ => false
  }

  /** The waiting producer whose own turn this is: its signal is used up. */
  function Acting(a: Action): set<Tid>
  {
    match a case Retry(t) => {t} case Timeout(t) => {t} case _ => {}
  }

  function Watch(acts: seq<Action>): Watched
  {
    if acts == [] then Watched(START, {})
    else
      var before, a := Watch(acts[..|acts| - 1]), acts[|acts| - 1];
      var s := Next(before.s, a);
      Watched(s, set t | t in s.senders && Waits(s, t) && (Signals(before.s, a) || t in before.signalled - Acting(a)))
  }

  /** A producer waiting unsignalled would find no room, on a live connection. */
  ghost predicate SleepsOk(w: Watched)
  {
    forall t :: Waits(w.s, t) && t !in w.signalled ==> w.s.core.dead.None? && NoRoom(w.s.core, w.s.senders[t].m)
  }

  lemma NextSleepsOk(w: Watched, a: Action, signalled: set<Tid>)
    requires SleepsOk(w)
    requires forall t :: t in w.signalled && t !in Acting(a) && Waits(Next(w.s, a), t) ==> t in signalled
    requires Signals(w.s, a) ==> forall t :: Waits(Next(w.s, a), t) ==> t in signalled
    ensures SleepsOk(Watched(Next(w.s, a), signalled))
  {
    hide BE32, Encode, Fits;
    var s' := Next(w.s, a);
    forall t | Waits(s', t) && t !in signalled ensures s'.core.dead.None? && NoRoom(s'.core, s'.senders[t].m) {
      if t !in Acting(a) { assert t !in w.signalled; }
    }
  }

  lemma {:induction false} EveryRunSleepsOk(acts: seq<Action>)
    ensures Watch(acts).s == Exec(acts) && SleepsOk(Watch(acts))
  {
    hide Next, Signals;
    if acts != [] {
      var before, a := Watch(acts[..|acts| - 1]), acts[|acts| - 1];
      EveryRunSleepsOk(acts[..|acts| - 1]);
      NextSleepsOk(before, a, Watch(acts).signalled);
    }
  }

  /**
   * In every reachable state a producer that waits for room with no signal pending would
   * still find none, on a live connection, and somebody is up to make some: once there is
   * room, or the connection dies, every waiting producer has been signalled.
   */
  lemma NoProducerSleepsOnRoom(acts: seq<Action>, t: Tid)
    ensures var w := Watch(acts);
            Waits(w.s, t) && t !in w.signalled ==>
              && w.s == Exec(acts) && w.s.core.dead == None && !Room(w.s.core.queue, w.s.senders[t].m)
              && (w.s.writer.Scanning? || w.s.writer.Draining? || exists u :: InlineAt(w.s, u))
  {
    hide Next, Signals, Watch, Room, NoRoom;
    EveryRunSleepsOk(acts);
    var w := Watch(acts);
    if Waits(w.s, t) && t !in w.signalled {
      CountIsBacklog(acts, w.s.senders[t].m);
      SleeperMustWait(w.s.core, w.s.senders[t].m);
      WaitersHaveADrainer(acts, w.s.senders[t].m);
    }
  }

  lemma SleeperMustWait(c: Core, m: Admitted)
    requires c.dead == None && NoRoom(c, m)
    ensures Sending(c, m).1.MustWait?
  {
  }
}
