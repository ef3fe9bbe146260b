// One streamed body split into two branches: the closure's state, its turns, and what both
// readers see under any interleaving of pulls, cancellations and source completions.

module Tee {
  import opened Wrappers
  import opened Bytes

  type Chunk = seq<byte>

  datatype Branch = First | Second

  /** What one pull of a branch resolves to; a rejection carries a non-null value. */
  datatype Answer = Data(chunk: Chunk) | End | Failed(error: int)

  /** How one pull of the source settles. */
  datatype Settled = Arrives(chunk: Chunk) | Ends | Fails(error: int)

  datatype Side = Side(queue: seq<Chunk>, cancelled: bool)

  datatype State = State(first: Side, second: Side, done: bool, failure: Option<int>, inFlight: bool)
  {
    function At(i: Branch): Side
    {
      if i.First? then first else second
    }

    function With(i: Branch, s: Side): State
    {
      if i.First? then this.(first := s) else this.(second := s)
    }
  }

  const SPLIT := State(Side([], false), Side([], false), false, None, false)

  /** One turn of a branch's pull loop: its answer, or nothing while it waits on the shared pull. */
  function Turn(t: State, i: Branch): (State, Option<Answer>)
  {
    var s := t.At(i);
    if s.queue != [] then (t.With(i, s.(queue := s.queue[1..])), Some(Data(s.queue[0])))
    else if t.failure.Some? then (t, Some(Failed(t.failure.value)))
    else if t.done || s.cancelled then (t, Some(End))
    else (t.(inFlight := true), None)
  }

  function Received(s: Side, c: Chunk): Side
  {
    if s.cancelled then s else s.(queue := s.queue + [c])
  }

  function Settle(t: State, e: Settled): State
  {
    match e
    case Arrives(c) => t.(first := Received(t.first, c), second := Received(t.second, c), inFlight := false)
    case Ends => t.(done := true, inFlight := false)
    case Fails(error) => t.(failure := Some(error), inFlight := false)
  }

  /** The branch's own cancellation, and whether it cancels the source too. */
  function Cancel(t: State, i: Branch): (State, bool)
  {
    var t' := t.With(i, Side([], true));
    (t', t'.first.cancelled && t'.second.cancelled && !t'.done)
  }

  /** The closure `teeBodyStream` makes, its variables updated in place. */
  class Closure {
    var queues: seq<seq<Chunk>>
    var cancelledFlags: seq<bool>
    var done: bool
    var failure: Option<int>
    var inFlight: bool

    predicate Valid()
      reads this
    {
      |queues| == 2 && |cancelledFlags| == 2
    }

    function Value(): State
      reads this
      requires Valid()
    {
      State(Side(queues[0], cancelledFlags[0]), Side(queues[1], cancelledFlags[1]), done, failure, inFlight)
    }

    constructor ()
      ensures Valid() && Value() == SPLIT
    {
      queues, cancelledFlags := [[], []], [false, false];
      done, failure, inFlight := false, None, false;
    }

    /** Starts a source pull unless one is outstanding. */
    method PullShared() returns (started: bool)
      requires Valid()
      modifies this
      ensures Valid() && Value() == old(Value()).(inFlight := true) && started == !old(inFlight)
    {
      started := !inFlight;
      if started { inFlight := true; }
    }

    method PullTurn(i: Branch) returns (answer: Option<Answer>, started: bool)
      requires Valid()
      modifies this
      ensures Valid() && (Value(), answer) == Turn(old(Value()), i)
      ensures started <==> !old(inFlight) && inFlight
    {
      var k := if i.First? then 0 else 1;
      started := false;
      if |queues[k]| > 0 {
        answer := Some(Data(queues[k][0]));
        queues := queues[k := queues[k][1..]];
        return;
      }
      if failure.Some? { return Some(Failed(failure.value)), false; }
      if done || cancelledFlags[k] { return Some(End), false; }
      started := PullShared();
      answer := None;
    }

    method SourceSettled(e: Settled)
      requires Valid()
      modifies this
      ensures Valid() && Value() == Settle(old(Value()), e)
    {
      match e {
        case Arrives(chunk) =>
          if !cancelledFlags[0] { queues := queues[0 := queues[0] + [chunk]]; }
          if !cancelledFlags[1] { queues := queues[1 := queues[1] + [chunk]]; }
        case Ends => done := true;
        case Fails(error) => failure := Some(error);
      }
      inFlight := false;
    }

    method CancelBranch(i: Branch) returns (cancelsSource: bool)
      requires Valid()
      modifies this
      ensures Valid() && (Value(), cancelsSource) == Cancel(old(Value()), i)
    {
      var k := if i.First? then 0 else 1;
      cancelledFlags := cancelledFlags[k := true];
      queues := queues[k := []];
      cancelsSource := cancelledFlags[0] && cancelledFlags[1] && !done;
    }
  }
}

module TeeRuns {
  import opened Wrappers
  import opened Tee

  /** One reader: pulls waiting on the outstanding source pull, pulls it woke, and all answers so far. */
  datatype Reader = Reader(blocked: nat, woken: nat, log: seq<Answer>)

  datatype System = System(
    tee: State, one: Reader, two: Reader, pulled: seq<Chunk>, ending: Option<Settled>, started: nat, settled: nat, sourceCancels: nat)
  {
    function Of(i: Branch): Reader
    {
      if i.First? then one else two
    }

    function With(i: Branch, r: Reader): System
    {
      if i.First? then this.(one := r) else this.(two := r)
    }
  }

  /** A reader pulls, a woken pull goes round its loop again, the source settles, a branch is cancelled. */
  datatype Step = Pull(i: Branch) | Resume(i: Branch) | Source(e: Settled) | CancelIt(i: Branch)

  const NEW := System(SPLIT, Reader(0, 0, []), Reader(0, 0, []), [], None, 0, 0, 0)

  function One(b: bool): nat { if b then 1 else 0 }

  function TurnOf(s: System, i: Branch): System
  {
    var (t, answer) := Turn(s.tee, i);
    var r := s.Of(i);
    s.With(i, if answer.Some? then r.(log := r.log + [answer.value]) else r.(blocked := r.blocked + 1))
     .(tee := t, started := s.started + One(t.inFlight && !s.tee.inFlight))
  }

  function Woken(r: Reader): Reader
  {
    r.(blocked := 0, woken := r.woken + r.blocked)
  }

  function Apply(s: System, step: Step): System
  {
    match step
    case Pull(i) => TurnOf(s, i)
    case Resume(i) =>
      if s.Of(i).woken == 0 then s else TurnOf(s.With(i, s.Of(i).(woken := s.Of(i).woken - 1)), i)
    case Source(e) =>
      if !s.tee.inFlight then s
      else s.(tee := Settle(s.tee, e), one := Woken(s.one), two := Woken(s.two), settled := s.settled + 1,
              pulled := if e.Arrives? then s.pulled + [e.chunk] else s.pulled,
              ending := if e.Arrives? then s.ending else Some(e))
    case CancelIt(i) =>
      var (t, source) := Cancel(s.tee, i);
      s.(tee := t, sourceCancels := s.sourceCancels + One(source))
  }

  function From(s: System, steps: seq<Step>): System
    decreases |steps|
  {
    if steps == [] then s else Apply(From(s, steps[..|steps| - 1]), steps[|steps| - 1])
  }

  /** The chunks among a reader's answers. */
  function Chunks(log: seq<Answer>): seq<Chunk>
  {
    if log == [] then []
    else Chunks(log[..|log| - 1]) + if log[|log| - 1].Data? then [log[|log| - 1].chunk] else []
  }

  lemma ChunksSnoc(log: seq<Answer>, a: Answer)
    ensures Chunks(log + [a]) == Chunks(log) + if a.Data? then [a.chunk] else []
  {
    assert (log + [a])[..|log|] == log;
  }

  /** The source gave its last answer. */
  predicate Over(t: State) { t.done || t.failure.Some? }

  ghost predicate BranchOk(t: State, s: Side, r: Reader, pulled: seq<Chunk>)
  {
    && (if s.cancelled then s.queue == [] && Chunks(r.log) <= pulled else Chunks(r.log) + s.queue == pulled)
    && (forall j, k :: 0 <= j < k < |r.log| && r.log[k].Data? ==> r.log[j].Data?)
    && (forall k :: 0 <= k < |r.log| && !r.log[k].Data? ==> s.queue == [] && (Over(t) || s.cancelled))
    && (forall k :: 0 <= k < |r.log| && r.log[k].Failed? ==> t.failure == Some(r.log[k].error))
    && (forall k :: 0 <= k < |r.log| && r.log[k].End? ==> t.done || s.cancelled)
    && (r.blocked > 0 ==> t.inFlight)
  }

  /** The closure keeps what the source ended with. */
  predicate EndingOk(t: State, ending: Option<Settled>)
  {
    match ending
    case None => !t.done && t.failure.None?
    case Some(Arrives(_)) => false
    case Some(Ends) => t.done && t.failure.None?
    case Some(Fails(e)) => !t.done && t.failure == Some(e)
  }

  ghost predicate Inv(s: System)
  {
    && BranchOk(s.tee, s.tee.first, s.one, s.pulled) && BranchOk(s.tee, s.tee.second, s.two, s.pulled)
    && s.started == s.settled + One(s.tee.inFlight)
    && (Over(s.tee) ==> !s.tee.inFlight) && EndingOk(s.tee, s.ending)
    && (s.sourceCancels > 0 ==> s.tee.first.cancelled && s.tee.second.cancelled)
  }

  lemma TurnOk(t: State, i: Branch, r: Reader, pulled: seq<Chunk>)
    requires BranchOk(t, t.At(i), r, pulled)
    ensures var (t', a) := Turn(t, i);
            BranchOk(t', t'.At(i), if a.Some? then r.(log := r.log + [a.value]) else r.(blocked := r.blocked + 1), pulled)
  {
    hide Chunks;
    var s := t.At(i);
    if s.queue != [] {
      ChunksSnoc(r.log, Data(s.queue[0]));
      assert Chunks(r.log) + s.queue == (Chunks(r.log) + [s.queue[0]]) + s.queue[1..];
    } else if Turn(t, i).1.Some? {
      LastAnswerOk(t, i, r, pulled);
    }
  }

  lemma LastAnswerOk(t: State, i: Branch, r: Reader, pulled: seq<Chunk>)
    requires BranchOk(t, t.At(i), r, pulled) && t.At(i).queue == [] && Turn(t, i).1.Some?
    ensures BranchOk(t, t.At(i), r.(log := r.log + [Turn(t, i).1.value]), pulled)
  {
    hide Chunks;
    ChunksSnoc(r.log, Turn(t, i).1.value);
  }

  lemma TurnKeeps(s: System, i: Branch)
    requires Inv(s)
    ensures Inv(TurnOf(s, i))
  {
    hide Chunks;
    TurnOk(s.tee, i, s.Of(i), s.pulled);
  }

  lemma ReceivedOk(t: State, t': State, s: Side, r: Reader, pulled: seq<Chunk>, c: Chunk)
    requires BranchOk(t, s, r, pulled) && !Over(t) && t' == t.(first := t'.first, second := t'.second, inFlight := false)
    ensures BranchOk(t', Received(s, c), Woken(r), pulled + [c])
  {
    hide Chunks;
  }

  lemma SettleKeeps(s: System, e: Settled)
    requires Inv(s)
    ensures Inv(Apply(s, Source(e)))
  {
    hide Chunks;
    if s.tee.inFlight && e.Arrives? {
      var t := Settle(s.tee, e);
      ReceivedOk(s.tee, t, s.tee.first, s.one, s.pulled, e.chunk);
      ReceivedOk(s.tee, t, s.tee.second, s.two, s.pulled, e.chunk);
    }
  }

  lemma EveryStep(s: System, step: Step)
    requires Inv(s)
    ensures Inv(Apply(s, step))
  {
    hide Chunks, TurnOf;
    match step
    case Pull(i) => TurnKeeps(s, i);
    case Resume(i) =>
      if s.Of(i).woken > 0 { TurnKeeps(s.With(i, s.Of(i).(woken := s.Of(i).woken - 1)), i); }
    case Source(e) => SettleKeeps(s, e);
    case CancelIt(i) =>
  }

  /** From the split on, under any interleaving. */
  lemma {:induction false} EveryRun(steps: seq<Step>)
    ensures Inv(From(NEW, steps))
    decreases |steps|
  {
    hide Inv, Apply;
    if steps == [] {
      NewOk();
    } else {
      EveryRun(steps[..|steps| - 1]);
      EveryStep(From(NEW, steps[..|steps| - 1]), steps[|steps| - 1]);
    }
  }

  lemma NewOk()
    ensures Inv(NEW)
  {
  }
}
