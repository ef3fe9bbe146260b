// What the two readers of a split body stream can rely on.

module TeeTheorems {
  import opened Wrappers
  import opened Tee
  import opened TeeRuns

  /**
   * What a branch's reader has been given, and what is queued for it, is every chunk the
   * source ever gave, in order, unless the branch was cancelled: then it is the beginning.
   */
  lemma NothingLost(steps: seq<Step>, i: Branch)
    ensures var s := From(NEW, steps);
            && (!s.tee.At(i).cancelled ==> Chunks(s.Of(i).log) + s.tee.At(i).queue == s.pulled)
            && Chunks(s.Of(i).log) <= s.pulled
  {
    EveryRun(steps);
  }

  /**
   * A branch sees the end, or the failure the source had, only after every chunk; nothing
   * but ends and failures follows.
   */
  lemma EndComesLast(steps: seq<Step>, i: Branch, k: nat)
    requires k < |From(NEW, steps).Of(i).log| && !From(NEW, steps).Of(i).log[k].Data?
    ensures var (s, log) := (From(NEW, steps), From(NEW, steps).Of(i).log);
            && (forall j :: k <= j < |log| ==> !log[j].Data?)
            && s.tee.At(i).queue == []
            && (!s.tee.At(i).cancelled ==> Chunks(log) == s.pulled && !s.tee.inFlight)
            && (log[k].Failed? ==> s.ending == Some(Fails(log[k].error)))
            && (log[k].End? ==> s.ending == Some(Ends) || s.tee.At(i).cancelled)
  {
    hide Chunks, From;
    EveryRun(steps);
  }

  /**
   * What one pull of a branch does: the source's next chunk that the branch has not given, if
   * there is one; else what the source ended with; else, on a cancelled branch, the end; and
   * only without all of these it waits, on the one source pull that is then under way.
   */
  lemma PullExactly(steps: seq<Step>, i: Branch)
    ensures var s := From(NEW, steps);
            var (s', given) := (Apply(s, Pull(i)), |Chunks(s.Of(i).log)|);
            if !s.tee.At(i).cancelled && given < |s.pulled| then
              s'.Of(i).log == s.Of(i).log + [Data(s.pulled[given])] && s'.started == s.started
            else if s.ending.Some? then
              s'.Of(i).log == s.Of(i).log + [Last(s.ending.value)] && s'.started == s.started
            else if s.tee.At(i).cancelled then
              s'.Of(i).log == s.Of(i).log + [End] && s'.started == s.started
            else
              s'.Of(i) == s.Of(i).(blocked := s.Of(i).blocked + 1) && s'.started == s.settled + 1
  {
    hide Chunks, From;
    EveryRun(steps);
    var s := From(NEW, steps);
    var log, queue := s.Of(i).log, s.tee.At(i).queue;
    if !s.tee.At(i).cancelled {
      assert |s.pulled| == |Chunks(log)| + |queue|;
      if queue != [] { assert (Chunks(log) + queue)[|Chunks(log)|] == queue[0]; }
    }
  }

  /** What a branch answers once the source has ended. */
  function Last(e: Settled): Answer
  {
    if e.Fails? then Failed(e.error) else End
  }

  /** At most one source pull is outstanding, and no pull waits without one. */
  lemma OnePullAtATime(steps: seq<Step>, i: Branch)
    ensures var s := From(NEW, steps);
            && s.settled <= s.started <= s.settled + 1
            && (s.Of(i).blocked > 0 ==> s.started == s.settled + 1)
  {
    EveryRun(steps);
  }

  /** The source is cancelled by exactly the cancellations that find both branches cancelled and no end seen. */
  lemma SourceCancelled(steps: seq<Step>, i: Branch)
    ensures var s := From(NEW, steps);
            && (s.sourceCancels > 0 ==> s.tee.first.cancelled && s.tee.second.cancelled)
            && (Apply(s, CancelIt(i)).sourceCancels == s.sourceCancels + 1 <==>
                  s.tee.At(if i.First? then Second else First).cancelled && !s.tee.done)
  {
    hide From;
    EveryRun(steps);
  }

  /** Once the source has ended or failed it is never pulled again, and nothing more arrives. */
  lemma {:induction false} OverForGood(s: System, steps: seq<Step>)
    requires Inv(s) && Over(s.tee)
    ensures Inv(From(s, steps)) && Over(From(s, steps).tee)
    ensures From(s, steps).started == s.started && From(s, steps).pulled == s.pulled
    decreases |steps|
  {
    hide BranchOk;
    if steps != [] {
      OverForGood(s, steps[..|steps| - 1]);
      EveryStep(From(s, steps[..|steps| - 1]), steps[|steps| - 1]);
    }
  }

  function Pulls(s: System, i: Branch, n: nat): System
    decreases n
  {
    if n == 0 then s else Pulls(Apply(s, Pull(i)), i, n - 1)
  }

  function AllData(q: seq<Chunk>): seq<Answer>
  {
    if q == [] then [] else [Data(q[0])] + AllData(q[1..])
  }

  /** After the end a branch gives one queued chunk per pull, then what the source ended with. */
  lemma {:induction false} Drains(s: System, i: Branch)
    requires Inv(s) && s.ending.Some?
    ensures Pulls(s, i, |s.tee.At(i).queue| + 1).Of(i).log
         == s.Of(i).log + AllData(s.tee.At(i).queue) + [Last(s.ending.value)]
    decreases |s.tee.At(i).queue|
  {
    hide BranchOk;
    var q, next := s.tee.At(i).queue, Apply(s, Pull(i));
    if q == [] {
      assert Pulls(s, i, 1) == Pulls(next, i, 0);
    } else {
      EveryStep(s, Pull(i));
      Drains(next, i);
      assert next.Of(i).log == s.Of(i).log + [Data(q[0])];
    }
  }
}
