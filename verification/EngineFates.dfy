// What becomes of one prefix: how it comes to be served, the two ways it stops, and what a
// run is told of it from then on.

module EngineFates {
  import opened Wrappers
  import opened Policy
  import opened Registry
  import opened RegistryLedger
  import opened RegistryKeeps
  import opened RegistryTheorems
  import opened EngineState
  import opened EngineRuns

  /** How many prefixes a log prepares. */
  function Prepares(steps: seq<Step>): nat
  {
    if steps == [] then 0 else Prepares(steps[..|steps| - 1]) + if steps[|steps| - 1].Prepare? then 1 else 0
  }

  /** The store after a step. */
  function StoreAfter(s: System, step: Step): map<PrefixId, Prefix>
  {
    var store := s.core.prefixes;
    match step
    case Prepare => store[s.core.nextPrefixId := Ready]
    case DisposePrefix(p) => store - {p}
    case Fail(run) => if Running(s, run) && LookedUp(s.core, run.p) == Serve then store[run.p := Broken] else store
    case _ => store
  }

  lemma StoreChanges(k: Config, s: System, step: Step)
    ensures Apply(k, s, step).core.prefixes == StoreAfter(s, step)
    ensures Apply(k, s, step).core.nextPrefixId == s.core.nextPrefixId + (if step.Prepare? then 1 else 0)
  {
    if step.Prepare? || step.DisposePrefix? || step.Fail? {
      hide Running, Dispose;
    } else {
      RegistryAlone(k, s, step);
    }
  }

  lemma RegistryAlone(k: Config, s: System, step: Step)
    requires !step.Prepare? && !step.DisposePrefix? && !step.Fail?
    ensures Apply(k, s, step).core == s.core.(warm := Apply(k, s, step).core.warm)
  {
    hide Acquire, Release, ReserveOneoff, ReleaseOneoff, Alive;
    match step
    case AcquireFor(_, _) =>
    case FinishRun(_, _, _, _) =>
    case FinishCold(_, _) =>
    case FinishOneoff(_) =>
    case Reserve(_, _) =>
    case _ =>
  }

  /** Prefixes are numbered in the order of their preparation. */
  lemma {:induction false} Numbered(k: Config, steps: seq<Step>)
    ensures From(k, BOOT, steps).core.nextPrefixId == Prepares(steps)
  {
    hide Apply;
    if steps != [] {
      Numbered(k, steps[..|steps| - 1]);
      StoreChanges(k, From(k, BOOT, steps[..|steps| - 1]), steps[|steps| - 1]);
    }
  }

  /** Attachments and cold runs are of prefixes that were prepared. */
  ghost predicate Known(s: System)
  {
    && (forall key | key in s.out :: key.0 < s.core.nextPrefixId)
    && (forall p | p in s.cold :: p < s.core.nextPrefixId)
  }

  lemma KnownStep(k: Config, s: System, step: Step)
    requires Inv(s) && Known(s)
    ensures Known(Apply(k, s, step))
  {
    hide Apply, Balanced, IdleIsReady;
    NeverFewer(k, s, step);
    RunsCome(k, s, step);
  }

  /** A run comes from the lookup of its prefix. */
  lemma RunsCome(k: Config, s: System, step: Step)
    ensures var s' := Apply(k, s, step);
            && (forall key | key in s'.out :: key in s.out || (step.AcquireFor? && key.0 == step.q.prefix && key.0 in s.looked))
            && (forall p | p in s'.cold :: p in s.cold || (step.AcquireFor? && p == step.q.prefix && p in s.looked))
  {
    hide Acquire, Release, ReserveOneoff, ReleaseOneoff, Dispose, Running, Failed, Disposed, Prepared, Finished, Alive, Taken;
    if step.AcquireFor? { TakenKnown(s.out, step.q.prefix, Acquire(k, s.core.warm, step.q, step.o).1); }
  }

  lemma TakenKnown(out: Ledger, p: PrefixId, got: Acquired)
    ensures forall key | key in Taken(out, p, got) :: key in out || key.0 == p
  {
  }

  lemma {:induction false} EveryRunKnown(k: Config, steps: seq<Step>)
    ensures Known(From(k, BOOT, steps)) && Inv(From(k, BOOT, steps))
  {
    hide Inv, Apply;
    if steps == [] {
      BootInv();
    } else {
      var front := steps[..|steps| - 1];
      EveryRunKnown(k, front);
      KnownStep(k, From(k, BOOT, front), steps[|steps| - 1]);
      EveryStep(k, From(k, BOOT, front), steps[|steps| - 1]);
    }
  }

  /** The step ends a prefix: it is disposed of, or a run of it fails. */
  predicate Ends(s: System, step: Step, p: PrefixId)
  {
    match step
    case DisposePrefix(q) => q == p
    case Fail(run) => run.p == p && Running(s, run)
    case _ => false
  }

  /**
   * A prefix is served from its preparation until it is disposed of or one of its runs fails
   * for good, and by no other step does what a run is told of it change, but for a disposal
   * of a broken one.
   */
  lemma OneStep(k: Config, s: System, step: Step, p: PrefixId)
    ensures var now, then' := LookedUp(s.core, p), LookedUp(Apply(k, s, step).core, p);
            && (step == DisposePrefix(p) ==> then' == IsDisposed)
            && (step == Prepare && p == s.core.nextPrefixId ==> then' == Serve)
            && (now == Serve && step.Fail? && Ends(s, step, p) ==> then' == IsBroken)
            && (step != DisposePrefix(p) && !(step == Prepare && p == s.core.nextPrefixId) && (now == Serve ==> !Ends(s, step, p)) ==> then' == now)
  {
    hide Apply, Running;
    StoreChanges(k, s, step);
  }

  /**
   * After a run's failure its prefix is never served again: every later run is told it is
   * broken, or once it has been disposed of that it is gone.
   */
  lemma {:induction false} BrokenForGood(k: Config, steps: seq<Step>, run: Run, more: seq<Step>)
    requires Running(From(k, BOOT, steps), run) && LookedUp(From(k, BOOT, steps).core, run.p) == Serve
    ensures var s := From(k, Apply(k, From(k, BOOT, steps), Fail(run)), more);
            && LookedUp(s.core, run.p) == (if DisposePrefix(run.p) in more then IsDisposed else IsBroken)
            && Apply(k, s, Lookup(run.p)) == s && run.p < s.core.nextPrefixId
    decreases |more|
  {
    hide Inv, Apply, Running;
    var s := From(k, BOOT, steps);
    EveryRunKnown(k, steps);
    RunIsKnown(s, run);
    OneStep(k, s, Fail(run), run.p) by { assert Ends(s, Fail(run), run.p); }
    var failed := Apply(k, s, Fail(run));
    NeverFewer(k, s, Fail(run));
    if more != [] {
      var front, last := more[..|more| - 1], more[|more| - 1];
      BrokenForGood(k, steps, run, front);
      OneStep(k, From(k, failed, front), last, run.p);
      NeverFewer(k, From(k, failed, front), last);
      assert more == front + [last];
    }
    RefusedStays(k, From(k, failed, more), run.p);
  }

  lemma RunIsKnown(s: System, run: Run)
    requires Known(s) && Running(s, run)
    ensures run.p < s.core.nextPrefixId
  {
    match run
    case OnInstance(p, id) => assert (p, id).0 == p;
    case OnCold(p) =>
  }

  lemma NeverFewer(k: Config, s: System, step: Step)
    ensures s.core.nextPrefixId <= Apply(k, s, step).core.nextPrefixId
  {
    hide Apply;
    StoreChanges(k, s, step);
  }

  /** A run that is refused leaves everything as it is. */
  lemma RefusedStays(k: Config, s: System, p: PrefixId)
    requires LookedUp(s.core, p) != Serve
    ensures Apply(k, s, Lookup(p)) == s
  {
  }

  /** A fresh prefix was never heard of before: no run, instance or store entry bears its id. */
  lemma PreparedFresh(k: Config, steps: seq<Step>)
    ensures var s, p := From(k, BOOT, steps), Prepares(steps);
            var s' := Apply(k, s, Prepare);
            && LookedUp(s.core, p) == IsDisposed && LookedUp(s'.core, p) == Serve
            && p !in s.looked && p !in s.cold && (forall id :: (p, id) !in s.out) && InstancesOf(s.core.warm.prefixes, p) == []
            && forall q :: q != p ==> LookedUp(s'.core, q) == LookedUp(s.core, q)
  {
    hide From, Balanced;
    var s, p := From(k, BOOT, steps), Prepares(steps);
    Numbered(k, steps);
    EveryRunKnown(k, steps);
    forall id ensures (p, id) !in s.out { assert (p, id).0 == p; }
    Drained(s, p);
  }

  /** The last run on a healthy instance of a served prefix leaves it idle; of any other prefix, gone. */
  lemma FinishPools(k: Config, s: System, p: PrefixId, id: nat, f: Finish, o: Outside)
    requires Inv(s) && (p, id) in s.out && Sampled(k, o.usage).None?
    ensures var s' := Apply(k, s, FinishRun(p, id, f, o));
            forall x | x in InstancesOf(s.core.warm.prefixes, p) ::
              x.id == id && x.inFlight == 1 && !f.tainted && !x.dead && x.caps.soft == 0 ==>
                if LookedUp(s.core, p) == Serve then
                  exists y :: y in InstancesOf(s'.core.warm.prefixes, p) && y.id == id && IsIdle(y) && y.lastUsed == o.now && y.heapUsed == f.heap
                else forall y :: y in InstancesOf(s'.core.warm.prefixes, p) ==> y.id != id
  {
    hide PositionOf, CountersOk, RemoveAt, IdleIsReady, Settle, InstanceOk;
    var r, g := s.core.warm, f.(alive := Alive(s.core, p));
    var s' := Apply(k, s, FinishRun(p, id, f, o));
    ReleaseFate(r, s.out, s.oneoffs + |s.cold|, p, id, g, o.now);
    var was, now := r.prefixes[p].instances, InstancesOf(Settle(r, p, id, g, o.now).prefixes, p);
    var at := PositionOf(was, id).value;
    assert s'.core.warm.prefixes == Settle(r, p, id, g, o.now).prefixes;
    assert EntryOk(p, was, s.out, r.nextId);
    forall x | x in was && x.id == id && x.inFlight == 1 && !f.tainted && !x.dead && x.caps.soft == 0
      ensures if Alive(s.core, p) then exists y :: y in now && y.id == id && IsIdle(y) && y.lastUsed == o.now && y.heapUsed == f.heap
              else forall y :: y in now ==> y.id != id
    {
      var j :| 0 <= j < |was| && was[j] == x;
      assert j == at;
      if Alive(s.core, p) { assert now[at] in now; } else { OthersStay(was, at); }
    }
  }

  lemma OthersStay(s: seq<Instance>, k: nat)
    requires DistinctIds(s) && k < |s|
    ensures forall y :: y in RemoveAt(s, k) ==> y.id != s[k].id
  {
  }
}
