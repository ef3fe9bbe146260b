// A prefix's statistics as averages of its own history, and what they decide: whether demand
// opens a further instance, and the size it is admitted on.

module RegistryDemand {
  import opened Wrappers
  import opened Policy
  import opened PolicyTheorems
  import opened Registry
  import opened RegistryLedger
  import opened RegistryKeeps
  import opened RegistryRuns
  import opened RegistryTheorems
  import opened RegistryAcquire

  /** What an entry's statistics hear of: arrivals with their cap, and untainted finishes. */
  datatype Event = Arrived(now: int, cap: nat) | Finished(cpuMs: real, heap: nat)

  function Heard(s: Sys, a: Action, p: PrefixId): seq<Event>
  {
    match a
    case DoAcquire(q, o) => if q.prefix == p && Covers(o.order, s.reg.prefixes) then [Arrived(o.now, q.caps.hard)] else []
    case DoRelease(q, id, f, o) =>
      if q == p && (q, id) in s.out && Covers(o.order, s.reg.prefixes) && !f.tainted then [Finished(f.cpuMs, f.heap)] else []
    case _ => []
  }

  /** The events of the prefix since its entry was made; none without an entry. */
  function History(c: Config, acts: seq<Action>, p: PrefixId): seq<Event>
  {
    if acts == [] || p !in Exec(c, acts).reg.prefixes then []
    else
      var front := acts[..|acts| - 1];
      History(c, front, p) + Heard(Exec(c, front), acts[|acts| - 1], p)
  }

  function LastArrival(h: seq<Event>): Option<int>
  {
    if h == [] then None
    else if h[|h| - 1].Arrived? then Some(h[|h| - 1].now)
    else LastArrival(h[..|h| - 1])
  }

  /** Milliseconds between one arrival and the next; a clock that went back counts as none. */
  function Gaps(h: seq<Event>): seq<real>
  {
    if h == [] then []
    else
      var front, e := h[..|h| - 1], h[|h| - 1];
      Gaps(front)
      + if e.Arrived? && LastArrival(front).Some? then
          [(if e.now - LastArrival(front).value > 0 then e.now - LastArrival(front).value else 0) as real / 1_000_000.0]
        else []
  }

  function Cpus(h: seq<Event>): seq<real>
  {
    if h == [] then [] else Cpus(h[..|h| - 1]) + if h[|h| - 1].Finished? then [h[|h| - 1].cpuMs] else []
  }

  /** Heaps measured, after the first cap asked for, which stands in for them. */
  function Heaps(h: seq<Event>): seq<real>
  {
    if h == [] then []
    else
      var before, e := Heaps(h[..|h| - 1]), h[|h| - 1];
      before
      + match e
        case Arrived(_, cap) => if before == [] && cap > 0 then [cap as real] else []
        case Finished(_, heap) => if heap > 0 then [heap as real] else []
  }

  function Mean(samples: seq<real>): real { Averaged(UNSEEDED, samples).value }

  function DemandOf(h: seq<Event>): Demand
  {
    Demand(LastArrival(h), Averaged(UNSEEDED, Gaps(h)), Averaged(UNSEEDED, Cpus(h)), Averaged(UNSEEDED, Heaps(h)))
  }

  lemma {:induction false} SeededBySamples(samples: seq<real>)
    ensures Averaged(UNSEEDED, samples).seeded <==> samples != []
  {
  }

  lemma AveragedSnoc(samples: seq<real>, x: real)
    ensures Averaged(UNSEEDED, samples + [x]) == Averaged(UNSEEDED, samples).Update(x)
  {
    assert (samples + [x])[..|samples|] == samples;
  }

  /** An event changes the statistics as the code does at its call. */
  lemma DemandSnoc(h: seq<Event>, e: Event)
    ensures DemandOf(h + [e]) == match e
                                 case Arrived(now, cap) => DemandOf(h).NoteArrival(now).SeedHeap(cap)
                                 case Finished(cpu, heap) => DemandOf(h).NoteFinish(cpu, heap)
  {
    hide Averaged;
    var all := h + [e];
    assert all[..|all| - 1] == h && all[|all| - 1] == e;
    SeededBySamples(Heaps(h));
    match e
    case Arrived(now, cap) =>
      var last := LastArrival(h);
      if last.Some? {
        var gap := (if now - last.value > 0 then now - last.value else 0) as real / 1_000_000.0;
        assert Gaps(all) == Gaps(h) + [gap];
        AveragedSnoc(Gaps(h), gap);
      } else {
        assert Gaps(all) == Gaps(h);
      }
      AveragedSnoc(Heaps(h), cap as real);
      assert Heaps(all) == if Heaps(h) == [] && cap > 0 then Heaps(h) + [cap as real] else Heaps(h);
      assert Cpus(all) == Cpus(h);
    case Finished(cpu, heap) =>
      AveragedSnoc(Cpus(h), cpu);
      AveragedSnoc(Heaps(h), heap as real);
      assert Cpus(all) == Cpus(h) + [cpu];
      assert Heaps(all) == if heap > 0 then Heaps(h) + [heap as real] else Heaps(h);
      assert Gaps(all) == Gaps(h);
      assert LastArrival(all) == LastArrival(h);
  }

  // ── Statistics are of the history ───────────────────────────────────────

  lemma {:induction false} ShedDemand(r: Reg, n: nat, now: int, order: seq<PrefixId>, p: PrefixId)
    ensures p in Shed(r, n, now, order).0.prefixes <==> p in r.prefixes
    ensures p in r.prefixes ==> Shed(r, n, now, order).0.prefixes[p].demand == r.prefixes[p].demand
    decreases n
  {
    hide Victim, WithoutId;
    if n > 0 && Victim(r, now, order).Some? { ShedDemand(Drop(r, Victim(r, now, order).value), n - 1, now, order, p); }
  }

  lemma PassDemand(r: Reg, budget: nat, o: Outside, p: PrefixId)
    ensures p in Pressure(r, budget, o).prefixes <==> p in r.prefixes
    ensures p in r.prefixes ==> Pressure(r, budget, o).prefixes[p].demand == r.prefixes[p].demand
  {
    hide Shed, WatermarkAction;
    if o.usage.Some? {
      var v := VerdictFor(r, o.usage.value, budget);
      ShedDemand(r.(shedding := v.shedding, lastPass := if v.shedding then r.lastPass else None), v.evict, o.now, o.order, p);
    }
  }

  lemma TakeDemand(c: Config, r: Reg, q: Request, warm: bool, o: Outside, p: PrefixId)
    ensures var r' := Take(c, r, q, warm, o).0;
            && (p in r'.prefixes <==> p in r.prefixes || p == q.prefix)
            && (p == q.prefix ==> r'.prefixes[p].demand == EntryOf(r, p).demand.NoteArrival(o.now).SeedHeap(q.caps.hard))
            && (p != q.prefix && p in r.prefixes ==> r'.prefixes[p] == r.prefixes[p])
  {
    hide WarmestIdle, Joinable, JoinChoice, Admits;
  }

  lemma SettleDemand(r: Reg, q: PrefixId, id: nat, f: Finish, now: int, p: PrefixId)
    ensures var r' := Settle(r, q, id, f, now);
            && (p in r'.prefixes ==> p in r.prefixes)
            && (p in r'.prefixes ==>
                  r'.prefixes[p].demand ==
                    if p == q && !f.tainted then r.prefixes[p].demand.NoteFinish(f.cpuMs, f.heap) else r.prefixes[p].demand)
  {
    hide PositionOf, RemoveAt, Left;
  }

  lemma DisposeDemand(r: Reg, q: PrefixId, p: PrefixId)
    ensures var r' := Dispose(r, q);
            (p in r'.prefixes ==> p in r.prefixes && r'.prefixes[p].demand == r.prefixes[p].demand)
  {
    hide BusyDead;
  }

  /** One step, for the entry of `p`. */
  lemma StepDemand(c: Config, s: Sys, a: Action, p: PrefixId, h: seq<Event>)
    requires if p in s.reg.prefixes then s.reg.prefixes[p].demand == DemandOf(h) else h == []
    requires a.DoRelease? && (a.p, a.id) in s.out ==> a.p in s.reg.prefixes
    ensures var s' := Next(c, s, a); p in s'.reg.prefixes ==> s'.reg.prefixes[p].demand == DemandOf(h + Heard(s, a, p))
  {
    hide Pressure, Take, Settle, Dispose, DemandOf, Admits, Covers;
    assert h + [] == h;
    assert DemandOf([]) == NO_DEMAND by { NothingHeard(); }
    match a
    case DoAcquire(q, o) =>
      var o' := RegistryTheorems.Heard(c, o);
      PassDemand(s.reg, c.budget, o', p);
      var passed := Pressure(s.reg, c.budget, o');
      TakeDemand(c, passed, q, !passed.shedding, o', p);
      DemandSnoc(h, Arrived(o.now, q.caps.hard));
    case DoRelease(q, id, f, o) =>
      SettleDemand(s.reg, q, id, f, o.now, p);
      PassDemand(Settle(s.reg, q, id, f, o.now), c.budget, RegistryTheorems.Heard(c, o), p);
      DemandSnoc(h, Finished(f.cpuMs, f.heap));
    case DoReserve(cap, o) => PassDemand(s.reg, c.budget, RegistryTheorems.Heard(c, o), p);
    case DoReleaseOneoff(o) =>
      PassDemand(s.reg.(total := SaturatingSub(s.reg.total, 1), oneoff := SaturatingSub(s.reg.oneoff, 1)), c.budget,
                 RegistryTheorems.Heard(c, o), p);
    case DoDispose(q) => DisposeDemand(s.reg, q, p);
  }

  lemma NothingHeard()
    ensures DemandOf([]) == NO_DEMAND
  {
  }

  /** After any run an entry's statistics are the averages of its own history. */
  lemma {:induction false} DemandIsHistory(c: Config, acts: seq<Action>, p: PrefixId)
    ensures var m := Exec(c, acts).reg.prefixes;
            if p in m then m[p].demand == DemandOf(History(c, acts, p)) else History(c, acts, p) == []
  {
    hide Next, DemandOf, Heard, Balanced;
    if acts != [] {
      var front := acts[..|acts| - 1];
      DemandIsHistory(c, front, p);
      EveryRunBalanced(c, front);
      AttachedHere(Exec(c, front));
      StepDemand(c, Exec(c, front), acts[|acts| - 1], p, History(c, front, p));
    }
  }

  lemma AttachedHere(s: Sys)
    requires Balanced(s.reg, s.out, s.ones)
    ensures forall p, id :: (p, id) in s.out ==> p in s.reg.prefixes
  {
    forall p, id | (p, id) in s.out ensures p in s.reg.prefixes { assert (p, id).0 == p; }
  }

  // ── What they decide ────────────────────────────────────────────────────

  /** The heap a further instance is admitted with: the mean, or without any the run's own cap. */
  function MeanHeap(h: seq<Event>, cap: nat): nat
  {
    if Heaps(h) == [] then cap else if Mean(Heaps(h)) < 0.0 then 0 else Mean(Heaps(h)).Floor
  }

  /** No CPU time is known yet, or the CPU time that arrives per time is over 80% of the live instances'. */
  predicate Wanted(h: seq<Event>, live: nat)
  {
    Cpus(h) == [] || (Gaps(h) != [] && Mean(Gaps(h)) > 0.0 && Mean(Cpus(h)) / Mean(Gaps(h)) > 0.8 * live as real)
  }

  lemma DemandDecides(h: seq<Event>, live: nat, cores: nat, cap: nat)
    ensures var d := DemandOf(h);
            && (live > 0 ==>
                  (ShouldSpawn(SpawnFacts(d.ArrivalsPerSec(), d.cpuMs.Get(), live, cores)) <==> live < cores && Wanted(h, live)))
            && d.SpawnCap(cap) == MeanHeap(h, cap)
  {
    hide Averaged, Gaps, Cpus, Heaps;
    SeededBySamples(Gaps(h));
    SeededBySamples(Cpus(h));
    SeededBySamples(Heaps(h));
    if Cpus(h) != [] {
      var g, c := Mean(Gaps(h)), Mean(Cpus(h));
      if Gaps(h) != [] && g > 0.0 { PerSecond(g, c); }
    }
  }

  lemma PerSecond(g: real, c: real)
    requires g > 0.0
    ensures 1000.0 / g * c / 1000.0 == c / g
  {
    var x := 1000.0 / g;
    assert x * g == 1000.0;
    assert x == 1000.0 * (1.0 / g);
    assert c / g == c * (1.0 / g);
  }

  ghost function LiveAt(s: seq<Instance>): set<nat>
  {
    set k: nat | k < |s| && !s[k].dead
  }

  /** Live instances, counted. */
  lemma {:induction false} LiveCounted(s: seq<Instance>)
    ensures CountLive(s) == |LiveAt(s)|
  {
    if s == [] {
      assert LiveAt(s) == {};
    } else {
      LiveCounted(s[..|s| - 1]);
      assert LiveAt(s) == LiveAt(s[..|s| - 1]) + if s[|s| - 1].dead then {} else {|s| - 1};
    }
  }

  lemma {:induction false} SomeLive(s: seq<Instance>, caps: HeapCaps)
    requires Joinable(s, caps) != []
    ensures CountLive(s) > 0
  {
    if !IsJoinable(s[|s| - 1], caps) { SomeLive(s[..|s| - 1], caps); }
  }

  /** An instance that could take the run is below 80% of its thread. */
  predicate SomeRoom(s: seq<Instance>, q: Request)
  {
    exists k :: 0 <= k < |s| && !s[k].dead && s[k].caps == q.caps && q.util(s[k].id) < 800
  }

  /**
   * After any run, with an instance that has room, none idle, the latch off, the ceiling not
   * reached and the mean heap admitted: an acquire opens another instance exactly if none of
   * the prefix's runs has finished yet, or its mean CPU time over its mean gap between
   * arrivals is more than 0.8 of the live instances.
   */
  lemma DemandOpensAnother(c: Config, acts: seq<Action>, q: Request, o: Outside)
    requires var passed := Passed(c, Exec(c, acts).reg, o);
             var s := InstancesOf(passed.prefixes, q.prefix);
             var h := History(c, acts, q.prefix) + [Arrived(o.now, q.caps.hard)];
             && SomeRoom(s, q) && (forall k :: 0 <= k < |s| && s[k].caps == q.caps && !s[k].dead ==> s[k].inFlight > 0)
             && !passed.shedding && CountLive(s) < c.cores && q.spawnOk
             && Admits(c, Sampled(c, o.usage), MeanHeap(h, q.caps.hard))
    ensures var (r, passed) := (Exec(c, acts).reg, Passed(c, Exec(c, acts).reg, o));
            var (r', a) := Acquire(c, r, q, o);
            var h := History(c, acts, q.prefix) + [Arrived(o.now, q.caps.hard)];
            a.Attached? && r'.nextId != passed.nextId <==> Wanted(h, CountLive(InstancesOf(passed.prefixes, q.prefix)))
  {
    hide Acquire, Pressure, Admits, Joinable, CountLive, ShouldSpawn, Wanted, MeanHeap, Exec, History, DemandOf;
    var r := Exec(c, acts).reg;
    var passed := Passed(c, r, o);
    var s := InstancesOf(passed.prefixes, q.prefix);
    var was := History(c, acts, q.prefix);
    var h := was + [Arrived(o.now, q.caps.hard)];
    DemandIsHistory(c, acts, q.prefix);
    PassDemand(r, c.budget, RegistryTheorems.Heard(c, o), q.prefix);
    DemandSnoc(was, Arrived(o.now, q.caps.hard));
    NothingHeard();
    assert Noted(passed, q, o.now) == DemandOf(h);
    RoomIsJoinable(s, q);
    SomeLive(s, q.caps);
    DemandDecides(h, CountLive(s), c.cores, q.caps.hard);
    AcquireAnswers(c, r, q, o);
  }

  lemma RoomIsJoinable(s: seq<Instance>, q: Request)
    requires SomeRoom(s, q) && forall k :: 0 <= k < |s| && s[k].caps == q.caps && !s[k].dead ==> s[k].inFlight > 0
    ensures Joinable(s, q.caps) != [] && !Reusable(s, q.caps) && !AllSaturated(s, q)
  {
    hide Joinable;
    var k :| 0 <= k < |s| && !s[k].dead && s[k].caps == q.caps && q.util(s[k].id) < 800;
    assert IsJoinable(s[k], q.caps) && !Saturated(s[k], q);
    assert k in Joinable(s, q.caps);
  }
}
