// What the warm registry promises: an exact shed pass, a latch that is a function of the
// sample history, at most one evicting pass while usage stays flat, and what an acquire
// may answer.

module RegistryTheorems {
  import opened Wrappers
  import opened Policy
  import opened PolicyTheorems
  import opened Registry
  import opened RegistryLedger
  import opened RegistryKeeps
  import opened RegistryRuns

  // ── One shed pass ───────────────────────────────────────────────────────

  function Surviving(s: seq<Instance>, gone: set<nat>): seq<Instance>
  {
    if s == [] then []
    else Surviving(s[..|s| - 1], gone) + if s[|s| - 1].id in gone then [] else [s[|s| - 1]]
  }

  function IdsOf(cs: seq<Candidate>): set<nat>
  {
    set c | c in cs :: c.id
  }

  lemma {:induction false} NoneGone(s: seq<Instance>, gone: set<nat>)
    requires forall k :: 0 <= k < |s| ==> s[k].id !in gone
    ensures Surviving(s, gone) == s
  {
    if s != [] { NoneGone(s[..|s| - 1], gone); }
  }

  lemma {:induction false} SurvivingAfter(s: seq<Instance>, id: nat, gone: set<nat>)
    ensures Surviving(WithoutId(s, id), gone) == Surviving(s, {id} + gone)
  {
    if s != [] {
      var front, last := s[..|s| - 1], s[|s| - 1];
      SurvivingAfter(front, id, gone);
      var rest := WithoutId(front, id);
      if last.id == id { assert WithoutId(s, id) == rest; } else { assert (rest + [last])[..|rest|] == rest; }
    }
  }

  lemma {:induction false} SurvivingSame(s: seq<Instance>, gone: set<nat>, id: nat)
    requires forall k :: 0 <= k < |s| ==> s[k].id != id
    ensures Surviving(s, {id} + gone) == Surviving(s, gone)
  {
    if s != [] { SurvivingSame(s[..|s| - 1], gone, id); }
  }

  lemma {:induction false} SurvivingFrom(s: seq<Instance>, gone: set<nat>)
    ensures forall x :: x in Surviving(s, gone) <==> x in s && x.id !in gone
  {
    if s != [] {
      SurvivingFrom(s[..|s| - 1], gone);
      assert s == s[..|s| - 1] + [s[|s| - 1]];
    }
  }

  /** While something is idle there is a victim. */
  lemma VictimThere(r: Reg, out: Ledger, ones: nat, now: int, order: seq<PrefixId>)
    requires Balanced(r, out, ones) && Covers(order, r.prefixes) && r.idleTotal > 0
    ensures Victim(r, now, order).Some?
  {
    hide Victim;
    if Victim(r, now, order).None? {
      NoVictimNoIdle(r, now, order);
      NothingIdle(r.prefixes);
    }
  }

  lemma NothingIdle(m: map<PrefixId, Entry>)
    requires forall p, k | p in m && 0 <= k < |m[p].instances| :: !IsIdle(m[p].instances[k])
    ensures |IdleOf(Residents(m))| == 0
  {
    assert IdleOf(Residents(m)) == {};
  }

  /** An instance of one prefix is in no other entry. */
  lemma IdElsewhere(r: Reg, out: Ledger, ones: nat, v: Candidate, k: nat, p: PrefixId)
    requires Balanced(r, out, ones) && Backs(r.prefixes, v, k) && p in r.prefixes && p != v.prefix
    ensures forall j :: 0 <= j < |r.prefixes[p].instances| ==> r.prefixes[p].instances[j].id != v.id
  {
  }

  /** A pass drops exactly the number asked for, whatever the prefixes they are in. */
  lemma {:induction false} ShedCount(r: Reg, out: Ledger, ones: nat, n: nat, now: int, order: seq<PrefixId>)
    requires Balanced(r, out, ones) && Covers(order, r.prefixes) && n <= r.idleTotal
    ensures |Shed(r, n, now, order).1| == n
    decreases n
  {
    hide Balanced, Drop, Victim;
    if n > 0 {
      VictimThere(r, out, ones, now, order);
      var v := Victim(r, now, order).value;
      var k := VictimBest(r, now, order);
      DropKeeps(r, out, ones, v, k);
      ShedCount(Drop(r, v), out, ones, n - 1, now, order);
    }
  }

  /** Every entry keeps its statistics and, in order, the instances that were not dropped. */
  ghost predicate OnlyDropped(m: map<PrefixId, Entry>, m': map<PrefixId, Entry>, dropped: seq<Candidate>)
  {
    && m'.Keys == m.Keys
    && forall p | p in m :: m'[p] == Entry(Surviving(m[p].instances, IdsOf(dropped)), m[p].demand)
  }

  lemma {:induction false} ShedDrops(r: Reg, out: Ledger, ones: nat, n: nat, now: int, order: seq<PrefixId>)
    requires Balanced(r, out, ones)
    ensures OnlyDropped(r.prefixes, Shed(r, n, now, order).0.prefixes, Shed(r, n, now, order).1)
    decreases n
  {
    hide Balanced, Drop, Victim, Surviving, WithoutId;
    var (r', dropped) := Shed(r, n, now, order);
    if n == 0 || Victim(r, now, order).None? {
      assert IdsOf([]) == {};
      forall p | p in r.prefixes ensures Surviving(r.prefixes[p].instances, IdsOf([])) == r.prefixes[p].instances {
        NoneGone(r.prefixes[p].instances, {});
      }
    } else {
      var v := Victim(r, now, order).value;
      var k := VictimBest(r, now, order);
      DropKeeps(r, out, ones, v, k);
      ShedDrops(Drop(r, v), out, ones, n - 1, now, order);
      var more := Shed(Drop(r, v), n - 1, now, order).1;
      assert IdsOf([v] + more) == {v.id} + IdsOf(more);
      forall p | p in r.prefixes
        ensures r'.prefixes[p] == Entry(Surviving(r.prefixes[p].instances, IdsOf(dropped)), r.prefixes[p].demand)
      {
        AfterDrop(r, out, ones, v, k, p, IdsOf(more));
      }
    }
  }

  lemma AfterDrop(r: Reg, out: Ledger, ones: nat, v: Candidate, k: nat, p: PrefixId, gone: set<nat>)
    requires Balanced(r, out, ones) && Backs(r.prefixes, v, k) && p in r.prefixes
    ensures p in Drop(r, v).prefixes && Drop(r, v).prefixes[p].demand == r.prefixes[p].demand
    ensures Surviving(Drop(r, v).prefixes[p].instances, gone) == Surviving(r.prefixes[p].instances, {v.id} + gone)
  {
    hide Surviving, WithoutId;
    if p == v.prefix {
      SurvivingAfter(r.prefixes[p].instances, v.id, gone);
    } else {
      IdElsewhere(r, out, ones, v, k, p);
      SurvivingSame(r.prefixes[p].instances, gone, v.id);
    }
  }

  /** Dropped instances were idle and live, and no idle survivor is a better victim than any of them. */
  ghost predicate BestFirst(m: map<PrefixId, Entry>, m': map<PrefixId, Entry>, dropped: seq<Candidate>, now: int)
  {
    && (forall c | c in dropped :: exists k :: Backs(m, c, k))
    && forall c, p, j | c in dropped && p in m' && 0 <= j < |m'[p].instances| && IsIdle(m'[p].instances[j]) ::
         !Beats(FactOf(m'[p].instances[j]), c.fact, now)
  }

  /** What backs a candidate after a drop backed it before. */
  lemma BackedBefore(r: Reg, out: Ledger, ones: nat, v: Candidate, k: nat, c: Candidate, j: nat)
    requires Balanced(r, out, ones) && Backs(r.prefixes, v, k) && Backs(Drop(r, v).prefixes, c, j)
    ensures exists i :: Backs(r.prefixes, c, i)
    ensures c.id != v.id
  {
    DropKeeps(r, out, ones, v, k);
    var s := r.prefixes[v.prefix].instances;
    if c.prefix == v.prefix {
      RemoveAtIndex(s, k, j);
      assert EntryOk(v.prefix, s, out, r.nextId);
      assert Backs(r.prefixes, c, if j < k then j else j + 1);
    } else {
      assert Backs(r.prefixes, c, j);
      IdElsewhere(r, out, ones, v, k, c.prefix);
    }
  }

  lemma {:induction false} ShedBest(r: Reg, out: Ledger, ones: nat, n: nat, now: int, order: seq<PrefixId>)
    requires Balanced(r, out, ones) && Covers(order, r.prefixes)
    ensures BestFirst(r.prefixes, Shed(r, n, now, order).0.prefixes, Shed(r, n, now, order).1, now)
    ensures forall i, j :: 0 <= i < j < |Shed(r, n, now, order).1| ==>
              Shed(r, n, now, order).1[i].id != Shed(r, n, now, order).1[j].id
    decreases n
  {
    hide Balanced, Drop, Victim, Surviving, Beats, WithoutId, IsIdle;
    if n > 0 && Victim(r, now, order).Some? {
      var v := Victim(r, now, order).value;
      var k := VictimBest(r, now, order);
      DropKeeps(r, out, ones, v, k);
      var less := Drop(r, v);
      ShedBest(less, out, ones, n - 1, now, order);
      var (r', more) := Shed(less, n - 1, now, order);
      forall c | c in more ensures (exists i :: Backs(r.prefixes, c, i)) && c.id != v.id {
        var j :| Backs(less.prefixes, c, j);
        BackedBefore(r, out, ones, v, k, c, j);
      }
      ShedDrops(r, out, ones, n, now, order);
      forall p, j | p in r'.prefixes && 0 <= j < |r'.prefixes[p].instances| && IsIdle(r'.prefixes[p].instances[j])
        ensures !Beats(FactOf(r'.prefixes[p].instances[j]), v.fact, now)
      {
        SurvivingFrom(r.prefixes[p].instances, IdsOf([v] + more));
        assert r'.prefixes[p].instances[j] in r.prefixes[p].instances;
      }
    }
  }

  /** The instances one pressure pass evicts. */
  function Evicted(r: Reg, budget: nat, o: Outside): seq<Candidate>
  {
    if o.usage.None? then []
    else
      var v := VerdictFor(r, o.usage.value, budget);
      Shed(r.(shedding := v.shedding, lastPass := if v.shedding then r.lastPass else None), v.evict, o.now, o.order).1
  }

  /**
   * One pressure pass drops, of distinct instances, exactly a tenth of the idle ones but at
   * least one, when the latch is on, something is idle and usage has moved since the last
   * evicting pass, and none otherwise: idle and live, best victims first, and it touches
   * nothing else in any entry.
   */
  lemma PassExact(r: Reg, out: Ledger, ones: nat, budget: nat, o: Outside)
    requires Balanced(r, out, ones) && Covers(o.order, r.prefixes) && o.usage.Some?
    ensures var (r', gone) := (Pressure(r, budget, o), Evicted(r, budget, o));
            && PassSize(PressureFacts(o.usage.value, budget, r.shedding, r.lastPass, r.idleTotal), |gone|)
            && (forall i, j :: 0 <= i < j < |gone| ==> gone[i].id != gone[j].id)
            && OnlyDropped(r.prefixes, r'.prefixes, gone) && BestFirst(r.prefixes, r'.prefixes, gone, o.now)
  {
    hide Balanced, Shed, BestFirst, OnlyDropped, Surviving, PassSize;
    var v := VerdictFor(r, o.usage.value, budget);
    var latched := r.(shedding := v.shedding, lastPass := if v.shedding then r.lastPass else None);
    SameBooks(r, out, ones, latched, ones);
    EvictWithinIdle(PressureFacts(o.usage.value, budget, r.shedding, r.lastPass, r.idleTotal));
    VerdictExactly(PressureFacts(o.usage.value, budget, r.shedding, r.lastPass, r.idleTotal), v.evict);
    ShedCount(latched, out, ones, v.evict, o.now, o.order);
    ShedDrops(latched, out, ones, v.evict, o.now, o.order);
    ShedBest(latched, out, ones, v.evict, o.now, o.order);
  }

  // ── The latch, over every run ───────────────────────────────────────────

  lemma {:induction false} ShedLatch(r: Reg, n: nat, now: int, order: seq<PrefixId>)
    ensures Shed(r, n, now, order).0.shedding == r.shedding && Shed(r, n, now, order).0.lastPass == r.lastPass
    decreases n
  {
    hide Victim;
    if n > 0 && Victim(r, now, order).Some? { ShedLatch(Drop(r, Victim(r, now, order).value), n - 1, now, order); }
  }

  /** What a pass does to the latch and to the memory of the last evicting pass. */
  lemma PassLatch(r: Reg, budget: nat, o: Outside)
    ensures var r' := Pressure(r, budget, o);
            && r'.shedding == Latch(r.shedding, o.usage, budget)
            && r'.lastPass == (if Evicted(r, budget, o) != [] then o.usage else if r'.shedding then r.lastPass else None)
  {
    hide Shed;
    if o.usage.Some? {
      var v := VerdictFor(r, o.usage.value, budget);
      ShedLatch(r.(shedding := v.shedding, lastPass := if v.shedding then r.lastPass else None), v.evict, o.now, o.order);
      LatchIgnoresPool(PressureFacts(o.usage.value, budget, r.shedding, r.lastPass, r.idleTotal));
    }
  }

  /** The registry an action's pressure pass starts from, and what the pass reads; dispose has none. */
  function PassOf(c: Config, s: Sys, a: Action): Option<(Reg, Outside)>
  {
    match a
    case DoAcquire(q, o) => if Covers(o.order, s.reg.prefixes) then Some((s.reg, Heard(c, o))) else None
    case DoRelease(p, id, f, o) =>
      if (p, id) in s.out && Covers(o.order, s.reg.prefixes) then Some((Settle(s.reg, p, id, f, o.now), Heard(c, o)))
      else None
    case DoReserve(cap, o) => if Covers(o.order, s.reg.prefixes) then Some((s.reg, Heard(c, o))) else None
    case DoReleaseOneoff(o) =>
      if s.ones > 0 && Covers(o.order, s.reg.prefixes) then
        Some((s.reg.(total := SaturatingSub(s.reg.total, 1), oneoff := SaturatingSub(s.reg.oneoff, 1)), Heard(c, o)))
      else None
    case DoDispose(p) => None
  }

  function Heard(c: Config, o: Outside): Outside { o.(usage := Sampled(c, o.usage)) }

  function EvictedBy(c: Config, s: Sys, a: Action): seq<Candidate>
  {
    match PassOf(c, s, a)
    case None => []
    case Some((r, o)) => Evicted(r, c.budget, o)
  }

  lemma StepLatch(c: Config, s: Sys, a: Action)
    ensures var (s', pass) := (Next(c, s, a), PassOf(c, s, a));
            && (pass.None? ==> s'.samples == s.samples && s'.reg.shedding == s.reg.shedding && s'.reg.lastPass == s.reg.lastPass)
            && (pass.Some? ==> !a.DoDispose?)
            && (pass.Some? ==>
                  var usage := pass.value.1.usage;
                  && usage == (if c.budget == 0 && c.hardLine == 0 then None else a.o.usage)
                  && s'.samples == s.samples + [usage]
                  && s'.reg.shedding == Latch(s.reg.shedding, usage, c.budget)
                  && s'.reg.lastPass == (if EvictedBy(c, s, a) != [] then usage
                                         else if s'.reg.shedding then s.reg.lastPass else None))
  {
    hide Pressure, Evicted, Latch, Take, Settle, Dispose, Admits, Covers;
    match a
    case DoAcquire(q, o) =>
      PassLatch(s.reg, c.budget, Heard(c, o));
      var passed := Pressure(s.reg, c.budget, Heard(c, o));
      TakeLatch(c, passed, q, !passed.shedding, Heard(c, o));
    case DoRelease(p, id, f, o) =>
      SettleLatch(s.reg, p, id, f, o.now);
      PassLatch(Settle(s.reg, p, id, f, o.now), c.budget, Heard(c, o));
    case DoReserve(cap, o) => PassLatch(s.reg, c.budget, Heard(c, o));
    case DoReleaseOneoff(o) =>
      PassLatch(s.reg.(total := SaturatingSub(s.reg.total, 1), oneoff := SaturatingSub(s.reg.oneoff, 1)), c.budget, Heard(c, o));
    case DoDispose(p) => DisposeLatch(s.reg, p);
  }

  lemma TakeLatch(c: Config, r: Reg, q: Request, warm: bool, o: Outside)
    ensures Take(c, r, q, warm, o).0.shedding == r.shedding && Take(c, r, q, warm, o).0.lastPass == r.lastPass
  {
    hide WarmestIdle, Joinable, JoinChoice, Admits;
  }

  lemma SettleLatch(r: Reg, p: PrefixId, id: nat, f: Finish, now: int)
    ensures Settle(r, p, id, f, now).shedding == r.shedding && Settle(r, p, id, f, now).lastPass == r.lastPass
  {
    hide PositionOf, RemoveAt;
  }

  lemma DisposeLatch(r: Reg, p: PrefixId)
    ensures Dispose(r, p).shedding == r.shedding && Dispose(r, p).lastPass == r.lastPass
  {
    hide BusyDead;
  }

  /**
   * After any run the latch is what the sample history alone says, and a pass is remembered
   * only under the latch.
   */
  lemma {:induction false} LatchOverRuns(c: Config, acts: seq<Action>)
    ensures var s := Exec(c, acts);
            s.reg.shedding == LatchAfter(s.samples, c.budget) && (s.reg.lastPass.Some? ==> s.reg.shedding)
  {
    hide Next, PassOf, EvictedBy;
    if acts != [] {
      var s, a := Exec(c, acts[..|acts| - 1]), acts[|acts| - 1];
      LatchOverRuns(c, acts[..|acts| - 1]);
      StepLatch(c, s, a);
      var pass := PassOf(c, s, a);
      if pass.Some? {
        assert (s.samples + [pass.value.1.usage])[..|s.samples|] == s.samples;
        if EvictedBy(c, s, a) != [] { EvictsUnderLatch(c, s, a); }
      }
    }
  }

  lemma EvictsUnderLatch(c: Config, s: Sys, a: Action)
    requires EvictedBy(c, s, a) != []
    ensures Next(c, s, a).reg.shedding
  {
    hide Next, Settle;
    StepLatch(c, s, a);
    var (r, o) := PassOf(c, s, a).value;
    PassStart(c, s, a);
    EvictWithinIdle(PressureFacts(o.usage.value, c.budget, r.shedding, r.lastPass, r.idleTotal));
    LatchIgnoresPool(PressureFacts(o.usage.value, c.budget, r.shedding, r.lastPass, r.idleTotal));
  }

  // ── Futility, over every run ────────────────────────────────────────────

  /** How many passes of the stretch evicted anything. */
  function EvictingPasses(c: Config, s: Sys, acts: seq<Action>): nat
    decreases |acts|
  {
    if acts == [] then 0 else One(EvictedBy(c, s, acts[0]) != []) + EvictingPasses(c, Next(c, s, acts[0]), acts[1..])
  }

  /** Every pass of the stretch reads this usage. */
  ghost predicate Steady(c: Config, acts: seq<Action>, usage: nat)
  {
    forall k :: 0 <= k < |acts| ==> acts[k].DoDispose? || Sampled(c, acts[k].o.usage) == Some(usage)
  }

  lemma PassStart(c: Config, s: Sys, a: Action)
    requires PassOf(c, s, a).Some?
    ensures PassOf(c, s, a).value.0.shedding == s.reg.shedding && PassOf(c, s, a).value.0.lastPass == s.reg.lastPass
    ensures PassOf(c, s, a).value.1.usage == Sampled(c, a.o.usage)
  {
    hide Settle;
    if a.DoRelease? { SettleLatch(s.reg, a.p, a.id, a.f, a.o.now); }
  }

  /** Another pass at this usage finds the latch released or the last pass futile. */
  predicate Quiet(c: Config, r: Reg, usage: nat)
  {
    !Latch(r.shedding, Some(usage), c.budget) || r.lastPass == Some(usage)
  }

  lemma QuietStep(c: Config, s: Sys, a: Action, usage: nat)
    requires a.DoDispose? || Sampled(c, a.o.usage) == Some(usage)
    ensures Quiet(c, s.reg, usage) ==> EvictedBy(c, s, a) == []
    ensures Quiet(c, s.reg, usage) || EvictedBy(c, s, a) != [] ==> Quiet(c, Next(c, s, a).reg, usage)
  {
    hide Next, Settle, Covers;
    StepLatch(c, s, a);
    if PassOf(c, s, a).Some? { PassStart(c, s, a); }
  }

  /** While usage stays where it is, at most one pass evicts, whatever runs come and go meanwhile. */
  lemma {:induction false} SteadyUsageEvictsOnce(c: Config, s: Sys, acts: seq<Action>, usage: nat)
    requires Steady(c, acts, usage)
    ensures EvictingPasses(c, s, acts) <= 1
    ensures Quiet(c, s.reg, usage) ==> EvictingPasses(c, s, acts) == 0
    decreases |acts|
  {
    hide Next, EvictedBy, Quiet;
    if acts != [] {
      QuietStep(c, s, acts[0], usage);
      SteadyUsageEvictsOnce(c, Next(c, s, acts[0]), acts[1..], usage);
    }
  }

  // ── Where a run goes, and what its release does ─────────────────────────

  /** At 80% of its thread or more. */
  predicate Saturated(i: Instance, q: Request) { q.util(i.id) >= 800 }

  function LoadOf(i: Instance, q: Request): JoinFact { JoinFact(i.inFlight, q.util(i.id)) }

  /** A joined instance is the fullest unsaturated one, or, all saturated, a least utilized one. */
  ghost predicate BestJoin(s: seq<Instance>, q: Request, k: nat)
  {
    && k < |s| && IsJoinable(s[k], q.caps)
    && (forall j :: 0 <= j < |s| && IsJoinable(s[j], q.caps) && !Saturated(s[j], q) ==>
          !Saturated(s[k], q) && s[j].inFlight <= s[k].inFlight)
    && (Saturated(s[k], q) ==>
          forall j :: 0 <= j < |s| && IsJoinable(s[j], q.caps) ==>
            q.util(s[k].id) < q.util(s[j].id) || (q.util(s[k].id) == q.util(s[j].id) && s[k].inFlight <= s[j].inFlight))
  }

  /** A further instance is allowed (latch off, below the ceiling, admitted on the measured average) and wanted. */
  ghost predicate OpensAnother(c: Config, e: Entry, q: Request, warm: bool, usage: Option<nat>)
  {
    var (s, live) := (e.instances, CountLive(e.instances));
    && warm && live < c.cores && Admits(c, usage, e.demand.SpawnCap(q.caps.hard))
    && (ShouldSpawn(SpawnFacts(e.demand.ArrivalsPerSec(), e.demand.cpuMs.Get(), live, c.cores))
        || AllSaturated(s, q))
  }

  ghost predicate AllSaturated(s: seq<Instance>, q: Request)
  {
    forall j :: 0 <= j < |s| && IsJoinable(s[j], q.caps) ==> Saturated(s[j], q)
  }

  /**
   * A further instance is opened exactly if allowed and wanted, by demand or because all
   * are saturated; otherwise the run joins the best one.
   */
  lemma JoinOrSpawn(c: Config, e: Entry, q: Request, warm: bool, usage: Option<nat>)
    requires Joinable(e.instances, q.caps) != []
    ensures match JoinChoice(c, e, q, warm, usage)
            case None => OpensAnother(c, e, q, warm, usage)
            case Some(k) => BestJoin(e.instances, q, k) && !OpensAnother(c, e, q, warm, usage)
  {
    hide Joinable, Admits, CountLive, ShouldSpawn, PickJoinTarget, JoinFallback, JoinFacts, BestJoin, AllSaturated;
    TargetIsBest(e.instances, q);
  }

  /** The target is missing exactly if all are saturated, and it or the fallback is the best one to join. */
  lemma TargetIsBest(s: seq<Instance>, q: Request)
    requires Joinable(s, q.caps) != []
    ensures var ps := Joinable(s, q.caps);
            var facts := JoinFacts(s, ps, q.util);
            var target := PickJoinTarget(facts);
            && (target == None <==> AllSaturated(s, q))
            && (target.Some? ==> BestJoin(s, q, ps[target.value]))
            && (target == None ==> BestJoin(s, q, ps[JoinFallback(facts).value]))
  {
    hide Joinable, PickJoinTarget, JoinFallback, JoinFacts;
    FactsCover(s, q);
    var ps := Joinable(s, q.caps);
    var facts := JoinFacts(s, ps, q.util);
    var target := PickJoinTarget(facts);
    if target.Some? {
      var k := ps[target.value];
      forall j | 0 <= j < |s| && IsJoinable(s[j], q.caps) && !Saturated(s[j], q) ensures s[j].inFlight <= s[k].inFlight {
        var i :| 0 <= i < |ps| && ps[i] == j && facts[i] == LoadOf(s[j], q);
      }
    } else {
      FallbackIsBest(s, q);
    }
  }

  lemma FallbackIsBest(s: seq<Instance>, q: Request)
    requires Joinable(s, q.caps) != []
    requires var ps := Joinable(s, q.caps); PickJoinTarget(JoinFacts(s, ps, q.util)) == None
    ensures AllSaturated(s, q)
    ensures var ps := Joinable(s, q.caps); BestJoin(s, q, ps[JoinFallback(JoinFacts(s, ps, q.util)).value])
  {
    hide Joinable, PickJoinTarget, JoinFallback, JoinFacts;
    FactsCover(s, q);
    var ps := Joinable(s, q.caps);
    var facts := JoinFacts(s, ps, q.util);
    var best := JoinFallback(facts).value;
    forall j | 0 <= j < |s| && IsJoinable(s[j], q.caps)
      ensures Saturated(s[j], q) && !LighterJoin(LoadOf(s[j], q), LoadOf(s[ps[best]], q))
    {
      var i :| 0 <= i < |ps| && ps[i] == j && facts[i] == LoadOf(s[j], q);
    }
  }

  /** The facts the choice is made from are the loads of exactly the joinable instances. */
  lemma FactsCover(s: seq<Instance>, q: Request)
    ensures var ps := Joinable(s, q.caps);
            var facts := JoinFacts(s, ps, q.util);
            && (forall i :: 0 <= i < |ps| ==> facts[i] == LoadOf(s[ps[i]], q))
            && (forall j :: 0 <= j < |s| && IsJoinable(s[j], q.caps) ==> exists i :: 0 <= i < |ps| && ps[i] == j && facts[i] == LoadOf(s[j], q))
  {
    hide Joinable;
    var ps := Joinable(s, q.caps);
    var facts := JoinFacts(s, ps, q.util);
    forall j | 0 <= j < |s| && IsJoinable(s[j], q.caps) ensures exists i :: 0 <= i < |ps| && ps[i] == j && facts[i] == LoadOf(s[j], q) {
      var i: nat :| i < |ps| && ps[i] == j;
      assert facts[i] == LoadOf(s[j], q);
    }
  }

  /** Whether this finish ends the instance's use: dead already, tainted, prefix gone, or a second crossing in a row. */
  predicate Dies(i: Instance, f: Finish)
  {
    i.dead || f.tainted || !f.alive || (i.caps.soft > 0 && f.heap > i.caps.soft && i.strikes > 0)
  }

  /**
   * A release that leaves other runs keeps the instance, dead if it dies; the last run's
   * release removes a dying instance and makes any other idle, with the finish's heap and time.
   */
  lemma ReleaseFate(r: Reg, out: Ledger, ones: nat, p: PrefixId, id: nat, f: Finish, now: int)
    requires Balanced(r, out, ones) && (p, id) in out
    ensures p in r.prefixes && PositionOf(r.prefixes[p].instances, id).Some?
    ensures var s, s' := r.prefixes[p].instances, InstancesOf(Settle(r, p, id, f, now).prefixes, p);
            var k := PositionOf(s, id).value;
            var x := s[k];
            if x.inFlight == 1 && Dies(x, f) then s' == RemoveAt(s, k)
            else
              && |s'| == |s| && (forall j :: 0 <= j < |s| && j != k ==> s'[j] == s[j])
              && s'[k].id == id && s'[k].caps == x.caps && s'[k].inFlight == x.inFlight - 1 && s'[k].dead == Dies(x, f)
              && (x.inFlight == 1 ==> IsIdle(s'[k]) && s'[k].lastUsed == now && s'[k].heapUsed == f.heap)
              && (x.inFlight > 1 ==> s'[k].lastUsed == x.lastUsed && s'[k].heapUsed == x.heapUsed)
              && (!f.tainted && x.caps.soft > 0 ==> (s'[k].strikes > 0 <==> f.heap > x.caps.soft))
              && (f.tainted || x.caps.soft == 0 ==> s'[k].strikes == x.strikes)
  {
    hide PositionOf, CountersOk;
    assert (p, id).0 == p && EntryOk(p, r.prefixes[p].instances, out, r.nextId);
    var s := r.prefixes[p].instances;
    var k := PositionOf(s, id).value;
    assert InstanceOk(p, s[k], out, r.nextId);
  }

  // ── Fading averages ─────────────────────────────────────────────────────

  function Averaged(e: Ewma, samples: seq<real>): Ewma
  {
    if samples == [] then e else Averaged(e, samples[..|samples| - 1]).Update(samples[|samples| - 1])
  }

  /** The average of any samples lies between the least and the greatest of them. */
  lemma {:induction false} AverageWithin(samples: seq<real>, lo: real, hi: real)
    requires samples != [] && forall i :: 0 <= i < |samples| ==> lo <= samples[i] <= hi
    ensures var e := Averaged(UNSEEDED, samples); e.seeded && lo <= e.value <= hi
  {
    if |samples| > 1 { AverageWithin(samples[..|samples| - 1], lo, hi); }
  }

  function Fade(n: nat): real { if n == 0 then 1.0 else 0.8 * Fade(n - 1) }

  /** Old data decays out: n equal samples leave 0.8^n of the distance to what was held. */
  lemma {:induction false} OldDataFades(e: Ewma, sample: real, n: nat)
    requires e.seeded
    ensures var now := Averaged(e, seq(n, i => sample)); now.seeded && now.value - sample == Fade(n) * (e.value - sample)
  {
    if n > 0 {
      var samples := seq(n, i => sample);
      assert samples[..n - 1] == seq(n - 1, i => sample);
      OldDataFades(e, sample, n - 1);
      var before := Averaged(e, seq(n - 1, i => sample));
      assert before.value * 0.8 + sample * 0.2 - sample == 0.8 * (before.value - sample);
      assert 0.8 * (Fade(n - 1) * (e.value - sample)) == (0.8 * Fade(n - 1)) * (e.value - sample);
    }
  }

  // ── No subtraction saturates ────────────────────────────────────────────

  /** Every drop of a pass takes from counters that are not zero. */
  predicate DropsCounted(r: Reg, n: nat, now: int, order: seq<PrefixId>)
    decreases n
  {
    n == 0 || Victim(r, now, order).None?
    || (r.total > 0 && r.idleTotal > 0 && DropsCounted(Drop(r, Victim(r, now, order).value), n - 1, now, order))
  }

  lemma {:induction false} ShedCounted(r: Reg, out: Ledger, ones: nat, n: nat, now: int, order: seq<PrefixId>)
    requires Balanced(r, out, ones)
    ensures DropsCounted(r, n, now, order)
    decreases n
  {
    hide Balanced, Victim, Drop;
    if n > 0 && Victim(r, now, order).Some? {
      var v := Victim(r, now, order).value;
      var k := VictimBest(r, now, order);
      DropKeeps(r, out, ones, v, k);
      ShedCounted(Drop(r, v), out, ones, n - 1, now, order);
    }
  }

  /** The pass that starts from `r`, as it sheds. */
  ghost predicate PassCounted(r: Reg, budget: nat, o: Outside)
  {
    o.usage.Some? ==>
      var v := VerdictFor(r, o.usage.value, budget);
      DropsCounted(r.(shedding := v.shedding, lastPass := if v.shedding then r.lastPass else None), v.evict, o.now, o.order)
  }

  lemma PassDropsCounted(r: Reg, out: Ledger, ones: nat, budget: nat, o: Outside)
    requires Balanced(r, out, ones)
    ensures PassCounted(r, budget, o)
  {
    hide Balanced, DropsCounted, WatermarkAction;
    if o.usage.Some? {
      var v := VerdictFor(r, o.usage.value, budget);
      var latched := r.(shedding := v.shedding, lastPass := if v.shedding then r.lastPass else None);
      SameBooks(r, out, ones, latched, ones);
      ShedCounted(latched, out, ones, v.evict, o.now, o.order);
    }
  }

  /** The registry a pass starts from is balanced: after a settled release, or a one-off given back. */
  lemma PassStartsBalanced(c: Config, s: Sys, a: Action)
    requires Balanced(s.reg, s.out, s.ones) && PassOf(c, s, a).Some?
    ensures exists out, ones :: Balanced(PassOf(c, s, a).value.0, out, ones)
  {
    hide Balanced, Settle, Covers;
    match a
    case DoRelease(p, id, f, o) => SettleKeeps(s.reg, p, id, f, o.now, s.out, s.ones);
    case DoReleaseOneoff(o) =>
      var fewer := s.reg.(total := SaturatingSub(s.reg.total, 1), oneoff := SaturatingSub(s.reg.oneoff, 1));
      OneoffThere(s.reg, s.out, s.ones);
      SameBooks(s.reg, s.out, s.ones, fewer, s.ones - 1);
    case _ =>
  }

  lemma OneoffThere(r: Reg, out: Ledger, ones: nat)
    requires Balanced(r, out, ones)
    ensures ones == r.oneoff <= r.total
  {
  }

  /** An idle instance is counted as idle and as live. */
  lemma IdleCounted(r: Reg, out: Ledger, ones: nat, p: PrefixId, x: Instance)
    requires Balanced(r, out, ones) && x in InstancesOf(r.prefixes, p) && IsIdle(x)
    ensures r.idleTotal > 0 && r.total > 0
  {
    hide CountIdle, PositionOf;
    var s := r.prefixes[p].instances;
    var k: nat :| k < |s| && s[k] == x;
    assert EntryOk(p, s, out, r.nextId);
    SplitCount(r.prefixes, p);
    CountIdlePositive(s, k);
    IdleSubset(Residents(r.prefixes));
  }

  /** What a disposal drops is idle, hence counted, all of it. */
  lemma DisposalCounted(r: Reg, out: Ledger, ones: nat, p: PrefixId)
    requires Balanced(r, out, ones) && p in r.prefixes
    ensures var s := r.prefixes[p].instances;
            |BusyDead(s)| <= |s| && |s| - |BusyDead(s)| <= r.idleTotal && |s| - |BusyDead(s)| <= r.total
  {
    hide CountIdle, PositionOf, BusyDead;
    var s := r.prefixes[p].instances;
    assert EntryOk(p, s, out, r.nextId);
    forall k | 0 <= k < |s| ensures s[k].dead ==> s[k].inFlight > 0 { assert InstanceOk(p, s[k], out, r.nextId); }
    BusyDeadCounts(s);
    SplitCount(r.prefixes, p);
    IdleSubset(Residents(r.prefixes));
  }

  /**
   * After any run, no subtraction of the next operation saturates: a pass's evictions, the
   * reuse of an idle instance (found after the acquire's pass), and a disposal each take
   * from counters at least as large. The releases themselves are `NothingSaturates`.
   */
  lemma NoSubtractionSaturates(c: Config, acts: seq<Action>, a: Action)
    ensures var s := Exec(c, acts);
            && (PassOf(c, s, a).Some? ==> PassCounted(PassOf(c, s, a).value.0, c.budget, PassOf(c, s, a).value.1))
            && (a.DoAcquire? ==>
                  var passed := Pressure(s.reg, c.budget, Heard(c, a.o));
                  forall x :: x in InstancesOf(passed.prefixes, a.q.prefix) && IsIdle(x) ==> passed.idleTotal > 0)
            && (a.DoDispose? && a.p in s.reg.prefixes ==>
                  var entry := s.reg.prefixes[a.p].instances;
                  var dropped := |entry| - |BusyDead(entry)|;
                  0 <= dropped <= s.reg.idleTotal && dropped <= s.reg.total)
  {
    hide Balanced, PassOf, PassCounted, Pressure, BusyDead, Exec, IsIdle;
    EveryRunBalanced(c, acts);
    var s := Exec(c, acts);
    if PassOf(c, s, a).Some? {
      PassStartsBalanced(c, s, a);
      var out, ones :| Balanced(PassOf(c, s, a).value.0, out, ones);
      PassDropsCounted(PassOf(c, s, a).value.0, out, ones, c.budget, PassOf(c, s, a).value.1);
    }
    match a
    case DoAcquire(q, o) =>
      var passed := Pressure(s.reg, c.budget, Heard(c, o));
      PressureKeeps(s.reg, s.out, s.ones, c.budget, Heard(c, o));
      forall x | x in InstancesOf(passed.prefixes, q.prefix) && IsIdle(x) ensures passed.idleTotal > 0 {
        IdleCounted(passed, s.out, s.ones, q.prefix, x);
      }
    case DoDispose(p) => if p in s.reg.prefixes { DisposalCounted(s.reg, s.out, s.ones, p); }
    case _ =>
  }
}
