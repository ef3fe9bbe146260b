// What an acquire may answer, exactly, and the inputs on which its documentation promises
// more than it does.

module RegistryAcquire {
  import opened Wrappers
  import opened Policy
  import opened PolicyTheorems
  import opened Registry
  import opened RegistryLedger
  import opened RegistryKeeps
  import opened RegistryRuns
  import opened RegistryTheorems
  import opened RegistryRank

  /** The registry after the acquire's pressure pass. */
  function Passed(c: Config, r: Reg, o: Outside): Reg
  {
    Pressure(r, c.budget, Heard(c, o))
  }

  /** The statistics the acquire leaves: the arrival noted, the heap average seeded. */
  function Noted(r: Reg, q: Request, now: int): Demand
  {
    EntryOf(r, q.prefix).demand.NoteArrival(now).SeedHeap(q.caps.hard)
  }

  /** The run goes to an instance already there, live and with its caps. */
  ghost predicate Joined(s: seq<Instance>, caps: HeapCaps, id: nat)
  {
    exists k :: 0 <= k < |s| && IsJoinable(s[k], caps) && s[k].id == id
  }

  /** An idle instance with these caps. */
  ghost predicate Reusable(s: seq<Instance>, caps: HeapCaps)
  {
    exists k :: 0 <= k < |s| && IsReusable(s[k], caps)
  }

  /**
   * Every answer, exactly when it is given, over the instances `s` the pressure pass left:
   * only an entry without a live instance of these caps refuses, goes cold or admits the
   * whole cap; a further instance is admitted on the measured average; the latch never pools.
   */
  lemma AcquireAnswers(c: Config, r: Reg, q: Request, o: Outside)
    ensures var (r', a) := Acquire(c, r, q, o);
            var (passed, usage) := (Passed(c, r, o), Sampled(c, o.usage));
            var s := InstancesOf(passed.prefixes, q.prefix);
            var none, fits := Joinable(s, q.caps) == [], Admits(c, usage, q.caps.hard);
            var another := !none && !Reusable(s, q.caps) && OpensAnother(c, Entry(s, Noted(passed, q, o.now)), q, !passed.shedding, usage);
            && (a.Refused? <==> none && !fits)
            && (a.Cold? <==> none && fits && q.spawnOk && passed.shedding)
            && (a.SpawnFailed? <==> !q.spawnOk && ((none && fits) || another))
            && (a.Attached? && r'.nextId != passed.nextId <==> q.spawnOk && !passed.shedding && ((none && fits) || another))
            && (a.Attached? && r'.nextId != passed.nextId ==> a.id == passed.nextId && r'.nextId == a.id + 1)
            && (a.Attached? && r'.nextId == passed.nextId <==> !none && !another)
            && (a.Attached? && r'.nextId == passed.nextId ==> Joined(s, q.caps, a.id))
  {
    hide Pressure, WarmestIdle, Joinable, JoinChoice, Admits, CountLive, OpensAnother, BestJoin, ShouldSpawn;
    var passed := Passed(c, r, o);
    var s := InstancesOf(passed.prefixes, q.prefix);
    assert EntryOf(passed, q.prefix).instances == s;
    var e := Entry(s, Noted(passed, q, o.now));
    assert EntryOf(passed, q.prefix).(demand := e.demand) == e;
    var idle := WarmestIdle(s, q.caps);
    if idle.Some? {
      assert IsJoinable(s[idle.value], q.caps) && IsReusable(s[idle.value], q.caps);
    } else if Joinable(s, q.caps) != [] {
      JoinOrSpawn(c, e, q, !passed.shedding, Sampled(c, o.usage));
      BestIsJoinable(s, q);
    }
  }

  lemma BestIsJoinable(s: seq<Instance>, q: Request)
    ensures forall k: nat :: BestJoin(s, q, k) ==> k < |s| && IsJoinable(s[k], q.caps)
  {
  }

  /**
   * An instance is created although usage plus the run's own cap is over the line exactly if
   * it is a further one: no idle one to reuse, but one to join; the latch off, the prefix
   * below the ceiling, its measured average within the line, and another instance wanted.
   */
  lemma SpawnedOverTheLineExactly(c: Config, r: Reg, q: Request, o: Outside)
    ensures var (r', a) := Acquire(c, r, q, o);
            var (passed, usage) := (Passed(c, r, o), Sampled(c, o.usage));
            var s := InstancesOf(passed.prefixes, q.prefix);
            a.Attached? && r'.nextId != passed.nextId && !Admits(c, usage, q.caps.hard) <==>
              && !Admits(c, usage, q.caps.hard) && Joinable(s, q.caps) != [] && !Reusable(s, q.caps) && q.spawnOk
              && OpensAnother(c, Entry(s, Noted(passed, q, o.now)), q, !passed.shedding, usage)
  {
    hide Acquire, Passed, Joinable, Reusable, Admits, OpensAnother;
    AcquireAnswers(c, r, q, o);
    var passed := Passed(c, r, o);
    var s := InstancesOf(passed.prefixes, q.prefix);
    LatchNeverOpens(c, Entry(s, Noted(passed, q, o.now)), q, !passed.shedding, Sampled(c, o.usage));
  }

  lemma LatchNeverOpens(c: Config, e: Entry, q: Request, warm: bool, usage: Option<nat>)
    ensures OpensAnother(c, e, q, warm, usage) ==> warm
  {
  }

  /** Told by their fields: an instance whose run the acquire's instance may take, and an idle one. */
  ghost predicate Serves(i: Instance, caps: HeapCaps) { !i.dead && i.caps.soft == caps.soft && i.caps.hard == caps.hard }

  ghost predicate Waits(i: Instance, caps: HeapCaps) { Serves(i, caps) && i.inFlight == 0 }

  /** The `k`-th instance gains a run, one that waits if any does, and of these one used last. */
  ghost predicate Gains(s: seq<Instance>, s': seq<Instance>, caps: HeapCaps, id: nat, k: int)
  {
    && 0 <= k < |s| && s[k].id == id && Serves(s[k], caps) && s' == s[k := s[k].(inFlight := s[k].inFlight + 1)]
    && forall j :: 0 <= j < |s| && Waits(s[j], caps) ==> Waits(s[k], caps) && s[j].lastUsed <= s[k].lastUsed
  }

  /**
   * The instance a run is attached to: a new one, last in the entry, with the run's caps and
   * this run alone; or a live one of exactly these caps, which gains this run and changes in
   * nothing else, an idle one that was used last if any is idle. No other instance changes.
   */
  lemma AttachedFits(c: Config, r: Reg, q: Request, o: Outside)
    requires Acquire(c, r, q, o).1.Attached?
    ensures AttachedTo(Passed(c, r, o), Acquire(c, r, q, o).0, q, Acquire(c, r, q, o).1.id, o.now)
  {
    hide Pressure, WarmestIdle, Joinable, JoinChoice, Admits, AttachedTo;
    var passed, r', id := Passed(c, r, o), Acquire(c, r, q, o).0, Acquire(c, r, q, o).1.id;
    var s, s' := InstancesOf(passed.prefixes, q.prefix), InstancesOf(r'.prefixes, q.prefix);
    assert EntryOf(passed, q.prefix).instances == s;
    var e := Entry(s, Noted(passed, q, o.now));
    assert EntryOf(passed, q.prefix).(demand := e.demand) == e;
    assert forall j :: 0 <= j < |s| ==> (Waits(s[j], q.caps) <==> IsReusable(s[j], q.caps));
    var idle := WarmestIdle(s, q.caps);
    if idle.Some? {
      JoinsThat(passed, r', q, id, o.now, idle.value);
    } else if Joinable(s, q.caps) != [] && JoinChoice(c, e, q, !passed.shedding, Sampled(c, o.usage)).Some? {
      var k := JoinChoice(c, e, q, !passed.shedding, Sampled(c, o.usage)).value;
      assert Serves(s[k], q.caps);
      JoinsThat(passed, r', q, id, o.now, k);
    } else {
      SpawnsThat(passed, r', q, id, o.now);
    }
  }

  ghost predicate AttachedTo(passed: Reg, r': Reg, q: Request, id: nat, now: int)
  {
    var s, s' := InstancesOf(passed.prefixes, q.prefix), InstancesOf(r'.prefixes, q.prefix);
    if r'.nextId != passed.nextId then
      s' == s + [Instance(id, 1, q.caps, 0, false, now, 0)] && forall j :: 0 <= j < |s| ==> !Waits(s[j], q.caps)
    else exists k :: Gains(s, s', q.caps, id, k)
  }

  lemma JoinsThat(passed: Reg, r': Reg, q: Request, id: nat, now: int, k: nat)
    requires r'.nextId == passed.nextId
    requires Gains(InstancesOf(passed.prefixes, q.prefix), InstancesOf(r'.prefixes, q.prefix), q.caps, id, k)
    ensures AttachedTo(passed, r', q, id, now)
  {
  }

  lemma SpawnsThat(passed: Reg, r': Reg, q: Request, id: nat, now: int)
    requires var s := InstancesOf(passed.prefixes, q.prefix);
             && r'.nextId != passed.nextId && InstancesOf(r'.prefixes, q.prefix) == s + [Fresh(id, q.caps, now)]
             && forall j :: 0 <= j < |s| ==> !Waits(s[j], q.caps)
    ensures AttachedTo(passed, r', q, id, now)
  {
  }

  /** Room for another isolate, by the numbers; a sample that cannot be read or is not taken refuses nothing. */
  lemma FitsExactly(c: Config, usage: Option<nat>, cap: nat)
    requires c.hardLine < 0xFFFF_FFFF_FFFF_FFFF
    ensures Admits(c, Sampled(c, usage), cap) <==>
              || usage.None?
              || (if cap > 0 then c.hardLine == 0 || usage.value + cap <= c.hardLine else c.budget == 0 || usage.value < c.budget)
  {
    if usage.Some? { AdmitsExactly(usage.value, cap, c.hardLine, c.budget); }
  }

  /** A one-off is let in exactly if its cap fits, and then counts as an isolate. */
  lemma ReservedExactly(c: Config, r: Reg, cap: nat, o: Outside)
    requires c.hardLine < 0xFFFF_FFFF_FFFF_FFFF
    ensures var (r', ok) := ReserveOneoff(c, r, cap, o);
            var passed := Passed(c, r, o);
            && (ok <==> || o.usage.None?
                        || (if cap > 0 then c.hardLine == 0 || o.usage.value + cap <= c.hardLine else c.budget == 0 || o.usage.value < c.budget))
            && r' == if ok then passed.(total := passed.total + 1, oneoff := passed.oneoff + 1) else passed
  {
    hide Pressure, Admits;
    FitsExactly(c, o.usage, cap);
  }

  /** An idle instance with the right caps is reused, the one that finished last. */
  lemma ReusesWarmest(c: Config, r: Reg, q: Request, o: Outside, k: nat)
    requires var s := InstancesOf(Passed(c, r, o).prefixes, q.prefix); k < |s| && IsReusable(s[k], q.caps)
    ensures var (r', a) := Acquire(c, r, q, o);
            var s := InstancesOf(Passed(c, r, o).prefixes, q.prefix);
            exists j :: 0 <= j < |s| && a == Attached(s[j].id) && IsReusable(s[j], q.caps) && s[k].lastUsed <= s[j].lastUsed
                     && InstancesOf(r'.prefixes, q.prefix) == s[j := s[j].(inFlight := 1)]
  {
    hide Pressure, WarmestIdle, Joinable, JoinChoice, Admits;
    var passed := Passed(c, r, o);
    var s := InstancesOf(passed.prefixes, q.prefix);
    assert EntryOf(passed, q.prefix).instances == s;
    var j := WarmestIdle(s, q.caps).value;
    assert Acquire(c, r, q, o).1 == Attached(s[j].id);
  }

  /** What a pass leaves of an entry. */
  lemma LeftByPass(c: Config, r: Reg, out: Ledger, ones: nat, o: Outside, p: PrefixId)
    requires Balanced(r, out, ones) && Covers(o.order, r.prefixes)
    ensures forall x :: x in InstancesOf(Passed(c, r, o).prefixes, p) <==>
              x in InstancesOf(r.prefixes, p) && x.id !in IdsOf(Evicted(r, c.budget, Heard(c, o)))
  {
    hide Balanced, Pressure, Evicted, BestFirst, Covers, Surviving;
    var gone := Evicted(r, c.budget, Heard(c, o));
    if Heard(c, o).usage.Some? {
      PassExact(r, out, ones, c.budget, Heard(c, o));
      if p in r.prefixes { SurvivingFrom(r.prefixes[p].instances, IdsOf(gone)); }
    } else {
      NothingEvicted(r, c.budget, Heard(c, o));
    }
  }

  lemma NothingEvicted(r: Reg, budget: nat, o: Outside)
    requires o.usage.None?
    ensures IdsOf(Evicted(r, budget, o)) == {} && Pressure(r, budget, o).prefixes == r.prefixes
  {
  }

  /** Every live instance of these caps is idle and ranks within the pass's count, from the state before the call. */
  ghost predicate AllOutranked(c: Config, r: Reg, q: Request, o: Outside)
  {
    forall x :: x in InstancesOf(r.prefixes, q.prefix) && IsJoinable(x, q.caps) ==> Outranked(r, q.prefix, x, c.budget, Heard(c, o))
  }

  /** Refusal and the cold path, from the state before the call alone; the latch after the pass is `PassLatch`'s. */
  lemma RefusedExactly(c: Config, r: Reg, out: Ledger, ones: nat, q: Request, o: Outside)
    requires Balanced(r, out, ones) && Iterates(o.order, r.prefixes)
    ensures Acquire(c, r, q, o).1.Refused? <==>
              AllOutranked(c, r, q, o) && !Admits(c, Sampled(c, o.usage), q.caps.hard)
    ensures Acquire(c, r, q, o).1.Cold? <==>
              && AllOutranked(c, r, q, o) && Admits(c, Sampled(c, o.usage), q.caps.hard) && q.spawnOk
              && Latch(r.shedding, Sampled(c, o.usage), c.budget)
  {
    hide Balanced, Acquire, Evicted, Admits, Joinable, Pressure, Covers, Outranked, Latch, OpensAnother, Reusable;
    AcquireAnswers(c, r, q, o);
    LeftByPass(c, r, out, ones, o, q.prefix);
    PassLatch(r, c.budget, Heard(c, o));
    var s := InstancesOf(Passed(c, r, o).prefixes, q.prefix);
    NoneJoinableMeans(s, q.caps);
    forall x | x in InstancesOf(r.prefixes, q.prefix)
      ensures x.id in IdsOf(Evicted(r, c.budget, Heard(c, o))) <==> Outranked(r, q.prefix, x, c.budget, Heard(c, o))
    {
      EvictedByRank(r, out, ones, c.budget, Heard(c, o), q.prefix, x);
    }
  }

  lemma NoneJoinableMeans(s: seq<Instance>, caps: HeapCaps)
    ensures Joinable(s, caps) == [] <==> forall x :: x in s ==> !IsJoinable(x, caps)
  {
    hide Joinable;
    var ps := Joinable(s, caps);
    if ps != [] { assert s[ps[0]] in s; }
    forall x | x in s && IsJoinable(x, caps) ensures ps != [] {
      var k: nat :| k < |s| && s[k] == x;
      assert k in ps;
    }
  }

  /** While a live instance with the same caps runs anything, an acquire never refuses and never goes cold. */
  lemma BusyMeansServed(c: Config, r: Reg, out: Ledger, ones: nat, q: Request, o: Outside, x: Instance)
    requires Balanced(r, out, ones) && Covers(o.order, r.prefixes)
    requires x in InstancesOf(r.prefixes, q.prefix) && IsJoinable(x, q.caps) && x.inFlight > 0
    ensures !Acquire(c, r, q, o).1.Refused? && !Acquire(c, r, q, o).1.Cold?
  {
    hide Balanced, Acquire, Evicted, Admits, Joinable, Passed, Covers, OpensAnother, Reusable;
    AcquireAnswers(c, r, q, o);
    LeftByPass(c, r, out, ones, o, q.prefix);
    NoneJoinableMeans(InstancesOf(Passed(c, r, o).prefixes, q.prefix), q.caps);
    if x.id in IdsOf(Evicted(r, c.budget, Heard(c, o))) {
      if Heard(c, o).usage.None? { NothingEvicted(r, c.budget, Heard(c, o)); }
      else { GoneIsHere(r, out, ones, c.budget, Heard(c, o), q.prefix, x); }
    }
  }

  // ── Where the documentation promises more ───────────────────────────────

  /** No counter, latch or instance is taken by a refusal, but the entry and its statistics are. */
  lemma RefusalTakes(c: Config, r: Reg, out: Ledger, ones: nat, q: Request, o: Outside)
    requires Balanced(r, out, ones)
    requires Acquire(c, r, q, o).1.Refused? || Acquire(c, r, q, o).1.SpawnFailed?
    ensures var (r', passed) := (Acquire(c, r, q, o).0, Passed(c, r, o));
            && r' == Put(passed, q.prefix, Entry(InstancesOf(passed.prefixes, q.prefix), Noted(passed, q, o.now)))
            && r'.prefixes[q.prefix].demand.lastArrival == Some(o.now)
            && (r'.prefixes.Keys == r.prefixes.Keys <==> q.prefix in r.prefixes)
  {
    hide Balanced, Pressure, WarmestIdle, Joinable, JoinChoice, Admits;
    PressureKeeps(r, out, ones, c.budget, Heard(c, o));
  }

  const CAPS := HeapCaps(0, 10)

  /** The registry after one run of prefix 0 on an otherwise idle machine. */
  function AfterOneRun(q: Request, f: Finish): Reg
  {
    var d := NO_DEMAND.NoteArrival(0).SeedHeap(q.caps.hard).NoteFinish(f.cpuMs, f.heap);
    Reg(map[0 := Entry([Instance(1, 0, q.caps, 0, false, 1, f.heap)], d)], 1, 0, 1, 2, false, None)
  }

  lemma OneRun(c: Config, q: Request, f: Finish)
    requires q.prefix == 0 && q.caps.soft == 0 && q.spawnOk && f.alive && !f.tainted
    requires c.hardLine > 0 && Admits(c, Some(0), q.caps.hard)
    ensures Exec(c, [DoAcquire(q, Outside(0, Some(0), [])), DoRelease(0, 1, f, Outside(1, Some(0), [0]))]).reg == AfterOneRun(q, f)
  {
    hide Pressure, Acquire, Admits;
    var a, b := DoAcquire(q, Outside(0, Some(0), [])), DoRelease(0, 1, f, Outside(1, Some(0), [0]));
    RunOfTwo(c, a, b);
    OneSpawn(c, q, a.o);
    var s1 := Next(c, BEGIN, a);
    SettleLone(s1.reg, q, f);
    CalmPass(AfterOneRun(q, f), c.budget, b.o);
  }

  lemma OneSpawn(c: Config, q: Request, o: Outside)
    requires q.prefix == 0 && q.spawnOk && Admits(c, Sampled(c, o.usage), q.caps.hard)
    requires Sampled(c, o.usage).Some? ==> c.budget == 0 || Sampled(c, o.usage).value < c.budget
    ensures var s := Next(c, BEGIN, DoAcquire(q, o));
            && s.reg == Reg(map[0 := Entry([Fresh(1, q.caps, o.now)], NO_DEMAND.NoteArrival(o.now).SeedHeap(q.caps.hard))],
                            1, 0, 0, 2, false, None)
            && (0, 1) in s.out
  {
    hide Acquire, Admits;
    FirstSpawn(c, q, o);
    assert [] + [Fresh(1, q.caps, o.now)] == [Fresh(1, q.caps, o.now)];
  }

  lemma SettleLone(r: Reg, q: Request, f: Finish)
    requires q.caps.soft == 0 && f.alive && !f.tainted
    requires r == Reg(map[0 := Entry([Fresh(1, q.caps, 0)], NO_DEMAND.NoteArrival(0).SeedHeap(q.caps.hard))], 1, 0, 0, 2, false, None)
    ensures Settle(r, 0, 1, f, 1) == AfterOneRun(q, f)
  {
    var x := Fresh(1, q.caps, 0);
    assert PositionOf([x], 1) == Some(0) by { assert [x][0].id == 1; }
    assert [x][0 := Instance(1, 0, q.caps, 0, false, 1, f.heap)] == [Instance(1, 0, q.caps, 0, false, 1, f.heap)];
  }

  /** Usage zero, or no budget, with the latch off: a pass changes nothing. */
  lemma CalmPass(r: Reg, budget: nat, o: Outside)
    requires !r.shedding && r.lastPass == None && (budget == 0 || o.usage == Some(0))
    ensures Pressure(r, budget, o) == r
  {
  }

  /** An idle live instance is there, the acquire's own pass evicts it, and the line refuses a new one. */
  lemma RefusedThoughIdle()
    ensures var c := Config(50, 60, 1);
            var q := Request(0, CAPS, id => 0, true);
            var s := Exec(c, [DoAcquire(q, Outside(0, Some(0), [])), DoRelease(0, 1, Finish(false, 5, 1.0, true), Outside(1, Some(0), [0]))]);
            && (exists x :: x in InstancesOf(s.reg.prefixes, 0) && IsReusable(x, CAPS))
            && Acquire(c, s.reg, q, Outside(9, Some(55), [0])).1.Refused?
  {
    hide Joinable, JoinChoice, Pressure, Exec, WarmestIdle;
    var c := Config(50, 60, 1);
    var q := Request(0, CAPS, id => 0, true);
    var f := Finish(false, 5, 1.0, true);
    OneRun(c, q, f);
    var r := AfterOneRun(q, f);
    var x := r.prefixes[0].instances[0];
    assert x in InstancesOf(r.prefixes, 0) && IsReusable(x, CAPS);
    LoneIdleEvicted(c, r, x, Outside(9, Some(55), [0]));
    NoneJoinable(CAPS);
  }

  lemma RunOfTwo(c: Config, a: Action, b: Action)
    ensures Exec(c, [a, b]) == Next(c, Next(c, BEGIN, a), b)
  {
    hide Next;
    assert [a, b][..1] == [a] && [a][..0] == [];
    assert Exec(c, [a]) == Next(c, Exec(c, []), a);
  }

  /** The very first acquire below both lines spawns. */
  lemma FirstSpawn(c: Config, q: Request, o: Outside)
    requires q.spawnOk && Admits(c, Sampled(c, o.usage), q.caps.hard)
    requires Sampled(c, o.usage).Some? ==> c.budget == 0 || Sampled(c, o.usage).value < c.budget
    ensures Acquire(c, EMPTY, q, o) ==
              Spawn(EMPTY, q.prefix, Entry([], NO_DEMAND.NoteArrival(o.now).SeedHeap(q.caps.hard)), q.caps, o.now)
  {
    hide Admits;
    NoneJoinable(q.caps);
  }

  /** Under the latch a lone idle instance goes. */
  lemma LoneIdleEvicted(c: Config, r: Reg, x: Instance, o: Outside)
    requires r.prefixes.Keys == {0} && r.prefixes[0].instances == [x] && IsIdle(x)
    requires r.idleTotal == 1 && r.lastPass == None && o.order == [0] && c.budget > 0
    requires o.usage.Some? && o.usage.value >= c.budget
    ensures Pressure(r, c.budget, o).prefixes.Keys == {0} && Pressure(r, c.budget, o).prefixes[0].instances == []
  {
    var v := VerdictFor(r, o.usage.value, c.budget);
    assert v == PressureVerdict(true, 1);
    var latched := r.(shedding := true);
    var cand := Candidate(0, x.id, FactOf(x));
    assert EntryCandidates(0, []) == [] && [x][..0] == [];
    assert EntryCandidates(0, [x]) == [cand];
    assert Candidates(r.prefixes, []) == [] && [0][..0] == [];
    assert Candidates(r.prefixes, [0]) == [cand];
    assert Facts([cand]) == [cand.fact];
    assert Victim(latched, o.now, [0]) == Some(cand);
    assert WithoutId([x], x.id) == WithoutId([], x.id) == [];
    assert Shed(latched, 1, o.now, [0]).0 == Drop(latched, cand);
  }

  /**
   * Within the ceiling, an acquire takes the prefix over `cores` exactly if the prefix is
   * full and has no live instance with these caps.
   */
  lemma CeilingBrokenExactly(c: Config, r: Reg, q: Request, o: Outside)
    requires CountLive(InstancesOf(Passed(c, r, o).prefixes, q.prefix)) <= c.cores
    ensures var s := InstancesOf(Passed(c, r, o).prefixes, q.prefix);
            CountLive(InstancesOf(Acquire(c, r, q, o).0.prefixes, q.prefix)) > c.cores <==>
              && Joinable(s, q.caps) == [] && CountLive(s) == c.cores
              && Admits(c, Sampled(c, o.usage), q.caps.hard) && q.spawnOk && !Passed(c, r, o).shedding
  {
    hide Pressure, WarmestIdle, Joinable, JoinChoice, Admits, CountLive;
    var passed := Passed(c, r, o);
    var s := InstancesOf(passed.prefixes, q.prefix);
    assert EntryOf(passed, q.prefix).instances == s;
    LiveSnoc(s, Fresh(passed.nextId, q.caps, o.now));
    var idle := WarmestIdle(s, q.caps);
    if idle.Some? {
      LiveUpdate(s, idle.value, s[idle.value].(inFlight := 1));
      assert idle.value in Joinable(s, q.caps);
    } else if Joinable(s, q.caps) != [] {
      var k := JoinChoice(c, Entry(s, Noted(passed, q, o.now)), q, !passed.shedding, Sampled(c, o.usage));
      if k.Some? { LiveUpdate(s, k.value, Attach(s[k.value])); }
    }
  }

  lemma LiveSnoc(s: seq<Instance>, x: Instance)
    ensures CountLive(s + [x]) == CountLive(s) + One(!x.dead)
  {
    assert (s + [x])[..|s|] == s;
  }

  lemma {:induction false} LiveUpdate(s: seq<Instance>, k: nat, x: Instance)
    requires k < |s| && x.dead == s[k].dead
    ensures CountLive(s[k := x]) == CountLive(s)
  {
    var now := s[k := x];
    if k == |s| - 1 {
      assert now[..|s| - 1] == s[..|s| - 1];
    } else {
      assert now[..|s| - 1] == s[..|s| - 1][k := x];
      LiveUpdate(s[..|s| - 1], k, x);
    }
  }

  /** One core, two pairs of caps: two live instances of one prefix. */
  lemma TwoCapsOneCore()
    ensures var c := Config(0, 0, 1);
            var q := Request(0, CAPS, id => 0, true);
            var s := Exec(c, [DoAcquire(q, Outside(0, None, [])), DoAcquire(q.(caps := HeapCaps(0, 20)), Outside(1, None, [0]))]);
            CountLive(InstancesOf(s.reg.prefixes, 0)) == 2
  {
    hide Acquire, Pressure;
    var c := Config(0, 0, 1);
    var q := Request(0, CAPS, id => 0, true);
    var a := DoAcquire(q, Outside(0, None, []));
    var b := DoAcquire(q.(caps := HeapCaps(0, 20)), Outside(1, None, [0]));
    RunOfTwo(c, a, b);
    var x := Fresh(1, CAPS, 0);
    var s1 := Next(c, BEGIN, a);
    OneSpawn(c, q, a.o);
    CalmPass(s1.reg, 0, Heard(c, b.o));
    SecondCaps(c, s1.reg, x, b);
  }

  lemma SecondCaps(c: Config, r: Reg, x: Instance, b: Action)
    requires r.prefixes.Keys == {0} && r.prefixes[0].instances == [x] && x == Fresh(1, CAPS, 0)
    requires b.DoAcquire? && b.q.prefix == 0 && b.q.caps == HeapCaps(0, 20) && b.q.spawnOk
    requires c == Config(0, 0, 1) && b.o.usage == None && Passed(c, r, b.o) == r && !r.shedding
    ensures CountLive(InstancesOf(Acquire(c, r, b.q, b.o).0.prefixes, 0)) == 2
  {
    hide JoinChoice, Pressure, WarmestIdle;
    assert [x][..0] == [] && Joinable([x], b.q.caps) == [] && CountLive([x]) == 1;
    LiveSnoc([x], Fresh(r.nextId, b.q.caps, b.o.now));
    assert Acquire(c, r, b.q, b.o).0.prefixes[0].instances == [x] + [Fresh(r.nextId, b.q.caps, b.o.now)];
  }

  /**
   * A further instance is created although usage plus the run's own cap is over the line:
   * its prefix's measured average fits.
   */
  lemma SpawnedOverTheLine()
    ensures var c := Config(0, 105, 2);
            var caps := HeapCaps(0, 80);
            var q := Request(0, caps, id => 900, true);
            var s := Exec(c, [DoAcquire(q, Outside(0, Some(0), [])),
                              DoRelease(0, 1, Finish(false, 1, 1.0, true), Outside(1, Some(0), [0]))]);
            var s' := Next(c, s, DoAcquire(q, Outside(2, Some(0), [0])));
            && !AdmitIsolate(AdmitFacts(40, caps.hard, c.hardLine, c.budget))
            && Acquire(c, s'.reg, q, Outside(3, Some(40), [0])).1 == Attached(2) && s'.reg.nextId == 2
  {
    hide Pressure, Exec, Acquire;
    var c := Config(0, 105, 2);
    var q := Request(0, HeapCaps(0, 80), id => 900, true);
    var f := Finish(false, 1, 1.0, true);
    OneRun(c, q, f);
    var r := AfterOneRun(q, f);
    SecondSpawn(c, q, r, r.prefixes[0].instances[0], r.prefixes[0].demand);
  }

  lemma SecondSpawn(c: Config, q: Request, r: Reg, idle: Instance, d: Demand)
    requires c == Config(0, 105, 2) && q.prefix == 0 && q.caps == HeapCaps(0, 80) && q.spawnOk && q.util(1) == 900
    requires idle == Instance(1, 0, q.caps, 0, false, 1, 1) && r == Reg(map[0 := Entry([idle], d)], 1, 0, 1, 2, false, None)
    requires d.heapBytes == Ewma(64.2, true)
    ensures var r' := Acquire(c, r, q, Outside(2, Some(0), [0])).0;
            Acquire(c, r', q, Outside(3, Some(40), [0])).1 == Attached(2) && r'.nextId == 2
  {
    hide Pressure, WarmestIdle, PickJoinTarget, JoinFallback;
    var busy := idle.(inFlight := 1);
    var r' := Acquire(c, r, q, Outside(2, Some(0), [0])).0;
    CalmPass(r, 0, Outside(2, Some(0), [0]));
    assert IsReusable([idle][0], q.caps);
    assert r'.prefixes[0] == Entry([busy], d.NoteArrival(2));
    CalmPass(r', 0, Outside(3, Some(40), [0]));
    assert [busy][..0] == [] && Joinable([busy], q.caps) == [0] && CountLive([busy]) == 1;
  }
}
