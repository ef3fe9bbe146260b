// The engine: the prefix store and the warm registry behind their two locks. A run looks
// its prefix up, later acquires an instance, and its release hook runs when it ends; other
// runs, disposals and failures happen in between.

module EngineState {
  import opened Wrappers
  import opened Policy
  import opened Registry
  import opened RegistryKeeps
  import opened WarmRegistryObject

  datatype Prefix = Ready | Broken

  /** What the two locks guard. */
  datatype Core = Core(prefixes: map<PrefixId, Prefix>, nextPrefixId: nat, warm: Reg)

  predicate Alive(c: Core, p: PrefixId)
  {
    p in c.prefixes && c.prefixes[p].Ready?
  }

  /** What a run learns of its prefix: that it may be served, that it is broken, or that it is gone. */
  datatype Looked = Serve | IsBroken | IsDisposed

  function LookedUp(c: Core, p: PrefixId): Looked
  {
    if p !in c.prefixes then IsDisposed else if c.prefixes[p].Ready? then Serve else IsBroken
  }

  function Prepared(c: Core): Core
  {
    c.(prefixes := c.prefixes[c.nextPrefixId := Ready], nextPrefixId := c.nextPrefixId + 1)
  }

  /** Store lock, warm lock inside: the prefix is forgotten and its instances die. */
  function Disposed(c: Core, p: PrefixId): Core
  {
    c.(prefixes := c.prefixes - {p}, warm := Dispose(c.warm, p))
  }

  /** A deterministic cold-start failure; a prefix already broken or disposed stays as it is. */
  function Failed(c: Core, p: PrefixId): Core
  {
    if Alive(c, p) then c.(prefixes := c.prefixes[p := Broken], warm := Dispose(c.warm, p)) else c
  }

  /** The release of a pooled run: whether the prefix is alive is read under the same locks. */
  function Finished(k: Config, c: Core, p: PrefixId, id: nat, f: Finish, o: Outside): Core
  {
    c.(warm := Release(k, c.warm, p, id, f.(alive := Alive(c, p)), o))
  }

  class Engine {
    const warm: WarmRegistry
    var prefixes: map<PrefixId, Prefix>
    var nextPrefixId: nat

    function Value(): Core
      reads this, warm
    {
      Core(prefixes, nextPrefixId, warm.Value())
    }

    constructor (config: Config)
      ensures Value() == Core(map[], 0, EMPTY) && warm.config == config && fresh(warm)
    {
      warm := new WarmRegistry(config);
      prefixes, nextPrefixId := map[], 0;
    }

    method Prepare() returns (p: PrefixId)
      modifies this
      ensures Value() == Prepared(old(Value())) && p == old(nextPrefixId)
    {
      p := nextPrefixId;
      nextPrefixId := nextPrefixId + 1;
      prefixes := prefixes[p := Ready];
    }

    method Lookup(p: PrefixId) returns (looked: Looked)
      ensures looked == LookedUp(Value(), p)
    {
      if p !in prefixes { return IsDisposed; }
      looked := match prefixes[p] case Ready => Serve case Broken => IsBroken;
    }

    method DisposePrefix(p: PrefixId) returns (existed: bool)
      modifies this, warm
      ensures Value() == Disposed(old(Value()), p) && existed == (p in old(prefixes))
    {
      existed := p in prefixes;
      prefixes := prefixes - {p};
      warm.DisposePrefix(p);
    }

    /** The release hook of a run: first the failure, if it was one, then the instance or the slot. */
    method MarkBroken(p: PrefixId)
      modifies this, warm
      ensures Value() == Failed(old(Value()), p)
    {
      if p in prefixes && prefixes[p].Ready? {
        prefixes := prefixes[p := Broken];
        warm.DisposePrefix(p);
      }
    }

    method ReleasePooled(p: PrefixId, id: nat, f: Finish, usage: Option<nat>, now: int, order: seq<PrefixId>)
      modifies warm
      ensures Value() == Finished(warm.config, old(Value()), p, id, f, Outside(now, usage, order))
    {
      var prefixAlive := p in prefixes && prefixes[p].Ready?;
      warm.Release(p, id, f.(alive := prefixAlive), usage, now, order);
    }
  }
}

module EngineRuns {
  import opened Wrappers
  import opened Policy
  import opened Registry
  import opened RegistryLedger
  import opened RegistryKeeps
  import opened RegistryRuns
  import opened RegistryTheorems
  import opened RegistryAcquire
  import opened EngineState

  /** A run holds an instance of its prefix, or a cold isolate. */
  datatype Run = OnInstance(p: PrefixId, id: nat) | OnCold(p: PrefixId)

  /**
   * The engine and its callers: runs between lookup and acquire, runs on instances, runs
   * on cold isolates, and one-off runs.
   */
  datatype System = System(core: Core, looked: multiset<PrefixId>, out: Ledger, cold: multiset<PrefixId>, oneoffs: nat)

  datatype Step =
    | Prepare
    | Lookup(p: PrefixId)
    | Reject(p: PrefixId)
    | AcquireFor(q: Request, o: Outside)
    | Fail(run: Run)
    | FinishRun(p: PrefixId, id: nat, f: Finish, o: Outside)
    | FinishCold(p: PrefixId, o: Outside)
    | DisposePrefix(p: PrefixId)
    | Reserve(cap: nat, o: Outside)
    | FinishOneoff(o: Outside)

  const BOOT := System(Core(map[], 0, EMPTY), multiset{}, multiset{}, multiset{}, 0)

  predicate Running(s: System, run: Run)
  {
    match run
    case OnInstance(p, id) => (p, id) in s.out
    case OnCold(p) => p in s.cold
  }

  /** One step; a step that cannot happen now changes nothing. */
  function Apply(k: Config, s: System, step: Step): System
  {
    match step
    case Prepare => s.(core := Prepared(s.core))
    case Lookup(p) => if Alive(s.core, p) then s.(looked := s.looked + multiset{p}) else s
    case Reject(p) => if p in s.looked then s.(looked := s.looked - multiset{p}) else s
    case AcquireFor(q, o) =>
      if q.prefix !in s.looked then s
      else
        var (warm, got) := Acquire(k, s.core.warm, q, o);
        System(s.core.(warm := warm), s.looked - multiset{q.prefix}, Taken(s.out, q.prefix, got),
               s.cold + (if got.Cold? then multiset{q.prefix} else multiset{}), s.oneoffs)
    case Fail(run) => if Running(s, run) then s.(core := Failed(s.core, run.p)) else s
    case FinishRun(p, id, f, o) =>
      if (p, id) !in s.out then s
      else s.(core := Finished(k, s.core, p, id, f, o), out := s.out - multiset{(p, id)})
    case FinishCold(p, o) =>
      if p !in s.cold then s
      else s.(core := s.core.(warm := ReleaseOneoff(k, s.core.warm, o)), cold := s.cold - multiset{p})
    case DisposePrefix(p) => s.(core := Disposed(s.core, p))
    case Reserve(cap, o) =>
      var (warm, ok) := ReserveOneoff(k, s.core.warm, cap, o);
      s.(core := s.core.(warm := warm), oneoffs := s.oneoffs + One(ok))
    case FinishOneoff(o) =>
      if s.oneoffs == 0 then s
      else s.(core := s.core.(warm := ReleaseOneoff(k, s.core.warm, o)), oneoffs := s.oneoffs - 1)
  }

  function From(k: Config, s: System, steps: seq<Step>): System
    decreases |steps|
  {
    if steps == [] then s else Apply(k, From(k, s, steps[..|steps| - 1]), steps[|steps| - 1])
  }

  // ── The invariant ───────────────────────────────────────────────────────

  ghost predicate NoIdle(s: seq<Instance>)
  {
    forall k :: 0 <= k < |s| ==> !IsIdle(s[k])
  }

  /** An idle instance is an instance of a prefix the store holds as Ready. */
  ghost predicate IdleIsReady(c: Core)
  {
    forall p | p in c.warm.prefixes && !Alive(c, p) :: NoIdle(c.warm.prefixes[p].instances)
  }

  ghost predicate Inv(s: System)
  {
    && Balanced(s.core.warm, s.out, s.oneoffs + |s.cold|)
    && (forall p | p in s.core.prefixes :: p < s.core.nextPrefixId)
    && (forall p | p in s.looked :: p < s.core.nextPrefixId)
    && IdleIsReady(s.core)
  }

  /** What the pool's instances of `p` lose, they lose without anything going idle. */
  ghost predicate Fewer(s: seq<Instance>, s': seq<Instance>)
  {
    NoIdle(s) ==> NoIdle(s')
  }

  lemma PassFewer(r: Reg, out: Ledger, ones: nat, budget: nat, o: Outside, p: PrefixId)
    requires Balanced(r, out, ones)
    ensures Fewer(InstancesOf(r.prefixes, p), InstancesOf(Pressure(r, budget, o).prefixes, p))
  {
    hide Balanced, Shed, IsIdle, WatermarkAction, Surviving;
    if o.usage.Some? {
      var v := VerdictFor(r, o.usage.value, budget);
      var latched := r.(shedding := v.shedding, lastPass := if v.shedding then r.lastPass else None);
      SameBooks(r, out, ones, latched, ones);
      ShedDrops(latched, out, ones, v.evict, o.now, o.order);
      var gone := Shed(latched, v.evict, o.now, o.order).1;
      if p in r.prefixes {
        var s, s' := r.prefixes[p].instances, Pressure(r, budget, o).prefixes[p].instances;
        SurvivingFrom(s, IdsOf(gone));
        forall k | 0 <= k < |s'| ensures NoIdle(s) ==> !IsIdle(s'[k]) { assert s'[k] in s; }
      }
    }
  }

  /** An acquire leaves nothing idle that was not. */
  lemma AcquireFewer(k: Config, r: Reg, out: Ledger, ones: nat, q: Request, o: Outside, p: PrefixId)
    requires Balanced(r, out, ones)
    ensures Fewer(InstancesOf(r.prefixes, p), InstancesOf(Acquire(k, r, q, o).0.prefixes, p))
  {
    hide Balanced, Pressure, WarmestIdle, Joinable, JoinChoice, Admits;
    PassFewer(r, out, ones, k.budget, Heard(k, o), p);
  }

  lemma ReserveFewer(k: Config, r: Reg, out: Ledger, ones: nat, cap: nat, o: Outside, p: PrefixId)
    requires Balanced(r, out, ones)
    ensures Fewer(InstancesOf(r.prefixes, p), InstancesOf(ReserveOneoff(k, r, cap, o).0.prefixes, p))
  {
    hide Balanced, Pressure, Admits;
    PassFewer(r, out, ones, k.budget, Heard(k, o), p);
  }

  lemma OneoffFewer(k: Config, r: Reg, out: Ledger, ones: nat, o: Outside, p: PrefixId)
    requires Balanced(r, out, ones) && ones > 0
    ensures Fewer(InstancesOf(r.prefixes, p), InstancesOf(ReleaseOneoff(k, r, o).prefixes, p))
  {
    hide Balanced, Pressure;
    var fewer := r.(total := SaturatingSub(r.total, 1), oneoff := SaturatingSub(r.oneoff, 1));
    SameBooks(r, out, ones, fewer, ones - 1) by { assert r.total > 0 && r.oneoff == ones by { OneoffCounted(r, out, ones); } }
    PassFewer(fewer, out, ones - 1, k.budget, Heard(k, o), p);
  }

  lemma OneoffCounted(r: Reg, out: Ledger, ones: nat)
    requires Balanced(r, out, ones)
    ensures r.oneoff == ones <= r.total
  {
  }

  /** A release makes an instance idle only for a prefix that is alive. */
  lemma ReleaseFewer(k: Config, r: Reg, out: Ledger, ones: nat, p: PrefixId, id: nat, f: Finish, o: Outside, q: PrefixId)
    requires Balanced(r, out, ones) && (p, id) in out && (q == p ==> !f.alive)
    ensures Fewer(InstancesOf(r.prefixes, q), InstancesOf(Release(k, r, p, id, f, o).prefixes, q))
  {
    hide Balanced, Pressure, PositionOf;
    SettleKeeps(r, p, id, f, o.now, out, ones);
    PassFewer(Settle(r, p, id, f, o.now), out - multiset{(p, id)}, ones, k.budget, Heard(k, o), q);
  }

  /** After a disposal nothing of the prefix is idle, and other prefixes keep what they have. */
  lemma DisposeNoIdle(r: Reg, out: Ledger, ones: nat, p: PrefixId, q: PrefixId)
    requires Balanced(r, out, ones)
    ensures NoIdle(InstancesOf(Dispose(r, p).prefixes, p))
    ensures q != p ==> InstancesOf(Dispose(r, p).prefixes, q) == InstancesOf(r.prefixes, q)
  {
    hide BusyDead, PositionOf;
    if p in r.prefixes {
      var s := r.prefixes[p].instances;
      assert EntryOk(p, s, out, r.nextId);
      forall k | 0 <= k < |s| ensures s[k].dead ==> s[k].inFlight > 0 { assert InstanceOk(p, s[k], out, r.nextId); }
      BusyDeadCounts(s);
    }
  }

  lemma AloneInv(c: Core, c': Core)
    requires IdleIsReady(c)
    requires forall p :: Alive(c', p) || (!Alive(c, p) && Fewer(InstancesOf(c.warm.prefixes, p), InstancesOf(c'.warm.prefixes, p)))
                      || NoIdle(InstancesOf(c'.warm.prefixes, p))
    ensures IdleIsReady(c')
  {
    hide NoIdle, Alive;
    forall p | p in c'.warm.prefixes && !Alive(c', p) ensures NoIdle(c'.warm.prefixes[p].instances) {
      NoneIdle();
      if p in c.warm.prefixes && !Alive(c, p) { assert NoIdle(c.warm.prefixes[p].instances); }
    }
  }

  lemma NoneIdle()
    ensures NoIdle([])
  {
  }

  /** A registry call that makes nothing idle keeps the invariant if it keeps the books. */
  lemma WarmStep(s: System, s': System)
    requires Inv(s) && s'.core == s.core.(warm := s'.core.warm)
    requires Balanced(s'.core.warm, s'.out, s'.oneoffs + |s'.cold|) && s'.looked <= s.looked
    requires forall p :: Fewer(InstancesOf(s.core.warm.prefixes, p), InstancesOf(s'.core.warm.prefixes, p))
    ensures Inv(s')
  {
    hide Balanced, Fewer, IdleIsReady, Alive;
    SameAlive(s.core, s'.core);
  }

  lemma AcquireStep(k: Config, s: System, q: Request, o: Outside)
    requires Inv(s) && q.prefix in s.looked
    ensures Inv(Apply(k, s, AcquireFor(q, o)))
  {
    hide Balanced, Acquire, Fewer, IdleIsReady;
    var r, ones, s' := s.core.warm, s.oneoffs + |s.cold|, Apply(k, s, AcquireFor(q, o));
    AcquireKeeps(k, r, q, o, s.out, ones);
    forall p ensures Fewer(InstancesOf(r.prefixes, p), InstancesOf(s'.core.warm.prefixes, p)) {
      AcquireFewer(k, r, s.out, ones, q, o, p);
    }
    WarmStep(s, s');
  }

  lemma ColdStep(k: Config, s: System, p: PrefixId, o: Outside)
    requires Inv(s) && p in s.cold
    ensures Inv(Apply(k, s, FinishCold(p, o)))
  {
    hide Balanced, ReleaseOneoff, Fewer, IdleIsReady;
    var r, ones, s' := s.core.warm, s.oneoffs + |s.cold|, Apply(k, s, FinishCold(p, o));
    assert s.cold == (s.cold - multiset{p}) + multiset{p};
    ReleaseOneoffKeeps(k, r, o, s.out, ones);
    forall q ensures Fewer(InstancesOf(r.prefixes, q), InstancesOf(s'.core.warm.prefixes, q)) {
      OneoffFewer(k, r, s.out, ones, o, q);
    }
    WarmStep(s, s');
  }

  lemma OneoffStep(k: Config, s: System, step: Step)
    requires Inv(s) && (step.Reserve? || (step.FinishOneoff? && s.oneoffs > 0))
    ensures Inv(Apply(k, s, step))
  {
    hide Balanced, ReserveOneoff, ReleaseOneoff, Fewer, IdleIsReady;
    var r, ones, s' := s.core.warm, s.oneoffs + |s.cold|, Apply(k, s, step);
    if step.Reserve? { ReserveKeeps(k, r, step.cap, step.o, s.out, ones); } else { ReleaseOneoffKeeps(k, r, step.o, s.out, ones); }
    forall p ensures Fewer(InstancesOf(r.prefixes, p), InstancesOf(s'.core.warm.prefixes, p)) {
      if step.Reserve? { ReserveFewer(k, r, s.out, ones, step.cap, step.o, p); } else { OneoffFewer(k, r, s.out, ones, step.o, p); }
    }
    WarmStep(s, s');
  }

  lemma SameAlive(c: Core, c': Core)
    requires IdleIsReady(c) && c'.prefixes == c.prefixes
    requires forall p :: Fewer(InstancesOf(c.warm.prefixes, p), InstancesOf(c'.warm.prefixes, p))
    ensures IdleIsReady(c')
  {
    hide NoIdle, Fewer;
    assert forall p :: Alive(c, p) <==> Alive(c', p);
    AloneInv(c, c');
  }

  lemma StoreStep(k: Config, s: System, step: Step)
    requires Inv(s)
    requires !(step.AcquireFor? || step.FinishCold? || step.Reserve? || step.FinishOneoff?)
    ensures Inv(Apply(k, s, step))
  {
    hide Balanced, Release, Dispose, IdleIsReady, Fewer, NoIdle;
    var r, ones, s' := s.core.warm, s.oneoffs + |s.cold|, Apply(k, s, step);
    match step
    case Prepare =>
      ReadyMore(s.core, s'.core);
    case Lookup(p) =>
    case Reject(p) =>
    case Fail(run) =>
      if Running(s, run) && Alive(s.core, run.p) {
        DisposeKeeps(r, run.p, s.out, ones);
        Disposing(s, run.p, s'.core);
      }
    case FinishRun(p, id, f, o) =>
      if (p, id) in s.out { FinishStep(k, s, p, id, f, o); }
    case DisposePrefix(p) =>
      DisposeKeeps(r, p, s.out, ones);
      Disposing(s, p, s'.core);
  }

  lemma FinishStep(k: Config, s: System, p: PrefixId, id: nat, f: Finish, o: Outside)
    requires Inv(s) && (p, id) in s.out
    ensures Inv(Apply(k, s, FinishRun(p, id, f, o)))
  {
    hide Balanced, Release, IdleIsReady, Fewer, NoIdle;
    var r, ones, s' := s.core.warm, s.oneoffs + |s.cold|, Apply(k, s, FinishRun(p, id, f, o));
    var g := f.(alive := Alive(s.core, p));
    ReleaseKeeps(k, r, p, id, g, o, s.out, ones);
    forall q ensures Alive(s'.core, q) || (!Alive(s.core, q) && Fewer(InstancesOf(r.prefixes, q), InstancesOf(s'.core.warm.prefixes, q))) {
      if !Alive(s.core, q) { ReleaseFewer(k, r, s.out, ones, p, id, g, o, q); }
    }
    AloneInv(s.core, s'.core);
  }

  lemma ReadyMore(c: Core, c': Core)
    requires IdleIsReady(c) && c'.warm == c.warm && forall p :: Alive(c, p) ==> Alive(c', p)
    ensures IdleIsReady(c')
  {
    hide NoIdle, Alive;
  }

  lemma Disposing(s: System, p: PrefixId, c': Core)
    requires Inv(s) && c'.warm == Dispose(s.core.warm, p) && forall q :: q != p ==> (Alive(c', q) <==> Alive(s.core, q))
    ensures IdleIsReady(c')
  {
    hide Balanced, NoIdle, Dispose, Alive, IdleIsReady;
    var r := s.core.warm;
    forall q ensures Alive(c', q) || (!Alive(s.core, q) && Fewer(InstancesOf(r.prefixes, q), InstancesOf(c'.warm.prefixes, q)))
                  || NoIdle(InstancesOf(c'.warm.prefixes, q))
    {
      DisposeNoIdle(r, s.out, s.oneoffs + |s.cold|, p, q);
    }
    AloneInv(s.core, c');
  }

  lemma EveryStep(k: Config, s: System, step: Step)
    requires Inv(s)
    ensures Inv(Apply(k, s, step))
  {
    hide Inv;
    match step
    case AcquireFor(q, o) => if q.prefix in s.looked { AcquireStep(k, s, q, o); }
    case FinishCold(p, o) => if p in s.cold { ColdStep(k, s, p, o); }
    case Reserve(_, _) => OneoffStep(k, s, step);
    case FinishOneoff(_) => if s.oneoffs > 0 { OneoffStep(k, s, step); }
    case _ => StoreStep(k, s, step);
  }

  lemma {:induction false} EveryRunFrom(k: Config, s: System, steps: seq<Step>)
    requires Inv(s)
    ensures Inv(From(k, s, steps))
    decreases |steps|
  {
    hide Inv, Apply;
    if steps != [] {
      EveryRunFrom(k, s, steps[..|steps| - 1]);
      EveryStep(k, From(k, s, steps[..|steps| - 1]), steps[|steps| - 1]);
    }
  }

  lemma BootInv()
    ensures Inv(BOOT)
  {
    assert Residents(map[]) == {} && IdleOf({}) == {};
  }

  /**
   * In every interleaving of preparations, lookups, acquires, failures, releases and
   * disposals: an idle instance exists only while the store holds its prefix as Ready,
   * and a prefix gone or broken whose attachments are all released has no instance at all.
   */
  lemma EveryInterleaving(k: Config, steps: seq<Step>, p: PrefixId)
    ensures var s := From(k, BOOT, steps);
            && Inv(s)
            && (!Alive(s.core, p) ==> NoIdle(InstancesOf(s.core.warm.prefixes, p)))
            && (!Alive(s.core, p) && (forall id :: (p, id) !in s.out) ==> InstancesOf(s.core.warm.prefixes, p) == [])
  {
    hide From;
    BootInv();
    EveryRunFrom(k, BOOT, steps);
    Drained(From(k, BOOT, steps), p);
  }

  lemma Drained(s: System, p: PrefixId)
    requires Inv(s)
    ensures !Alive(s.core, p) ==> NoIdle(InstancesOf(s.core.warm.prefixes, p))
    ensures !Alive(s.core, p) && (forall id :: (p, id) !in s.out) ==> InstancesOf(s.core.warm.prefixes, p) == []
  {
    hide Balanced;
    NoneIdle();
    if InstancesOf(s.core.warm.prefixes, p) != [] && forall id :: (p, id) !in s.out { UnattachedIsIdle(s, p); }
  }

  lemma UnattachedIsIdle(s: System, p: PrefixId)
    requires Inv(s) && InstancesOf(s.core.warm.prefixes, p) != [] && forall id :: (p, id) !in s.out
    ensures IsIdle(InstancesOf(s.core.warm.prefixes, p)[0])
  {
    hide CountersOk, PositionOf;
    var at := InstancesOf(s.core.warm.prefixes, p);
    assert EntryOk(p, at, s.out, s.core.warm.nextId);
    assert InstanceOk(p, at[0], s.out, s.core.warm.nextId);
    assert (p, at[0].id) !in s.out;
  }

  // ── For good ────────────────────────────────────────────────────────────

  /** Prepared once, now broken or gone. */
  predicate Over(s: System, p: PrefixId)
  {
    p < s.core.nextPrefixId && !Alive(s.core, p)
  }

  /** Over, and no run of the prefix can still reach the pool. */
  ghost predicate Settled(s: System, p: PrefixId)
  {
    Over(s, p) && p !in s.looked && forall id :: (p, id) !in s.out
  }

  lemma OverStep(k: Config, s: System, step: Step, p: PrefixId)
    requires Over(s, p)
    ensures Over(Apply(k, s, step), p)
  {
    hide Acquire, Release, ReserveOneoff, ReleaseOneoff, Dispose, Running;
  }

  /** Attachments of a prefix come from its lookups, and lookups from a prefix that is alive. */
  lemma SettledStep(k: Config, s: System, step: Step, p: PrefixId)
    requires Settled(s, p)
    ensures Settled(Apply(k, s, step), p)
  {
    hide Acquire, Release, ReserveOneoff, ReleaseOneoff, Dispose, Running, Over, Failed, Disposed, Prepared, Finished;
    OverStep(k, s, step, p);
    OverIsNotAlive(s, p);
    forall id ensures (p, id) !in Apply(k, s, step).out { assert (p, id) !in s.out; }
  }

  lemma OverIsNotAlive(s: System, p: PrefixId)
    requires Over(s, p)
    ensures !Alive(s.core, p)
  {
  }

  /**
   * Prefix ids are never used again and a broken prefix never recovers; once its last
   * attachment and lookup are gone too, no instance of it ever exists again.
   */
  lemma {:induction false} OverForGood(k: Config, s: System, steps: seq<Step>, p: PrefixId)
    requires Inv(s) && Over(s, p)
    ensures Over(From(k, s, steps), p)
    ensures Settled(s, p) ==> Settled(From(k, s, steps), p) && InstancesOf(From(k, s, steps).core.warm.prefixes, p) == []
    decreases |steps|
  {
    hide Inv, Apply, Over;
    EveryRunFrom(k, s, steps);
    if steps != [] {
      OverForGood(k, s, steps[..|steps| - 1], p);
      var before := From(k, s, steps[..|steps| - 1]);
      OverStep(k, before, steps[|steps| - 1], p);
      if Settled(before, p) { SettledStep(k, before, steps[|steps| - 1], p); }
    }
    GoneFromPool(From(k, s, steps), p);
  }

  lemma GoneFromPool(s: System, p: PrefixId)
    requires Inv(s)
    ensures Settled(s, p) ==> InstancesOf(s.core.warm.prefixes, p) == []
  {
    hide Inv;
    Drained(s, p);
  }

  // ── What stays behind ───────────────────────────────────────────────────

  /** A release for a prefix that is over leaves its entry exactly if instances are left in it. */
  lemma ReleaseTakesEntry(k: Config, s: System, p: PrefixId, id: nat, f: Finish, o: Outside)
    requires Inv(s) && (p, id) in s.out && !Alive(s.core, p)
    ensures p in Apply(k, s, FinishRun(p, id, f, o)).core.warm.prefixes <==>
              InstancesOf(Settle(s.core.warm, p, id, f.(alive := false), o.now).prefixes, p) != []
  {
    hide Pressure, PositionOf, Balanced;
    var r, ones, g := s.core.warm, s.oneoffs + |s.cold|, f.(alive := false);
    SettleKeeps(r, p, id, g, o.now, s.out, ones);
    PressureKeeps(Settle(r, p, id, g, o.now), s.out - multiset{(p, id)}, ones, k.budget, Heard(k, o));
  }

  /** A disposal leaves the entry exactly if something in it is running. */
  lemma DisposalTakesEntry(r: Reg, p: PrefixId)
    ensures p in Dispose(r, p).prefixes <==>
              exists i :: 0 <= i < |InstancesOf(r.prefixes, p)| && InstancesOf(r.prefixes, p)[i].inFlight > 0
  {
    hide BusyDead;
    BusyKept(InstancesOf(r.prefixes, p));
  }

  lemma {:induction false} BusyKept(s: seq<Instance>)
    ensures BusyDead(s) != [] <==> exists i :: 0 <= i < |s| && s[i].inFlight > 0
  {
    if s != [] {
      BusyKept(s[..|s| - 1]);
      if s[|s| - 1].inFlight > 0 { assert s[|s| - 1].inFlight > 0; }
    }
  }

  /** A lookup, a disposal, then the refused acquire: an empty entry of a prefix that is gone stays. */
  lemma EntryLeftBehind()
    ensures var q := Request(0, CAPS, id => 0, true);
            var s := From(Config(0, 5, 1), BOOT, [Prepare, Lookup(0), DisposePrefix(0), AcquireFor(q, Outside(0, Some(9), []))]);
            Settled(s, 0) && 0 in s.core.warm.prefixes && InstancesOf(s.core.warm.prefixes, 0) == []
  {
    hide Apply;
    var k := Config(0, 5, 1);
    var q := Request(0, CAPS, id => 0, true);
    var o := Outside(0, Some(9), []);
    FromFour(k, BOOT, Prepare, Lookup(0), DisposePrefix(0), AcquireFor(q, o));
    LookedUpThenGone(k);
    RefusedWhenGone(k, q, o);
  }

  /** Looked up, then disposed of before its acquire. */
  const LATE := System(Core(map[], 1, EMPTY), multiset{0}, multiset{}, multiset{}, 0)

  lemma LookedUpThenGone(k: Config)
    ensures Apply(k, Apply(k, Apply(k, BOOT, Prepare), Lookup(0)), DisposePrefix(0)) == LATE
  {
  }

  lemma RefusedWhenGone(k: Config, q: Request, o: Outside)
    requires k.budget == 0 && !Admits(k, Sampled(k, o.usage), q.caps.hard) && q.prefix == 0
    ensures var s := Apply(k, LATE, AcquireFor(q, o));
            Settled(s, 0) && 0 in s.core.warm.prefixes && InstancesOf(s.core.warm.prefixes, 0) == []
  {
    hide Acquire, Admits;
    FirstRefused(k, q, o);
  }

  lemma FirstRefused(k: Config, q: Request, o: Outside)
    requires k.budget == 0 && !Admits(k, Sampled(k, o.usage), q.caps.hard)
    ensures var (r, a) := Acquire(k, EMPTY, q, o);
            a.Refused? && q.prefix in r.prefixes && r.prefixes[q.prefix].instances == []
  {
    hide Acquire, Pressure, Admits, Balanced;
    BootInv();
    CalmPass(EMPTY, 0, Heard(k, o));
    NoneJoinable(q.caps);
    AcquireAnswers(k, EMPTY, q, o);
    RefusalTakes(k, EMPTY, multiset{}, 0, q, o);
  }

  lemma FromFour(k: Config, s: System, a: Step, b: Step, c: Step, d: Step)
    ensures From(k, s, [a, b, c, d]) == Apply(k, Apply(k, Apply(k, Apply(k, s, a), b), c), d)
  {
    hide Apply;
    assert [a, b, c, d][..3] == [a, b, c] && [a, b, c][..2] == [a, b] && [a, b][..1] == [a] && [a][..0] == [];
    assert From(k, s, [a]) == Apply(k, From(k, s, []), a);
    assert From(k, s, [a, b]) == Apply(k, From(k, s, [a]), b);
    assert From(k, s, [a, b, c]) == Apply(k, From(k, s, [a, b]), c);
  }
}
