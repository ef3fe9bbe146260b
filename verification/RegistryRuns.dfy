// The registry over every sequence of its operations, each attachment released once.

module RegistryRuns {
  import opened Wrappers
  import opened Policy
  import opened PolicyTheorems
  import opened Registry
  import opened RegistryLedger
  import opened RegistryKeeps

  datatype Action =
    | DoAcquire(q: Request, o: Outside)
    | DoRelease(p: PrefixId, id: nat, f: Finish, o: Outside)
    | DoReserve(cap: nat, o: Outside)
    | DoReleaseOneoff(o: Outside)
    | DoDispose(p: PrefixId)

  /** The registry, who holds what, and the usage samples folded so far. */
  datatype Sys = Sys(reg: Reg, out: Ledger, ones: nat, samples: seq<Sample>)

  const BEGIN := Sys(EMPTY, multiset{}, 0, [])

  /** A hash map's iteration reaches every key. */
  predicate Covers(order: seq<PrefixId>, m: map<PrefixId, Entry>)
  {
    forall p | p in m :: p in order
  }

  function Next(c: Config, s: Sys, a: Action): Sys
  {
    match a
    case DoAcquire(q, o) =>
      if !Covers(o.order, s.reg.prefixes) then s
      else
        var (r, got) := Acquire(c, s.reg, q, o);
        Sys(r, Taken(s.out, q.prefix, got), s.ones + One(got.Cold?), s.samples + [Sampled(c, o.usage)])
    case DoRelease(p, id, f, o) =>
      if (p, id) !in s.out || !Covers(o.order, s.reg.prefixes) then s
      else Sys(Release(c, s.reg, p, id, f, o), s.out - multiset{(p, id)}, s.ones, s.samples + [Sampled(c, o.usage)])
    case DoReserve(cap, o) =>
      if !Covers(o.order, s.reg.prefixes) then s
      else
        var (r, ok) := ReserveOneoff(c, s.reg, cap, o);
        Sys(r, s.out, s.ones + One(ok), s.samples + [Sampled(c, o.usage)])
    case DoReleaseOneoff(o) =>
      if s.ones == 0 || !Covers(o.order, s.reg.prefixes) then s
      else Sys(ReleaseOneoff(c, s.reg, o), s.out, s.ones - 1, s.samples + [Sampled(c, o.usage)])
    case DoDispose(p) => s.(reg := Dispose(s.reg, p))
  }

  function Exec(c: Config, acts: seq<Action>): Sys
  {
    if acts == [] then BEGIN else Next(c, Exec(c, acts[..|acts| - 1]), acts[|acts| - 1])
  }

  // ── The books ───────────────────────────────────────────────────────────

  lemma NextBalanced(c: Config, s: Sys, a: Action)
    requires Balanced(s.reg, s.out, s.ones)
    ensures Balanced(Next(c, s, a).reg, Next(c, s, a).out, Next(c, s, a).ones)
  {
    hide Balanced, Acquire, Release, ReserveOneoff, ReleaseOneoff, Dispose;
    match a
    case DoAcquire(q, o) => AcquireKeeps(c, s.reg, q, o, s.out, s.ones);
    case DoRelease(p, id, f, o) =>
      if (p, id) in s.out { ReleaseKeeps(c, s.reg, p, id, f, o, s.out, s.ones); }
    case DoReserve(cap, o) => ReserveKeeps(c, s.reg, cap, o, s.out, s.ones);
    case DoReleaseOneoff(o) => if s.ones > 0 { ReleaseOneoffKeeps(c, s.reg, o, s.out, s.ones); }
    case DoDispose(p) => DisposeKeeps(s.reg, p, s.out, s.ones);
  }

  /**
   * In every reachable state: `total` is the pooled instances plus the running one-offs,
   * `idleTotal` the idle live ones, every run count the attachments out for it, no dead
   * instance is idle, ids are unique and below the next one, and each outstanding
   * attachment still has its instance.
   */
  lemma {:induction false} EveryRunBalanced(c: Config, acts: seq<Action>)
    ensures var s := Exec(c, acts); Balanced(s.reg, s.out, s.ones)
  {
    if acts == [] {
      assert Residents(map[]) == {} && IdleOf({}) == {};
    } else {
      EveryRunBalanced(c, acts[..|acts| - 1]);
      NextBalanced(c, Exec(c, acts[..|acts| - 1]), acts[|acts| - 1]);
    }
  }

  /** A release that is due finds its instance with a run to give back; so does a one-off. */
  lemma NothingSaturates(c: Config, acts: seq<Action>, p: PrefixId, id: nat)
    ensures var s := Exec(c, acts);
            && ((p, id) in s.out ==>
                  && p in s.reg.prefixes && PositionOf(s.reg.prefixes[p].instances, id).Some?
                  && s.reg.prefixes[p].instances[PositionOf(s.reg.prefixes[p].instances, id).value].inFlight == s.out[(p, id)]
                  && s.reg.total > 0)
            && (s.ones > 0 ==> s.reg.oneoff > 0 && s.reg.total > 0)
            && s.reg.idleTotal <= s.reg.total
  {
    EveryRunBalanced(c, acts);
    var s := Exec(c, acts);
    IdleSubset(Residents(s.reg.prefixes));
    if (p, id) in s.out {
      assert (p, id).0 == p && EntryOk(p, s.reg.prefixes[p].instances, s.out, s.reg.nextId);
      var k := PositionOf(s.reg.prefixes[p].instances, id).value;
      assert InstanceOk(p, s.reg.prefixes[p].instances[k], s.out, s.reg.nextId);
      SplitCount(s.reg.prefixes, p);
    }
  }

  lemma IdleSubset(rs: set<Resident>)
    ensures |IdleOf(rs)| <= |rs|
  {
    assert rs == IdleOf(rs) + (rs - IdleOf(rs));
  }

  // ── At most `cores` live instances per prefix and caps ──────────────────

  /** No pair of caps has more than `cores` live instances here. */
  ghost predicate Within(s: seq<Instance>, cores: nat)
  {
    forall caps :: |Joinable(s, caps)| <= cores
  }

  ghost predicate CoresOk(c: Config, m: map<PrefixId, Entry>)
  {
    forall p | p in m :: Within(m[p].instances, c.cores)
  }

  lemma {:induction false} JoinableUpdate(s: seq<Instance>, k: nat, x: Instance, caps: HeapCaps)
    requires k < |s|
    ensures |Joinable(s[k := x], caps)| + One(IsJoinable(s[k], caps)) == |Joinable(s, caps)| + One(IsJoinable(x, caps))
  {
    var now := s[k := x];
    if k == |s| - 1 {
      assert now[..|s| - 1] == s[..|s| - 1];
    } else {
      assert now[..|s| - 1] == s[..|s| - 1][k := x];
      JoinableUpdate(s[..|s| - 1], k, x, caps);
    }
  }

  lemma {:induction false} JoinableRemove(s: seq<Instance>, k: nat, caps: HeapCaps)
    requires k < |s|
    ensures |Joinable(RemoveAt(s, k), caps)| <= |Joinable(s, caps)|
  {
    if k == |s| - 1 {
      assert RemoveAt(s, k) == s[..|s| - 1];
    } else {
      var front := RemoveAt(s[..|s| - 1], k);
      assert RemoveAt(s, k) == front + [s[|s| - 1]];
      assert RemoveAt(s, k)[..|front|] == front;
      JoinableRemove(s[..|s| - 1], k, caps);
    }
  }

  lemma {:induction false} JoinableWithout(s: seq<Instance>, id: nat, caps: HeapCaps)
    ensures |Joinable(WithoutId(s, id), caps)| <= |Joinable(s, caps)|
  {
    if s != [] {
      var front := s[..|s| - 1];
      JoinableWithout(front, id, caps);
      if s[|s| - 1].id == id {
        assert WithoutId(s, id) == WithoutId(front, id);
      } else {
        assert WithoutId(s, id)[..|WithoutId(front, id)|] == WithoutId(front, id);
      }
    }
  }

  lemma {:induction false} JoinableLive(s: seq<Instance>, caps: HeapCaps)
    ensures |Joinable(s, caps)| <= CountLive(s)
  {
    if s != [] { JoinableLive(s[..|s| - 1], caps); }
  }

  lemma {:induction false} JoinableBusyDead(s: seq<Instance>, caps: HeapCaps)
    ensures Joinable(BusyDead(s), caps) == []
  {
    if s != [] {
      JoinableBusyDead(s[..|s| - 1], caps);
      var before := BusyDead(s[..|s| - 1]);
      if s[|s| - 1].inFlight == 0 {
        assert BusyDead(s) == before;
      } else {
        assert BusyDead(s)[..|before|] == before;
      }
    }
  }

  lemma {:induction false} ShedCores(c: Config, r: Reg, n: nat, now: int, order: seq<PrefixId>)
    requires CoresOk(c, r.prefixes)
    ensures CoresOk(c, Shed(r, n, now, order).0.prefixes)
    decreases n
  {
    hide Joinable, Victim;
    if n > 0 && Victim(r, now, order).Some? {
      var v := Victim(r, now, order).value;
      if v.prefix in r.prefixes {
        forall caps ensures |Joinable(WithoutId(r.prefixes[v.prefix].instances, v.id), caps)| <= c.cores {
          JoinableWithout(r.prefixes[v.prefix].instances, v.id, caps);
          assert |Joinable(r.prefixes[v.prefix].instances, caps)| <= c.cores;
        }
      }
      assert CoresOk(c, Drop(r, v).prefixes);
      ShedCores(c, Drop(r, v), n - 1, now, order);
    }
  }

  lemma PressureCores(c: Config, r: Reg, o: Outside)
    requires CoresOk(c, r.prefixes)
    ensures CoresOk(c, Pressure(r, c.budget, o).prefixes)
  {
    hide Joinable, Shed, WatermarkAction;
    if o.usage.Some? {
      var v := VerdictFor(r, o.usage.value, c.budget);
      ShedCores(c, r.(shedding := v.shedding, lastPass := if v.shedding then r.lastPass else None), v.evict, o.now, o.order);
    }
  }

  lemma PutCores(c: Config, r: Reg, p: PrefixId, e: Entry)
    requires CoresOk(c, r.prefixes) && Within(e.instances, c.cores)
    ensures CoresOk(c, Put(r, p, e).prefixes)
  {
    hide Joinable;
  }

  lemma UpdateCores(c: Config, s: seq<Instance>, k: nat, x: Instance)
    requires k < |s| && x.caps == s[k].caps && (s[k].dead ==> x.dead)
    requires Within(s, c.cores)
    ensures Within(s[k := x], c.cores)
  {
    hide Joinable;
    var now := s[k := x];
    forall caps ensures |Joinable(now, caps)| <= c.cores {
      JoinableUpdate(s, k, x, caps);
      assert |Joinable(s, caps)| <= c.cores;
    }
  }

  /** A spawn is one more of its own caps: the first of them, or below the ceiling. */
  lemma SpawnCores(c: Config, s: seq<Instance>, x: Instance)
    requires c.cores > 0 && Within(s, c.cores)
    requires Joinable(s, x.caps) == [] || CountLive(s) < c.cores
    ensures Within(s + [x], c.cores)
  {
    forall caps ensures |Joinable(s + [x], caps)| <= c.cores {
      assert (s + [x])[..|s|] == s;
      JoinableLive(s, caps);
      assert |Joinable(s, caps)| <= c.cores;
    }
  }

  lemma TakeCores(c: Config, r: Reg, q: Request, warm: bool, o: Outside)
    requires c.cores > 0 && CoresOk(c, r.prefixes)
    ensures CoresOk(c, Take(c, r, q, warm, o).0.prefixes)
  {
    hide Joinable, WarmestIdle, JoinChoice, CountLive, Admits;
    var was := EntryOf(r, q.prefix);
    var e := was.(demand := was.demand.NoteArrival(o.now).SeedHeap(q.caps.hard));
    forall caps ensures |Joinable(e.instances, caps)| <= c.cores {
      if q.prefix !in r.prefixes { assert |Joinable([], caps)| == 0 by { NoneJoinable(caps); } }
    }
    PutCores(c, r, q.prefix, e);
    var idle := WarmestIdle(e.instances, q.caps);
    if idle.Some? {
      var i := e.instances[idle.value];
      UpdateCores(c, e.instances, idle.value, i.(inFlight := 1));
      PutCores(c, r, q.prefix, e.(instances := e.instances[idle.value := i.(inFlight := 1)]));
    } else {
      var x := Fresh(r.nextId, q.caps, o.now);
      if Joinable(e.instances, q.caps) == [] {
        SpawnCores(c, e.instances, x);
        PutCores(c, r, q.prefix, e.(instances := e.instances + [x]));
      } else {
        match JoinChoice(c, e, q, warm, o.usage)
        case Some(k) =>
          UpdateCores(c, e.instances, k, Attach(e.instances[k]));
          PutCores(c, r, q.prefix, e.(instances := e.instances[k := Attach(e.instances[k])]));
        case None =>
          SpawnCores(c, e.instances, x);
          PutCores(c, r, q.prefix, e.(instances := e.instances + [x]));
      }
    }
  }

  lemma NoneJoinable(caps: HeapCaps)
    ensures Joinable([], caps) == []
  {
  }

  lemma SettleCores(c: Config, r: Reg, p: PrefixId, id: nat, f: Finish, now: int)
    requires CoresOk(c, r.prefixes)
    ensures CoresOk(c, Settle(r, p, id, f, now).prefixes)
  {
    hide Joinable, PositionOf, RemoveAt;
    if p in r.prefixes {
      var was := r.prefixes[p];
      var e := if f.tainted then was else was.(demand := was.demand.NoteFinish(f.cpuMs, f.heap));
      assert Within(e.instances, c.cores);
      PutCores(c, r, p, e);
      var at := PositionOf(e.instances, id);
      if at.Some? {
        var k := at.value;
        var i := Left(e.instances[k], f);
        UpdateCores(c, e.instances, k, i);
        UpdateCores(c, e.instances, k, i.(lastUsed := now, heapUsed := f.heap));
        forall caps ensures |Joinable(RemoveAt(e.instances, k), caps)| <= c.cores {
          JoinableRemove(e.instances, k, caps);
          assert |Joinable(e.instances, caps)| <= c.cores;
        }
      }
    }
  }

  lemma DisposeCores(c: Config, r: Reg, p: PrefixId)
    requires CoresOk(c, r.prefixes)
    ensures CoresOk(c, Dispose(r, p).prefixes)
  {
    hide Joinable, BusyDead;
    if p in r.prefixes {
      forall caps ensures |Joinable(BusyDead(r.prefixes[p].instances), caps)| <= c.cores {
        JoinableBusyDead(r.prefixes[p].instances, caps);
      }
    }
  }

  lemma NextCores(c: Config, s: Sys, a: Action)
    requires c.cores > 0 && CoresOk(c, s.reg.prefixes)
    ensures CoresOk(c, Next(c, s, a).reg.prefixes)
  {
    hide CoresOk, Pressure, Take, Settle, Dispose, Admits;
    match a
    case DoAcquire(q, o) =>
      var o' := o.(usage := Sampled(c, o.usage));
      PressureCores(c, s.reg, o');
      var passed := Pressure(s.reg, c.budget, o');
      TakeCores(c, passed, q, !passed.shedding, o');
    case DoRelease(p, id, f, o) =>
      SettleCores(c, s.reg, p, id, f, o.now);
      PressureCores(c, Settle(s.reg, p, id, f, o.now), o.(usage := Sampled(c, o.usage)));
    case DoReserve(cap, o) => PressureCores(c, s.reg, o.(usage := Sampled(c, o.usage)));
    case DoReleaseOneoff(o) =>
      PressureCores(c, s.reg.(total := SaturatingSub(s.reg.total, 1), oneoff := SaturatingSub(s.reg.oneoff, 1)),
                    o.(usage := Sampled(c, o.usage)));
    case DoDispose(p) => DisposeCores(c, s.reg, p);
  }

  /** Every reachable state has at most `cores` live instances per prefix and pair of caps. */
  lemma {:induction false} EveryRunCores(c: Config, acts: seq<Action>, p: PrefixId, caps: HeapCaps)
    requires c.cores > 0
    ensures CoresOk(c, Exec(c, acts).reg.prefixes)
    ensures |Joinable(InstancesOf(Exec(c, acts).reg.prefixes, p), caps)| <= c.cores
  {
    if acts != [] {
      EveryRunCores(c, acts[..|acts| - 1], p, caps);
      NextCores(c, Exec(c, acts[..|acts| - 1]), acts[|acts| - 1]);
    }
  }
}
