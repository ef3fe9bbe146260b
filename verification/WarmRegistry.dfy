// The registry as the object it is: counters, latch and entries updated in place, every
// critical section proved equal to the function that the theorems are about.

module WarmRegistryObject {
  import opened Wrappers
  import opened Policy
  import opened Registry
  import opened RegistryKeeps

  lemma CandidatesSnoc(m: map<PrefixId, Entry>, order: seq<PrefixId>, n: nat)
    requires n < |order|
    ensures Candidates(m, order[..n + 1])
         == Candidates(m, order[..n]) + if order[n] in m then EntryCandidates(order[n], m[order[n]].instances) else []
  {
    assert order[..n + 1][..n] == order[..n];
  }

  lemma EntryCandidatesSnoc(p: PrefixId, s: seq<Instance>, k: nat)
    requires k < |s|
    ensures EntryCandidates(p, s[..k + 1])
         == EntryCandidates(p, s[..k]) + if IsIdle(s[k]) then [Candidate(p, s[k].id, FactOf(s[k]))] else []
  {
    assert s[..k + 1][..k] == s[..k];
  }

  /** A pass of `n` from `start` has dropped `gone`, and is at `r` with `left` to drop. */
  ghost predicate Remaining(start: Reg, n: nat, gone: seq<Candidate>, r: Reg, left: nat, now: int, order: seq<PrefixId>)
  {
    var (end, all) := Shed(start, n, now, order);
    var (end', more) := Shed(r, left, now, order);
    end == end' && all == gone + more
  }

  lemma ShedOne(start: Reg, n: nat, gone: seq<Candidate>, r: Reg, left: nat, now: int, order: seq<PrefixId>)
    requires left > 0 && Remaining(start, n, gone, r, left, now, order) && Victim(r, now, order).Some?
    ensures var v := Victim(r, now, order).value; Remaining(start, n, gone + [v], Drop(r, v), left - 1, now, order)
  {
    hide Victim, Drop;
    var v := Victim(r, now, order).value;
    var more := Shed(Drop(r, v), left - 1, now, order).1;
    assert gone + ([v] + more) == (gone + [v]) + more;
  }

  lemma ShedNone(start: Reg, n: nat, gone: seq<Candidate>, r: Reg, left: nat, now: int, order: seq<PrefixId>)
    requires Remaining(start, n, gone, r, left, now, order) && Victim(r, now, order).None?
    ensures Remaining(start, n, gone, r, 0, now, order)
  {
    hide Victim, Drop;
  }

  class WarmRegistry {
    const config: Config
    var prefixes: map<PrefixId, Entry>
    var total: nat
    var oneoffRunning: nat
    var idleTotal: nat
    var nextInstanceId: nat
    var shedding: bool
    var lastPass: Option<nat>

    function Value(): Reg
      reads this
    {
      Reg(prefixes, total, oneoffRunning, idleTotal, nextInstanceId, shedding, lastPass)
    }

    constructor (config: Config)
      ensures Value() == EMPTY && this.config == config
    {
      this.config := config;
      prefixes, total, oneoffRunning, idleTotal, nextInstanceId := map[], 0, 0, 0, 1;
      shedding, lastPass := false, None;
    }

    /** Drops the best victim across all prefixes; false when nothing is idle. */
    method EvictScored(now: int, order: seq<PrefixId>) returns (found: bool)
      modifies this
      ensures var victim := Victim(old(Value()), now, order);
              found == victim.Some? && Value() == if found then Drop(old(Value()), victim.value) else old(Value())
    {
      var candidates: seq<Candidate> := [];
      var n := 0;
      while n < |order|
        invariant 0 <= n <= |order|
        invariant candidates == Candidates(prefixes, order[..n])
        invariant Value() == old(Value())
      {
        var p := order[n];
        CandidatesSnoc(prefixes, order, n);
        if p in prefixes {
          var s := prefixes[p].instances;
          var k := 0;
          while k < |s|
            invariant 0 <= k <= |s|
            invariant candidates == Candidates(prefixes, order[..n]) + EntryCandidates(p, s[..k])
            invariant Value() == old(Value())
          {
            EntryCandidatesSnoc(p, s, k);
            if IsIdle(s[k]) { candidates := candidates + [Candidate(p, s[k].id, FactOf(s[k]))]; }
            k := k + 1;
          }
          assert s[..k] == s;
        }
        n := n + 1;
      }
      assert order[..n] == order;
      var pick := PickVictim(Facts(candidates), now);
      if pick.None? { return false; }
      var victim := candidates[pick.value];
      VictimThere(victim, order);
      var entry := prefixes[victim.prefix];
      prefixes := prefixes[victim.prefix := entry.(instances := WithoutId(entry.instances, victim.id))];
      total := SaturatingSub(total, 1);
      idleTotal := SaturatingSub(idleTotal, 1);
      return true;
    }

    lemma VictimThere(v: Candidate, order: seq<PrefixId>)
      requires v in Candidates(prefixes, order)
      ensures v.prefix in prefixes
    {
      CandidatesExact(prefixes, order);
    }

    /** Folds one usage sample into the latch and sheds; true if new instances may be pooled. */
    method PressurePass(usage: Option<nat>, now: int, order: seq<PrefixId>) returns (admitWarm: bool)
      modifies this
      ensures Value() == Pressure(old(Value()), config.budget, Outside(now, usage, order))
      ensures admitWarm == !shedding
    {
      hide Victim, Drop, WatermarkAction;
      if usage.None? {
        shedding, lastPass := false, None;
        return true;
      }
      var verdict := WatermarkAction(PressureFacts(usage.value, config.budget, shedding, lastPass, idleTotal));
      shedding := verdict.shedding;
      if !verdict.shedding { lastPass := None; }
      if verdict.evict > 0 {
        ghost var latched := Value();
        ghost var gone: seq<Candidate> := [];
        var dropped := 0;
        var found := true;
        assert Remaining(latched, verdict.evict, [], Value(), verdict.evict, now, order);
        while dropped < verdict.evict && found
          invariant dropped == |gone| <= verdict.evict
          invariant shedding == latched.shedding && lastPass == latched.lastPass
          invariant Remaining(latched, verdict.evict, gone, Value(), if found then verdict.evict - dropped else 0, now, order)
          decreases verdict.evict - dropped, found
        {
          ghost var was := Value();
          ghost var victim := Victim(was, now, order);
          found := EvictScored(now, order);
          if found {
            DropLatch(was, victim.value);
            ShedOne(latched, verdict.evict, gone, was, verdict.evict - dropped, now, order);
            dropped := dropped + 1;
            gone := gone + [victim.value];
          } else {
            ShedNone(latched, verdict.evict, gone, was, verdict.evict - dropped, now, order);
          }
        }
        if dropped > 0 { lastPass := usage; }
      }
      return !verdict.shedding;
    }

    /** May a new isolate with this cap be created? No reading means no lines. */
    function Admit(usage: Option<nat>, cap: nat): bool
    {
      Admits(config, usage, cap)
    }

    /**
     * Takes an instance for a run: the warmest idle one, or a join, or a spawn; a cold
     * isolate or a refusal when nothing can be joined.
     */
    method Acquire(q: Request, usage: Option<nat>, now: int, order: seq<PrefixId>) returns (a: Acquired)
      modifies this
      ensures (Value(), a) == Registry.Acquire(config, old(Value()), q, Outside(now, usage, order))
    {
      hide Pressure, WarmestIdle, Joinable, Admits;
      var sampled := Sampled(config, usage);
      var admitWarm := PressurePass(sampled, now, order);
      ghost var passed := Value();
      var id := nextInstanceId;
      var entry := EntryOf(Value(), q.prefix);
      entry := entry.(demand := entry.demand.NoteArrival(now).SeedHeap(q.caps.hard));
      prefixes := prefixes[q.prefix := entry];
      var idle := WarmestIdle(entry.instances, q.caps);
      if idle.Some? {
        var instance := entry.instances[idle.value].(inFlight := 1);
        Replace(q.prefix, idle.value, instance);
        PutTwice(passed.prefixes, q.prefix, entry, prefixes[q.prefix]);
        idleTotal := SaturatingSub(idleTotal, 1);
        return Attached(instance.id);
      }
      if Joinable(entry.instances, q.caps) == [] {
        if !Admit(sampled, q.caps.hard) { return Refused; }
        if !q.spawnOk { return SpawnFailed; }
        total := total + 1;
        if !admitWarm {
          oneoffRunning := oneoffRunning + 1;
          return Cold;
        }
        Push(q.prefix, Fresh(id, q.caps, now));
        PutTwice(passed.prefixes, q.prefix, entry, prefixes[q.prefix]);
        nextInstanceId := nextInstanceId + 1;
        return Attached(id);
      }
      var choice := JoinChoice(config, entry, q, admitWarm, sampled);
      if choice.Some? {
        var joined := Attach(entry.instances[choice.value]);
        Replace(q.prefix, choice.value, joined);
        PutTwice(passed.prefixes, q.prefix, entry, prefixes[q.prefix]);
        return Attached(joined.id);
      }
      if !q.spawnOk { return SpawnFailed; }
      total := total + 1;
      nextInstanceId := nextInstanceId + 1;
      Push(q.prefix, Fresh(id, q.caps, now));
      PutTwice(passed.prefixes, q.prefix, entry, prefixes[q.prefix]);
      return Attached(id);
    }

    method Replace(p: PrefixId, k: nat, i: Instance)
      requires p in prefixes && k < |prefixes[p].instances|
      modifies this`prefixes
      ensures prefixes == old(prefixes)[p := old(prefixes)[p].(instances := old(prefixes)[p].instances[k := i])]
    {
      prefixes := prefixes[p := prefixes[p].(instances := prefixes[p].instances[k := i])];
    }

    method Push(p: PrefixId, i: Instance)
      requires p in prefixes
      modifies this`prefixes
      ensures prefixes == old(prefixes)[p := old(prefixes)[p].(instances := old(prefixes)[p].instances + [i])]
    {
      prefixes := prefixes[p := prefixes[p].(instances := prefixes[p].instances + [i])];
    }

    method ReserveOneoff(cap: nat, usage: Option<nat>, now: int, order: seq<PrefixId>) returns (ok: bool)
      modifies this
      ensures (Value(), ok) == Registry.ReserveOneoff(config, old(Value()), cap, Outside(now, usage, order))
    {
      hide Pressure, Admits;
      var sampled := Sampled(config, usage);
      var _ := PressurePass(sampled, now, order);
      if !Admit(sampled, cap) { return false; }
      total := total + 1;
      oneoffRunning := oneoffRunning + 1;
      return true;
    }

    method ReleaseOneoff(usage: Option<nat>, now: int, order: seq<PrefixId>)
      modifies this
      ensures Value() == Registry.ReleaseOneoff(config, old(Value()), Outside(now, usage, order))
    {
      hide Pressure;
      total := SaturatingSub(total, 1);
      oneoffRunning := SaturatingSub(oneoffRunning, 1);
      var _ := PressurePass(Sampled(config, usage), now, order);
    }

    /** One run left its instance, which then stays busy, goes idle or is dropped. */
    method Release(p: PrefixId, id: nat, f: Finish, usage: Option<nat>, now: int, order: seq<PrefixId>)
      modifies this
      ensures Value() == Registry.Release(config, old(Value()), p, id, f, Outside(now, usage, order))
    {
      hide Pressure, Settle;
      SettleRun(p, id, f, now);
      var _ := PressurePass(Sampled(config, usage), now, order);
    }

    method SettleRun(p: PrefixId, id: nat, f: Finish, now: int)
      modifies this
      ensures Value() == Settle(old(Value()), p, id, f, now)
    {
      hide PositionOf, ReleaseInstance;
      if p in prefixes {
        if !f.tainted {
          prefixes := prefixes[p := prefixes[p].(demand := prefixes[p].demand.NoteFinish(f.cpuMs, f.heap))];
        }
        var at := PositionOf(prefixes[p].instances, id);
        assert Value() == Put(old(Value()), p, prefixes[p]);
        if at.Some? {
          ReleasePut(old(Value()), p, prefixes[p], at.value, f, now);
          LeaveInstance(p, at.value, f, now);
        }
        if !f.alive && prefixes[p].instances == [] { prefixes := prefixes - {p}; }
      }
    }

    method LeaveInstance(p: PrefixId, k: nat, f: Finish, now: int)
      requires p in prefixes && k < |prefixes[p].instances|
      modifies this
      ensures Value() == ReleaseInstance(old(Value()), p, old(prefixes)[p], k, f, now)
      ensures p in prefixes
    {
      hide SoftStrike;
      var i := prefixes[p].instances[k];
      i := i.(inFlight := SaturatingSub(i.inFlight, 1));
      if !f.tainted && i.caps.soft > 0 {
        var (strikes, retire) := SoftStrike(i.strikes, f.heap > i.caps.soft);
        i := i.(strikes := strikes);
        if retire { i := i.(dead := true); }
      }
      if f.tainted || !f.alive { i := i.(dead := true); }
      if i.dead {
        if i.inFlight == 0 {
          prefixes := prefixes[p := prefixes[p].(instances := RemoveAt(prefixes[p].instances, k))];
          total := SaturatingSub(total, 1);
          return;
        }
      } else if i.inFlight == 0 {
        i := i.(lastUsed := now, heapUsed := f.heap);
        idleTotal := idleTotal + 1;
      }
      Replace(p, k, i);
    }

    /** Every instance of the prefix dies: the idle ones now, the busy ones when they drain. */
    method DisposePrefix(p: PrefixId)
      modifies this
      ensures Value() == Dispose(old(Value()), p)
    {
      if p !in prefixes { return; }
      var s := prefixes[p].instances;
      var kept: seq<Instance> := [];
      var dropped := 0;
      for k := 0 to |s|
        invariant kept == BusyDead(s[..k]) && dropped + |kept| == k
        invariant Value() == old(Value())
      {
        assert s[..k + 1][..k] == s[..k];
        if s[k].inFlight == 0 { dropped := dropped + 1; } else { kept := kept + [s[k].(dead := true)]; }
      }
      assert s[..|s|] == s;
      prefixes := prefixes[p := prefixes[p].(instances := kept)];
      total := SaturatingSub(total, dropped);
      idleTotal := SaturatingSub(idleTotal, dropped);
      if kept == [] { prefixes := prefixes - {p}; }
    }
  }

  lemma PutTwice(m: map<PrefixId, Entry>, p: PrefixId, e: Entry, e': Entry)
    ensures m[p := e][p := e'] == m[p := e']
  {
  }

  lemma ReleasePut(r: Reg, p: PrefixId, e: Entry, k: nat, f: Finish, now: int)
    requires k < |e.instances|
    ensures ReleaseInstance(Put(r, p, e), p, e, k, f, now) == ReleaseInstance(r, p, e, k, f, now)
  {
    hide Left, RemoveAt;
    PutTwice(r.prefixes, p, e, ReleaseInstance(r, p, e, k, f, now).prefixes[p]);
  }

  lemma DropLatch(r: Reg, v: Candidate)
    ensures Drop(r, v).shedding == r.shedding && Drop(r, v).lastPass == r.lastPass
  {
  }
}
