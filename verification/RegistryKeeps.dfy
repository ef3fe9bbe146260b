// Every registry operation keeps the books balanced.

module RegistryKeeps {
  import opened Wrappers
  import opened Policy
  import opened Registry
  import opened RegistryLedger

  // ── Lists of instances ──────────────────────────────────────────────────

  function One(b: bool): nat { if b then 1 else 0 }

  lemma {:induction false} CountIdleUpdate(s: seq<Instance>, k: nat, x: Instance)
    requires k < |s|
    ensures CountIdle(s[k := x]) + One(IsIdle(s[k])) == CountIdle(s) + One(IsIdle(x))
  {
    var now := s[k := x];
    if k == |s| - 1 {
      assert now[..|s| - 1] == s[..|s| - 1];
    } else {
      assert now[..|s| - 1] == s[..|s| - 1][k := x];
      CountIdleUpdate(s[..|s| - 1], k, x);
    }
  }

  lemma {:induction false} CountIdleRemove(s: seq<Instance>, k: nat)
    requires k < |s|
    ensures CountIdle(RemoveAt(s, k)) + One(IsIdle(s[k])) == CountIdle(s)
  {
    var now := RemoveAt(s, k);
    if k == |s| - 1 {
      assert now == s[..|s| - 1];
    } else {
      var front := RemoveAt(s[..|s| - 1], k);
      assert now == front + [s[|s| - 1]];
      CountIdleRemove(s[..|s| - 1], k);
      CountIdleSnoc(front, s[|s| - 1]);
    }
  }

  lemma CountIdleSnoc(s: seq<Instance>, x: Instance)
    ensures CountIdle(s + [x]) == CountIdle(s) + One(IsIdle(x))
  {
    assert (s + [x])[..|s|] == s;
  }

  lemma {:induction false} WithoutIsRemove(s: seq<Instance>, k: nat)
    requires DistinctIds(s) && k < |s|
    ensures WithoutId(s, s[k].id) == RemoveAt(s, k)
  {
    var front := s[..|s| - 1];
    if k == |s| - 1 {
      WithoutOther(front, s[k].id);
    } else {
      assert front[k] == s[k];
      WithoutIsRemove(front, k);
      assert RemoveAt(front, k) + [s[|s| - 1]] == RemoveAt(s, k);
    }
  }

  lemma {:induction false} WithoutOther(s: seq<Instance>, id: nat)
    requires forall j :: 0 <= j < |s| ==> s[j].id != id
    ensures WithoutId(s, id) == s
  {
    if s != [] { WithoutOther(s[..|s| - 1], id); }
  }

  // ── One-entry changes ───────────────────────────────────────────────────

  /** Replacing the instance at `k`, its attachments changing with its run count. */
  lemma EntryUpdate(p: PrefixId, s: seq<Instance>, k: nat, x: Instance, out: Ledger, out': Ledger, next: nat)
    requires EntryOk(p, s, out, next) && k < |s| && x.id == s[k].id && (x.dead ==> x.inFlight > 0)
    requires out'[(p, x.id)] == x.inFlight && forall id :: id != x.id ==> out'[(p, id)] == out[(p, id)]
    ensures EntryOk(p, s[k := x], out', next)
  {
    hide PositionOf;
    var now := s[k := x];
    forall id | (p, id) in out' ensures PositionOf(now, id).Some? {
      if id == x.id {
        assert now[k].id == id;
      } else {
        assert out'[(p, id)] == out[(p, id)];
        var at := PositionOf(s, id).value;
        assert now[at].id == id;
      }
    }
    forall j | 0 <= j < |now| ensures InstanceOk(p, now[j], out', next) {
      if j != k { assert InstanceOk(p, s[j], out, next) && s[j].id != s[k].id; }
    }
  }

  lemma KeptIds(s: seq<Instance>, s': seq<Instance>, from: seq<nat>)
    requires |from| == |s'| && forall j :: 0 <= j < |s'| ==> from[j] < |s| && s'[j].id == s[from[j]].id
    ensures forall j :: 0 <= j < |s'| ==> PositionOf(s, s'[j].id).Some?
  {
    forall j | 0 <= j < |s'| ensures PositionOf(s, s'[j].id).Some? { assert s[from[j]].id == s'[j].id; }
  }

  /** The instance at `k` of a balanced registry changes in place. */
  lemma UpdateBalanced(r: Reg, out: Ledger, ones: nat, p: PrefixId, k: nat, x: Instance, d: Demand,
                       r': Reg, out': Ledger)
    requires Balanced(r, out, ones) && p in r.prefixes && k < |r.prefixes[p].instances|
    requires var s := r.prefixes[p].instances;
             && r'.prefixes == r.prefixes[p := Entry(s[k := x], d)]
             && x.id == s[k].id && (x.dead ==> x.inFlight > 0)
             && out'[(p, x.id)] == x.inFlight
             && r'.idleTotal + One(IsIdle(s[k])) == r.idleTotal + One(IsIdle(x))
    requires forall key :: key != (p, x.id) ==> out'[key] == out[key]
    requires r'.total == r.total && r'.oneoff == r.oneoff && r'.nextId == r.nextId
    ensures Balanced(r', out', ones)
  {
    hide CountIdle, PositionOf, CountersOk;
    var s := r.prefixes[p].instances;
    EntryUpdate(p, s, k, x, out, out', r.nextId);
    CountIdleUpdate(s, k, x);
    KeptIds(s, s[k := x], seq(|s|, j => j));
    assert r'.prefixes - {p} == r.prefixes - {p};
    Rebalance(r, out, ones, p, r', out', ones);
  }

  lemma RemoveAtIndex(s: seq<Instance>, k: nat, j: nat)
    requires k < |s| && j < |s| - 1
    ensures |RemoveAt(s, k)| == |s| - 1 && RemoveAt(s, k)[j] == s[if j < k then j else j + 1]
  {
  }

  lemma RemoveDistinct(s: seq<Instance>, k: nat)
    requires DistinctIds(s) && k < |s|
    ensures DistinctIds(RemoveAt(s, k))
    ensures forall j :: 0 <= j < |s| - 1 ==> RemoveAt(s, k)[j].id != s[k].id
    ensures forall id :: PositionOf(s, id).Some? && id != s[k].id ==> PositionOf(RemoveAt(s, k), id).Some?
  {
    hide PositionOf, RemoveAt;
    RemoveAtSize(s, k);
    forall i, j | 0 <= i < j < |s| - 1 ensures RemoveAt(s, k)[i].id != RemoveAt(s, k)[j].id {
      RemoveAtIndex(s, k, i);
      RemoveAtIndex(s, k, j);
    }
    forall j | 0 <= j < |s| - 1 ensures RemoveAt(s, k)[j].id != s[k].id { RemoveAtIndex(s, k, j); }
    forall id | PositionOf(s, id).Some? && id != s[k].id ensures PositionOf(RemoveAt(s, k), id).Some? {
      var at := PositionOf(s, id).value;
      var j := if at < k then at else at - 1;
      RemoveAtIndex(s, k, j);
      assert RemoveAt(s, k)[j].id == id;
    }
  }

  lemma EntryRemove(p: PrefixId, s: seq<Instance>, k: nat, out: Ledger, out': Ledger, next: nat)
    requires EntryOk(p, s, out, next) && k < |s|
    requires out'[(p, s[k].id)] == 0 && forall id :: id != s[k].id ==> out'[(p, id)] == out[(p, id)]
    ensures EntryOk(p, RemoveAt(s, k), out', next)
  {
    hide PositionOf, RemoveAt;
    RemoveDistinct(s, k);
    var now := RemoveAt(s, k);
    RemoveAtSize(s, k);
    forall j | 0 <= j < |now| ensures InstanceOk(p, now[j], out', next) {
      RemoveAtIndex(s, k, j);
      assert InstanceOk(p, s[if j < k then j else j + 1], out, next);
    }
    forall id | (p, id) in out' ensures PositionOf(now, id).Some? {
      assert id != s[k].id && out'[(p, id)] == out[(p, id)];
    }
  }

  lemma RemoveAtSize(s: seq<Instance>, k: nat)
    requires k < |s|
    ensures |RemoveAt(s, k)| == |s| - 1
  {
  }

  /** The instance at `k`, with no attachment left, goes. */
  lemma RemoveBalanced(r: Reg, out: Ledger, ones: nat, p: PrefixId, k: nat, d: Demand, r': Reg, out': Ledger)
    requires Balanced(r, out, ones) && p in r.prefixes && k < |r.prefixes[p].instances|
    requires var s := r.prefixes[p].instances;
             && r'.prefixes == r.prefixes[p := Entry(RemoveAt(s, k), d)]
             && out'[(p, s[k].id)] == 0
             && (forall key :: key != (p, s[k].id) ==> out'[key] == out[key])
             && r'.idleTotal + One(IsIdle(s[k])) == r.idleTotal
    requires r'.total + 1 == r.total && r'.oneoff == r.oneoff && r'.nextId == r.nextId
    ensures Balanced(r', out', ones)
  {
    hide CountIdle, PositionOf, RemoveAt, CountersOk;
    var s := r.prefixes[p].instances;
    EntryRemove(p, s, k, out, out', r.nextId);
    CountIdleRemove(s, k);
    RemoveAtSize(s, k);
    forall j | 0 <= j < |s| - 1 ensures PositionOf(s, RemoveAt(s, k)[j].id).Some? {
      RemoveAtIndex(s, k, j);
      assert s[if j < k then j else j + 1].id == RemoveAt(s, k)[j].id;
    }
    assert r'.prefixes - {p} == r.prefixes - {p};
    Rebalance(r, out, ones, p, r', out', ones);
  }

  /** A prefix without an entry has nothing outstanding. */
  lemma EntryThere(r: Reg, out: Ledger, ones: nat, p: PrefixId)
    requires Balanced(r, out, ones)
    ensures EntryOk(p, InstancesOf(r.prefixes, p), out, r.nextId)
  {
    forall id | (p, id) in out ensures p in r.prefixes { assert (p, id).0 == p; }
  }

  /** The entry of `p` is created or only its statistics change. */
  lemma TouchBalanced(r: Reg, out: Ledger, ones: nat, p: PrefixId, d: Demand)
    requires Balanced(r, out, ones)
    ensures Balanced(Put(r, p, Entry(InstancesOf(r.prefixes, p), d)), out, ones)
  {
    hide CountIdle, PositionOf, CountersOk;
    var s := InstancesOf(r.prefixes, p);
    var r' := Put(r, p, Entry(s, d));
    EntryThere(r, out, ones, p);
    KeptIds(s, s, seq(|s|, j => j));
    assert r'.prefixes - {p} == r.prefixes - {p};
    Rebalance(r, out, ones, p, r', out, ones);
  }

  /** A new instance with one attachment joins the end of the entry. */
  lemma SpawnBalanced(r: Reg, out: Ledger, ones: nat, p: PrefixId, d: Demand, caps: HeapCaps, now: int)
    requires Balanced(r, out, ones)
    ensures Balanced(Spawn(r, p, Entry(InstancesOf(r.prefixes, p), d), caps, now).0, out + multiset{(p, r.nextId)}, ones)
  {
    hide CountIdle, PositionOf, CountersOk, InstanceOk, DistinctIds;
    var s := InstancesOf(r.prefixes, p);
    var x := Fresh(r.nextId, caps, now);
    var r' := Spawn(r, p, Entry(s, d), caps, now).0;
    EntryThere(r, out, ones, p);
    EntrySnoc(p, s, x, out, r.nextId);
    CountIdleSnoc(s, x);
    forall k | 0 <= k < |s + [x]| ensures (s + [x])[k].id >= r.nextId || PositionOf(s, (s + [x])[k].id).Some? {
      if k < |s| { assert (s + [x])[k].id == s[k].id; }
    }
    assert r'.prefixes - {p} == r.prefixes - {p};
    Rebalance(r, out, ones, p, r', out + multiset{(p, r.nextId)}, ones);
  }

  lemma EntrySnoc(p: PrefixId, s: seq<Instance>, x: Instance, out: Ledger, next: nat)
    requires EntryOk(p, s, out, next) && x.id == next && x.inFlight == 1 && !x.dead
    ensures EntryOk(p, s + [x], out + multiset{(p, next)}, next + 1)
  {
    hide PositionOf;
    var out' := out + multiset{(p, next)};
    forall id | (p, id) in out ensures id < next {
      var at := PositionOf(s, id).value;
      assert s[at].id == id;
    }
    forall id | (p, id) in out' ensures PositionOf(s + [x], id).Some? {
      if id == next {
        assert (s + [x])[|s|].id == id;
      } else {
        assert (p, id) in out;
        assert (s + [x])[PositionOf(s, id).value].id == id;
      }
    }
    forall k | 0 <= k < |s + [x]| ensures InstanceOk(p, (s + [x])[k], out', next + 1) {
      if k < |s| { assert InstanceOk(p, s[k], out, next); }
    }
  }

  lemma SameBooks(r: Reg, out: Ledger, ones: nat, r': Reg, ones': nat)
    requires Balanced(r, out, ones) && r'.prefixes == r.prefixes && r'.nextId == r.nextId
    requires r'.idleTotal == r.idleTotal && r'.oneoff + ones == r.oneoff + ones' && r'.total + ones == r.total + ones'
    ensures Balanced(r', out, ones')
  {
  }

  // ── Eviction ────────────────────────────────────────────────────────────

  /** `c` describes an idle instance of the pool. */
  ghost predicate Backs(m: map<PrefixId, Entry>, c: Candidate, k: nat)
  {
    && c.prefix in m && k < |m[c.prefix].instances|
    && IsIdle(m[c.prefix].instances[k]) && m[c.prefix].instances[k].id == c.id
    && FactOf(m[c.prefix].instances[k]) == c.fact
  }

  lemma {:induction false} EntryCandidatesExact(p: PrefixId, s: seq<Instance>)
    ensures forall c | c in EntryCandidates(p, s) :: exists k :: 0 <= k < |s| && IsIdle(s[k]) && c == Candidate(p, s[k].id, FactOf(s[k]))
    ensures forall k | 0 <= k < |s| && IsIdle(s[k]) :: Candidate(p, s[k].id, FactOf(s[k])) in EntryCandidates(p, s)
  {
    if s != [] {
      var front := s[..|s| - 1];
      EntryCandidatesExact(p, front);
      forall c | c in EntryCandidates(p, s)
        ensures exists k :: 0 <= k < |s| && IsIdle(s[k]) && c == Candidate(p, s[k].id, FactOf(s[k]))
      {
        if c in EntryCandidates(p, front) {
          var k :| 0 <= k < |front| && IsIdle(front[k]) && c == Candidate(p, front[k].id, FactOf(front[k]));
          assert s[k] == front[k];
        }
      }
      forall k | 0 <= k < |s| && IsIdle(s[k]) ensures Candidate(p, s[k].id, FactOf(s[k])) in EntryCandidates(p, s) {
        if k < |front| { assert s[k] == front[k]; }
      }
    }
  }

  /** The gathered candidates are exactly the idle instances of the prefixes in the order. */
  lemma {:induction false} CandidatesExact(m: map<PrefixId, Entry>, order: seq<PrefixId>)
    ensures forall c | c in Candidates(m, order) :: exists k :: Backs(m, c, k)
    ensures forall p, k | p in order && p in m && 0 <= k < |m[p].instances| && IsIdle(m[p].instances[k]) ::
              Candidate(p, m[p].instances[k].id, FactOf(m[p].instances[k])) in Candidates(m, order)
  {
    if order != [] {
      var front, last := order[..|order| - 1], order[|order| - 1];
      CandidatesExact(m, front);
      if last in m { EntryCandidatesExact(last, m[last].instances); }
      forall c | c in Candidates(m, order) ensures exists k :: Backs(m, c, k) {
        if c !in Candidates(m, front) {
          var s := m[last].instances;
          var k :| 0 <= k < |s| && IsIdle(s[k]) && c == Candidate(last, s[k].id, FactOf(s[k]));
          assert Backs(m, c, k);
        }
      }
      forall p, k | p in order && p in m && 0 <= k < |m[p].instances| && IsIdle(m[p].instances[k])
        ensures Candidate(p, m[p].instances[k].id, FactOf(m[p].instances[k])) in Candidates(m, order)
      {
        assert p in front || p == last;
      }
    }
  }

  /** The victim is an idle instance of the pool that no idle instance in the order beats. */
  lemma VictimBest(r: Reg, now: int, order: seq<PrefixId>) returns (k: nat)
    requires Victim(r, now, order).Some?
    ensures Backs(r.prefixes, Victim(r, now, order).value, k)
    ensures forall p, j | p in order && p in r.prefixes && 0 <= j < |r.prefixes[p].instances| && IsIdle(r.prefixes[p].instances[j]) ::
              !Beats(FactOf(r.prefixes[p].instances[j]), Victim(r, now, order).value.fact, now)
  {
    hide Beats, Candidates;
    CandidatesExact(r.prefixes, order);
    var v, cs := Victim(r, now, order).value, Candidates(r.prefixes, order);
    assert v in cs;
    k :| Backs(r.prefixes, v, k);
    forall p, j | p in order && p in r.prefixes && 0 <= j < |r.prefixes[p].instances| && IsIdle(r.prefixes[p].instances[j])
      ensures !Beats(FactOf(r.prefixes[p].instances[j]), v.fact, now)
    {
      var c := Candidate(p, r.prefixes[p].instances[j].id, FactOf(r.prefixes[p].instances[j]));
      assert c in cs;
      var at :| 0 <= at < |cs| && cs[at] == c;
      assert Facts(cs)[at] == c.fact;
    }
  }

  lemma NoVictimNoIdle(r: Reg, now: int, order: seq<PrefixId>)
    requires Victim(r, now, order).None?
    ensures forall p, k | p in order && p in r.prefixes && 0 <= k < |r.prefixes[p].instances| ::
              !IsIdle(r.prefixes[p].instances[k])
  {
    CandidatesExact(r.prefixes, order);
    var cs := Candidates(r.prefixes, order);
    assert Facts(cs) == [] && cs == [];
  }

  lemma CountIdlePositive(s: seq<Instance>, k: nat)
    requires k < |s| && IsIdle(s[k])
    ensures CountIdle(s) > 0
  {
    CountIdleRemove(s, k);
  }

  lemma DropKeeps(r: Reg, out: Ledger, ones: nat, v: Candidate, k: nat)
    requires Balanced(r, out, ones) && Backs(r.prefixes, v, k)
    ensures Balanced(Drop(r, v), out, ones)
    ensures Drop(r, v).idleTotal + 1 == r.idleTotal && Drop(r, v).total + 1 == r.total
    ensures Drop(r, v).prefixes == r.prefixes[v.prefix := r.prefixes[v.prefix].(instances := RemoveAt(r.prefixes[v.prefix].instances, k))]
  {
    var e := r.prefixes[v.prefix];
    WithoutIsRemove(e.instances, k);
    SplitCount(r.prefixes, v.prefix);
    CountIdlePositive(e.instances, k);
    assert InstanceOk(v.prefix, e.instances[k], out, r.nextId);
    RemoveBalanced(r, out, ones, v.prefix, k, e.demand, Drop(r, v), out);
  }

  lemma {:induction false} ShedKeeps(r: Reg, out: Ledger, ones: nat, n: nat, now: int, order: seq<PrefixId>)
    requires Balanced(r, out, ones)
    ensures Balanced(Shed(r, n, now, order).0, out, ones)
    ensures Shed(r, n, now, order).0.prefixes.Keys == r.prefixes.Keys
    ensures Shed(r, n, now, order).0.idleTotal + |Shed(r, n, now, order).1| == r.idleTotal
    decreases n
  {
    hide Balanced, Victim, Drop;
    if n > 0 && Victim(r, now, order).Some? {
      var v := Victim(r, now, order).value;
      var k := VictimBest(r, now, order);
      DropKeeps(r, out, ones, v, k);
      ShedKeeps(Drop(r, v), out, ones, n - 1, now, order);
    }
  }

  lemma PressureKeeps(r: Reg, out: Ledger, ones: nat, budget: nat, o: Outside)
    requires Balanced(r, out, ones)
    ensures Balanced(Pressure(r, budget, o), out, ones)
    ensures Pressure(r, budget, o).prefixes.Keys == r.prefixes.Keys
  {
    hide Shed, WatermarkAction;
    if o.usage.Some? {
      var v := VerdictFor(r, o.usage.value, budget);
      var latched := r.(shedding := v.shedding, lastPass := if v.shedding then r.lastPass else None);
      SameBooks(r, out, ones, latched, ones);
      ShedKeeps(latched, out, ones, v.evict, o.now, o.order);
      SameBooks(Shed(latched, v.evict, o.now, o.order).0, out, ones, Pressure(r, budget, o), ones);
    } else {
      SameBooks(r, out, ones, Pressure(r, budget, o), ones);
    }
  }

  // ── Acquire ─────────────────────────────────────────────────────────────

  function Taken(out: Ledger, p: PrefixId, a: Acquired): Ledger
  {
    if a.Attached? then out + multiset{(p, a.id)} else out
  }

  lemma TakeKeeps(c: Config, r: Reg, q: Request, warm: bool, o: Outside, out: Ledger, ones: nat)
    requires Balanced(r, out, ones)
    ensures var (r', a) := Take(c, r, q, warm, o);
            Balanced(r', Taken(out, q.prefix, a), ones + One(a.Cold?))
  {
    hide WarmestIdle, Joinable, Balanced, JoinChoice, CountLive, Admits;
    var (r', a) := Take(c, r, q, warm, o);
    var was := EntryOf(r, q.prefix);
    var d := was.demand.NoteArrival(o.now).SeedHeap(q.caps.hard);
    var e := was.(demand := d);
    assert e == Entry(InstancesOf(r.prefixes, q.prefix), d);
    TouchBalanced(r, out, ones, q.prefix, d);
    var touched := Put(r, q.prefix, e);
    var idle := WarmestIdle(e.instances, q.caps);
    if idle.Some? {
      AttachBalanced(r, out, ones, q.prefix, idle.value, d);
    } else if Joinable(e.instances, q.caps) == [] {
      if a.Cold? {
        SameBooks(touched, out, ones, r', ones + 1);
      } else if a.Attached? {
        SpawnBalanced(r, out, ones, q.prefix, d, q.caps, o.now);
      }
    } else {
      match JoinChoice(c, e, q, warm, o.usage)
      case Some(k) =>
        assert !IsReusable(e.instances[k], q.caps);
        AttachBalanced(r, out, ones, q.prefix, k, d);
      case None => if q.spawnOk { SpawnBalanced(r, out, ones, q.prefix, d, q.caps, o.now); }
    }
  }

  /** A run joins the instance at `k`, idle or busy; an idle one leaves the idle count. */
  lemma AttachBalanced(r: Reg, out: Ledger, ones: nat, p: PrefixId, k: nat, d: Demand)
    requires Balanced(r, out, ones) && p in r.prefixes && k < |r.prefixes[p].instances| && !r.prefixes[p].instances[k].dead
    ensures var s := r.prefixes[p].instances;
            Balanced(Put(r, p, Entry(s[k := Attach(s[k])], d)).(idleTotal := SaturatingSub(r.idleTotal, One(IsIdle(s[k])))),
                     out + multiset{(p, s[k].id)}, ones)
  {
    hide CountIdle, PositionOf;
    var s := r.prefixes[p].instances;
    var x := Attach(s[k]);
    var out' := out + multiset{(p, s[k].id)};
    assert InstanceOk(p, s[k], out, r.nextId);
    if IsIdle(s[k]) {
      SplitCount(r.prefixes, p);
      CountIdlePositive(s, k);
    }
    var r' := Put(r, p, Entry(s[k := x], d)).(idleTotal := SaturatingSub(r.idleTotal, One(IsIdle(s[k]))));
    UpdateBalanced(r, out, ones, p, k, x, d, r', out');
  }

  lemma AcquireKeeps(c: Config, r: Reg, q: Request, o: Outside, out: Ledger, ones: nat)
    requires Balanced(r, out, ones)
    ensures var (r', a) := Acquire(c, r, q, o);
            Balanced(r', Taken(out, q.prefix, a), ones + One(a.Cold?))
  {
    hide Pressure, Take;
    var o' := o.(usage := Sampled(c, o.usage));
    PressureKeeps(r, out, ones, c.budget, o');
    var passed := Pressure(r, c.budget, o');
    TakeKeeps(c, passed, q, !passed.shedding, o', out, ones);
  }

  // ── One-offs ────────────────────────────────────────────────────────────

  lemma ReserveKeeps(c: Config, r: Reg, cap: nat, o: Outside, out: Ledger, ones: nat)
    requires Balanced(r, out, ones)
    ensures var (r', ok) := ReserveOneoff(c, r, cap, o);
            Balanced(r', out, ones + One(ok))
  {
    hide Pressure;
    var o' := o.(usage := Sampled(c, o.usage));
    PressureKeeps(r, out, ones, c.budget, o');
    var (r', ok) := ReserveOneoff(c, r, cap, o);
    SameBooks(Pressure(r, c.budget, o'), out, ones, r', ones + One(ok));
  }

  lemma ReleaseOneoffKeeps(c: Config, r: Reg, o: Outside, out: Ledger, ones: nat)
    requires Balanced(r, out, ones) && ones > 0
    ensures Balanced(ReleaseOneoff(c, r, o), out, ones - 1)
  {
    hide Pressure;
    var fewer := r.(total := SaturatingSub(r.total, 1), oneoff := SaturatingSub(r.oneoff, 1));
    SameBooks(r, out, ones, fewer, ones - 1);
    PressureKeeps(fewer, out, ones - 1, c.budget, o.(usage := Sampled(c, o.usage)));
  }

  // ── Release ─────────────────────────────────────────────────────────────

  lemma ReleaseInstanceKeeps(r: Reg, p: PrefixId, k: nat, d: Demand, f: Finish, now: int, out: Ledger, ones: nat)
    requires Balanced(r, out, ones) && p in r.prefixes && k < |r.prefixes[p].instances|
    requires out[(p, r.prefixes[p].instances[k].id)] > 0
    ensures var s := r.prefixes[p].instances;
            Balanced(ReleaseInstance(r, p, Entry(s, d), k, f, now), out - multiset{(p, s[k].id)}, ones)
  {
    hide CountIdle, PositionOf, RemoveAt;
    var s := r.prefixes[p].instances;
    var out' := out - multiset{(p, s[k].id)};
    var r' := ReleaseInstance(r, p, Entry(s, d), k, f, now);
    assert InstanceOk(p, s[k], out, r.nextId);
    var x := Left(s[k], f);
    SplitCount(r.prefixes, p);
    if x.dead && x.inFlight == 0 {
      RemoveBalanced(r, out, ones, p, k, d, r', out');
    } else if !x.dead && x.inFlight == 0 {
      UpdateBalanced(r, out, ones, p, k, x.(lastUsed := now, heapUsed := f.heap), d, r', out');
    } else {
      UpdateBalanced(r, out, ones, p, k, x, d, r', out');
    }
  }

  lemma SettleKeeps(r: Reg, p: PrefixId, id: nat, f: Finish, now: int, out: Ledger, ones: nat)
    requires Balanced(r, out, ones) && (p, id) in out
    ensures Balanced(Settle(r, p, id, f, now), out - multiset{(p, id)}, ones)
  {
    hide CountIdle, PositionOf, RemoveAt;
    assert (p, id).0 == p && p in r.prefixes;
    var was := r.prefixes[p];
    var d := if f.tainted then was.demand else was.demand.NoteFinish(f.cpuMs, f.heap);
    assert EntryOk(p, was.instances, out, r.nextId);
    var k := PositionOf(was.instances, id).value;
    ReleaseInstanceKeeps(r, p, k, d, f, now, out, ones);
    var released := ReleaseInstance(r, p, Entry(was.instances, d), k, f, now);
    if !f.alive && released.prefixes[p].instances == [] {
      ForgetBalanced(released, p, out - multiset{(p, id)}, ones);
    }
  }

  /** An empty entry can be removed. */
  lemma ForgetBalanced(r: Reg, p: PrefixId, out: Ledger, ones: nat)
    requires Balanced(r, out, ones) && p in r.prefixes && r.prefixes[p].instances == []
    ensures Balanced(r.(prefixes := r.prefixes - {p}), out, ones)
  {
    hide CountIdle;
    var r' := r.(prefixes := r.prefixes - {p});
    assert r'.prefixes - {p} == r.prefixes - {p};
    assert EntryOk(p, [], out, r.nextId);
    Rebalance(r, out, ones, p, r', out, ones);
  }

  lemma ReleaseKeeps(c: Config, r: Reg, p: PrefixId, id: nat, f: Finish, o: Outside, out: Ledger, ones: nat)
    requires Balanced(r, out, ones) && (p, id) in out
    ensures Balanced(Release(c, r, p, id, f, o), out - multiset{(p, id)}, ones)
  {
    hide Pressure, Settle;
    SettleKeeps(r, p, id, f, o.now, out, ones);
    PressureKeeps(Settle(r, p, id, f, o.now), out - multiset{(p, id)}, ones, c.budget, o.(usage := Sampled(c, o.usage)));
  }

  // ── Dispose ─────────────────────────────────────────────────────────────

  /** Where the dead are all busy, what goes is what was idle, and nothing left is idle. */
  lemma {:induction false} BusyDeadCounts(s: seq<Instance>)
    requires forall k :: 0 <= k < |s| ==> s[k].dead ==> s[k].inFlight > 0
    ensures CountIdle(BusyDead(s)) == 0 && |BusyDead(s)| + CountIdle(s) == |s|
    ensures forall j :: 0 <= j < |BusyDead(s)| ==> BusyDead(s)[j].dead && BusyDead(s)[j].inFlight > 0
  {
    if s != [] {
      BusyDeadCounts(s[..|s| - 1]);
      if s[|s| - 1].inFlight > 0 {
        var x := s[|s| - 1].(dead := true);
        CountIdleSnoc(BusyDead(s[..|s| - 1]), x);
        assert BusyDead(s) == BusyDead(s[..|s| - 1]) + [x] && !IsIdle(x);
      } else {
        assert BusyDead(s) == BusyDead(s[..|s| - 1]);
      }
    }
  }

  /** Each instance left is one of the busy ones, marked dead, in order. */
  lemma {:induction false} BusyDeadFrom(s: seq<Instance>) returns (from: seq<nat>)
    ensures |from| == |BusyDead(s)|
    ensures forall j :: 0 <= j < |from| ==> from[j] < |s| && BusyDead(s)[j] == s[from[j]].(dead := true)
    ensures forall i, j :: 0 <= i < j < |from| ==> from[i] < from[j]
    ensures forall k :: 0 <= k < |s| && s[k].inFlight > 0 ==> k in from
  {
    from := [];
    if s != [] {
      from := BusyDeadFrom(s[..|s| - 1]);
      if s[|s| - 1].inFlight > 0 { from := from + [|s| - 1]; }
    }
  }

  lemma BusyDeadDistinct(s: seq<Instance>)
    requires DistinctIds(s)
    ensures DistinctIds(BusyDead(s))
  {
    hide BusyDead;
    var from := BusyDeadFrom(s);
    forall i, j | 0 <= i < j < |from| ensures BusyDead(s)[i].id != BusyDead(s)[j].id {
      assert s[from[i]].id != s[from[j]].id;
    }
  }

  lemma BusyDeadPositions(s: seq<Instance>)
    ensures forall j :: 0 <= j < |BusyDead(s)| ==> PositionOf(s, BusyDead(s)[j].id).Some?
    ensures forall k :: 0 <= k < |s| && s[k].inFlight > 0 ==> PositionOf(BusyDead(s), s[k].id).Some?
  {
    hide BusyDead, PositionOf;
    var kept := BusyDead(s);
    var from := BusyDeadFrom(s);
    forall j | 0 <= j < |kept| ensures PositionOf(s, kept[j].id).Some? { assert s[from[j]].id == kept[j].id; }
    forall k | 0 <= k < |s| && s[k].inFlight > 0 ensures PositionOf(kept, s[k].id).Some? {
      var j :| 0 <= j < |from| && from[j] == k;
      assert kept[j].id == s[k].id;
    }
  }

  lemma BusyDeadInstances(p: PrefixId, s: seq<Instance>, out: Ledger, next: nat)
    requires forall k :: 0 <= k < |s| ==> InstanceOk(p, s[k], out, next)
    ensures forall j :: 0 <= j < |BusyDead(s)| ==> InstanceOk(p, BusyDead(s)[j], out, next)
  {
    hide BusyDead;
    var from := BusyDeadFrom(s);
    BusyDeadCounts(s);
    forall j | 0 <= j < |from| ensures InstanceOk(p, BusyDead(s)[j], out, next) {
      assert InstanceOk(p, s[from[j]], out, next);
    }
  }

  lemma BusyDeadOk(p: PrefixId, s: seq<Instance>, out: Ledger, next: nat)
    requires EntryOk(p, s, out, next)
    ensures EntryOk(p, BusyDead(s), out, next)
  {
    hide PositionOf, BusyDead, DistinctIds;
    BusyDeadDistinct(s);
    BusyDeadPositions(s);
    BusyDeadInstances(p, s, out, next);
    forall id | (p, id) in out ensures PositionOf(BusyDead(s), id).Some? {
      var k := PositionOf(s, id).value;
      assert InstanceOk(p, s[k], out, next);
    }
  }

  lemma DisposeKeeps(r: Reg, p: PrefixId, out: Ledger, ones: nat)
    requires Balanced(r, out, ones)
    ensures Balanced(Dispose(r, p), out, ones)
  {
    hide CountIdle, PositionOf, BusyDead;
    if p in r.prefixes {
      var s, r' := r.prefixes[p].instances, Dispose(r, p);
      var kept := BusyDead(s);
      assert EntryOk(p, s, out, r.nextId);
      BusyDeadOk(p, s, out, r.nextId);
      BusyDeadPositions(s);
      forall k | 0 <= k < |s| ensures s[k].dead ==> s[k].inFlight > 0 { assert InstanceOk(p, s[k], out, r.nextId); }
      BusyDeadCounts(s);
      SplitCount(r.prefixes, p);
      assert InstancesOf(r'.prefixes, p) == kept;
      assert r'.prefixes - {p} == r.prefixes - {p};
      assert kept == [] ==> forall id :: PositionOf(kept, id).None?;
      Rebalance(r, out, ones, p, r', out, ones);
    }
  }
}
