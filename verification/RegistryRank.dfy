// Which instances a pass evicts, told from the state before it: an idle instance goes exactly
// if fewer than the pass's count of idle ones come before it.

module RegistryRank {
  import opened Wrappers
  import opened Policy
  import opened PolicyTheorems
  import opened Registry
  import opened RegistryLedger
  import opened RegistryKeeps
  import opened RegistryRuns
  import opened RegistryTheorems

  /** A hash map's iteration: every key, none twice. */
  predicate Iterates(order: seq<PrefixId>, m: map<PrefixId, Entry>)
  {
    Covers(order, m) && forall i, j :: 0 <= i < j < |order| ==> order[i] != order[j]
  }

  /** `c` comes after `d` in the slice. */
  ghost predicate Later(cs: seq<Candidate>, c: Candidate, d: Candidate)
  {
    exists i, j :: 0 <= i < j < |cs| && cs[i] == d && cs[j] == c
  }

  /** `c` is taken before `d`: a better victim, or as good and later in the slice. */
  ghost predicate Precedes(cs: seq<Candidate>, c: Candidate, d: Candidate, now: int)
  {
    Beats(c.fact, d.fact, now) || (!Beats(d.fact, c.fact, now) && Later(cs, c, d))
  }

  ghost function Ahead(cs: seq<Candidate>, x: Candidate, now: int): set<Candidate>
  {
    set c | c in cs && Precedes(cs, c, x, now)
  }

  ghost predicate Distinct(cs: seq<Candidate>)
  {
    forall i, j :: 0 <= i < j < |cs| ==> cs[i].id != cs[j].id
  }

  // ── The slice ───────────────────────────────────────────────────────────

  function Without(cs: seq<Candidate>, id: nat): seq<Candidate>
  {
    if cs == [] then [] else Without(cs[..|cs| - 1], id) + if cs[|cs| - 1].id == id then [] else [cs[|cs| - 1]]
  }

  lemma {:induction false} WithoutAppend(a: seq<Candidate>, b: seq<Candidate>, id: nat)
    ensures Without(a + b, id) == Without(a, id) + Without(b, id)
    decreases |b|
  {
    if b == [] {
      assert a + b == a;
    } else {
      assert (a + b)[..|a + b| - 1] == a + b[..|b| - 1];
      WithoutAppend(a, b[..|b| - 1], id);
    }
  }

  lemma {:induction false} WithoutNone(cs: seq<Candidate>, id: nat)
    requires forall c :: c in cs ==> c.id != id
    ensures Without(cs, id) == cs
  {
    if cs != [] {
      var front, last := cs[..|cs| - 1], cs[|cs| - 1];
      assert cs == front + [last];
      assert last in cs;
      WithoutNone(front, id);
    }
  }

  /** Removing one keeps the others, each where it was among them. */
  lemma {:induction false} WithoutFrom(cs: seq<Candidate>, id: nat) returns (from: seq<nat>)
    ensures |from| == |Without(cs, id)|
    ensures forall j :: 0 <= j < |from| ==> from[j] < |cs| && Without(cs, id)[j] == cs[from[j]] && cs[from[j]].id != id
    ensures forall i, j :: 0 <= i < j < |from| ==> from[i] < from[j]
    ensures forall k :: 0 <= k < |cs| && cs[k].id != id ==> k in from
  {
    from := [];
    if cs != [] {
      var front, last := cs[..|cs| - 1], |cs| - 1;
      var before := WithoutFrom(front, id);
      from := before + if cs[last].id == id then [] else [last];
      forall j | 0 <= j < |from| ensures from[j] < |cs| && Without(cs, id)[j] == cs[from[j]] && cs[from[j]].id != id {
        if j < |before| { assert Without(front, id)[j] == front[before[j]] == cs[from[j]]; }
      }
      forall k | 0 <= k < |cs| && cs[k].id != id ensures k in from {
        if k < last { assert front[k] == cs[k] && k in before; }
      }
    }
  }

  lemma LaterWithout(cs: seq<Candidate>, id: nat, c: Candidate, d: Candidate)
    requires c.id != id && d.id != id
    ensures Later(Without(cs, id), c, d) <==> Later(cs, c, d)
    ensures c in Without(cs, id) <==> c in cs
  {
    hide Without;
    var rest := Without(cs, id);
    var from := WithoutFrom(cs, id);
    if i, j :| 0 <= i < j < |rest| && rest[i] == d && rest[j] == c {
      assert cs[from[i]] == d && cs[from[j]] == c;
    }
    if i: nat, j: nat :| i < j < |cs| && cs[i] == d && cs[j] == c {
      var a: nat :| a < |from| && from[a] == i;
      var b: nat :| b < |from| && from[b] == j;
      assert a < b && rest[a] == d && rest[b] == c;
    }
    if c in cs {
      var k: nat :| k < |cs| && cs[k] == c;
      var b: nat :| b < |from| && from[b] == k;
      assert rest[b] == c;
    }
  }

  lemma DistinctWithout(cs: seq<Candidate>, id: nat)
    requires Distinct(cs)
    ensures Distinct(Without(cs, id)) && forall c :: c in Without(cs, id) ==> c.id != id
  {
    hide Without;
    var from := WithoutFrom(cs, id);
    var rest := Without(cs, id);
    forall i, j | 0 <= i < j < |rest| ensures rest[i].id != rest[j].id { assert cs[from[i]].id != cs[from[j]].id; }
  }

  lemma {:induction false} EntryWithout(p: PrefixId, s: seq<Instance>, id: nat)
    ensures EntryCandidates(p, WithoutId(s, id)) == Without(EntryCandidates(p, s), id)
  {
    if s != [] {
      var front, last := s[..|s| - 1], s[|s| - 1];
      EntryWithout(p, front, id);
      var one := if IsIdle(last) then [Candidate(p, last.id, FactOf(last))] else [];
      WithoutAppend(EntryCandidates(p, front), one, id);
      WithoutOne(one, id);
      var rest := WithoutId(front, id);
      if last.id == id {
        assert WithoutId(s, id) == rest;
      } else {
        assert (rest + [last])[..|rest|] == rest;
      }
    }
  }

  lemma WithoutOne(one: seq<Candidate>, id: nat)
    requires |one| <= 1
    ensures Without(one, id) == if one != [] && one[0].id == id then [] else one
  {
    if one != [] { assert one[..0] == []; }
  }

  /** Dropping a victim takes it, and only it, out of the slice. */
  lemma {:induction false} CandidatesDrop(r: Reg, out: Ledger, ones: nat, v: Candidate, k: nat, order: seq<PrefixId>)
    requires Balanced(r, out, ones) && Backs(r.prefixes, v, k)
    ensures Candidates(Drop(r, v).prefixes, order) == Without(Candidates(r.prefixes, order), v.id)
  {
    hide Balanced, WithoutId, EntryCandidates;
    if order != [] {
      var front, p := order[..|order| - 1], order[|order| - 1];
      CandidatesDrop(r, out, ones, v, k, front);
      var one := if p in r.prefixes then EntryCandidates(p, r.prefixes[p].instances) else [];
      WithoutAppend(Candidates(r.prefixes, front), one, v.id);
      if p == v.prefix {
        EntryWithout(p, r.prefixes[p].instances, v.id);
      } else if p in r.prefixes {
        EntryCandidatesExact(p, r.prefixes[p].instances);
        IdElsewhere(r, out, ones, v, k, p);
        WithoutNone(one, v.id);
      }
    }
  }

  lemma {:induction false} EntryDistinct(p: PrefixId, s: seq<Instance>)
    requires DistinctIds(s)
    ensures Distinct(EntryCandidates(p, s))
  {
    if s != [] {
      var front, last := s[..|s| - 1], s[|s| - 1];
      EntryDistinct(p, front);
      EntryCandidatesExact(p, front);
      forall c | c in EntryCandidates(p, front) ensures c.id != last.id {
        var k :| 0 <= k < |front| && c == Candidate(p, front[k].id, FactOf(front[k]));
        assert s[k].id != s[|s| - 1].id;
      }
    }
  }

  lemma {:induction false} CandidatesDistinct(r: Reg, out: Ledger, ones: nat, order: seq<PrefixId>)
    requires Balanced(r, out, ones) && forall i, j :: 0 <= i < j < |order| ==> order[i] != order[j]
    ensures Distinct(Candidates(r.prefixes, order))
    ensures forall c | c in Candidates(r.prefixes, order) :: c.prefix in order && exists k :: Backs(r.prefixes, c, k)
  {
    hide Balanced, EntryCandidates;
    CandidatesExact(r.prefixes, order);
    if order != [] {
      var front, p := order[..|order| - 1], order[|order| - 1];
      CandidatesDistinct(r, out, ones, front);
      if p in r.prefixes {
        var s := r.prefixes[p].instances;
        BalancedEntry(r, out, ones, p);
        EntryDistinct(p, s);
        EntryCandidatesExact(p, s);
        forall c, d | c in Candidates(r.prefixes, front) && d in EntryCandidates(p, s) ensures c.id != d.id {
          var k: nat :| Backs(r.prefixes, c, k);
          assert c.prefix in front && c.prefix != p;
          IdElsewhere(r, out, ones, c, k, p);
        }
      }
    }
  }

  lemma BalancedEntry(r: Reg, out: Ledger, ones: nat, p: PrefixId)
    requires Balanced(r, out, ones) && p in r.prefixes
    ensures DistinctIds(r.prefixes[p].instances)
  {
    assert EntryOk(p, r.prefixes[p].instances, out, r.nextId);
  }

  // ── The rank ────────────────────────────────────────────────────────────

  /** The victim is the one candidate nothing precedes, and it precedes every other. */
  lemma VictimFirst(cs: seq<Candidate>, now: int, k: nat)
    requires Distinct(cs) && PickVictim(Facts(cs), now) == Some(k)
    ensures k < |cs| && Ahead(cs, cs[k], now) == {}
    ensures forall c :: c in cs && c != cs[k] ==> Precedes(cs, cs[k], c, now)
  {
    hide PickVictim, Beats;
    var v := cs[k];
    forall c | c in cs ensures !Beats(c.fact, v.fact, now) {
      var i: nat :| i < |cs| && cs[i] == c;
      assert Facts(cs)[i] == c.fact;
    }
    forall c | c in cs && Later(cs, c, v) ensures Beats(v.fact, c.fact, now) {
      var i, j :| 0 <= i < j < |cs| && cs[i] == v && cs[j] == c;
      assert i == k && Facts(cs)[j] == c.fact;
    }
    forall c | c in cs && c != v ensures Precedes(cs, v, c, now) {
      var i: nat :| i < |cs| && cs[i] == c;
      assert Facts(cs)[i] == c.fact;
      if i < k { assert Later(cs, v, c); }
    }
  }

  /** Taking the victim away brings every other candidate one place forward. */
  lemma AheadWithout(cs: seq<Candidate>, now: int, v: Candidate, x: Candidate)
    requires Distinct(cs) && v in cs && x in cs && x != v && Precedes(cs, v, x, now)
    ensures |Ahead(cs, x, now)| == |Ahead(Without(cs, v.id), x, now)| + 1
  {
    hide Without, Beats;
    var rest := Without(cs, v.id);
    DistinctWithout(cs, v.id);
    OneId(cs, v, x);
    forall c ensures c in Ahead(rest, x, now) <==> c in Ahead(cs, x, now) && c != v {
      if c.id != v.id {
        LaterWithout(cs, v.id, c, x);
      } else if c in cs {
        OneId(cs, v, c);
      }
    }
    assert Ahead(cs, x, now) == Ahead(rest, x, now) + {v};
  }

  lemma OneId(cs: seq<Candidate>, c: Candidate, d: Candidate)
    requires Distinct(cs) && c in cs && d in cs
    ensures c.id == d.id <==> c == d
  {
    var i: nat :| i < |cs| && cs[i] == c;
    var j: nat :| j < |cs| && cs[j] == d;
  }

  /** What a shed pass drops is decided by rank, before it starts. */
  lemma {:induction false} ShedByRank(r: Reg, out: Ledger, ones: nat, n: nat, now: int, order: seq<PrefixId>, x: Candidate)
    requires Balanced(r, out, ones) && Iterates(order, r.prefixes)
    requires x in Candidates(r.prefixes, order)
    ensures x in Shed(r, n, now, order).1 <==> |Ahead(Candidates(r.prefixes, order), x, now)| < n
    decreases n
  {
    hide Balanced, Candidates, Drop, Ahead, Distinct, Precedes, PickVictim;
    var cs := Candidates(r.prefixes, order);
    if n > 0 {
      CandidatesDistinct(r, out, ones, order);
      assert Facts(cs) != [];
      var at := PickVictim(Facts(cs), now).value;
      VictimFirst(cs, now, at);
      var v := Victim(r, now, order).value;
      var k := VictimBest(r, now, order);
      DropKeeps(r, out, ones, v, k);
      CandidatesDrop(r, out, ones, v, k, order);
      var rest := Shed(Drop(r, v), n - 1, now, order).1;
      if x != v {
        AheadWithout(cs, now, v, x);
        OneId(cs, v, x);
        LaterWithout(cs, v.id, x, x);
        ShedByRank(Drop(r, v), out, ones, n - 1, now, order, x);
        assert x in [v] + rest <==> x in rest;
      } else {
        assert x in [v] + rest;
      }
    }
  }

  /** Idle, and fewer idle instances than the pass's size come before it. */
  ghost predicate Outranked(r: Reg, p: PrefixId, x: Instance, budget: nat, o: Outside)
  {
    && o.usage.Some? && x.inFlight == 0 && !x.dead
    && exists n: nat :: PassSize(PressureFacts(o.usage.value, budget, r.shedding, r.lastPass, r.idleTotal), n)
                && |Ahead(Candidates(r.prefixes, o.order), Candidate(p, x.id, FactOf(x)), o.now)| < n
  }

  /** One idle instance is a better victim than another: by heap^5 * age^6, then by the earlier last use. */
  lemma BeatsByFields(x: Instance, y: Instance, now: int)
    ensures var (a, b) := (if now > x.lastUsed then now - x.lastUsed else 0, if now > y.lastUsed then now - y.lastUsed else 0);
            var (g, h) := (x.heapUsed, y.heapUsed);
            var (v, w) := ((g * (g * (g * (g * g)))) * (a * (a * (a * (a * (a * a))))), (h * (h * (h * (h * h)))) * (b * (b * (b * (b * (b * b))))));
            Beats(FactOf(x), FactOf(y), now) <==> v > w || (v == w && x.lastUsed < y.lastUsed)
  {
    Powers(x.heapUsed);
    Powers(y.heapUsed);
    Powers(IdleFor(FactOf(x), now));
    Powers(IdleFor(FactOf(y), now));
  }

  lemma Powers(b: nat)
    ensures Pow(b, 5) == b * (b * (b * (b * b))) && Pow(b, 6) == b * (b * (b * (b * (b * b))))
  {
    assert Pow(b, 0) == 1 && Pow(b, 1) == b && Pow(b, 2) == b * b && Pow(b, 3) == b * (b * b) && Pow(b, 4) == b * (b * (b * b));
  }

  /** The slice holds exactly the idle live instances of the prefixes, each with its own heap and last use. */
  lemma SliceExactly(r: Reg, order: seq<PrefixId>, p: PrefixId, x: Instance)
    requires Covers(order, r.prefixes) && x in InstancesOf(r.prefixes, p) && x.inFlight == 0 && !x.dead
    ensures Candidate(p, x.id, VictimFact(x.heapUsed, x.lastUsed)) in Candidates(r.prefixes, order)
    ensures forall c | c in Candidates(r.prefixes, order) :: exists k ::
              && c.prefix in r.prefixes && 0 <= k < |r.prefixes[c.prefix].instances|
              && var y := r.prefixes[c.prefix].instances[k];
                 y.inFlight == 0 && !y.dead && c == Candidate(c.prefix, y.id, VictimFact(y.heapUsed, y.lastUsed))
  {
    CandidatesExact(r.prefixes, order);
    forall c | c in Candidates(r.prefixes, order)
      ensures exists k ::
              && c.prefix in r.prefixes && 0 <= k < |r.prefixes[c.prefix].instances|
              && var y := r.prefixes[c.prefix].instances[k];
                 y.inFlight == 0 && !y.dead && c == Candidate(c.prefix, y.id, VictimFact(y.heapUsed, y.lastUsed))
    {
      var k: nat :| Backs(r.prefixes, c, k);
      assert !r.prefixes[c.prefix].instances[k].dead;
    }
  }

  /**
   * A pressure pass evicts exactly the idle instances of rank below the verdict's count:
   * with `PassExact`, what it leaves is determined by the state before it.
   */
  lemma EvictedByRank(r: Reg, out: Ledger, ones: nat, budget: nat, o: Outside, p: PrefixId, x: Instance)
    requires Balanced(r, out, ones) && Iterates(o.order, r.prefixes) && x in InstancesOf(r.prefixes, p)
    ensures x.id in IdsOf(Evicted(r, budget, o)) <==> Outranked(r, p, x, budget, o)
  {
    hide Balanced, Shed, Ahead, Candidates, WatermarkAction, IsIdle, PassSize;
    var gone := Evicted(r, budget, o);
    if o.usage.Some? {
      var v := VerdictFor(r, o.usage.value, budget);
      var latched := r.(shedding := v.shedding, lastPass := if v.shedding then r.lastPass else None);
      SameBooks(r, out, ones, latched, ones);
      var c := Candidate(p, x.id, FactOf(x));
      var facts := PressureFacts(o.usage.value, budget, r.shedding, r.lastPass, r.idleTotal);
      forall n: nat ensures PassSize(facts, n) <==> n == v.evict { VerdictExactly(facts, n); }
      assert PassSize(facts, v.evict);
      assert IsIdle(x) <==> x.inFlight == 0 && !x.dead by { IdleMeans(x); }
      if IsIdle(x) {
        CandidateHere(r, o.order, p, x);
        ShedByRank(latched, out, ones, v.evict, o.now, o.order, c);
        if c in gone { assert c.id in IdsOf(gone); }
      }
      if x.id in IdsOf(gone) { GoneIsHere(r, out, ones, budget, o, p, x); }
    }
  }

  lemma IdleMeans(x: Instance)
    ensures IsIdle(x) <==> x.inFlight == 0 && !x.dead
  {
  }

  lemma CandidateHere(r: Reg, order: seq<PrefixId>, p: PrefixId, x: Instance)
    requires Covers(order, r.prefixes) && x in InstancesOf(r.prefixes, p) && IsIdle(x)
    ensures Candidate(p, x.id, FactOf(x)) in Candidates(r.prefixes, order)
  {
    CandidatesExact(r.prefixes, order);
  }

  /** An evicted id is that of one idle instance. */
  lemma GoneIsHere(r: Reg, out: Ledger, ones: nat, budget: nat, o: Outside, p: PrefixId, x: Instance)
    requires Balanced(r, out, ones) && Covers(o.order, r.prefixes) && o.usage.Some? && x in InstancesOf(r.prefixes, p)
    requires x.id in IdsOf(Evicted(r, budget, o))
    ensures IsIdle(x) && Candidate(p, x.id, FactOf(x)) in Evicted(r, budget, o)
  {
    hide Evicted, OnlyDropped, Pressure;
    PassExact(r, out, ones, budget, o);
    var c :| c in Evicted(r, budget, o) && c.id == x.id;
    var k: nat :| Backs(r.prefixes, c, k);
    SameIdSame(r, out, ones, c.prefix, r.prefixes[c.prefix].instances[k], p, x);
  }

  lemma SameIdSame(r: Reg, out: Ledger, ones: nat, p: PrefixId, x: Instance, q: PrefixId, y: Instance)
    requires Balanced(r, out, ones) && x in InstancesOf(r.prefixes, p) && y in InstancesOf(r.prefixes, q)
    ensures x.id == y.id ==> x == y && p == q
  {
    hide CountersOk, PositionOf, InstanceOk;
    var j :| 0 <= j < |r.prefixes[p].instances| && r.prefixes[p].instances[j] == x;
    var k :| 0 <= k < |r.prefixes[q].instances| && r.prefixes[q].instances[k] == y;
    if x.id == y.id {
      assert r.prefixes[p].instances[j].id == r.prefixes[q].instances[k].id;
      assert EntryOk(p, r.prefixes[p].instances, out, r.nextId);
    }
  }
}
