// The registry's books: its counters against what is really pooled, attached and running,
// and why every operation keeps them.

module RegistryLedger {
  import opened Wrappers
  import opened Policy
  import opened Registry

  datatype Resident = Resident(p: PrefixId, i: Instance)

  ghost function Of(p: PrefixId, s: seq<Instance>): set<Resident>
  {
    set k | 0 <= k < |s| :: Resident(p, s[k])
  }

  /** Every pooled instance. */
  ghost function Residents(m: map<PrefixId, Entry>): set<Resident>
  {
    set p, k | p in m && 0 <= k < |m[p].instances| :: Resident(p, m[p].instances[k])
  }

  ghost function IdleOf(rs: set<Resident>): set<Resident>
  {
    set r | r in rs && IsIdle(r.i)
  }

  ghost predicate DistinctIds(s: seq<Instance>)
  {
    forall j, k :: 0 <= j < k < |s| ==> s[j].id != s[k].id
  }

  /** Attachments handed out and not yet released, by prefix and instance id. */
  type Ledger = multiset<(PrefixId, nat)>

  /** One instance against the ledger: its run count is its attachments; the dead are busy. */
  ghost predicate InstanceOk(p: PrefixId, i: Instance, out: Ledger, next: nat)
  {
    i.id < next && (i.dead ==> i.inFlight > 0) && out[(p, i.id)] == i.inFlight
  }

  /** Every attachment of the prefix has its instance here. */
  ghost predicate EntryOk(p: PrefixId, s: seq<Instance>, out: Ledger, next: nat)
  {
    && DistinctIds(s)
    && (forall k :: 0 <= k < |s| ==> InstanceOk(p, s[k], out, next))
    && (forall id :: (p, id) in out ==> PositionOf(s, id).Some?)
  }

  ghost predicate CountersOk(r: Reg)
  {
    r.total == |Residents(r.prefixes)| + r.oneoff && r.idleTotal == |IdleOf(Residents(r.prefixes))|
  }

  /** `out` are the outstanding attachments, `ones` the running one-offs. */
  ghost predicate Balanced(r: Reg, out: Ledger, ones: nat)
  {
    && (forall p | p in r.prefixes :: EntryOk(p, r.prefixes[p].instances, out, r.nextId))
    && (forall p, q, j, k | p in r.prefixes && q in r.prefixes
          && 0 <= j < |r.prefixes[p].instances| && 0 <= k < |r.prefixes[q].instances| ::
          r.prefixes[p].instances[j].id == r.prefixes[q].instances[k].id ==> p == q)
    && (forall key | key in out :: key.0 in r.prefixes)
    && CountersOk(r) && r.oneoff == ones
  }

  // ── Counting ────────────────────────────────────────────────────────────

  lemma OfSnoc(p: PrefixId, s: seq<Instance>)
    requires s != []
    ensures Of(p, s) == Of(p, s[..|s| - 1]) + {Resident(p, s[|s| - 1])}
  {
    var front := s[..|s| - 1];
    forall r | r in Of(p, s) ensures r in Of(p, front) + {Resident(p, s[|s| - 1])} {
      var k :| 0 <= k < |s| && r == Resident(p, s[k]);
      if k < |front| { assert r == Resident(p, front[k]); }
    }
    forall r | r in Of(p, front) ensures r in Of(p, s) {
      var k :| 0 <= k < |front| && r == Resident(p, front[k]);
      assert r == Resident(p, s[k]);
    }
  }

  lemma NotBefore(p: PrefixId, s: seq<Instance>)
    requires DistinctIds(s) && s != []
    ensures Resident(p, s[|s| - 1]) !in Of(p, s[..|s| - 1])
  {
    var front := s[..|s| - 1];
    forall k | 0 <= k < |front| ensures Resident(p, front[k]) != Resident(p, s[|s| - 1]) {
      assert s[k].id != s[|s| - 1].id;
    }
  }

  lemma IdleOfAdd(rs: set<Resident>, r: Resident)
    requires r !in rs
    ensures |IdleOf(rs + {r})| == |IdleOf(rs)| + if IsIdle(r.i) then 1 else 0
  {
    assert IdleOf(rs + {r}) == IdleOf(rs) + if IsIdle(r.i) then {r} else {};
  }

  lemma {:induction false} OfCount(p: PrefixId, s: seq<Instance>)
    requires DistinctIds(s)
    ensures |Of(p, s)| == |s| && |IdleOf(Of(p, s))| == CountIdle(s)
  {
    if s != [] {
      var front, last := s[..|s| - 1], Resident(p, s[|s| - 1]);
      OfCount(p, front);
      OfSnoc(p, s);
      NotBefore(p, s);
      IdleOfAdd(Of(p, front), last);
    } else {
      assert Of(p, s) == {} && IdleOf(Of(p, s)) == {};
    }
  }

  lemma Split(m: map<PrefixId, Entry>, p: PrefixId)
    requires p in m
    ensures Residents(m) == Residents(m - {p}) + Of(p, m[p].instances)
    ensures Residents(m - {p}) !! Of(p, m[p].instances)
  {
    var rest := m - {p};
    forall r | r in Residents(m) ensures r in Residents(rest) + Of(p, m[p].instances) {
      var q, k :| q in m && 0 <= k < |m[q].instances| && r == Resident(q, m[q].instances[k]);
      if q != p { assert q in rest && r == Resident(q, rest[q].instances[k]); }
    }
    forall r | r in Residents(rest) ensures r in Residents(m) {
      var q, k :| q in rest && 0 <= k < |rest[q].instances| && r == Resident(q, rest[q].instances[k]);
      assert q in m && r == Resident(q, m[q].instances[k]);
    }
    forall r | r in Of(p, m[p].instances) ensures r in Residents(m) {
      var k :| 0 <= k < |m[p].instances| && r == Resident(p, m[p].instances[k]);
    }
  }

  lemma SplitCount(m: map<PrefixId, Entry>, p: PrefixId)
    requires p in m && DistinctIds(m[p].instances)
    ensures |Residents(m)| == |Residents(m - {p})| + |m[p].instances|
    ensures |IdleOf(Residents(m))| == |IdleOf(Residents(m - {p}))| + CountIdle(m[p].instances)
  {
    Split(m, p);
    OfCount(p, m[p].instances);
    var a, b := Residents(m - {p}), Of(p, m[p].instances);
    assert IdleOf(Residents(m)) == IdleOf(a) + IdleOf(b) && IdleOf(a) !! IdleOf(b);
  }

  function InstancesOf(m: map<PrefixId, Entry>, p: PrefixId): seq<Instance>
  {
    if p in m then m[p].instances else []
  }

  /** `m'` differs from `m` in the entry of `p` only, which may be gone when it is empty. */
  ghost predicate OnlyEntry(m: map<PrefixId, Entry>, m': map<PrefixId, Entry>, p: PrefixId)
  {
    m' - {p} == m - {p}
  }

  lemma CountsChange(m: map<PrefixId, Entry>, m': map<PrefixId, Entry>, p: PrefixId)
    requires OnlyEntry(m, m', p)
    requires DistinctIds(InstancesOf(m, p)) && DistinctIds(InstancesOf(m', p))
    ensures |Residents(m')| + |InstancesOf(m, p)| == |Residents(m)| + |InstancesOf(m', p)|
    ensures |IdleOf(Residents(m'))| + CountIdle(InstancesOf(m, p))
         == |IdleOf(Residents(m))| + CountIdle(InstancesOf(m', p))
  {
    if p in m { SplitCount(m, p); } else { assert m - {p} == m; }
    if p in m' { SplitCount(m', p); } else { assert m' - {p} == m'; }
  }

  lemma OtherEntry(m: map<PrefixId, Entry>, m': map<PrefixId, Entry>, p: PrefixId, q: PrefixId)
    requires OnlyEntry(m, m', p) && q != p
    ensures q in m <==> q in m'
    ensures q in m ==> m'[q] == m[q]
  {
    assert q in m - {p} <==> q in m' - {p};
    if q in m { assert (m - {p})[q] == m[q] && (m' - {p})[q] == m'[q]; }
  }

  /**
   * The one way the books move: the entry of one prefix goes from `s` to `s'`, the
   * counters by the difference, and only that prefix's attachments change.
   */
  lemma Rebalance(r: Reg, out: Ledger, ones: nat, p: PrefixId, r': Reg, out': Ledger, ones': nat)
    requires Balanced(r, out, ones) && OnlyEntry(r.prefixes, r'.prefixes, p) && r.nextId <= r'.nextId
    requires EntryOk(p, InstancesOf(r'.prefixes, p), out', r'.nextId)
    requires forall k :: 0 <= k < |InstancesOf(r'.prefixes, p)| ==>
               InstancesOf(r'.prefixes, p)[k].id >= r.nextId
               || PositionOf(InstancesOf(r.prefixes, p), InstancesOf(r'.prefixes, p)[k].id).Some?
    requires p !in r'.prefixes ==> forall id :: (p, id) !in out'
    requires forall q, id :: q != p ==> out'[(q, id)] == out[(q, id)]
    requires r'.oneoff == ones'
    requires r'.total + |InstancesOf(r.prefixes, p)| + r.oneoff == r.total + |InstancesOf(r'.prefixes, p)| + r'.oneoff
    requires r'.idleTotal + CountIdle(InstancesOf(r.prefixes, p)) == r.idleTotal + CountIdle(InstancesOf(r'.prefixes, p))
    ensures Balanced(r', out', ones')
  {
    hide CountIdle, PositionOf;
    var m, m' := r.prefixes, r'.prefixes;
    CountsChange(m, m', p);
    RebalanceEntries(r, out, ones, p, r', out');
    RebalanceIds(r, out, ones, p, r');
    forall key | key in out' ensures key.0 in m' {
      if key.0 != p {
        assert key == (key.0, key.1) && out'[(key.0, key.1)] == out[(key.0, key.1)];
        OtherEntry(m, m', p, key.0);
      } else {
        assert key == (p, key.1);
      }
    }
  }

  lemma RebalanceEntries(r: Reg, out: Ledger, ones: nat, p: PrefixId, r': Reg, out': Ledger)
    requires Balanced(r, out, ones) && OnlyEntry(r.prefixes, r'.prefixes, p) && r.nextId <= r'.nextId
    requires EntryOk(p, InstancesOf(r'.prefixes, p), out', r'.nextId)
    requires forall q, id :: q != p ==> out'[(q, id)] == out[(q, id)]
    ensures forall q | q in r'.prefixes :: EntryOk(q, r'.prefixes[q].instances, out', r'.nextId)
  {
    hide CountIdle, PositionOf, CountersOk;
    forall q | q in r'.prefixes ensures EntryOk(q, r'.prefixes[q].instances, out', r'.nextId) {
      if q != p {
        OtherEntry(r.prefixes, r'.prefixes, p, q);
        var s := r.prefixes[q].instances;
        assert EntryOk(q, s, out, r.nextId);
        forall id | (q, id) in out' ensures PositionOf(s, id).Some? {
          assert out'[(q, id)] == out[(q, id)];
        }
      }
    }
  }

  lemma RebalanceIds(r: Reg, out: Ledger, ones: nat, p: PrefixId, r': Reg)
    requires Balanced(r, out, ones) && OnlyEntry(r.prefixes, r'.prefixes, p)
    requires forall k :: 0 <= k < |InstancesOf(r'.prefixes, p)| ==>
               InstancesOf(r'.prefixes, p)[k].id >= r.nextId
               || PositionOf(InstancesOf(r.prefixes, p), InstancesOf(r'.prefixes, p)[k].id).Some?
    ensures forall q, u, j, k | q in r'.prefixes && u in r'.prefixes
              && 0 <= j < |r'.prefixes[q].instances| && 0 <= k < |r'.prefixes[u].instances| ::
              r'.prefixes[q].instances[j].id == r'.prefixes[u].instances[k].id ==> q == u
  {
    hide CountIdle, PositionOf, CountersOk;
    var m, m' := r.prefixes, r'.prefixes;
    forall q, u, j, k | q in m' && u in m' && 0 <= j < |m'[q].instances| && 0 <= k < |m'[u].instances|
                     && m'[q].instances[j].id == m'[u].instances[k].id && q != u
      ensures false
    {
      if q == p {
        assert InstancesOf(m', p)[j] == m'[p].instances[j];
        OtherId(r, out, ones, p, r', u, k, j);
      } else if u == p {
        assert InstancesOf(m', p)[k] == m'[p].instances[k];
        OtherId(r, out, ones, p, r', q, j, k);
      } else {
        OtherEntry(m, m', p, q);
        OtherEntry(m, m', p, u);
      }
    }
  }

  /** An instance of another prefix keeps clear of the changed entry's ids. */
  lemma OtherId(r: Reg, out: Ledger, ones: nat, p: PrefixId, r': Reg, u: PrefixId, k: nat, j: nat)
    requires Balanced(r, out, ones) && OnlyEntry(r.prefixes, r'.prefixes, p) && u != p && p in r'.prefixes
    requires u in r'.prefixes && k < |r'.prefixes[u].instances| && j < |r'.prefixes[p].instances|
    requires r'.prefixes[p].instances[j].id >= r.nextId
             || PositionOf(InstancesOf(r.prefixes, p), r'.prefixes[p].instances[j].id).Some?
    ensures r'.prefixes[p].instances[j].id != r'.prefixes[u].instances[k].id
  {
    hide CountIdle, CountersOk;
    OtherEntry(r.prefixes, r'.prefixes, p, u);
    assert EntryOk(u, r.prefixes[u].instances, out, r.nextId);
    var at := PositionOf(InstancesOf(r.prefixes, p), r'.prefixes[p].instances[j].id);
    if at.Some? { assert r.prefixes[p].instances[at.value].id == r'.prefixes[p].instances[j].id; }
  }
}
