// The warm registry's state and its critical sections as functions of the state and of
// everything they read from outside: the clock, one usage sample, thread utilizations,
// whether a thread spawn works, and the order a hash map happens to iterate in.

module Registry {
  import opened Wrappers
  import opened Policy

  type PrefixId = nat

  /** The two heap lines of an instance in bytes; 0 = none. */
  datatype HeapCaps = HeapCaps(soft: nat, hard: nat)

  /** One pooled instance; `lastUsed` and `heapUsed` live on its handle. */
  datatype Instance = Instance(
    id: nat, inFlight: nat, caps: HeapCaps, strikes: nat, dead: bool, lastUsed: int, heapUsed: nat)

  // ── Demand statistics ───────────────────────────────────────────────────

  /** A fading average. */
  datatype Ewma = Ewma(value: real, seeded: bool)
  {
    function Update(sample: real): Ewma
    {
      Ewma(if seeded then value * 0.8 + sample * 0.2 else sample, true)
    }

    function Get(): Option<real>
    {
      if seeded then Some(value) else None
    }
  }

  const UNSEEDED := Ewma(0.0, false)

  datatype Demand = Demand(lastArrival: Option<int>, intervalMs: Ewma, cpuMs: Ewma, heapBytes: Ewma)
  {
    function NoteArrival(now: int): Demand
    {
      var gap := if lastArrival.Some? && now > lastArrival.value then now - lastArrival.value else 0;
      this.(lastArrival := Some(now),
            intervalMs := if lastArrival.Some? then intervalMs.Update(gap as real / 1_000_000.0) else intervalMs)
    }

    /** The first cap asked for stands in until a heap has been measured. */
    function SeedHeap(cap: nat): Demand
    {
      if !heapBytes.seeded && cap > 0 then this.(heapBytes := heapBytes.Update(cap as real)) else this
    }

    function NoteFinish(cpu: real, heap: nat): Demand
    {
      this.(cpuMs := cpuMs.Update(cpu),
            heapBytes := if heap > 0 then heapBytes.Update(heap as real) else heapBytes)
    }

    function ArrivalsPerSec(): real
    {
      if intervalMs.seeded && intervalMs.value > 0.0 then 1000.0 / intervalMs.value else 0.0
    }

    /** The admission size of a further instance: the measured average, else the cap. */
    function SpawnCap(cap: nat): nat
    {
      if !heapBytes.seeded then cap else if heapBytes.value < 0.0 then 0 else heapBytes.value.Floor
    }
  }

  const NO_DEMAND := Demand(None, UNSEEDED, UNSEEDED, UNSEEDED)

  /** Instances in creation order; the entry outlives them. */
  datatype Entry = Entry(instances: seq<Instance>, demand: Demand)

  datatype Reg = Reg(
    prefixes: map<PrefixId, Entry>, total: nat, oneoff: nat, idleTotal: nat, nextId: nat,
    shedding: bool, lastPass: Option<nat>)

  const EMPTY := Reg(map[], 0, 0, 0, 1, false, None)

  datatype Config = Config(budget: nat, hardLine: nat, cores: nat)

  /** What one operation reads from outside. */
  datatype Outside = Outside(now: int, usage: Option<nat>, order: seq<PrefixId>)

  function SaturatingSub(a: nat, b: nat): nat
  {
    if a > b then a - b else 0
  }

  /** No sample is taken when both lines are disabled. */
  function Sampled(c: Config, usage: Option<nat>): Option<nat>
  {
    if c.budget == 0 && c.hardLine == 0 then None else usage
  }

  // ── Searching an entry ──────────────────────────────────────────────────

  predicate IsIdle(i: Instance) { i.inFlight == 0 && !i.dead }

  predicate IsJoinable(i: Instance, caps: HeapCaps) { !i.dead && i.caps == caps }

  predicate IsReusable(i: Instance, caps: HeapCaps) { IsIdle(i) && i.caps == caps }

  function FactOf(i: Instance): VictimFact { VictimFact(i.heapUsed, i.lastUsed) }

  /** The reusable instance that finished last, the latest of equals. */
  function WarmestIdle(s: seq<Instance>, caps: HeapCaps): (r: Option<nat>)
    ensures r == None <==> forall k :: 0 <= k < |s| ==> !IsReusable(s[k], caps)
    ensures r.Some? ==> r.value < |s| && IsReusable(s[r.value], caps)
    ensures r.Some? ==> forall k :: 0 <= k < |s| && IsReusable(s[k], caps) ==>
              s[k].lastUsed <= s[r.value].lastUsed && (k > r.value ==> s[k].lastUsed < s[r.value].lastUsed)
  {
    if s == [] then None
    else
      var last := |s| - 1;
      var before := WarmestIdle(s[..last], caps);
      if !IsReusable(s[last], caps) then before
      else if before.Some? && s[before.value].lastUsed > s[last].lastUsed then before
      else Some(last)
  }

  /** Positions of the live instances with these caps, in order. */
  function Joinable(s: seq<Instance>, caps: HeapCaps): (ps: seq<nat>)
    ensures forall j :: 0 <= j < |ps| ==> ps[j] < |s| && IsJoinable(s[ps[j]], caps)
    ensures forall k :: 0 <= k < |s| && IsJoinable(s[k], caps) ==> k in ps
    ensures forall i, j :: 0 <= i < j < |ps| ==> ps[i] < ps[j]
  {
    if s == [] then []
    else
      var last := |s| - 1;
      Joinable(s[..last], caps) + if IsJoinable(s[last], caps) then [last] else []
  }

  function CountLive(s: seq<Instance>): nat
  {
    if s == [] then 0 else CountLive(s[..|s| - 1]) + if s[|s| - 1].dead then 0 else 1
  }

  function CountIdle(s: seq<Instance>): nat
  {
    if s == [] then 0 else CountIdle(s[..|s| - 1]) + if IsIdle(s[|s| - 1]) then 1 else 0
  }

  function JoinFacts(s: seq<Instance>, ps: seq<nat>, util: nat -> nat): (fs: seq<JoinFact>)
    requires forall j :: 0 <= j < |ps| ==> ps[j] < |s|
    ensures |fs| == |ps|
  {
    seq(|ps|, j requires 0 <= j < |ps| => JoinFact(s[ps[j]].inFlight, util(s[ps[j]].id)))
  }

  function PositionOf(s: seq<Instance>, id: nat): (r: Option<nat>)
    ensures r == None <==> forall k :: 0 <= k < |s| ==> s[k].id != id
    ensures r.Some? ==> r.value < |s| && s[r.value].id == id
    ensures r.Some? ==> forall k :: 0 <= k < r.value ==> s[k].id != id
  {
    if s == [] then None
    else
      var last := |s| - 1;
      var before := PositionOf(s[..last], id);
      if before.Some? then before else if s[last].id == id then Some(last) else None
  }

  function RemoveAt(s: seq<Instance>, k: nat): seq<Instance>
    requires k < |s|
  {
    s[..k] + s[k + 1..]
  }

  function WithoutId(s: seq<Instance>, id: nat): seq<Instance>
  {
    if s == [] then []
    else WithoutId(s[..|s| - 1], id) + if s[|s| - 1].id == id then [] else [s[|s| - 1]]
  }

  // ── Eviction ────────────────────────────────────────────────────────────

  datatype Candidate = Candidate(prefix: PrefixId, id: nat, fact: VictimFact)

  function EntryCandidates(p: PrefixId, s: seq<Instance>): seq<Candidate>
  {
    if s == [] then []
    else EntryCandidates(p, s[..|s| - 1])
         + if IsIdle(s[|s| - 1]) then [Candidate(p, s[|s| - 1].id, FactOf(s[|s| - 1]))] else []
  }

  function Candidates(m: map<PrefixId, Entry>, order: seq<PrefixId>): seq<Candidate>
  {
    if order == [] then []
    else
      var p := order[|order| - 1];
      Candidates(m, order[..|order| - 1]) + if p in m then EntryCandidates(p, m[p].instances) else []
  }

  function Facts(cs: seq<Candidate>): seq<VictimFact>
  {
    seq(|cs|, j requires 0 <= j < |cs| => cs[j].fact)
  }

  /** The best victim across all prefixes, if anything is idle. */
  function Victim(r: Reg, now: int, order: seq<PrefixId>): Option<Candidate>
  {
    var cs := Candidates(r.prefixes, order);
    match PickVictim(Facts(cs), now)
    case None => None
    case Some(k) => Some(cs[k])
  }

  function Drop(r: Reg, v: Candidate): Reg
  {
    if v.prefix !in r.prefixes then r
    else
      var e := r.prefixes[v.prefix];
      r.(prefixes := r.prefixes[v.prefix := e.(instances := WithoutId(e.instances, v.id))],
         total := SaturatingSub(r.total, 1), idleTotal := SaturatingSub(r.idleTotal, 1))
  }

  /** Drops up to `n` victims, best first. */
  function Shed(r: Reg, n: nat, now: int, order: seq<PrefixId>): (Reg, seq<Candidate>)
    decreases n
  {
    if n == 0 then (r, [])
    else
      match Victim(r, now, order)
      case None => (r, [])
      case Some(v) =>
        var (r', more) := Shed(Drop(r, v), n - 1, now, order);
        (r', [v] + more)
  }

  function VerdictFor(r: Reg, usage: nat, budget: nat): PressureVerdict
  {
    WatermarkAction(PressureFacts(usage, budget, r.shedding, r.lastPass, r.idleTotal))
  }

  /** Folds one sample into the latch and performs the verdict. */
  function Pressure(r: Reg, budget: nat, o: Outside): Reg
  {
    match o.usage
    case None => r.(shedding := false, lastPass := None)
    case Some(usage) =>
      var v := VerdictFor(r, usage, budget);
      var latched := r.(shedding := v.shedding, lastPass := if v.shedding then r.lastPass else None);
      var (shed, dropped) := Shed(latched, v.evict, o.now, o.order);
      if dropped != [] then shed.(lastPass := Some(usage)) else shed
  }

  // ── Acquire ─────────────────────────────────────────────────────────────

  datatype Acquired = Attached(id: nat) | Cold | Refused | SpawnFailed

  datatype Request = Request(prefix: PrefixId, caps: HeapCaps, util: nat -> nat, spawnOk: bool)

  predicate Admits(c: Config, usage: Option<nat>, cap: nat)
  {
    usage.Some? ==> AdmitIsolate(AdmitFacts(usage.value, cap, c.hardLine, c.budget))
  }

  function EntryOf(r: Reg, p: PrefixId): Entry
  {
    if p in r.prefixes then r.prefixes[p] else Entry([], NO_DEMAND)
  }

  function Put(r: Reg, p: PrefixId, e: Entry): Reg
  {
    r.(prefixes := r.prefixes[p := e])
  }

  function Attach(i: Instance): Instance { i.(inFlight := i.inFlight + 1) }

  function Fresh(id: nat, caps: HeapCaps, now: int): Instance
  {
    Instance(id, 1, caps, 0, false, now, 0)
  }

  /** The pooled spawn: counted, numbered, last in its entry. */
  function Spawn(r: Reg, p: PrefixId, e: Entry, caps: HeapCaps, now: int): (Reg, Acquired)
  {
    (Put(r, p, e.(instances := e.instances + [Fresh(r.nextId, caps, now)]))
       .(total := r.total + 1, nextId := r.nextId + 1),
     Attached(r.nextId))
  }

  /** The join-or-spawn choice: the position to join, or `None` to spawn. */
  function JoinChoice(c: Config, e: Entry, q: Request, warm: bool, usage: Option<nat>): (r: Option<nat>)
    requires Joinable(e.instances, q.caps) != []
    ensures r.Some? ==> r.value < |e.instances| && IsJoinable(e.instances[r.value], q.caps)
    ensures r == None ==> warm && CountLive(e.instances) < c.cores && Admits(c, usage, e.demand.SpawnCap(q.caps.hard))
  {
    var ps := Joinable(e.instances, q.caps);
    var live := CountLive(e.instances);
    var canSpawn := warm && live < c.cores && Admits(c, usage, e.demand.SpawnCap(q.caps.hard));
    var facts := JoinFacts(e.instances, ps, q.util);
    var target := PickJoinTarget(facts);
    var wants := ShouldSpawn(SpawnFacts(e.demand.ArrivalsPerSec(), e.demand.cpuMs.Get(), live, c.cores));
    if (wants || target == None) && canSpawn then None
    else
      var chosen := if target.Some? then target else JoinFallback(facts);
      Some(ps[chosen.value])
  }

  /** Acquire after its pressure pass; `warm`: pooling is allowed. */
  function Take(c: Config, r: Reg, q: Request, warm: bool, o: Outside): (Reg, Acquired)
  {
    var was := EntryOf(r, q.prefix);
    var e := was.(demand := was.demand.NoteArrival(o.now).SeedHeap(q.caps.hard));
    var idle := WarmestIdle(e.instances, q.caps);
    if idle.Some? then
      var i := e.instances[idle.value];
      (Put(r, q.prefix, e.(instances := e.instances[idle.value := i.(inFlight := 1)]))
         .(idleTotal := SaturatingSub(r.idleTotal, 1)),
       Attached(i.id))
    else if Joinable(e.instances, q.caps) == [] then
      if !Admits(c, o.usage, q.caps.hard) then (Put(r, q.prefix, e), Refused)
      else if !q.spawnOk then (Put(r, q.prefix, e), SpawnFailed)
      else if !warm then (Put(r, q.prefix, e).(total := r.total + 1, oneoff := r.oneoff + 1), Cold)
      else Spawn(r, q.prefix, e, q.caps, o.now)
    else
      match JoinChoice(c, e, q, warm, o.usage)
      case Some(k) =>
        (Put(r, q.prefix, e.(instances := e.instances[k := Attach(e.instances[k])])), Attached(e.instances[k].id))
      case None =>
        if !q.spawnOk then (Put(r, q.prefix, e), SpawnFailed)
        else Spawn(r, q.prefix, e, q.caps, o.now)
  }

  function Acquire(c: Config, r: Reg, q: Request, o: Outside): (Reg, Acquired)
  {
    var o := o.(usage := Sampled(c, o.usage));
    var passed := Pressure(r, c.budget, o);
    Take(c, passed, q, !passed.shedding, o)
  }

  // ── One-offs ────────────────────────────────────────────────────────────

  function ReserveOneoff(c: Config, r: Reg, cap: nat, o: Outside): (Reg, bool)
  {
    var o := o.(usage := Sampled(c, o.usage));
    var passed := Pressure(r, c.budget, o);
    if !Admits(c, o.usage, cap) then (passed, false)
    else (passed.(total := passed.total + 1, oneoff := passed.oneoff + 1), true)
  }

  function ReleaseOneoff(c: Config, r: Reg, o: Outside): Reg
  {
    Pressure(r.(total := SaturatingSub(r.total, 1), oneoff := SaturatingSub(r.oneoff, 1)), c.budget,
             o.(usage := Sampled(c, o.usage)))
  }

  // ── Release ─────────────────────────────────────────────────────────────

  datatype Finish = Finish(tainted: bool, heap: nat, cpuMs: real, alive: bool)

  /** The instance after one of its runs left, before it is dropped or goes idle. */
  function Left(i: Instance, f: Finish): Instance
  {
    var fewer := i.(inFlight := SaturatingSub(i.inFlight, 1));
    var struck :=
      if !f.tainted && i.caps.soft > 0 then
        var (strikes, retire) := SoftStrike(i.strikes, f.heap > i.caps.soft);
        fewer.(strikes := strikes, dead := i.dead || retire)
      else fewer;
    struck.(dead := struck.dead || f.tainted || !f.alive)
  }

  function ReleaseInstance(r: Reg, p: PrefixId, e: Entry, k: nat, f: Finish, now: int): Reg
    requires k < |e.instances|
  {
    var i := Left(e.instances[k], f);
    if i.dead && i.inFlight == 0 then
      Put(r, p, e.(instances := RemoveAt(e.instances, k))).(total := SaturatingSub(r.total, 1))
    else if !i.dead && i.inFlight == 0 then
      Put(r, p, e.(instances := e.instances[k := i.(lastUsed := now, heapUsed := f.heap)]))
        .(idleTotal := r.idleTotal + 1)
    else Put(r, p, e.(instances := e.instances[k := i]))
  }

  function Settle(r: Reg, p: PrefixId, id: nat, f: Finish, now: int): Reg
  {
    if p !in r.prefixes then r
    else
      var was := r.prefixes[p];
      var e := if f.tainted then was else was.(demand := was.demand.NoteFinish(f.cpuMs, f.heap));
      var released :=
        match PositionOf(e.instances, id)
        case None => Put(r, p, e)
        case Some(k) => ReleaseInstance(r, p, e, k, f, now);
      if !f.alive && released.prefixes[p].instances == [] then released.(prefixes := released.prefixes - {p})
      else released
  }

  function Release(c: Config, r: Reg, p: PrefixId, id: nat, f: Finish, o: Outside): Reg
  {
    Pressure(Settle(r, p, id, f, o.now), c.budget, o.(usage := Sampled(c, o.usage)))
  }

  // ── Dispose ─────────────────────────────────────────────────────────────

  /** Busy instances stay, marked dead; the others go. */
  function BusyDead(s: seq<Instance>): seq<Instance>
  {
    if s == [] then []
    else BusyDead(s[..|s| - 1]) + if s[|s| - 1].inFlight == 0 then [] else [s[|s| - 1].(dead := true)]
  }

  function Dispose(r: Reg, p: PrefixId): Reg
  {
    if p !in r.prefixes then r
    else
      var e := r.prefixes[p];
      var kept := BusyDead(e.instances);
      var dropped := SaturatingSub(|e.instances|, |kept|);
      var prefixes := if kept == [] then r.prefixes - {p} else r.prefixes[p := e.(instances := kept)];
      r.(prefixes := prefixes, total := SaturatingSub(r.total, dropped),
         idleTotal := SaturatingSub(r.idleTotal, dropped))
  }
}
