// The eviction, pressure and admission verdicts: pure functions of the facts they read.

module Policy {
  import opened Wrappers

  // ── Victims ─────────────────────────────────────────────────────────────

  /** One idle instance; times are nanoseconds on one monotonic clock. */
  datatype VictimFact = VictimFact(heap: nat, lastUsed: int)

  function Pow(b: nat, e: nat): nat
  {
    if e == 0 then 1 else b * Pow(b, e - 1)
  }

  function IdleFor(f: VictimFact, now: int): nat
  {
    if now > f.lastUsed then now - f.lastUsed else 0
  }

  /** The score heap * idle^1.2, to its fifth power: the same order, over the naturals. */
  function Weight(f: VictimFact, now: int): nat
  {
    Pow(f.heap, 5) * Pow(IdleFor(f, now), 6)
  }

  /** `a` is a strictly better victim than `b`: heavier, or as heavy and longer idle. */
  predicate Beats(a: VictimFact, b: VictimFact, now: int)
  {
    Weight(a, now) > Weight(b, now) || (Weight(a, now) == Weight(b, now) && a.lastUsed < b.lastUsed)
  }

  /** The best victim; of equally good ones the one latest in the slice. */
  function PickVictim(idle: seq<VictimFact>, now: int): (r: Option<nat>)
    ensures idle == [] <==> r == None
    ensures r.Some? ==> r.value < |idle|
    ensures r.Some? ==> forall j :: 0 <= j < |idle| ==> !Beats(idle[j], idle[r.value], now)
    ensures r.Some? ==> forall j :: r.value < j < |idle| ==> Beats(idle[r.value], idle[j], now)
  {
    if idle == [] then None
    else
      var last := |idle| - 1;
      match PickVictim(idle[..last], now)
      case None => Some(last)
      case Some(best) => if Beats(idle[best], idle[last], now) then Some(best) else Some(last)
  }

  // ── Watermarks ──────────────────────────────────────────────────────────

  datatype PressureFacts = PressureFacts(usage: nat, budget: nat, wasShedding: bool, lastPass: Option<nat>, idleCount: nat)

  datatype PressureVerdict = PressureVerdict(shedding: bool, evict: nat)

  function ReleaseMark(budget: nat): nat { budget / 5 * 4 }

  function ShedTarget(idleCount: nat): nat
  {
    if idleCount / 10 > 1 then idleCount / 10 else 1
  }

  /** Usage within 5% of what the last pass saw. */
  predicate Flat(usage: nat, atPass: nat)
  {
    (if usage > atPass then usage - atPass else atPass - usage) <= atPass / 20
  }

  function WatermarkAction(f: PressureFacts): PressureVerdict
  {
    if f.budget == 0 then PressureVerdict(false, 0)
    else
      var shedding := f.usage >= f.budget || (f.wasShedding && f.usage > ReleaseMark(f.budget));
      if !shedding || f.idleCount == 0 then PressureVerdict(shedding, 0)
      else if f.lastPass.Some? && Flat(f.usage, f.lastPass.value) then PressureVerdict(shedding, 0)
      else PressureVerdict(shedding, ShedTarget(f.idleCount))
  }

  // ── The soft line ───────────────────────────────────────────────────────

  const SOFT_LINE_STRIKES: nat := 2

  /** The strike count after one finish, and whether it retires the instance; a `u8` count. */
  function SoftStrike(prev: nat, over: bool): (nat, bool)
  {
    if !over then (0, false)
    else
      var strikes := if prev < 255 then prev + 1 else 255;
      (strikes, strikes >= SOFT_LINE_STRIKES)
  }

  // ── Admission ───────────────────────────────────────────────────────────

  const U64_MAX: nat := 0xFFFF_FFFF_FFFF_FFFF

  function SaturatingAdd(a: nat, b: nat): nat
  {
    if a + b > U64_MAX then U64_MAX else a + b
  }

  datatype AdmitFacts = AdmitFacts(usage: nat, runCap: nat, hardLine: nat, budget: nat)

  predicate AdmitIsolate(f: AdmitFacts)
  {
    if f.runCap == 0 then f.budget == 0 || f.usage < f.budget
    else f.hardLine == 0 || SaturatingAdd(f.usage, f.runCap) <= f.hardLine
  }

  // ── Join or spawn ───────────────────────────────────────────────────────

  const UTILIZATION_TARGET_PERMILLE: nat := 800

  datatype SpawnFacts = SpawnFacts(arrivalsPerSec: real, cpuMsPerRun: Option<real>, live: nat, cores: nat)

  predicate ShouldSpawn(f: SpawnFacts)
  {
    if f.live >= f.cores then false
    else match f.cpuMsPerRun
      case None => true
      case Some(cpu) =>
        f.arrivalsPerSec * cpu / 1000.0 > f.live as real * UTILIZATION_TARGET_PERMILLE as real / 1000.0
  }

  datatype JoinFact = JoinFact(inFlight: nat, util: nat)

  /** The fullest instance under the utilization target, the latest of equals. */
  function PickJoinTarget(s: seq<JoinFact>): (r: Option<nat>)
    ensures r == None <==> forall j :: 0 <= j < |s| ==> s[j].util >= UTILIZATION_TARGET_PERMILLE
    ensures r.Some? ==> r.value < |s| && s[r.value].util < UTILIZATION_TARGET_PERMILLE
    ensures r.Some? ==> forall j :: 0 <= j < |s| && s[j].util < UTILIZATION_TARGET_PERMILLE ==>
              s[j].inFlight <= s[r.value].inFlight && (j > r.value ==> s[j].inFlight < s[r.value].inFlight)
  {
    if s == [] then None
    else
      var last := |s| - 1;
      var before := PickJoinTarget(s[..last]);
      if s[last].util >= UTILIZATION_TARGET_PERMILLE then before
      else if before.Some? && s[before.value].inFlight > s[last].inFlight then before
      else Some(last)
  }

  predicate LighterJoin(a: JoinFact, b: JoinFact)
  {
    a.util < b.util || (a.util == b.util && a.inFlight < b.inFlight)
  }

  /** The least utilized instance, then the emptiest, the earliest of equals. */
  function JoinFallback(s: seq<JoinFact>): (r: Option<nat>)
    ensures r == None <==> s == []
    ensures r.Some? ==> r.value < |s|
    ensures r.Some? ==> forall j :: 0 <= j < |s| ==> !LighterJoin(s[j], s[r.value])
    ensures r.Some? ==> forall j :: 0 <= j < r.value ==> LighterJoin(s[r.value], s[j])
  {
    if s == [] then None
    else
      var last := |s| - 1;
      match JoinFallback(s[..last])
      case None => Some(last)
      case Some(best) => if LighterJoin(s[last], s[best]) then Some(last) else Some(best)
  }
}
