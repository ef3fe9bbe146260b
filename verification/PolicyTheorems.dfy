// What the verdicts amount to: the integer score is the real one, equal heaps mean least
// recently used, and the latch is read off a whole sample history.

module PolicyTheorems {
  import opened Wrappers
  import opened Policy

  // ── The score ───────────────────────────────────────────────────────────

  lemma MulMonotone(a: nat, b: nat, c: nat, d: nat)
    requires a <= b && c <= d
    ensures a * c <= b * d
  {
    assert a * c <= a * d && a * d <= b * d;
  }

  lemma MulStrict(a: nat, b: nat, c: nat, d: nat)
    requires a < b && c <= d && d > 0
    ensures a * c < b * d
  {
    MulMonotone(a, a, c, d);
    assert b * d == a * d + (b - a) * d;
    assert (b - a) * d > 0;
  }

  lemma {:induction false} PowMonotone(a: nat, b: nat, e: nat)
    requires a <= b
    ensures Pow(a, e) <= Pow(b, e)
    ensures a < b && e > 0 ==> Pow(a, e) < Pow(b, e)
  {
    if e > 0 {
      var x, y := Pow(a, e - 1), Pow(b, e - 1);
      PowMonotone(a, b, e - 1);
      MulMonotone(a, b, x, y);
      if a < b {
        PowPositive(b, e - 1);
        MulStrict(a, b, x, y);
      }
    }
  }

  lemma {:induction false} PowPositive(b: nat, e: nat)
    requires b > 0
    ensures Pow(b, e) > 0
  {
    if e > 0 { PowPositive(b, e - 1); }
  }

  function RPow(b: real, e: nat): real
  {
    if e == 0 then 1.0 else b * RPow(b, e - 1)
  }

  lemma RMul(a: real, b: real, c: real, d: real)
    requires 0.0 <= a <= b && 0.0 <= c <= d
    ensures 0.0 <= a * c <= b * d
  {
    assert a * c <= a * d && a * d <= b * d;
  }

  lemma RMulStrict(a: real, b: real, c: real, d: real)
    requires 0.0 <= a < b && 0.0 <= c <= d && d > 0.0
    ensures a * c < b * d
  {
    RMul(a, a, c, d);
    assert b * d - a * d == (b - a) * d;
    assert (b - a) * d > 0.0;
  }

  lemma {:induction false} RPowMonotone(a: real, b: real, e: nat)
    requires 0.0 <= a <= b
    ensures 0.0 <= RPow(a, e) <= RPow(b, e)
    ensures a < b && e > 0 ==> RPow(a, e) < RPow(b, e)
  {
    if e > 0 {
      RPowMonotone(a, b, e - 1);
      RMul(a, b, RPow(a, e - 1), RPow(b, e - 1));
      if a < b {
        RPowPositive(b, e - 1);
        RMulStrict(a, b, RPow(a, e - 1), RPow(b, e - 1));
      }
    }
  }

  lemma {:induction false} RPowPositive(b: real, e: nat)
    requires b > 0.0
    ensures RPow(b, e) > 0.0
  {
    if e > 0 {
      RPowPositive(b, e - 1);
      assert b * RPow(b, e - 1) > 0.0;
    }
  }

  lemma {:induction false} PowIsReal(b: nat, e: nat)
    ensures Pow(b, e) as real == RPow(b as real, e)
  {
    if e > 0 { PowIsReal(b, e - 1); }
  }

  /** Clock units since the last use; none if the clock says otherwise. */
  function Age(f: VictimFact, now: int): nat
  {
    if now - f.lastUsed > 0 then now - f.lastUsed else 0
  }

  /**
   * `s` is the score h * t^1.2, for t in seconds of `second` clock units each: the
   * non-negative number whose fifth power is h^5 * t^6.
   */
  ghost predicate IsScore(s: real, f: VictimFact, now: int, second: real)
  {
    s >= 0.0 && RPow(s, 5) * RPow(second, 6) == RPow(f.heap as real, 5) * RPow(Age(f, now) as real, 6)
  }

  /** Comparing two scores is comparing the integer weights, whatever the unit. */
  lemma ScoreOrder(f: VictimFact, g: VictimFact, now: int, s: real, u: real, second: real)
    requires second > 0.0 && IsScore(s, f, now, second) && IsScore(u, g, now, second)
    ensures s < u <==> Weight(f, now) < Weight(g, now)
  {
    hide RPow, Pow;
    PowIsReal(f.heap, 5);
    PowIsReal(g.heap, 5);
    PowIsReal(Age(f, now), 6);
    PowIsReal(Age(g, now), 6);
    RPowPositive(second, 6);
    var c, x, y := RPow(second, 6), RPow(s, 5), RPow(u, 5);
    assert x * c == Weight(f, now) as real && y * c == Weight(g, now) as real;
    assert x < y <==> x * c < y * c by { ScaleOrder(x, y, c); }
    if s < u { RPowMonotone(s, u, 5); } else { RPowMonotone(u, s, 5); }
  }

  lemma ScaleOrder(x: real, y: real, c: real)
    requires c > 0.0
    ensures x < y <==> x * c < y * c
  {
    assert (y - x) * c == y * c - x * c;
  }

  /**
   * The chosen victim has the greatest score; among equals it was last used first, and
   * among equals of that too it is the latest in the slice.
   */
  lemma PicksGreatestScore(idle: seq<VictimFact>, now: int, scores: seq<real>, second: real)
    requires idle != [] && |scores| == |idle| && second > 0.0
    requires forall j :: 0 <= j < |idle| ==> IsScore(scores[j], idle[j], now, second)
    ensures var v := PickVictim(idle, now).value;
            forall j :: 0 <= j < |idle| ==>
              || scores[j] < scores[v]
              || (scores[j] == scores[v] && idle[v].lastUsed < idle[j].lastUsed)
              || (scores[j] == scores[v] && idle[v].lastUsed == idle[j].lastUsed && j <= v)
  {
    hide Weight, IsScore, PickVictim;
    var v := PickVictim(idle, now).value;
    forall j | 0 <= j < |idle|
      ensures scores[j] < scores[v]
           || (scores[j] == scores[v] && (idle[v].lastUsed < idle[j].lastUsed || (idle[v].lastUsed == idle[j].lastUsed && j <= v)))
    {
      ScoreOrder(idle[j], idle[v], now, scores[j], scores[v], second);
      ScoreOrder(idle[v], idle[j], now, scores[v], scores[j], second);
    }
  }

  lemma WeightByAge(f: VictimFact, g: VictimFact, now: int)
    requires f.heap == g.heap && f.lastUsed <= g.lastUsed
    ensures Weight(f, now) >= Weight(g, now)
  {
    PowMonotone(IdleFor(g, now), IdleFor(f, now), 6);
    MulMonotone(Pow(f.heap, 5), Pow(f.heap, 5), Pow(IdleFor(g, now), 6), Pow(IdleFor(f, now), 6));
  }

  /** With equal heaps, zero included and clocks however odd, the victim is a least recently used one. */
  lemma EqualHeapsLeastRecentlyUsed(idle: seq<VictimFact>, now: int)
    requires idle != [] && forall i, j :: 0 <= i < |idle| && 0 <= j < |idle| ==> idle[i].heap == idle[j].heap
    ensures var v := PickVictim(idle, now).value;
            && (forall j :: 0 <= j < |idle| ==> idle[v].lastUsed <= idle[j].lastUsed)
            && (forall j :: v < j < |idle| ==> idle[v].lastUsed < idle[j].lastUsed)
  {
    var v := PickVictim(idle, now).value;
    forall j | 0 <= j < |idle|
      ensures idle[v].lastUsed <= idle[j].lastUsed && (j > v ==> idle[v].lastUsed < idle[j].lastUsed)
    {
      if idle[j].lastUsed <= idle[v].lastUsed { WeightByAge(idle[j], idle[v], now); }
    }
  }

  /** `Beats` is a strict weak order, so "best" does not depend on the slice's order. */
  lemma BeatsIsOrder(a: VictimFact, b: VictimFact, c: VictimFact, now: int)
    ensures !(Beats(a, b, now) && Beats(b, a, now))
    ensures !Beats(a, b, now) && !Beats(b, c, now) ==> !Beats(a, c, now)
  {
    hide Weight;
  }

  // ── The latch over a history of samples ─────────────────────────────────

  type Sample = Option<nat>

  /** The latch a pass leaves behind; an unreadable sample releases it. */
  function Latch(was: bool, s: Sample, budget: nat): bool
  {
    match s
    case None => false
    case Some(usage) => WatermarkAction(PressureFacts(usage, budget, was, None, 0)).shedding
  }

  function LatchAfter(samples: seq<Sample>, budget: nat): bool
  {
    if samples == [] then false
    else Latch(LatchAfter(samples[..|samples| - 1], budget), samples[|samples| - 1], budget)
  }

  predicate Holds(s: Sample, budget: nat)
  {
    s.Some? && s.value > budget / 5 * 4
  }

  ghost predicate Latched(samples: seq<Sample>, budget: nat, i: nat)
  {
    && i < |samples| && samples[i].Some? && samples[i].value >= budget
    && forall j :: i < j < |samples| ==> Holds(samples[j], budget)
  }

  /** The latch is on exactly if some sample reached the budget and all since were readable and above 4/5. */
  lemma {:induction false} LatchHistory(samples: seq<Sample>, budget: nat)
    requires budget > 0
    ensures LatchAfter(samples, budget) <==> exists i :: Latched(samples, budget, i)
  {
    if samples != [] {
      var front, last := samples[..|samples| - 1], samples[|samples| - 1];
      LatchHistory(front, budget);
      if LatchAfter(samples, budget) {
        if last.value >= budget {
          assert Latched(samples, budget, |samples| - 1);
        } else {
          var i :| Latched(front, budget, i);
          assert Latched(samples, budget, i);
        }
      }
      if i: nat :| Latched(samples, budget, i) {
        if i < |front| { LatchedFront(samples, budget, i); }
      }
    }
  }

  lemma LatchedFront(samples: seq<Sample>, budget: nat, i: nat)
    requires budget > 0 && Latched(samples, budget, i) && i < |samples| - 1
    ensures Latched(samples[..|samples| - 1], budget, i) && Holds(samples[|samples| - 1], budget)
  {
    assert forall j :: i < j < |samples| - 1 ==> samples[..|samples| - 1][j] == samples[j];
  }

  /** The latch verdict does not depend on the pool or on earlier passes. */
  lemma LatchIgnoresPool(f: PressureFacts)
    ensures WatermarkAction(f).shedding == Latch(f.wasShedding, Some(f.usage), f.budget)
  {
  }

  /** A verdict to evict is always satisfiable by the idle population, and only under the latch. */
  lemma EvictWithinIdle(f: PressureFacts)
    ensures WatermarkAction(f).evict <= f.idleCount
    ensures WatermarkAction(f).evict > 0 ==> WatermarkAction(f).shedding && f.idleCount > 0
  {
  }

  // ── The verdict in numbers ──────────────────────────────────────────────

  /** Usage has moved by no more than a twentieth of what the last evicting pass saw. */
  predicate Unmoved(usage: nat, last: Option<nat>)
  {
    last.Some? && -(last.value as int) <= 20 * (usage - last.value) <= last.value
  }

  /** The latch is on after this sample, something is idle, and usage has moved since the last evicting pass. */
  predicate Evicts(f: PressureFacts)
  {
    && f.budget > 0 && (f.usage >= f.budget || (f.wasShedding && f.usage > f.budget / 5 * 4))
    && f.idleCount > 0 && !Unmoved(f.usage, f.lastPass)
  }

  /** A tenth of the idle instances, rounded down, but at least one; none when nothing is evicted. */
  predicate PassSize(f: PressureFacts, n: nat)
  {
    if Evicts(f) then n >= 1 && 10 * n <= (if f.idleCount > 10 then f.idleCount else 10) && 10 * (n + 1) > f.idleCount
    else n == 0
  }

  /** The verdict's count is the one number of that size, and its latch the one of the marks. */
  lemma VerdictExactly(f: PressureFacts, n: nat)
    ensures PassSize(f, n) <==> n == WatermarkAction(f).evict
    ensures WatermarkAction(f).shedding <==>
              f.budget > 0 && (f.usage >= f.budget || (f.wasShedding && f.usage > f.budget / 5 * 4))
  {
    if f.lastPass.Some? { FlatIsUnmoved(f.usage, f.lastPass.value); }
  }

  lemma FlatIsUnmoved(usage: nat, last: nat)
    ensures Flat(usage, last) <==> Unmoved(usage, Some(last))
  {
    var d := if usage > last then usage - last else last - usage;
    assert d <= last / 20 <==> 20 * d <= last;
  }

  /**
   * A new isolate with a cap fits while usage plus cap stays at or below the line (sums
   * past 2^64 count as 2^64 - 1), without a line always; without a cap it fits below the
   * budget, without a budget always.
   */
  lemma AdmitsExactly(usage: nat, cap: nat, line: nat, budget: nat)
    requires line < 0x1_0000_0000_0000_0000
    ensures AdmitIsolate(AdmitFacts(usage, cap, line, budget)) <==>
              if cap > 0 then line == 0 || usage + cap <= line || line == 0xFFFF_FFFF_FFFF_FFFF
              else budget == 0 || usage < budget
  {
  }

  // ── The soft line over a history of finishes ────────────────────────────

  /** The strike count after these finishes of an instance, each over the line or not. */
  function StrikesAfter(overs: seq<bool>): nat
  {
    if overs == [] then 0 else SoftStrike(StrikesAfter(overs[..|overs| - 1]), overs[|overs| - 1]).0
  }

  /** One crossing is forgiven; an instance is retired exactly at the second of two in a row. */
  lemma {:induction false} TwoInARowRetire(overs: seq<bool>, over: bool)
    ensures SoftStrike(StrikesAfter(overs), over).1 <==> over && overs != [] && overs[|overs| - 1]
    ensures StrikesAfter(overs) > 0 <==> overs != [] && overs[|overs| - 1]
  {
    if overs != [] { TwoInARowRetire(overs[..|overs| - 1], overs[|overs| - 1]); }
  }
}
