// The drifting minimum behind the slot formula: what it holds is a closed form of every
// sample it ever saw.

module DecayingMinimum {

  /** The upward drift of an unchallenged minimum, per sample. */
  const DECAY_PER_SAMPLE := 1.005

  function Drift(n: nat): real
  {
    if n == 0 then 1.0 else DECAY_PER_SAMPLE * Drift(n - 1)
  }

  /** What sample `i` counts for after `n` samples. */
  function Aged(samples: seq<real>, i: nat): real
    requires i < |samples|
  {
    samples[i] * Drift(|samples| - 1 - i)
  }

  ghost predicate Positive(samples: seq<real>)
  {
    forall i :: 0 <= i < |samples| ==> samples[i] > 0.0
  }

  /** `v` is exactly the least aged sample. */
  ghost predicate LeastAged(v: real, samples: seq<real>)
  {
    && (exists i :: 0 <= i < |samples| && v == Aged(samples, i))
    && (forall i :: 0 <= i < |samples| ==> v <= Aged(samples, i))
  }

  class DecayingMin {
    var value: real
    var seeded: bool
    ghost var seen: seq<real>

    ghost predicate Valid()
      reads this
    {
      Positive(seen) && (seeded <==> seen != []) && (seeded ==> LeastAged(value, seen))
    }

    constructor ()
      ensures Valid() && seen == []
    {
      value, seeded, seen := 0.0, false, [];
    }

    /** Folds in one positive sample; its callers drop the others. */
    method Update(sample: real)
      requires Valid() && sample > 0.0
      modifies this
      ensures Valid() && seen == old(seen) + [sample]
    {
      Later(seen, sample, value);
      if !seeded || sample <= value {
        value, seeded := sample, true;
        seen := seen + [sample];
        return;
      }
      var drifted := value * DECAY_PER_SAMPLE;
      value := if sample < drifted then sample else drifted;
      seen := seen + [sample];
    }

    method Get() returns (v: real, some: bool)
      requires Valid()
      ensures some <==> seen != []
      ensures some ==> LeastAged(v, seen)
    {
      return value, seeded;
    }
  }

  /** Each sample that comes after counts an older one for 0.5% more. */
  lemma {:induction false} DriftGrows(n: nat)
    ensures Drift(n) >= 1.0
    ensures Drift(n + 1) == Drift(n) + 0.005 * Drift(n)
  {
    if n > 0 { DriftGrows(n - 1); }
  }

  lemma AgedSnoc(samples: seq<real>, s: real, i: nat)
    requires i <= |samples|
    ensures Aged(samples + [s], i) == if i < |samples| then DECAY_PER_SAMPLE * Aged(samples, i) else s
  {
    if i < |samples| {
      assert Drift(|samples| - i) == DECAY_PER_SAMPLE * Drift(|samples| - 1 - i);
      var d := Drift(|samples| - 1 - i);
      assert samples[i] * (DECAY_PER_SAMPLE * d) == DECAY_PER_SAMPLE * (samples[i] * d);
    }
  }

  /** One more sample: everything older counts for 0.5% more. */
  lemma Later(samples: seq<real>, s: real, v: real)
    requires Positive(samples) && s > 0.0 && (samples != [] ==> LeastAged(v, samples))
    ensures Positive(samples + [s])
    ensures samples == [] ==> LeastAged(s, samples + [s])
    ensures samples != [] ==> v > 0.0
    ensures samples != [] ==> LeastAged(if s < v * DECAY_PER_SAMPLE then s else v * DECAY_PER_SAMPLE, samples + [s])
    ensures samples != [] && s <= v ==> s < v * DECAY_PER_SAMPLE
  {
    var all := samples + [s];
    forall i | 0 <= i < |all| ensures Aged(all, i) == if i < |samples| then DECAY_PER_SAMPLE * Aged(samples, i) else s {
      AgedSnoc(samples, s, i);
    }
    assert Aged(all, |samples|) == s;
    if samples != [] {
      var i :| 0 <= i < |samples| && v == Aged(samples, i);
      DriftGrows(|samples| - 1 - i);
      assert samples[i] * Drift(|samples| - 1 - i) > 0.0;
      assert Aged(all, i) == v * DECAY_PER_SAMPLE;
    }
  }

  /** The held value never exceeds the latest sample nor falls below the smallest seen. */
  lemma BetweenSmallestAndLatest(v: real, samples: seq<real>)
    requires Positive(samples) && samples != [] && LeastAged(v, samples)
    ensures v <= samples[|samples| - 1]
    ensures exists i :: 0 <= i < |samples| && samples[i] <= v
    ensures forall w :: LeastAged(w, samples) ==> w == v
  {
    assert v <= Aged(samples, |samples| - 1);
    var i :| 0 <= i < |samples| && v == Aged(samples, i);
    DriftGrows(|samples| - 1 - i);
    assert samples[i] * Drift(|samples| - 1 - i) >= samples[i] * 1.0;
    forall w | LeastAged(w, samples) ensures w == v {
      var j :| 0 <= j < |samples| && w == Aged(samples, j);
    }
  }
}
