// The two heap lines of a run: the headroom band above the advertised cap, and the line
// that retires against the line that terminates.

module HeapLines {
  import opened Wrappers
  import opened Bytes

  const U32_MAX: u32 := 0xFFFF_FFFF

  /** Integer square root. */
  function Isqrt(n: nat): (r: nat)
    ensures r * r <= n < (r + 1) * (r + 1)
  {
    if n == 0 then 0
    else
      var h := Isqrt(n / 4);
      var q := 2 * h;
      Doubled(n, h);
      if (q + 1) * (q + 1) <= n then q + 1 else q
  }

  lemma Doubled(n: nat, h: nat)
    requires h * h <= n / 4 < (h + 1) * (h + 1)
    ensures (2 * h) * (2 * h) <= n < (2 * h + 2) * (2 * h + 2)
  {
    assert (2 * h) * (2 * h) == 4 * (h * h);
    assert (2 * h + 2) * (2 * h + 2) == 4 * ((h + 1) * (h + 1));
  }

  /** The geometric mean of the cap and 8 MB, to the nearest integer; no tie can arise. */
  function HeapBandMb(cap: u32): (r: nat)
    ensures cap == 0 <==> r == 0
    ensures cap > 0 ==> (2 * r - 1) * (2 * r - 1) < 32 * cap < (2 * r + 1) * (2 * r + 1)
  {
    if cap == 0 then 0
    else
      var q := Isqrt(32 * cap);
      Nearest(cap, q, (q + 1) / 2);
      (q + 1) / 2
  }

  lemma Nearest(cap: nat, q: nat, r: nat)
    requires q * q <= 32 * cap < (q + 1) * (q + 1) && r == (q + 1) / 2 && cap > 0
    ensures (2 * r - 1) * (2 * r - 1) < 32 * cap < (2 * r + 1) * (2 * r + 1) && r > 0
  {
    if q == 2 * r { Squares(2 * r - 1, q); } else { Squares(q + 1, 2 * r + 1); }
    OddSquare(2 * r - 1, r);
    assert 32 * cap == 2 * (16 * cap);
  }

  lemma Squares(a: int, b: int)
    requires 0 <= a <= b
    ensures a * a <= b * b
  {
    assert a * a <= a * b && a * b <= b * b;
  }

  lemma OddSquare(x: int, r: int)
    requires x == 2 * r - 1
    ensures forall m: int :: x * x != 2 * m
  {
    assert x * x == 2 * (2 * (r * r) - 2 * r) + 1;
  }

  /** A bigger cap never has a smaller band. */
  lemma BandGrows(a: u32, b: u32)
    requires a <= b
    ensures HeapBandMb(a) <= HeapBandMb(b)
  {
    hide HeapBandMb;
    var r, s := HeapBandMb(a), HeapBandMb(b);
    if r > s { Squares(2 * s + 1, 2 * r - 1); }
  }

  lemma KnownBands()
    ensures HeapBandMb(8) == 8 && HeapBandMb(128) == 32 && HeapBandMb(512) == 64
  {
    BandUnique(8, 8);
    BandUnique(128, 32);
    BandUnique(512, 64);
  }

  /** The band is the only integer within half of the root. */
  lemma BandUnique(cap: u32, r: nat)
    requires r > 0 && (2 * r - 1) * (2 * r - 1) <= 32 * cap < (2 * r + 1) * (2 * r + 1)
    ensures HeapBandMb(cap) == r
  {
    hide HeapBandMb;
    var s := HeapBandMb(cap);
    if s < r { Squares(2 * s + 1, 2 * r - 1); }
    if s > r { Squares(2 * r + 1, 2 * s - 1); }
  }

  datatype BandPolicy = Managed | Strict

  function SaturatingAdd(a: nat, b: nat): u32
  {
    if a + b > U32_MAX then U32_MAX else a + b
  }

  /** The soft and the hard line, in megabytes; 0 = none. */
  function ResolveHeapLines(cap: u32, override: Option<u32>, band: BandPolicy): (u32, u32)
  {
    match (override, band)
    case (None, Strict) => (0, cap)
    case (None, Managed) => (cap, SaturatingAdd(cap, HeapBandMb(cap)))
    case (Some(hard), _) =>
      if hard == 0 then (0, 0)
      else if band.Strict? || cap >= hard then (0, hard)
      else (cap, hard)
  }

  /**
   * A soft line always has a hard line at or above it, strictly above unless the sum
   * saturates; a strict run has none; an override is always the hard line; and a zero cap
   * without one means no line at all.
   */
  lemma LinesOrdered(cap: u32, override: Option<u32>, band: BandPolicy)
    ensures var (soft, hard) := ResolveHeapLines(cap, override, band);
            && (soft > 0 ==> soft <= hard)
            && (soft > 0 && soft == hard <==> cap == U32_MAX && override == None && band == Managed)
            && (band == Strict ==> soft == 0)
            && (override.Some? ==> hard == override.value)
            && (override == None && cap == 0 ==> soft == 0 && hard == 0)
            && (soft > 0 ==> soft == cap)
  {
  }

  /** Without an override a bigger cap never lowers the terminating line. */
  lemma CeilingMonotone(a: u32, b: u32, band: BandPolicy)
    requires a <= b
    ensures ResolveHeapLines(a, None, band).1 <= ResolveHeapLines(b, None, band).1
  {
    BandGrows(a, b);
  }
}
