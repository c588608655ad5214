/** Converting performance counter ticks to nanoseconds. */
module Clocks {
  import opened MachineInt

  const NANOS_IN_SEC: nat := 1_000_000_000

  /** The nanoseconds of a tick count, rounded down. */
  function Nanos(freq: nat, qpc: nat): nat
    requires freq > 0
  {
    qpc * NANOS_IN_SEC / freq
  }

  /** What the conversion computes in 64 bits: whole seconds one by one, then the rest. */
  function Computed(freq: nat, qpc: nat): u64
    requires freq > 0
  {
    SumUp(freq, qpc / freq, qpc % freq)
  }

  function SumUp(freq: nat, seconds: nat, rest: nat): u64
    requires freq > 0
  {
    ToU64(seconds * NANOS_IN_SEC + ToU64(rest * NANOS_IN_SEC) / freq)
  }

  method QpcToNs(freq: u64, ticks: u64) returns (ns: u64)
    ensures freq == 0 ==> ns == 0
    ensures freq != 0 ==> ns == Computed(freq, ticks)
  {
    ns := 0;
    if freq != 0 {
      var qpc: u64 := ticks;
      ghost var seconds: nat := 0;
      while qpc >= freq
        invariant ticks == seconds * freq + qpc && ns == ToU64(seconds * NANOS_IN_SEC)
      {
        AddWraps(seconds * NANOS_IN_SEC, NANOS_IN_SEC);
        assert (seconds + 1) * freq == seconds * freq + freq;
        ns := ToU64(ns + NANOS_IN_SEC);
        qpc := qpc - freq;
        seconds := seconds + 1;
      }
      DivisionIs(ticks, freq, seconds, qpc);
      ns := AddRest(freq, qpc, seconds, ns);
    }
  }

  method AddRest(freq: u64, qpc: u64, ghost seconds: nat, sum: u64) returns (ns: u64)
    requires freq != 0 && sum == ToU64(seconds * NANOS_IN_SEC)
    ensures ns == SumUp(freq, seconds, qpc)
  {
    AddWraps(seconds * NANOS_IN_SEC, ToU64(qpc * NANOS_IN_SEC) / freq);
    ns := ToU64(sum + ToU64(qpc * NANOS_IN_SEC) / freq);
  }

  lemma {:induction false} AddWraps(a: nat, b: nat)
    ensures ToU64(ToU64(a) + b) == ToU64(a + b)
  {
  }

  lemma {:induction false} Monotonic(a: nat, b: nat, d: nat)
    requires a <= b
    ensures a * d <= b * d && (a < b ==> a * d + d <= b * d)
  {
    if a < b {
      Monotonic(a, b - 1, d);
      assert b * d == (b - 1) * d + d;
    }
  }

  lemma {:induction false} DivisionIs(v: nat, d: nat, q: nat, r: nat)
    requires d > 0 && r < d && v == q * d + r
    ensures v / d == q && v % d == r
  {
    var p := v / d;
    assert v == p * d + v % d;
    if p < q {
      Monotonic(p, q, d);
    } else if q < p {
      Monotonic(q, p, d);
    }
  }

  /** Whole seconds can be taken out before the division. */
  lemma {:induction false} SecondsComeOut(freq: nat, seconds: nat, rest: nat)
    requires rest < freq
    ensures Nanos(freq, seconds * freq + rest) == seconds * NANOS_IN_SEC + rest * NANOS_IN_SEC / freq
  {
    var x := rest * NANOS_IN_SEC;
    var q, r := x / freq, x % freq;
    assert x == q * freq + r;
    assert (seconds * freq + rest) * NANOS_IN_SEC == (seconds * NANOS_IN_SEC + q) * freq + r by {
      assert (seconds * freq) * NANOS_IN_SEC == (seconds * NANOS_IN_SEC) * freq;
    }
    DivisionIs((seconds * freq + rest) * NANOS_IN_SEC, freq, seconds * NANOS_IN_SEC + q, r);
  }

  /**
   Ticks of some whole seconds and a rest are converted exactly, up to what 64 bits can hold of the result,
   exactly when the rest does not overflow when scaled.
   */
  lemma {:induction false} ConversionIsExactIff(freq: nat, seconds: nat, rest: nat)
    requires rest < freq < TWO_64
    ensures Computed(freq, seconds * freq + rest) == ToU64(Nanos(freq, seconds * freq + rest))
       <==> rest * NANOS_IN_SEC < TWO_64
  {
    DivisionIs(seconds * freq + rest, freq, seconds, rest);
    SecondsComeOut(freq, seconds, rest);
    SplitIsExactIff(freq, seconds, rest, Nanos(freq, seconds * freq + rest));
  }

  /** A frequency that is low enough makes every conversion exact. */
  lemma {:induction false} LowFrequencyIsExact(freq: nat, qpc: nat)
    requires 0 < freq < TWO_64 && (freq - 1) * NANOS_IN_SEC < TWO_64
    ensures Computed(freq, qpc) == ToU64(Nanos(freq, qpc))
  {
    var seconds, rest := qpc / freq, qpc % freq;
    assert qpc == seconds * freq + rest;
    ConversionIsExactIff(freq, seconds, rest);
    Monotonic(rest, freq - 1, NANOS_IN_SEC);
  }

  lemma {:induction false} SplitIsExactIff(freq: nat, seconds: nat, rest: nat, nanos: nat)
    requires rest < freq < TWO_64 && nanos == seconds * NANOS_IN_SEC + rest * NANOS_IN_SEC / freq
    ensures SumUp(freq, seconds, rest) == ToU64(nanos)
       <==> rest * NANOS_IN_SEC < TWO_64
  {
    Monotonic(rest, freq, NANOS_IN_SEC);
    RestIsExactIff(seconds * NANOS_IN_SEC, rest * NANOS_IN_SEC, freq);
  }

  lemma {:induction false} RestIsExactIff(base: nat, x: nat, freq: nat)
    requires 0 < freq < TWO_64 && x < freq * NANOS_IN_SEC
    ensures ToU64(base + ToU64(x) / freq) == ToU64(base + x / freq) <==> x < TWO_64
  {
    var y: nat := ToU64(x);
    if x < TWO_64 {
      SmallMod(x);
    } else {
      WrapsDown(x);
    }
    QuotientsAgreeIff(x, y, freq);
    SumsAgreeIff(base, y / freq, x / freq);
  }

  lemma {:induction false} SumsAgreeIff(base: nat, p: nat, q: nat)
    requires p <= q < TWO_64
    ensures ToU64(base + p) == ToU64(base + q) <==> p == q
  {
    if p < q {
      CloseResiduesDiffer(base + p, q - p);
    }
  }

  lemma {:induction false} QuotientsAgreeIff(x: nat, y: nat, freq: nat)
    requires 0 < freq && x < freq * NANOS_IN_SEC && (y == x || y + freq <= x)
    ensures 0 <= y / freq <= x / freq <= NANOS_IN_SEC
    ensures y / freq == x / freq <==> y == x
  {
    QuotientIsBounded(x, freq);
    QuotientIsBounded(y, freq);
    if y != x {
      QuotientsDiffer(x, y, freq);
    }
  }

  lemma {:induction false} QuotientIsBounded(x: nat, d: nat)
    requires 0 < d && x < d * NANOS_IN_SEC
    ensures 0 <= x / d <= NANOS_IN_SEC
  {
    var q := x / d;
    assert x == q * d + x % d;
    if NANOS_IN_SEC < q {
      Monotonic(NANOS_IN_SEC, q, d);
    }
  }

  lemma {:induction false} WrapsDown(x: nat)
    requires x >= TWO_64
    ensures ToU64(x) + TWO_64 <= x
  {
    assert x / TWO_64 >= 1;
  }

  lemma {:induction false} QuotientsDiffer(x: nat, y: nat, d: nat)
    requires 0 < d && y + d <= x
    ensures y / d < x / d
  {
    var q, p := x / d, y / d;
    assert x == q * d + x % d && y == p * d + y % d;
    if q <= p {
      Monotonic(q, p, d);
    }
  }

  lemma {:induction false} CloseResiduesDiffer(a: nat, b: nat)
    requires 0 < b < TWO_64
    ensures ToU64(a) != ToU64(a + b)
  {
    var c: nat := ToU64(a);
    AddWraps(a, b);
    if c + b < TWO_64 {
      SmallMod(c + b);
    } else {
      ModTwo64(c + b - TWO_64, 1);
      SmallMod(c + b - TWO_64);
    }
  }

  /** A counter whose rest overflows: a frequency of 2^35 with one tick less than a second. */
  lemma {:induction false} FastCounterIsInexact()
    ensures Computed(0x8_0000_0000, 0x7_FFFF_FFFF) == 463129087
    ensures Nanos(0x8_0000_0000, 0x7_FFFF_FFFF) == 999999999
    ensures Computed(0x8_0000_0000, 0x7_FFFF_FFFF) != ToU64(Nanos(0x8_0000_0000, 0x7_FFFF_FFFF))
  {
  }
}
