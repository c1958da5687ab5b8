/** The debounce gate shared by the handlers of buttons A and B: an edge is
    accepted only when more than 200 ms have passed, measured on the
    wrapping 32-bit microsecond clock, since the last accepted edge. */
module Debounce {
  import opened Words

  /** The refractory interval of a button, in microseconds. */
  const WINDOW_US: nat := 200000

  /** The test `current_time - last_time > 200000`, computed on `uint32_t`. */
  predicate Accepts(last: u32, now: u32)
  {
    Sub(now, last) > WINDOW_US
  }

  /** An edge at most 200 ms (modulo 2^32) after the last accepted one is rejected. */
  lemma RejectsWithinWindow(last: u32, d: nat)
    requires d <= WINDOW_US
    ensures !Accepts(last, (last + d) % MOD32)
  {
    SubUnique((last + d) % MOD32, last, d);
  }

  /** An edge more than 200 ms (and less than 2^32 us) after the last accepted one is accepted. */
  lemma AcceptsAfterWindow(last: u32, d: u32)
    requires d > WINDOW_US
    ensures Accepts(last, (last + d) % MOD32)
  {
    SubUnique((last + d) % MOD32, last, d);
  }

  /** With the power-on stamp 0, an edge is accepted exactly when the clock reads more than 200000. */
  lemma FromBoot(now: u32)
    ensures Accepts(0, now) <==> now > WINDOW_US
  {
  }

  /** When two 64-bit boot times are less than 2^32 us apart, truncating both to
      32 bits before subtracting gives their true distance, so the gate decides
      on the real elapsed time. */
  lemma TruncatedDistance(t1: u64, t2: u64)
    requires t1 <= t2 < t1 + MOD32
    ensures Sub(Truncate(t2), Truncate(t1)) == t2 - t1
  {
    var d: u32 := t2 - t1;
    var q := t1 / MOD32;
    assert t1 == q * MOD32 + Truncate(t1);
    var p := t2 / MOD32;
    assert t2 == p * MOD32 + Truncate(t2);
    assert Truncate(t1) + d == (t2 - p * MOD32) + (p - q) * MOD32;
    assert p == q || p == q + 1;
    SubUnique(Truncate(t2), Truncate(t1), d);
  }

  /** Gate decision on real boot times less than 2^32 us apart. */
  lemma ShortGapDecision(t1: u64, t2: u64)
    requires t1 <= t2 < t1 + MOD32
    ensures Accepts(Truncate(t1), Truncate(t2)) <==> t2 - t1 > WINDOW_US
  {
    TruncatedDistance(t1, t2);
  }

  /** The 32-bit clock wraps every 2^32 us (about 71.6 minutes): an edge that
      comes a whole wrap plus at most 200 ms after the last accepted one is
      rejected, although far more than 200 ms have passed. */
  lemma WrapAliasRejected(t1: u64, d: nat)
    requires d <= WINDOW_US
    requires t1 + MOD32 + d < MOD64
    ensures !Accepts(Truncate(t1), Truncate(t1 + MOD32 + d))
  {
    assert Truncate(t1 + MOD32 + d) == (Truncate(t1) + d) % MOD32 by {
      var q := t1 / MOD32;
      assert t1 + MOD32 + d == (q + 1) * MOD32 + (Truncate(t1) + d);
    }
    RejectsWithinWindow(Truncate(t1), d);
  }
}
