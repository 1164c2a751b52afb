/** The millisecond clock of the controller: `millis()` returns a 32-bit
    `unsigned long` that wraps around, and every elapsed-time test in the
    control loop is the unsigned difference `now - since`. */
module Clock {

  /** Number of distinct values of the 32-bit millisecond counter. */
  const WRAP: nat := 0x1_0000_0000

  /** A value the 32-bit counter can hold. */
  predicate IsMillis(t: int) {
    0 <= t < WRAP
  }

  /** `now - since` computed on 32-bit unsigned integers. */
  function Elapsed(now: nat, since: nat): (d: nat)
    requires IsMillis(now) && IsMillis(since)
    ensures IsMillis(d)
    ensures since <= now ==> d == now - since
    ensures now < since ==> d == WRAP - since + now
  {
    (now - since) % WRAP
  }

  /** A timed gate fires only on strictly more than `threshold` milliseconds. */
  predicate Due(now: nat, since: nat, threshold: nat)
    requires IsMillis(now) && IsMillis(since)
  {
    Elapsed(now, since) > threshold
  }

  /** A gate whose timestamp was just reset to `now` cannot fire at `now`. */
  lemma ResetGateIsClosed(now: nat, threshold: nat)
    requires IsMillis(now)
    ensures !Due(now, now, threshold)
  {
  }
}
