/** `readAllTemperatures`: wait until the DS18B20 sensors have had the
    conversion time their resolution needs, then read every sensor into the
    `temperature` array and store the average in `avg_temperature`.
    Readings are over the reals; the firmware's `float` rounding is not
    modelled. */
module Temperature {

  /** Resolution the sensors are configured with. */
  const TEMP_RESOLUTION_BITS: int := 11

  /** The one-wire pins the four sensors are connected to (front 1, front 2,
      rear 1, rear 2). */
  const ONE_WIRE_PINS: seq<nat> := [32, 34, 36, 38]

  /** `numSensors`: one sensor per configured pin. */
  const NUM_SENSORS: nat := |ONE_WIRE_PINS|

  /** The documented conversion time at 9, 10, 11 and 12 bits: 750 ms at 12
      bits, halved for each bit less. */
  function ConversionTime(resolution: int): (t: real)
    requires 9 <= resolution <= 12
    decreases 12 - resolution
  {
    if resolution == 12 then 750.0 else ConversionTime(resolution + 1) / 2.0
  }

  /** The times the configuration comment lists for 9, 10, 11 and 12 bits. */
  lemma DocumentedConversionTimes()
    ensures ConversionTime(9) == 93.75 && ConversionTime(10) == 187.5
    ensures ConversionTime(11) == 375.0 && ConversionTime(12) == 750.0
  {
  }

  /** The milliseconds the firmware waits for at a resolution; a resolution
      it does not know is treated as 12 bits. */
  function RequiredLatency(resolution: int): (ms: nat)
    ensures 9 <= resolution <= 12 ==>
      ConversionTime(resolution) <= ms as real < ConversionTime(resolution) + 1.0
  {
    match resolution
    case 9 => 94
    case 10 => 188
    case 11 => 375
    case _ => 750
  }

  /** The `default` branch falls through to the 12-bit case. */
  lemma UnknownResolutionAsTwelveBits(resolution: int)
    requires !(9 <= resolution <= 12)
    ensures RequiredLatency(resolution) == RequiredLatency(12)
  {
  }

  /** More resolution bits need more time. */
  lemma LatencyIncreasing(a: int, b: int)
    requires 9 <= a < b <= 12
    ensures RequiredLatency(a) < RequiredLatency(b)
  {
  }

  /** The `delay` before reading: what is left of the latency, or nothing
      once it has elapsed. */
  function ConversionWait(latency: nat, elapsed: nat): (wait: nat)
    ensures wait <= latency
    ensures latency <= elapsed + wait
    ensures wait == 0 || elapsed + wait == latency
  {
    if elapsed < latency then latency - elapsed else 0
  }

  /** Sum of the readings, added left to right. */
  function Sum(s: seq<real>): real {
    if s == [] then 0.0 else Sum(s[..|s| - 1]) + s[|s| - 1]
  }

  /** The smallest reading. */
  function Min(s: seq<real>): (m: real)
    requires s != []
    ensures m in s
    ensures forall i :: 0 <= i < |s| ==> m <= s[i]
  {
    if |s| == 1 then s[0]
    else
      var m := Min(s[..|s| - 1]);
      assert forall i :: 0 <= i < |s| - 1 ==> s[..|s| - 1][i] == s[i];
      if s[|s| - 1] < m then s[|s| - 1] else m
  }

  /** The largest reading. */
  function Max(s: seq<real>): (m: real)
    requires s != []
    ensures m in s
    ensures forall i :: 0 <= i < |s| ==> s[i] <= m
  {
    if |s| == 1 then s[0]
    else
      var m := Max(s[..|s| - 1]);
      assert forall i :: 0 <= i < |s| - 1 ==> s[..|s| - 1][i] == s[i];
      if s[|s| - 1] > m then s[|s| - 1] else m
  }

  /** Readings all within `[lo, hi]` sum to within `[|s| * lo, |s| * hi]`. */
  lemma {:induction false} SumBounds(s: seq<real>, lo: real, hi: real)
    requires forall i :: 0 <= i < |s| ==> lo <= s[i] <= hi
    ensures |s| as real * lo <= Sum(s) <= |s| as real * hi
  {
    if s != [] {
      var init := s[..|s| - 1];
      assert forall i :: 0 <= i < |init| ==> init[i] == s[i];
      SumBounds(init, lo, hi);
      assert |s| as real * lo == |init| as real * lo + lo;
      assert |s| as real * hi == |init| as real * hi + hi;
    }
  }

  /** Readings all within `[lo, hi]` average to within `[lo, hi]`. */
  lemma AverageBounds(s: seq<real>, lo: real, hi: real)
    requires s != []
    requires forall i :: 0 <= i < |s| ==> lo <= s[i] <= hi
    ensures lo <= Sum(s) / |s| as real <= hi
  {
    SumBounds(s, lo, hi);
    DivideBounds(Sum(s), |s| as real, lo, hi);
  }

  /** The average lies between the smallest and the largest reading. */
  lemma AverageBetweenMinAndMax(s: seq<real>)
    requires s != []
    ensures Min(s) <= Sum(s) / |s| as real <= Max(s)
  {
    AverageBounds(s, Min(s), Max(s));
  }

  lemma DivideBounds(x: real, n: real, lo: real, hi: real)
    requires n > 0.0 && n * lo <= x <= n * hi
    ensures lo <= x / n <= hi
  {
    assert lo == n * lo / n && n * hi / n == hi;
  }

  /** The sensor readings the control loop works with. */
  class Sensors {
    /** `temperature`: the last reading of each sensor. */
    var temperature: array<real>
    /** `avg_temperature`: their average. */
    var avgTemperature: real

    ghost predicate Valid()
      reads this
    {
      temperature.Length == NUM_SENSORS
    }

    constructor ()
      ensures Valid() && fresh(temperature)
    {
      temperature := new real[NUM_SENSORS];
      avgTemperature := 0.0;
    }

    /** `readAllTemperatures`, given the milliseconds elapsed since the last
        measurement and what each sensor reports; returns how long it
        delays before reading. */
    method ReadAllTemperatures(elapsed: nat, readings: seq<real>) returns (wait: nat)
      requires Valid() && |readings| == NUM_SENSORS
      modifies this, temperature
      ensures Valid() && temperature == old(temperature)
      ensures wait == ConversionWait(RequiredLatency(TEMP_RESOLUTION_BITS), elapsed)
      ensures temperature[..] == readings
      ensures avgTemperature == Sum(readings) / NUM_SENSORS as real
    {
      var latency := RequiredLatency(TEMP_RESOLUTION_BITS);
      wait := ConversionWait(latency, elapsed);
      avgTemperature := 0.0;
      var i := 0;
      while i < NUM_SENSORS
        invariant 0 <= i <= NUM_SENSORS
        invariant temperature == old(temperature) && Valid()
        invariant temperature[..i] == readings[..i]
        invariant avgTemperature == Sum(readings[..i])
      {
        temperature[i] := readings[i];
        avgTemperature := avgTemperature + temperature[i];
        assert readings[..i + 1][..i] == readings[..i];
        i := i + 1;
      }
      assert readings[..NUM_SENSORS] == readings;
      assert temperature[..] == temperature[..NUM_SENSORS];
      avgTemperature := avgTemperature / NUM_SENSORS as real;
    }
  }
}
