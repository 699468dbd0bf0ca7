/**
 The sampling loop of src/mojitos.c: poll, then sleep until the next multiple of the period.
 Times are in nanoseconds; the clock shows a second and the nanoseconds within it.
 */
module Sampling {
  import opened Division

  const SECOND: int := 1_000_000_000
  const MILLION: int := 1_000_000

  /** 1000 * 1000 / frequency, in microseconds. */
  function Period(frequency: int): (p: int)
    requires 1 <= frequency <= MILLION
    ensures 1 <= p <= MILLION
  {
    PeriodBounds(frequency);
    MILLION / frequency
  }

  lemma PeriodBounds(frequency: int)
    requires 1 <= frequency <= MILLION
    ensures 1 <= MILLION / frequency <= MILLION
  {
  }

  /** The largest whole number of microseconds of which `frequency` fit into a second. */
  lemma PeriodIsLargest(frequency: int)
    requires 1 <= frequency <= MILLION
    ensures Period(frequency) * frequency <= 1_000_000 < (Period(frequency) + 1) * frequency
  {
    DivMod(MILLION, frequency);
  }

  function Micros(t: nat): nat {
    t / 1000
  }

  /** The period, truncated toward zero, is not zero: main divides by it. */
  predicate HasPeriod(frequency: int) {
    1 <= frequency <= MILLION || -MILLION <= frequency <= -1
  }

  lemma PeriodNotZero(frequency: int)
    ensures HasPeriod(frequency) <==> frequency != 0 && 1_000_000 / (if frequency > 0 then frequency else -frequency) > 0
  {
    if frequency != 0 {
      DivMod(MILLION, if frequency > 0 then frequency else -frequency);
    }
  }

  /** The argument of usleep at time t, an unsigned 32-bit number: with a negative frequency it wraps,
      and the sleep is longer than an hour. */
  function SleepTime(t: nat, frequency: int): (us: int)
    requires HasPeriod(frequency)
    ensures frequency > 0 ==> 1 <= us <= Period(frequency)
    ensures frequency < 0 ==> 3600 * MILLION < us < 0x1_0000_0000
  {
    var p := Period(if frequency > 0 then frequency else -frequency);
    var x := ((t % SECOND) / 1000) % p;
    if frequency > 0 then p - x else (-p - x) % 0x1_0000_0000
  }

  /** The time after the sleep, if usleep is exact. */
  function Wake(t: nat, frequency: int): (w: nat)
    requires HasPeriod(frequency)
    ensures w > t
  {
    t + 1000 * SleepTime(t, frequency)
  }

  /** The sleep and the microseconds into the period make a period; with a negative frequency, the
      sleep, they and the period make 2^32. */
  lemma SleepCompletes(t: nat, frequency: int)
    requires HasPeriod(frequency)
    ensures frequency > 0 ==> SleepTime(t, frequency) + (t % 1_000_000_000) / 1000 % Period(frequency) == Period(frequency)
    ensures frequency < 0 ==>
      SleepTime(t, frequency) + Period(-frequency) + (t % 1_000_000_000) / 1000 % Period(-frequency) == 0x1_0000_0000
    ensures Wake(t, frequency) == t + 1000 * SleepTime(t, frequency) && Micros(t) == t / 1000
  {
  }

  lemma MicrosOfSecond(t: nat)
    ensures (t % SECOND) / 1000 == Micros(t) - MILLION * (t / SECOND)
  {
  }

  lemma MicrosOfWake(t: nat, frequency: int)
    requires 1 <= frequency <= MILLION
    ensures Micros(Wake(t, frequency)) == Micros(t) + SleepTime(t, frequency)
  {
  }

  /** Within a second that is a whole number of periods, the microsecond of the second and the
      microsecond of the clock have the same remainder. */
  lemma SameRemainder(t: nat, p: int)
    requires p > 0 && MILLION % p == 0
    ensures ((t % SECOND) / 1000) % p == Micros(t) % p
  {
    var m, s := Micros(t), t / SECOND;
    MicrosOfSecond(t);
    DivMod(m, p);
    DivMod(MILLION, p);
    var k := MILLION / p;
    assert MILLION * s == (k * s) * p by {
      assert k * p * s == k * s * p;
    }
    var q := m / p - k * s;
    assert q * p == (m / p) * p - (k * s) * p;
    ModUnique(m - MILLION * s, m % p, q, p);
  }

  lemma SleepAtSecond(frequency: int)
    requires 1 <= frequency <= MILLION
    ensures SleepTime(SECOND, frequency) == Period(frequency)
  {
  }

  /** Every wake-up falls on a multiple of the period if and only if a second is a whole number of
      periods. */
  lemma WakeAligned(frequency: int)
    requires 1 <= frequency <= MILLION
    ensures MILLION % Period(frequency) == 0 <==>
            forall t: nat :: Micros(Wake(t, frequency)) % Period(frequency) == 0
  {
    var p := Period(frequency);
    if MILLION % p == 0 {
      forall t: nat
        ensures Micros(Wake(t, frequency)) % p == 0
      {
        WakeOnNext(t, frequency);
      }
    } else {
      SleepAtSecond(frequency);
      hide SleepTime, Wake;
      MicrosOfWake(SECOND, frequency);
      var w := Micros(Wake(SECOND, frequency));
      assert w == MILLION + p;
      DivMod(MILLION, p);
      assert MILLION + p == (MILLION / p + 1) * p + MILLION % p;
      ModUnique(MILLION + p, MILLION % p, MILLION / p + 1, p);
    }
  }

  /** The wake-up is the next multiple of the period. */
  lemma WakeOnNext(t: nat, frequency: int)
    requires 1 <= frequency <= MILLION && MILLION % Period(frequency) == 0
    ensures var p := Period(frequency);
            && Micros(Wake(t, frequency)) == (Micros(t) / p + 1) * p
            && Micros(Wake(t, frequency)) % p == 0
  {
    var p, m := Period(frequency), Micros(t);
    SameRemainder(t, p);
    MicrosOfWake(t, frequency);
    DivMod(m, p);
    assert (m / p + 1) * p == (m / p) * p + p;
    ModUnique((m / p + 1) * p, 0, m / p + 1, p);
  }

  /** A frequency that divides a million makes a second a whole number of periods, one for each
      sample. */
  lemma DivisorFrequency(frequency: int)
    requires 1 <= frequency <= MILLION && MILLION % frequency == 0
    ensures frequency * Period(frequency) == MILLION && MILLION % Period(frequency) == 0
  {
    DivMod(MILLION, frequency);
    ModUnique(MILLION, 0, frequency, Period(frequency));
  }

  // ---------------------------------------------------------------- the loop

  /** The times at which main samples: poll(i) is how long sample i takes. */
  function Samples(start: nat, frequency: int, poll: nat -> nat, n: nat): (s: seq<nat>)
    requires HasPeriod(frequency)
    ensures |s| == n
  {
    if n == 0 then []
    else if n == 1 then [start]
    else
      var before := Samples(start, frequency, poll, n - 1);
      before + [Wake(before[n - 2] + poll(n - 2), frequency)]
  }

  /** The sampling loop, up to a signal that ends the program after `until` rows.  A zero delta, the
      default, is no time limit.  The product must fit an int, and the period must not be zero when
      the loop divides by it.  Two negative numbers have a positive product. */
  method SamplingLoop(total_time: int, frequency: int, delta: nat, start: nat, poll: nat -> nat, until: nat)
    returns (rows: seq<nat>)
    requires delta <= 1 && -0x8000_0000 <= total_time * frequency < 0x8000_0000
    requires total_time * frequency > 0 ==> HasPeriod(frequency)
    ensures |rows| ==
      if total_time * frequency <= 0 then 0
      else if delta == 0 || until < total_time * frequency then until
      else total_time * frequency
    ensures rows != [] ==> HasPeriod(frequency) && rows == Samples(start, frequency, poll, |rows|)
  {
    hide Wake, Samples;
    rows := [];
    var limit := total_time * frequency;
    var now := start;
    var temps := 0;
    NoRow(start, frequency, poll);
    while temps < limit && |rows| < until
      invariant temps == (if delta == 0 then 0 else |rows|) && |rows| <= until
      invariant rows != [] ==> limit > 0 && temps <= limit
      invariant limit > 0 ==> rows == Samples(start, frequency, poll, |rows|)
      invariant rows == [] ==> now == start
      invariant rows != [] ==> now == Wake(rows[|rows| - 1] + poll(|rows| - 1), frequency)
      decreases until - |rows|
    {
      NextRow(start, frequency, poll, |rows|);
      rows := rows + [now]; // clock_gettime(&ts_ref), moj_get_values, use_manager
      now := now + poll(|rows| - 1); // clock_gettime(&ts)
      now := Wake(now, frequency);
      temps := temps + delta;
    }
  }

  lemma NoRow(start: nat, frequency: int, poll: nat -> nat)
    ensures HasPeriod(frequency) ==> Samples(start, frequency, poll, 0) == []
  {
  }

  lemma NextRow(start: nat, frequency: int, poll: nat -> nat, n: nat)
    requires HasPeriod(frequency)
    ensures var before := Samples(start, frequency, poll, n);
            Samples(start, frequency, poll, n + 1)
              == before + [if n == 0 then start else Wake(before[n - 1] + poll(n - 1), frequency)]
  {
  }

  /** Polling ends before the next multiple of the period. */
  ghost predicate InTime(start: nat, frequency: int, poll: nat -> nat, n: nat)
    requires 1 <= frequency <= MILLION
  {
    var s, p := Samples(start, frequency, poll, n), Period(frequency);
    forall i :: 0 <= i < n ==> Micros(s[i] + poll(i)) / p == Micros(s[i]) / p
  }

  lemma SamplesPrefix(start: nat, frequency: int, poll: nat -> nat, m: nat, n: nat)
    requires 1 <= frequency <= MILLION && m <= n
    ensures Samples(start, frequency, poll, n)[..m] == Samples(start, frequency, poll, m)
  {
    if m < n {
      SamplesPrefix(start, frequency, poll, m, n - 1);
      var s := Samples(start, frequency, poll, n);
      assert s[..n - 1] == Samples(start, frequency, poll, n - 1);
      assert s[..m] == s[..n - 1][..m];
    }
  }

  /** Alignment over a whole run: if a second is a whole number of periods and every poll ends in
      its period, all samples after the first fall on multiples of the period, the second one on
      the first multiple behind the start, and then exactly one period apart. */
  lemma {:induction false} SamplesAligned(start: nat, frequency: int, poll: nat -> nat, n: nat, i: nat)
    requires 1 <= frequency <= MILLION && MILLION % Period(frequency) == 0
    requires InTime(start, frequency, poll, n) && 1 <= i < n
    ensures Micros(Samples(start, frequency, poll, n)[i]) == (Micros(start) / Period(frequency) + i) * Period(frequency)
    ensures Micros(Samples(start, frequency, poll, n)[i]) % Period(frequency) == 0
  {
    hide Samples, Wake, Micros, Period;
    var p, s := Period(frequency), Samples(start, frequency, poll, n);
    NextSample(start, frequency, poll, n, i);
    WakeOnNext(s[i - 1] + poll(i - 1), frequency);
    if i == 1 {
      FirstSample(start, frequency, poll, n);
    } else {
      SamplesAligned(start, frequency, poll, n, i - 1);
      ModUnique(Micros(s[i - 1]), 0, Micros(start) / p + i - 1, p);
    }
  }

  lemma NextSample(start: nat, frequency: int, poll: nat -> nat, n: nat, i: nat)
    requires 1 <= frequency <= MILLION && 1 <= i < n
    ensures var s := Samples(start, frequency, poll, n); s[i] == Wake(s[i - 1] + poll(i - 1), frequency)
  {
    hide Wake;
    var s := Samples(start, frequency, poll, n);
    SamplesPrefix(start, frequency, poll, i + 1, n);
    SamplesPrefix(start, frequency, poll, i, n);
    assert s[i] == s[..i + 1][i] && s[i - 1] == s[..i][i - 1];
  }

  lemma FirstSample(start: nat, frequency: int, poll: nat -> nat, n: nat)
    requires 1 <= frequency <= MILLION && n > 0
    ensures Samples(start, frequency, poll, n)[0] == start
  {
    SamplesPrefix(start, frequency, poll, 1, n);
    assert Samples(start, frequency, poll, n)[0] == Samples(start, frequency, poll, n)[..1][0];
  }

  // ---------------------------------------------------------------- overhead

  /** stat_data: computed from the nanoseconds within the second only. */
  function Overhead(before: nat, after: nat): (ns: int)
    ensures 0 <= ns < SECOND
  {
    if after % SECOND >= before % SECOND then after % SECOND - before % SECOND
    else SECOND + after % SECOND - before % SECOND
  }

  /** It is the duration of the poll if and only if that is below one second. */
  lemma OverheadIsDuration(before: nat, after: nat)
    requires before <= after
    ensures Overhead(before, after) == after - before <==> after - before < SECOND
  {
  }
}
