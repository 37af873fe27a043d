/**
  The tick accumulator of update_timestamp_thread in src/Timing.cpp (the Windows version): it publishes a
  timestamp in microseconds from samples of a counter that runs at a given frequency.
*/
module Timing {

  const MICROS: nat := 1_000_000

  /** One sample per round of the loop; `consumed` are the ticks that went into the timestamp, in `updates` steps. */
  datatype Clock = Clock(timestamp: nat, accumulator: nat, consumed: nat, updates: nat)

  /** The counter never runs backwards. */
  ghost predicate Monotone(samples: seq<int>) {
    forall i :: 0 < i < |samples| ==> samples[i - 1] <= samples[i]
  }

  function MinTicks(frequency: nat): nat {
    frequency / MICROS
  }

  function Tick(c: Clock, ticks: nat, frequency: nat): Clock
    requires 0 < frequency
  {
    var accumulated := c.accumulator + ticks;
    if accumulated > MinTicks(frequency) then
      Clock(c.timestamp + accumulated * MICROS / frequency, 0, c.consumed + accumulated, c.updates + 1)
    else c.(accumulator := accumulated)
  }

  function After(samples: seq<int>, frequency: nat): Clock
    requires 0 < frequency && Monotone(samples)
  {
    var k := |samples| - 1;
    if k < 1 then Clock(0, 0, 0, 0)
    else Tick(After(samples[..k], frequency), samples[k] - samples[k - 1], frequency)
  }

  class TimestampThread {
    var currentTimestamp: nat

    /** samples[0] is read before the loop and each further one in a round of it; false if the clock is too slow. */
    method UpdateTimestamp(frequency: nat, samples: seq<int>) returns (usable: bool)
      requires samples != [] && Monotone(samples)
      modifies this
      ensures usable <==> frequency >= MICROS
      ensures currentTimestamp == if usable then After(samples, frequency).timestamp else 0
    {
      currentTimestamp := 0;
      var minTicks := frequency / MICROS;
      if frequency == 0 || minTicks == 0 {
        return false;
      }
      var currentSampledTime := samples[0];
      var tickAccumulator := 0;
      for i := 1 to |samples|
        invariant currentSampledTime == samples[i - 1]
        invariant Monotone(samples[..i])
        invariant currentTimestamp == After(samples[..i], frequency).timestamp
        invariant tickAccumulator == After(samples[..i], frequency).accumulator
      {
        assert samples[..i + 1][..i] == samples[..i];
        var lastSampledTime := currentSampledTime;
        currentSampledTime := samples[i];
        tickAccumulator := tickAccumulator + (currentSampledTime - lastSampledTime);
        if tickAccumulator > minTicks {
          tickAccumulator := tickAccumulator * MICROS;
          tickAccumulator := tickAccumulator / frequency;
          currentTimestamp := currentTimestamp + tickAccumulator;
          tickAccumulator := 0;
        }
      }
      assert samples[..|samples|] == samples;
      return true;
    }
  }

  /** An update moves the timestamp on by at least a microsecond and loses less than one. */
  lemma UpdateRounds(accumulated: nat, frequency: nat)
    requires 0 < frequency && accumulated > MinTicks(frequency)
    ensures var advance := accumulated * MICROS / frequency;
      1 <= advance && advance * frequency <= accumulated * MICROS < (advance + 1) * frequency
  {
    var m := frequency / MICROS;
    assert frequency < (m + 1) * MICROS;
    assert accumulated * MICROS >= (m + 1) * MICROS;
    var x := accumulated * MICROS;
    var advance := x / frequency;
    assert x == advance * frequency + x % frequency;
    assert (advance + 1) * frequency == advance * frequency + frequency;
    assert advance == 0 ==> advance * frequency == 0;
  }

  /**
    The timestamp never runs ahead of the counter, every update is worth a microsecond at least and loses less
    than one, and at most a microsecond's ticks wait to be counted.
  */
  lemma {:induction false} TimestampTracksCounter(samples: seq<int>, frequency: nat)
    requires 0 < frequency && samples != [] && Monotone(samples)
    ensures var c := After(samples, frequency);
      && c.consumed + c.accumulator == samples[|samples| - 1] - samples[0]
      && c.accumulator * MICROS <= frequency
      && c.updates <= c.timestamp
      && c.timestamp * frequency <= c.consumed * MICROS
      && c.consumed * MICROS + c.updates <= (c.timestamp + c.updates) * frequency
  {
    var k := |samples| - 1;
    if k >= 1 {
      TimestampTracksCounter(samples[..k], frequency);
      var before := After(samples[..k], frequency);
      TickKeeps(before, samples[k] - samples[k - 1], frequency);
    }
  }

  lemma TickKeeps(before: Clock, ticks: nat, frequency: nat)
    requires 0 < frequency && before.updates <= before.timestamp
    requires before.timestamp * frequency <= before.consumed * MICROS
    requires before.consumed * MICROS + before.updates <= (before.timestamp + before.updates) * frequency
    ensures var c := Tick(before, ticks, frequency);
      && c.consumed + c.accumulator == before.consumed + before.accumulator + ticks
      && c.accumulator * MICROS <= frequency
      && c.updates <= c.timestamp
      && c.timestamp * frequency <= c.consumed * MICROS
      && c.consumed * MICROS + c.updates <= (c.timestamp + c.updates) * frequency
  {
    var accumulated := before.accumulator + ticks;
    if accumulated > MinTicks(frequency) {
      UpdateRounds(accumulated, frequency);
      var advance := accumulated * MICROS / frequency;
      var t, u := before.timestamp, before.updates;
      assert (t + advance) * frequency == t * frequency + advance * frequency;
      assert (t + advance + (u + 1)) * frequency == (t + u) * frequency + (advance + 1) * frequency;
    }
  }

  /** After the first update the timestamp is more than half the consumed time, and never more than all of it. */
  lemma WithinFactorTwo(samples: seq<int>, frequency: nat)
    requires 0 < frequency && samples != [] && Monotone(samples)
    ensures var c := After(samples, frequency);
      c.timestamp * frequency <= c.consumed * MICROS &&
      (c.updates > 0 ==> c.consumed * MICROS < 2 * c.timestamp * frequency)
  {
    TimestampTracksCounter(samples, frequency);
    hide After;
    var c := After(samples, frequency);
    Monotonicity(c.timestamp + c.updates, 2 * c.timestamp, frequency);
  }

  lemma Monotonicity(a: nat, b: nat, c: nat)
    requires a <= b
    ensures a * c <= b * c
  {
  }

  /** Samples two ticks apart of a counter just above 1 MHz. */
  function EveryTwoTicks(n: nat): (samples: seq<int>)
    ensures |samples| == n + 1 && forall i :: 0 <= i <= n ==> samples[i] == 2 * i
  {
    if n == 0 then [0] else EveryTwoTicks(n - 1) + [2 * n]
  }

  /** The factor of two is really approached: such a clock runs at about half speed for ever. */
  lemma {:induction false} NearlyHalfSpeed(n: nat)
    ensures Monotone(EveryTwoTicks(n))
    ensures After(EveryTwoTicks(n), MICROS + 1) == Clock(n, 0, 2 * n, n)
  {
    hide EveryTwoTicks, Tick;
    if n > 0 {
      NearlyHalfSpeed(n - 1);
      TwoTicksMore(n);
      TwoTicks(n);
    }
  }

  lemma TwoTicksMore(n: nat)
    requires n > 0
    ensures var samples := EveryTwoTicks(n);
      samples[..n] == EveryTwoTicks(n - 1) && samples[n] - samples[n - 1] == 2
  {
  }

  lemma TwoTicks(n: nat)
    requires n > 0
    ensures Tick(Clock(n - 1, 0, 2 * n - 2, n - 1), 2, MICROS + 1) == Clock(n, 0, 2 * n, n)
  {
    assert 2 * MICROS / (MICROS + 1) == 1 && MinTicks(MICROS + 1) == 1;
  }
}
