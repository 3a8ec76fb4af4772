/**
 The pacing of the SPI program's save loop. The loop keeps `nextSample`,
 the time the next read is due, starting at 0; a pass that finds the
 elapsed time still below it does nothing else, and a pass that goes on to
 read first adds the sampling period to it. The next due time is thus
 accumulated from the schedule, never recomputed from the clock, and a
 late pass neither skips nor shifts later due times. Time is an abstract
 real number of seconds since the start of the loop.
 */
module Pacing {

  /** `nextSample`, and how many passes have advanced it. */
  datatype Clock = Clock(nextSample: real, ticks: nat)

  const Start: Clock := Clock(0.0, 0)

  /** `tNow < nextSample` is false: the pass goes on. */
  predicate Due(c: Clock, now: real)
  {
    now >= c.nextSample
  }

  /** `nextSample += delay`. */
  function Advance(c: Clock, delay: real): (r: Clock)
    ensures r.ticks == c.ticks + 1
    ensures r.nextSample - c.nextSample == delay
  {
    Clock(c.nextSample + delay, c.ticks + 1)
  }

  /** The k-th due time is k periods after the start, whatever the passes'
      timing was. */
  predicate OnSchedule(c: Clock, delay: real)
  {
    c.nextSample == c.ticks as real * delay
  }

  /** The clock after `m` passes that read. */
  function AdvanceBy(c: Clock, delay: real, m: nat): (r: Clock)
    ensures r.ticks == c.ticks + m
    decreases m
  {
    if m == 0 then c else Advance(AdvanceBy(c, delay, m - 1), delay)
  }

  /** `m` advances move the due time on by exactly `m` periods. */
  lemma {:induction false} AdvanceByShifts(c: Clock, delay: real, m: nat)
    ensures AdvanceBy(c, delay, m).nextSample == c.nextSample + m as real * delay
    decreases m
  {
    if m > 0 {
      AdvanceByShifts(c, delay, m - 1);
      assert (m - 1) as real * delay + delay == m as real * delay;
    }
  }

  /** A loop that is late by `m` periods or more stays due for the next `m`
      passes that read: it catches up with back-to-back reads instead of
      skipping due times. After those `m` reads, a pass at time `later` is
      due again exactly when `later` has reached `m` periods past the old
      due time. */
  lemma CatchUp(c: Clock, delay: real, now: real, later: real, m: nat)
    requires now >= c.nextSample + m as real * delay
    requires delay >= 0.0
    ensures forall j :: 0 <= j <= m ==> Due(AdvanceBy(c, delay, j), now)
    ensures Due(AdvanceBy(c, delay, m), later) <==> later >= c.nextSample + m as real * delay
  {
    AdvanceByShifts(c, delay, m);
    forall j | 0 <= j <= m
      ensures Due(AdvanceBy(c, delay, j), now)
    {
      AdvanceByShifts(c, delay, j);
      var rest := (m - j) as real;
      assert rest * delay >= 0.0;
      assert m as real * delay == j as real * delay + rest * delay;
    }
  }

  lemma AdvanceOnSchedule(c: Clock, delay: real)
    requires OnSchedule(c, delay)
    ensures OnSchedule(Advance(c, delay), delay)
  {
    assert (c.ticks + 1) as real * delay == c.ticks as real * delay + delay;
  }
}
