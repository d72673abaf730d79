/** The elapsed-time counters of the study timer as a value: the three globals
    `hours`, `minutes` and `seconds` of app.js, the carry arithmetic that the
    interval callback performs once per second, and the floor-division split of
    a number of seconds into whole hours and minutes that the statistics panel
    and the report use. The display pads the counters and never divides; the
    counters it shows equal that split of the elapsed seconds (TicksShowElapsed). */
module Clock {

  /** The timer's counters. */
  datatype Hms = Hms(hours: int, minutes: int, seconds: int) {

    /** The range the counters stay in: seconds and minutes in 0..59, hours non-negative. */
    predicate Valid() {
      0 <= seconds < 60 && 0 <= minutes < 60 && 0 <= hours
    }

    /** The elapsed time in seconds, as saveSession computes a session's duration. */
    function Total(): int {
      hours * 3600 + minutes * 60 + seconds
    }
  }

  /** The counters at start-up and after a reset. */
  const Zero: Hms := Hms(0, 0, 0)

  /** One tick of the running timer: the seconds go up by one, a full minute
      carries into the minutes, and a full hour carries into the hours.
      Whatever the counters were, the elapsed total goes up by exactly one. */
  function Next(c: Hms): (r: Hms)
    ensures r.Total() == c.Total() + 1
    ensures c.Valid() ==> r.Valid()
  {
    if c.seconds + 1 == 60 then
      if c.minutes + 1 == 60 then Hms(c.hours + 1, 0, 0)
      else Hms(c.hours, c.minutes + 1, 0)
    else Hms(c.hours, c.minutes, c.seconds + 1)
  }

  /** The counters after `n` ticks. */
  function Ticks(c: Hms, n: nat): Hms
  {
    if n == 0 then c else Next(Ticks(c, n - 1))
  }

  /** Whole hours and whole minutes of a duration, the remaining seconds
      dropped: `Math.floor(total / 3600)` and `Math.floor((total % 3600) / 60)`. */
  function WholeHoursMinutes(total: nat): (hm: (nat, nat))
    ensures hm.1 < 60
    ensures hm.0 * 3600 + hm.1 * 60 <= total < hm.0 * 3600 + hm.1 * 60 + 60
  {
    (total / 3600, (total % 3600) / 60)
  }

  /** The counters that show `total` seconds of elapsed time. */
  function FromTotal(total: nat): (c: Hms)
    ensures c.Valid()
    ensures c.Total() == total
  {
    var hm := WholeHoursMinutes(total);
    Hms(hm.0, hm.1, total % 60)
  }

  /** Dividing `q * d + r` by `d` gives back `q` with remainder `r`, for the
      two divisors the timer uses. */
  lemma DivModUnique(q: int, r: int, d: int)
    requires d == 60 || d == 3600
    requires 0 <= r < d
    ensures (q * d + r) / d == q && (q * d + r) % d == r
  {
  }

  /** Counters in range are determined by their total: reading the total back
      through the floor divisions gives the same hours, minutes and seconds. */
  lemma TotalDeterminesCounters(c: Hms)
    requires c.Valid()
    ensures FromTotal(c.Total()) == c
  {
    var t := c.Total();
    var below := c.minutes * 60 + c.seconds;
    assert t == c.hours * 3600 + below;
    DivModUnique(c.hours, below, 3600);
    DivModUnique(c.minutes, c.seconds, 60);
    assert t == (c.hours * 60 + c.minutes) * 60 + c.seconds;
    DivModUnique(c.hours * 60 + c.minutes, c.seconds, 60);
  }

  /** A tick moves the counters to those of the next second. */
  lemma NextIsSuccessor(c: Hms)
    requires c.Valid()
    ensures Next(c) == FromTotal(c.Total() + 1)
  {
    TotalDeterminesCounters(Next(c));
  }

  /** After `n` ticks the counters are still in range and the total has grown by exactly `n`. */
  lemma {:induction false} TicksAdvanceTotal(c: Hms, n: nat)
    requires c.Valid()
    ensures Ticks(c, n).Valid()
    ensures Ticks(c, n).Total() == c.Total() + n
  {
    if n > 0 {
      TicksAdvanceTotal(c, n - 1);
    }
  }

  /** Ticking never makes the elapsed total go down. */
  lemma {:induction false} TicksNeverDecrease(c: Hms, m: nat, n: nat)
    requires c.Valid() && m <= n
    ensures Ticks(c, m).Total() <= Ticks(c, n).Total()
  {
    TicksAdvanceTotal(c, m);
    TicksAdvanceTotal(c, n);
  }

  /** From counters in range, `n` ticks show exactly the counters of the
      total `t` they reach. */
  lemma {:induction false} TicksShowElapsed(c: Hms, n: nat, t: nat)
    requires c.Valid() && c.Total() + n == t
    ensures Ticks(c, n) == FromTotal(t)
  {
    TicksAdvanceTotal(c, n);
    TotalDeterminesCounters(Ticks(c, n));
  }

  /** From zero, `n` ticks leave the counters in range, `n` seconds in total,
      showing the counters of `n` seconds. */
  lemma TicksFromZero(c: Hms, n: nat)
    requires c == Zero
    ensures Ticks(c, n).Valid() && Ticks(c, n).Total() == n
    ensures Ticks(c, n) == FromTotal(n)
  {
    TicksShowElapsed(c, n, n);
  }
}
