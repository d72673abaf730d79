/** The statistics drawn from the ledger: updateStats (how many sessions were
    saved today and how long they lasted together, in whole hours and minutes)
    and updateChart (the study time of each of the last seven days, oldest
    first). The chart's values are kept in whole seconds here. */
module Stats {
  import opened Clock
  import opened Ledger

  /** `sessions.filter(session => day of session === day)`, order kept. */
  function SessionsOn(ledger: seq<Session>, day: Day): (r: seq<Session>)
    ensures |r| <= |ledger|
    ensures forall k :: 0 <= k < |r| ==> r[k].day == day
  {
    if ledger == [] then []
    else
      var last := ledger[|ledger| - 1];
      SessionsOn(ledger[..|ledger| - 1], day) + (if last.day == day then [last] else [])
  }

  /** The filter holds each session of that day exactly as often as the ledger
      does, and nothing else. */
  lemma {:induction false} SessionsOnCounts(ledger: seq<Session>, day: Day)
    ensures forall x ::
      multiset(SessionsOn(ledger, day))[x] == if x.day == day then multiset(ledger)[x] else 0
  {
    if ledger != [] {
      var init := ledger[..|ledger| - 1];
      var last := ledger[|ledger| - 1];
      assert ledger == init + [last];
      SessionsOnCounts(init, day);
    }
  }

  /** `reduce((acc, session) => acc + session.duration, 0)`. */
  function SumDurations(sessions: seq<Session>): nat
  {
    if sessions == [] then 0
    else SumDurations(sessions[..|sessions| - 1]) + sessions[|sessions| - 1].duration
  }

  /** Summing is additive over concatenation. */
  lemma {:induction false} SumDurationsAppend(a: seq<Session>, b: seq<Session>)
    ensures SumDurations(a + b) == SumDurations(a) + SumDurations(b)
  {
    if b != [] {
      var init := b[..|b| - 1];
      assert (a + b)[..|a + b| - 1] == a + init;
      assert (a + b)[|a + b| - 1] == b[|b| - 1];
      SumDurationsAppend(a, init);
    } else {
      assert a + b == a;
    }
  }

  /** Filtering is compatible with concatenation. */
  lemma {:induction false} SessionsOnAppend(a: seq<Session>, b: seq<Session>, day: Day)
    ensures SessionsOn(a + b, day) == SessionsOn(a, day) + SessionsOn(b, day)
  {
    if b != [] {
      var init := b[..|b| - 1];
      var last := b[|b| - 1];
      assert (a + b)[..|a + b| - 1] == a + init;
      assert (a + b)[|a + b| - 1] == last;
      SessionsOnAppend(a, init, day);
      var tail := if last.day == day then [last] else [];
      calc {
        SessionsOn(a + b, day);
        SessionsOn(a + init, day) + tail;
        SessionsOn(a, day) + SessionsOn(init, day) + tail;
        SessionsOn(a, day) + (SessionsOn(init, day) + tail);
        SessionsOn(a, day) + SessionsOn(b, day);
      }
    } else {
      assert a + b == a;
    }
  }

  /** Seconds studied on one day. */
  function DayTotal(ledger: seq<Session>, day: Day): nat
  {
    SumDurations(SessionsOn(ledger, day))
  }

  /** What the "today" panel shows. */
  datatype Summary = Summary(count: nat, totalSeconds: nat, hours: nat, minutes: nat)

  /** updateStats: the number of today's sessions, their total length, and that
      total cut down to whole hours and minutes (the leftover seconds are
      dropped, never rounded up). */
  function TodaySummary(ledger: seq<Session>, today: Day): (r: Summary)
    ensures r.count <= |ledger|
    ensures r.totalSeconds == DayTotal(ledger, today)
    ensures r.minutes < 60
    ensures r.hours * 3600 + r.minutes * 60 <= r.totalSeconds < r.hours * 3600 + r.minutes * 60 + 60
  {
    var todays := SessionsOn(ledger, today);
    var total := SumDurations(todays);
    var hm := WholeHoursMinutes(total);
    Summary(|todays|, total, hm.0, hm.1)
  }

  /** Saving a session changes today's summary only if it was saved today, and
      then by one session and by its duration. */
  lemma TodaySummaryAfterSave(ledger: seq<Session>, s: Session, today: Day)
    ensures var before, after := TodaySummary(ledger, today), TodaySummary(ledger + [s], today);
      after.count == before.count + (if s.day == today then 1 else 0)
      && after.totalSeconds == before.totalSeconds + (if s.day == today then s.duration else 0)
  {
    SessionsOnAppend(ledger, [s], today);
    assert SessionsOn([s], today) == if s.day == today then [s] else [] by {
      assert [s][..0] == [];
    }
    SumDurationsAppend(SessionsOn(ledger, today), SessionsOn([s], today));
  }

  /** How many sessions of the ledger fall on `day`, counted one by one. */
  function CountOn(ledger: seq<Session>, day: Day): nat
  {
    if ledger == [] then 0
    else CountOn(ledger[..|ledger| - 1], day) + (if ledger[|ledger| - 1].day == day then 1 else 0)
  }

  /** The panel's session count is the number of ledger entries saved today. */
  lemma {:induction false} TodayCount(ledger: seq<Session>, today: Day)
    ensures TodaySummary(ledger, today).count == CountOn(ledger, today)
  {
    if ledger != [] {
      var init := ledger[..|ledger| - 1];
      var last := ledger[|ledger| - 1];
      assert ledger == init + [last];
      TodayCount(init, today);
      TodaySummaryAfterSave(init, last, today);
    }
  }

  /** `seq.reverse()`. */
  function Reverse<T>(s: seq<T>): (r: seq<T>)
    ensures |r| == |s|
    ensures forall k :: 0 <= k < |s| ==> r[k] == s[|s| - 1 - k]
  {
    if s == [] then [] else Reverse(s[1..]) + [s[0]]
  }

  /** The chart's days: `Array.from({length: 7}, (_, i) => i days ago).reverse()`,
      which is the week ending today, oldest first. */
  function WeekDays(today: Day): (r: seq<Day>)
    ensures |r| == 7
    ensures forall k :: 0 <= k < 7 ==> r[k] == today - 6 + k
    ensures r[6] == today
  {
    Reverse(seq(7, i => today - i))
  }

  /** `days.map(day => total of the sessions of that day)`. */
  function DailyTotals(ledger: seq<Session>, days: seq<Day>): seq<nat>
  {
    seq(|days|, i requires 0 <= i < |days| => DayTotal(ledger, days[i]))
  }

  /** updateChart's series: seven totals, oldest day first, a day without
      sessions contributing 0; the last entry is today's total of the summary. */
  function WeeklySeries(ledger: seq<Session>, today: Day): (r: seq<nat>)
    ensures |r| == 7
    ensures forall k :: 0 <= k < 7 ==> r[k] == DayTotal(ledger, today - 6 + k)
    ensures r[6] == TodaySummary(ledger, today).totalSeconds
  {
    var days := WeekDays(today);
    assert days[6] == today;
    DailyTotals(ledger, days)
  }

  /** Saving a session adds its duration to the bar of its own day and to no
      other; a session saved outside the week leaves the series unchanged. */
  lemma WeeklySeriesAfterSave(ledger: seq<Session>, s: Session, today: Day)
    ensures forall k :: 0 <= k < 7 ==>
      WeeklySeries(ledger + [s], today)[k]
      == WeeklySeries(ledger, today)[k] + (if s.day == today - 6 + k then s.duration else 0)
    ensures (s.day < today - 6 || today < s.day) ==>
      WeeklySeries(ledger + [s], today) == WeeklySeries(ledger, today)
  {
    forall k | 0 <= k < 7
      ensures WeeklySeries(ledger + [s], today)[k]
        == WeeklySeries(ledger, today)[k] + (if s.day == today - 6 + k then s.duration else 0)
    {
      TodaySummaryAfterSave(ledger, s, today - 6 + k);
    }
  }
}
