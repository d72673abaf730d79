/** Whole-program runs of the model: the timer driven tick by tick and saved,
    and the statistics and report computed for small ledgers. */
module Scenarios {
  import opened Clock
  import opened Timer
  import opened Text
  import opened Ledger
  import opened Stats
  import opened Report

  /** Let the running timer tick `n` times. */
  method RunFor(timer: StudyTimer, n: nat)
    requires timer.isRunning
    modifies timer
    ensures timer.isRunning
    ensures timer.Counters() == Ticks(old(timer.Counters()), n)
  {
    var i := 0;
    while i < n
      invariant 0 <= i <= n
      invariant timer.isRunning
      invariant timer.Counters() == Ticks(old(timer.Counters()), i)
    {
      timer.Tick();
      i := i + 1;
    }
  }

  /** Two resets in a row leave the timer exactly as the first one did. */
  method ResetTwice(timer: StudyTimer)
    modifies timer
    ensures !timer.isRunning && timer.Counters() == Zero
  {
    timer.Reset();
    ghost var once := (timer.isRunning, timer.Counters());
    timer.Reset();
    assert (timer.isRunning, timer.Counters()) == once;
  }

  /** A fresh timer, started and left to run for `n` seconds: it shows the
      counters of `n` seconds. */
  method TimeFromZero(n: nat) returns (timer: StudyTimer, shown: Hms)
    ensures fresh(timer)
    ensures timer.Valid() && timer.Counters() == shown
    ensures shown == FromTotal(n) && shown.Total() == n
  {
    timer := new StudyTimer();
    timer.Start();
    ghost var start := timer.Counters();
    RunFor(timer, n);
    shown := timer.Counters();
    TicksFromZero(start, n);
  }

  /** Saving into an empty ledger leaves exactly the one session. */
  method SaveFirst(timer: StudyTimer, input: string, today: Day) returns (saved: seq<Session>)
    requires timer.Valid()
    modifies timer
    ensures saved == [Session(SessionName(input), old(timer.Counters().Total()), today)]
  {
    var store := new SessionStore([]);
    SaveSession(timer, store, input, today);
    saved := store.sessions;
  }

  /** Start the timer, let `n` seconds pass, save the session under the name
      typed as `input`: before the save the display shows the counters of
      `n` seconds, and the ledger then holds exactly one session, `n` seconds
      long, named after the input. */
  method RunAndSave(input: string, n: nat, today: Day) returns (shown: Hms, saved: seq<Session>)
    ensures shown == FromTotal(n)
    ensures saved == [Session(SessionName(input), n, today)]
  {
    var timer;
    timer, shown := TimeFromZero(n);
    saved := SaveFirst(timer, input, today);
  }

  /** Timing 3661 seconds and saving them as "Math": the display reads
      01:01:01 and the saved session is named "Math". */
  lemma MathExample()
    ensures FromTotal(3661) == Hms(1, 1, 1)
    ensures SessionName("Math") == "Math"
  {
    assert !IsWhitespace('M') && !IsWhitespace('h');
    assert TrimStart("Math") == "Math";
    assert TrimEnd("Math") == "Math";
  }

  /** A session of 1800 seconds today and one of 3600 seconds eight days ago:
      today's panel shows one session of 0h 30m. */
  lemma TodayExample(today: Day)
    ensures TodaySummary([Session("Math", 1800, today), Session("History", 3600, today - 8)], today)
      == Summary(1, 1800, 0, 30)
  {
    var first := Session("Math", 1800, today);
    var old8 := Session("History", 3600, today - 8);
    assert [first, old8] == [first] + [old8];
    assert [first] == [] + [first];
    TodaySummaryAfterSave([], first, today);
    TodaySummaryAfterSave([first], old8, today);
    var ledger := [first, old8];
    assert |SessionsOn(ledger, today)| == 1;
    assert DayTotal(ledger, today) == 1800;
    assert WholeHoursMinutes(1800) == (0, 30);
  }

  /** The same ledger in the week's chart: today's bar holds 1800 seconds and
      the session eight days old shows nowhere. */
  lemma WeekExample(today: Day)
    ensures WeeklySeries([Session("Math", 1800, today), Session("History", 3600, today - 8)], today)
      == [0, 0, 0, 0, 0, 0, 1800]
  {
    var first := Session("Math", 1800, today);
    var old8 := Session("History", 3600, today - 8);
    assert [first, old8] == [first] + [old8];
    WeeklySeriesAfterSave([first], old8, today);
    assert [first] == [] + [first];
    WeeklySeriesAfterSave([], first, today);
    var w := WeeklySeries([first], today);
    assert w[..6] == [0, 0, 0, 0, 0, 0] by {
      forall k | 0 <= k < 6
        ensures w[k] == 0
      {
        assert DayTotal([], today - 6 + k) == 0;
      }
    }
    assert w == w[..6] + [w[6]];
  }

  /** A ledger of one 90-second session named "A" gives the header and the
      line `<date>,A,0h 1m`. */
  lemma ReportExample(d: Day, dateLabel: Day -> string)
    ensures Csv([Session("A", 90, d)], dateLabel) == Header + "\n" + dateLabel(d) + ",A,0h 1m"
  {
    assert DurationText(90) == "0h 1m";
    var rows := Rows([Session("A", 90, d)], dateLabel);
    assert rows[0] == dateLabel(d) + ",A,0h 1m";
    assert rows == [dateLabel(d) + ",A,0h 1m"];
  }
}
