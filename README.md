# Study time tracker — a verified model of its timer, ledger, statistics and report

The study time tracker is a single-page browser app. A stopwatch counts
hours, minutes and seconds of study. "Save session" stores the elapsed time
under a name in a ledger of sessions. A "today" panel shows how many
sessions were saved today and how long they lasted. A bar chart shows the
study time of each of the last seven days. A CSV report lists every session.

This Dafny project models the logic behind those features, as written in
`app.js`, and proves what it promises:

- `Clock` (clock.dfy): the counters as a value `Hms`. It has the carry
  arithmetic of one tick (`Next`), `n` ticks (`Ticks`) and the floor-division
  split of a number of seconds into whole hours and minutes. The split is
  shared by the statistics panel and the report.
- `Timer` (timer.dfy): the timer globals `isRunning`, `seconds`, `minutes` and
  `hours` as the fields of a class `StudyTimer`. Its methods are `Start`,
  `Pause` and `Reset`, plus `Tick`, the body of the one-second interval
  callback, called explicitly. Each method updates the fields in place and
  states the new state.
- `Text` (text.dfy): the string operations the app relies on:
  - `String.prototype.trim`, with ECMAScript's whitespace set;
  - the decimal rendering of a whole number in a template literal, for the
    numbers below 10^21 that it prints without an exponent;
  - `join`, and the `split` that reads a joined text back.
- `Ledger` (ledger.dfy): sessions `(name, duration in seconds, day)`, the
  stored session list as a class whose `Append` is `sessions.push`, the
  session-name rule, and `SaveSession`.
- `Stats` (stats.dfy): updateStats (today's filter, sum and hours/minutes)
  and updateChart (the seven-day window, oldest first, and one total per day).
- `Report` (report.dfy): the CSV text. It is a header line, then one
  `date,name,Hh Mm` line per session, in ledger order.
- `Scenarios` (scenarios.dfy): the pieces composed. A timer is run for `n`
  seconds and saved; small ledgers go through the statistics and the report.

A calendar day is an integer key (`Day`). Day `d - i` is `i` days before day
`d`, and sessions are only ever compared by their day. The report's date
column is a parameter `dateLabel: Day -> string`, because the browser's
locale produces it.

## Model

| member | source | states |
|---|---|---|
| Clock.Next | app.js:49-56 | one tick raises the elapsed total by exactly one second, whatever the counters; counters in range stay in range (seconds and minutes in 0..59) |
| Clock.NextIsSuccessor | app.js:49-56 | for counters in range, the tick's carries yield exactly the canonical counters of the next second |
| Clock.WholeHoursMinutes | app.js:120-121 | the whole hours and minutes of a duration satisfy `h*3600 + m*60 <= total < h*3600 + m*60 + 60`, with `m < 60` |
| Clock.FromTotal | app.js:93 | every number of seconds has counters in range whose total (hours*3600 + minutes*60 + seconds) is that number |
| Clock.TotalDeterminesCounters | app.js:93 | counters in range are determined by their total, so the duration saveSession computes loses nothing |
| Clock.TicksAdvanceTotal | app.js:48-59 | after `n` ticks the total has grown by exactly `n` |
| Clock.TicksNeverDecrease | app.js:48-59 | the total after more ticks is never smaller than after fewer |
| Clock.TicksShowElapsed | app.js:48-59 | from counters in range, `n` ticks show the canonical counters of the new total |
| Clock.TicksFromZero | app.js:3-6 | from the start-up counters, `n` ticks show exactly `n` seconds elapsed, in range |
| Timer.StudyTimer.constructor | app.js:2-6 | the page loads with the timer stopped and all counters zero |
| Timer.StudyTimer.Start | app.js:45-47 | a stopped timer starts running with its counters unchanged; a running one is left exactly as it was |
| Timer.StudyTimer.Pause | app.js:68-71 | a running timer stops with its counters unchanged; a stopped one is left exactly as it was |
| Timer.StudyTimer.Reset | app.js:77-82 | from any state, the timer ends stopped with all counters zero |
| Timer.StudyTimer.Tick | app.js:49-56 | the running timer's counters advance by one tick: the total grows by one, and range is kept |
| Text.TrimStartDropsLeading | app.js:92 | trimming the front removes only whitespace and stops at the first other character |
| Text.TrimEndDropsTrailing | app.js:92 | trimming the back removes only whitespace and stops at the last other character |
| Text.Trim | app.js:92 | the trimmed text has no whitespace at either end and is empty exactly when the input is all whitespace |
| Text.TrimStretch | app.js:92 | the trimmed text is a contiguous part of the input with only whitespace before and after it |
| Text.NatToString | app.js:199 | a number renders as a non-empty string of decimal digits without a leading zero |
| Text.NatToStringRoundTrip | app.js:199 | reading the rendered digits back gives the number, so distinct numbers render differently |
| Text.Split | app.js:200 | splitting gives at least one piece, and no piece holds the separator |
| Text.SplitWhole | app.js:200 | text without the separator splits into itself alone |
| Text.SplitAtFirst | app.js:200 | splitting at the first separator gives the text before it followed by the pieces of the rest |
| Text.SplitJoin | app.js:200 | splitting the joined rows at the separator gives back the rows, when none holds the separator |
| Ledger.SessionName | app.js:92 | a saved name is never empty and never begins or ends with whitespace; it is "Unnamed Session" exactly when the input is all whitespace, otherwise the trimmed input |
| Ledger.SessionStore.constructor | app.js:100 | the store starts with the given session list |
| Ledger.SessionStore.Append | app.js:101-102 | the new session goes at the end, with every earlier session kept in place |
| Ledger.SaveSession | app.js:91-105 | the ledger grows by exactly one session at the end. Its name follows the name rule, its duration is the pre-save total and its day is today. Earlier sessions are unchanged, and the timer ends reset |
| Stats.SessionsOn | app.js:115-117 | the filtered list is no longer than the ledger and holds only sessions of the given day |
| Stats.SessionsOnCounts | app.js:115-117 | the filter keeps each session of that day exactly as many times as the ledger holds it, and nothing else |
| Stats.SessionsOnAppend | app.js:115-117 | filtering a concatenation is the concatenation of the filtered parts |
| Stats.SumDurationsAppend | app.js:119 | the sum of durations is additive over concatenation |
| Stats.TodaySummary | app.js:112-121 | the panel's count is no larger than the ledger; its total is the sum over today's sessions; its hours and minutes are the floor split of that total (`m < 60`, within a minute below the total) |
| Stats.TodayCount | app.js:115-124 | the panel's session count equals the number of ledger entries saved today, counted one by one |
| Stats.TodaySummaryAfterSave | app.js:112-121 | saving a session raises today's count by one and today's total by its duration when it was saved today, and changes neither otherwise |
| Stats.Reverse | app.js:138 | reversal keeps the length and puts element `k` at position `n - 1 - k` |
| Stats.WeekDays | app.js:134-138 | the chart's days are the seven days ending today, oldest first, today last |
| Stats.WeeklySeries | app.js:140-145 | the series has seven entries; entry `k` is the total for day `today - 6 + k`; the last entry is the "today" panel's total |
| Stats.WeeklySeriesAfterSave | app.js:140-145 | saving a session adds its duration to its own day's bar and to no other; a session outside the week leaves the series unchanged |
| Report.CsvLines | app.js:195-202 | the report's lines are the header and then one row per session in ledger order (a single empty line for an empty ledger), as long as names and date labels hold no line break |
| Report.DurationTextDigits | app.js:197-199 | the duration column holds no comma and no line break |
| Report.DurationTextParts | app.js:197-199 | the duration column is the hour digits with `h`, a space, and the minute digits with `m` |
| Report.DurationTextReadsBack | app.js:197-199 | read back, the column's `h` and `m` satisfy `m < 60` and `h*3600 + m*60 <= duration < h*3600 + m*60 + 60` |
| Report.RowFields | app.js:195-199 | a row splits at commas into date label, name and duration text, when label and name hold no comma |
| Scenarios.RunFor | app.js:48-59 | `n` firings of the tick leave the counters at the `n`-th tick of the old ones, still running |
| Scenarios.ResetTwice | app.js:77-82 | a second reset after a first leaves the timer exactly as the first did |
| Scenarios.TimeFromZero | app.js:2-59 | a fresh timer started and run for `n` seconds shows the canonical counters of `n` seconds |
| Scenarios.SaveFirst | app.js:91-102 | saving into an empty ledger leaves exactly the one new session |
| Scenarios.RunAndSave | app.js:45-105 | start, `n` ticks and a save display `n` seconds and store exactly one session of `n` seconds under the name rule |
| Scenarios.MathExample | app.js:92-93 | 3661 seconds show as 01:01:01, and "Math" is saved as "Math" |
| Scenarios.TodayExample | app.js:112-121 | one 1800-second session today and one eight days ago: one session today, 0h 30m |
| Scenarios.WeekExample | app.js:134-145 | the same ledger charts 1800 seconds on today's bar and nothing on the other six |
| Scenarios.ReportExample | app.js:195-202 | a 90-second session "A" gives the header and the line `<date>,A,0h 1m` |

## Left out

- DOM access: the display (`updateDisplay` and its two-digit padding), the
  buttons being enabled and disabled, and the theme toggle with its stored
  preference. These are page plumbing. The display shows `Counters()`.
- `setInterval` and `clearInterval`. The callback body is `Tick`, which runs
  only while the timer runs. The timing of the one-second callbacks is not
  modelled.
- `localStorage`, `JSON.parse` and `JSON.stringify`. The ledger is an
  in-memory sequence. The code does not catch a parse error of a corrupt
  store, so no "corrupt store reads as empty" fallback is modelled.
- Numbers: app.js computes with JavaScript doubles, and the model uses
  unbounded integers. The duration (app.js:93), the sums (app.js:119) and the
  floor divisions (app.js:120-121, 197-198) agree with the model up to 2^53
  seconds. The template literal agrees with NatToString below 10^21; above
  that, JavaScript prints an exponent form. Neither limit is reached by a
  timer run or a stored ledger.
- Strings: a Dafny `string` holds Unicode scalar values, and a JavaScript
  string holds UTF-16 code units. `trim` is unaffected, because every
  character it removes lies in the Basic Multilingual Plane.
- `Date`, `toISOString`, `toDateString`, `toLocaleDateString` and the
  `setDate` day arithmetic. These are locale and time-zone library behaviour.
  A day is an integer key and the report's date text is a parameter.
- The chart's fractional hours (`duration / 3600` in floating point). The
  series sums whole seconds per day.
- Stats.WeeklySeries: gives each day's total in seconds rather than the
  floating-point hours the chart plots; the two differ by the factor 3600
  and by float rounding.
- Chart.js, which draws the bars (a foreign library), and the weekday labels
  taken from the date strings.
- `fetchQuote`, which is network I/O.
- The Blob, object URL and anchor that download the report. Only the
  report's text is modelled.
- Clearing the name input after a save. It is page state outside the ledger.
- Report.RowFields: states the three fields only for names and date labels
  without commas. The report does not escape commas, so a name holding one
  splits into extra fields.
- Report.CsvLines: states the lines only when no name holds a line break, for
  the same reason.
