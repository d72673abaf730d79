/** The text of the downloadable report: a header line, then one line per
    session in ledger order, each `date,name,Hh Mm`. The date is the session's
    day as the browser's locale prints it, which is a parameter here. */
module Report {
  import opened Clock
  import opened Text
  import opened Ledger

  const Header: string := "Date,Session,Duration"

  /** `${hours}h ${minutes}m` with both numbers floor-divided out of the duration. */
  function DurationText(duration: nat): string
  {
    var hm := WholeHoursMinutes(duration);
    NatToString(hm.0) + "h " + NatToString(hm.1) + "m"
  }

  /** One report line: the day's label, the session name as stored (commas in
      it are not escaped), and the duration. */
  function Row(s: Session, dateLabel: Day -> string): string
  {
    dateLabel(s.day) + "," + s.name + "," + DurationText(s.duration)
  }

  /** `sessions.map(...)`: the rows in ledger order. */
  function Rows(ledger: seq<Session>, dateLabel: Day -> string): seq<string>
  {
    seq(|ledger|, i requires 0 <= i < |ledger| => Row(ledger[i], dateLabel))
  }

  /** The whole file: the header, a line break, and the rows joined by line breaks. */
  function Csv(ledger: seq<Session>, dateLabel: Day -> string): string
  {
    Header + "\n" + Join(Rows(ledger, dateLabel), '\n')
  }

  /** The file's lines are the header followed by one row per session, in
      ledger order, as long as neither names nor date labels hold a line break.
      An empty ledger leaves the header followed by one empty line. */
  lemma CsvLines(ledger: seq<Session>, dateLabel: Day -> string)
    requires forall k :: 0 <= k < |ledger| ==> '\n' !in ledger[k].name && '\n' !in dateLabel(ledger[k].day)
    ensures Split(Csv(ledger, dateLabel), '\n')
      == [Header] + if ledger == [] then [""] else Rows(ledger, dateLabel)
  {
    var rows := Rows(ledger, dateLabel);
    assert Csv(ledger, dateLabel) == Header + ['\n'] + Join(rows, '\n');
    SplitAtFirst(Header, '\n', Join(rows, '\n'));
    if ledger != [] {
      forall k | 0 <= k < |rows|
        ensures '\n' !in rows[k]
      {
        DurationTextDigits(ledger[k].duration);
      }
      SplitJoin(rows, '\n');
    }
  }

  /** The duration text is made of digits, `h`, a space and `m`: no comma, no
      line break. */
  lemma DurationTextDigits(duration: nat)
    ensures ',' !in DurationText(duration) && '\n' !in DurationText(duration)
  {
    var hm := WholeHoursMinutes(duration);
    var a, b := NatToString(hm.0), NatToString(hm.1);
    assert DurationText(duration) == a + "h " + b + "m";
    assert forall k :: 0 <= k < |a| ==> a[k] != ',' && a[k] != '\n';
    assert forall k :: 0 <= k < |b| ==> b[k] != ',' && b[k] != '\n';
  }

  /** The duration text is the hour digits with `h`, a space, and the minute
      digits with `m`. */
  lemma DurationTextParts(duration: nat)
    ensures var hm := WholeHoursMinutes(duration);
      Split(DurationText(duration), ' ') == [NatToString(hm.0) + "h", NatToString(hm.1) + "m"]
  {
    var hm := WholeHoursMinutes(duration);
    var a, b := NatToString(hm.0), NatToString(hm.1);
    assert DurationText(duration) == (a + "h") + [' '] + (b + "m");
    assert forall k :: 0 <= k < |a| ==> a[k] != ' ';
    assert forall k :: 0 <= k < |b| ==> b[k] != ' ';
    assert ' ' !in a + "h" && ' ' !in b + "m";
    SplitAtFirst(a + "h", ' ', b + "m");
    SplitWhole(b + "m", ' ');
  }

  /** Read back from its text, the duration shows whole hours and whole
      minutes with fewer than 60 seconds left over: `h*3600 + m*60` never
      exceeds the duration and falls short of it by less than a minute. */
  lemma DurationTextReadsBack(duration: nat)
    ensures var parts := Split(DurationText(duration), ' ');
      |parts| == 2 && |parts[0]| >= 2 && |parts[1]| >= 2
      && parts[0][|parts[0]| - 1] == 'h' && parts[1][|parts[1]| - 1] == 'm'
      && IsDigits(parts[0][..|parts[0]| - 1]) && IsDigits(parts[1][..|parts[1]| - 1])
      && var h, m := DigitsValue(parts[0][..|parts[0]| - 1]), DigitsValue(parts[1][..|parts[1]| - 1]);
         m < 60 && h * 3600 + m * 60 <= duration < h * 3600 + m * 60 + 60
  {
    var hm := WholeHoursMinutes(duration);
    var a, b := NatToString(hm.0), NatToString(hm.1);
    DurationTextParts(duration);
    assert (a + "h")[..|a + "h"| - 1] == a;
    assert (b + "m")[..|b + "m"| - 1] == b;
    NatToStringRoundTrip(hm.0);
    NatToStringRoundTrip(hm.1);
  }

  /** A row splits at its commas into date label, name and duration text,
      provided neither the label nor the name holds a comma of its own. */
  lemma RowFields(s: Session, dateLabel: Day -> string)
    requires ',' !in dateLabel(s.day) && ',' !in s.name
    ensures Split(Row(s, dateLabel), ',') == [dateLabel(s.day), s.name, DurationText(s.duration)]
  {
    var d := DurationText(s.duration);
    DurationTextDigits(s.duration);
    assert Row(s, dateLabel) == dateLabel(s.day) + [','] + (s.name + [','] + d);
    SplitAtFirst(dateLabel(s.day), ',', s.name + [','] + d);
    SplitAtFirst(s.name, ',', d);
    SplitWhole(d, ',');
  }
}
