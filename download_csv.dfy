/** `/download_csv`: the actor's cards of a month as CSV rows, ordered by
    start time. Both versions of the handler share the filter, the order and
    the row projection; they differ only in reply wording. */
module DownloadCsv {
  import opened Text
  import opened Calendar
  import opened Model
  import opened Request
  import opened Queries
  import opened Month
  import opened Csv

  const Header: seq<string> := ["ra_name", "date", "start_time", "end_time", "break_time", "description"]

  /** The dictionary passed to `writerow` for one row. */
  function RecordOf(row: Row): map<string, string>
  {
    map[
      "ra_name" := row.ra.raName,
      "date" := Digits(row.card.startTime.day, 2),
      "start_time" := FormatClock(ClockOf(row.card.startTime), ""),
      "end_time" := FormatClock(ClockOf(row.card.endTime), ""),
      "break_time" := FormatClock(row.card.breakDuration, ""),
      "description" := row.card.description]
  }

  /** The CSV row of a card: RA name, day of the start, "%H%M" of start,
      end and break, then the description. */
  function Fields(row: Row): seq<string>
  {
    [row.ra.raName, Digits(row.card.startTime.day, 2),
      FormatClock(ClockOf(row.card.startTime), ""), FormatClock(ClockOf(row.card.endTime), ""),
      FormatClock(row.card.breakDuration, ""), row.card.description]
  }

  /** The file: the header, then one row per record. */
  function Table(rows: seq<Row>): (t: seq<seq<string>>)
    ensures |t| == |rows| + 1 && t[0] == Header
  {
    if rows == [] then [Header] else Table(rows[..|rows| - 1]) + [Fields(rows[|rows| - 1])]
  }

  /** Row k + 1 of the file is the row of record k. */
  lemma {:induction false} TableAt(rows: seq<Row>, k: int)
    requires 0 <= k < |rows|
    ensures Table(rows)[k + 1] == Fields(rows[k])
  {
    if k < |rows| - 1 {
      TableAt(rows[..|rows| - 1], k);
    }
  }

  /** "%H%M" read back: four digits, an hour below 24 and a minute below 60. */
  function ReadHourMinute(s: string): (r: Option<ClockTime>)
  {
    if |s| == 4 && AllDigits(s) && Value(s[..2]) < 24 && Value(s[2..]) < 60
    then Some(Value(s[..2]) * 60 + Value(s[2..]))
    else None
  }

  /** "%H%M" of a time of day reads back as that time. */
  lemma {:induction false} HourMinuteRoundTrip(c: ClockTime)
    ensures ReadHourMinute(FormatClock(c, "")) == Some(c)
  {
    var f := FormatClock(c, "");
    var h := Digits(c / 60, 2);
    var m := Digits(c % 60, 2);
    assert f == h + m;
    assert f[..2] == h && f[2..] == m;
    assert AllDigits(f) by {
      forall i | 0 <= i < 4 ensures IsDigit(f[i]) {
        if i < 2 { assert f[i] == h[i]; } else { assert f[i] == m[i - 2]; }
      }
    }
  }

  /** A string that reads as a time of day is that time's "%H%M". */
  lemma {:induction false} HourMinuteOfReading(s: string)
    requires ReadHourMinute(s).Some?
    ensures FormatClock(ReadHourMinute(s).value, "") == s
  {
    var a := s[..2];
    var b := s[2..];
    assert AllDigits(a) && AllDigits(b) by {
      assert forall i :: 0 <= i < 2 ==> a[i] == s[i] && b[i] == s[i + 2];
    }
    DigitsOfValue(a);
    DigitsOfValue(b);
    var c := ReadHourMinute(s).value;
    assert c == Value(a) * 60 + Value(b);
    assert c / 60 == Value(a) && c % 60 == Value(b);
    assert s == a + b;
  }

  /** A CSV row gives back the RA name, the day, the start and end times of
      day, the break and the description of its card. */
  lemma {:induction false} FieldsReadBack(row: Row)
    ensures var f := Fields(row);
      && |f| == 6 && f[0] == row.ra.raName && f[5] == row.card.description
      && |f[1]| == 2 && AllDigits(f[1]) && Value(f[1]) == row.card.startTime.day
      && ReadHourMinute(f[2]) == Some(ClockOf(row.card.startTime))
      && ReadHourMinute(f[3]) == Some(ClockOf(row.card.endTime))
      && ReadHourMinute(f[4]) == Some(row.card.breakDuration)
  {
    HourMinuteRoundTrip(ClockOf(row.card.startTime));
    HourMinuteRoundTrip(ClockOf(row.card.endTime));
    HourMinuteRoundTrip(row.card.breakDuration);
  }

  /** How the command ends. `Sent` carries the rows of the uploaded file. */
  datatype CsvOutcome =
    | ContextMissing
    | BadArgument
    | WindowOverflow
    | NoRecords
    | Sent(year: int, month: int, table: seq<seq<string>>)
  {
    /** The outcomes that end the handler with an exception and send no file. */
    predicate Raises()
    {
      ContextMissing? || WindowOverflow?
    }
  }

  /** The actor's cards of the chosen month, by start time. */
  function Records(db: Db, actor: string, w: Window): (rows: seq<Row>)
    ensures multiset(rows) == multiset(SelectRows(db, Some(actor), w))
    ensures Sorted(ByStart, rows)
  {
    SortRows(ByStart, SelectRows(db, Some(actor), w))
  }

  /** `download_csv` in both versions; the store is only read. */
  function Export(db: Db, ctx: Ctx, text: string, today: Timestamp): (r: CsvOutcome)
    ensures !ContextAvailable(ctx) <==> r == ContextMissing
    ensures ContextAvailable(ctx) ==> r == Assemble(db, ctx.actorUserId, ChooseMonth(text, today))
    ensures r.Raises() <==> !ContextAvailable(ctx) || ChooseMonth(text, today).WindowOverflow?
  {
    if !ContextAvailable(ctx) then ContextMissing
    else Assemble(db, ctx.actorUserId, ChooseMonth(text, today))
  }

  /** The reply once the month is chosen: nothing to send when no card
      matched, else the header and one row per card. */
  function Assemble(db: Db, actor: string, month: MonthChoice): (r: CsvOutcome)
    ensures r != ContextMissing
    ensures r == CsvOutcome.BadArgument <==> month == Month.BadArgument
    ensures r == CsvOutcome.WindowOverflow <==> month.WindowOverflow?
    ensures month.Chosen? ==> (r == NoRecords <==> SelectRows(db, Some(actor), month.window) == [])
    ensures r.Sent? ==> month.Chosen? && (r.year, r.month) == (month.year, month.month)
    ensures r.Sent? ==> r.table == Table(Records(db, actor, month.window))
  {
    match month
    case BadArgument => CsvOutcome.BadArgument
    case WindowOverflow => CsvOutcome.WindowOverflow
    case Chosen(y, m, w) =>
      var rows := Records(db, actor, w);
      if rows == [] then
        assert multiset(SelectRows(db, Some(actor), w)) == multiset{};
        NoRecords
      else
        assert SelectRows(db, Some(actor), w) != [] by {
          assert rows[0] in multiset(SelectRows(db, Some(actor), w));
        }
        Sent(y, m, Table(rows))
  }

  /** Written from any reordering of the selected rows (Records is one),
      every row of the file after the header is the row of a selected card. */
  lemma {:induction false} TableRowsFromSelection(sel: seq<Row>, rows: seq<Row>, k: int)
    requires multiset(rows) == multiset(sel)
    requires 1 <= k <= |rows|
    ensures rows[k - 1] in sel && Table(rows)[k] == Fields(rows[k - 1])
  {
    TableAt(rows, k - 1);
    ReorderedMember(rows, sel, k - 1);
  }

  /** Written from any reordering of the selected rows, the file holds the
      row of every selected card after its header. */
  lemma {:induction false} TableCoversSelection(sel: seq<Row>, rows: seq<Row>, x: Row)
    requires multiset(rows) == multiset(sel)
    requires x in sel
    ensures Fields(x) in Table(rows)[1..]
  {
    var j := ReorderedHolds(rows, sel, x);
    TableAt(rows, j);
    assert Table(rows)[1..][j] == Table(rows)[j + 1];
  }

  /** The handler: the rows go through the writer one card at a time. */
  method HandleDownloadCsv(db: Db, ctx: Ctx, text: string, today: Timestamp) returns (r: CsvOutcome)
    ensures r == Export(db, ctx, text, today)
  {
    if !ContextAvailable(ctx) {
      return ContextMissing;
    }
    var month := ChooseMonth(text, today);
    if month == Month.BadArgument {
      return CsvOutcome.BadArgument;
    }
    if month.WindowOverflow? {
      return CsvOutcome.WindowOverflow;
    }
    var rows := Records(db, ctx.actorUserId, month.window);
    if rows == [] {
      return NoRecords;
    }
    var table := WriteRows(rows);
    r := Sent(month.year, month.month, table);
  }

  /** The dictionary of a row names only header fields and is written as
      the row's fields. */
  lemma {:induction false} RecordWritten(row: Row)
    ensures forall k :: k in RecordOf(row) ==> k in Header
    ensures Ordered(Header, RecordOf(row)) == Fields(row)
  {
    var f := Fields(row);
    assert forall i :: 0 <= i < |Header| ==> f[i] == RecordOf(row)[Header[i]];
  }

  lemma {:induction false} TableAppend(rows: seq<Row>, i: int)
    requires 0 <= i < |rows|
    ensures Table(rows[..i + 1]) == Table(rows[..i]) + [Fields(rows[i])]
  {
    assert rows[..i + 1][..i] == rows[..i];
  }

  /** `writer.writerow(...)` of one record. */
  method WriteRecord(writer: Writer, row: Row)
    requires writer.fieldnames == Header
    modifies writer
    ensures writer.rows == old(writer.rows) + [Fields(row)]
  {
    RecordWritten(row);
    writer.WriteRow(RecordOf(row));
  }

  /** `writer.writeheader()` then `writer.writerow(...)` for each record. */
  method WriteRows(rows: seq<Row>) returns (table: seq<seq<string>>)
    ensures table == Table(rows)
  {
    var writer := new Writer(Header);
    writer.WriteHeader();
    var i := 0;
    while i < |rows|
      invariant 0 <= i <= |rows|
      invariant writer.fieldnames == Header
      invariant writer.rows == Table(rows[..i])
    {
      TableAppend(rows, i);
      WriteRecord(writer, rows[i]);
      i := i + 1;
    }
    assert rows[..|rows|] == rows;
    table := writer.rows;
  }
}
