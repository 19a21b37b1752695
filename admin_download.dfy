/** `/admin_download_all_records`: every user's cards of a month as CSV rows,
    for administrators only, ordered by RA job name, user id and start time.
    The work duration is recomputed from the two instants; the stored
    duration is not used. `adminIds` is the configured list of admins. */
module AdminDownload {
  import opened Text
  import opened Calendar
  import opened Model
  import opened Request
  import opened Queries
  import opened Month
  import opened Csv

  const AdminHeader: seq<string> :=
    ["name", "ra_name", "start_timestamp", "end_timestamp", "work_duration", "break_duration", "description"]

  /** `(datetime.min + (end_time - start_time)).time()`: the length of the
      card modulo a day, in whole minutes; a negative length overflows
      `datetime.min`. Whole days drop out of the modulus, so only the two
      times of day are used (WorkDurationIsDelta). */
  function WorkDuration(card: TimeCard): Option<ClockTime>
  {
    if !InOrder(card) then None
    else Some(ShownDuration(card))
  }

  /** The card does not end before it starts (`end_time < start_time` is false). */
  predicate InOrder(card: TimeCard)
  {
    !Precedes(card.endTime, card.startTime)
  }

  /** The work duration is undefined exactly when the card ends before it starts. */
  lemma {:induction false} WorkDurationDefined(card: TimeCard)
    ensures WorkDuration(card).None? <==> Seconds(card.endTime) < Seconds(card.startTime)
  {
    PrecedesIsBefore(card.endTime, card.startTime);
  }

  /** The time of day `datetime.min + (end_time - start_time)` shows once
      the difference is not negative, in whole minutes. */
  function ShownDuration(card: TimeCard): ClockTime
  {
    ((SecondOfDay(card.endTime) - SecondOfDay(card.startTime)) % 86400) / 60
  }

  function SecondOfDay(t: Timestamp): int
  {
    t.hour * 3600 + t.minute * 60 + t.second
  }

  /** The work duration is the time `datetime.min + (end - start)` shows. */
  lemma {:induction false} WorkDurationIsDelta(card: TimeCard)
    ensures WorkDuration(card) == TimeOfDelta(Seconds(card.endTime) - Seconds(card.startTime))
  {
    var a := card.startTime;
    var b := card.endTime;
    var days := DayNumber(b.year, b.month, b.day) - DayNumber(a.year, a.month, a.day);
    var x := SecondOfDay(b) - SecondOfDay(a);
    assert Seconds(b) - Seconds(a) == days * 86400 + x;
    WholeDaysDropOut(days, x);
    WorkDurationDefined(card);
  }

  lemma {:induction false} WholeMinutes(m: ClockTime)
    ensures TimeOfDelta(m * 60) == Some(m)
  {
    assert (m * 60) % 86400 == m * 60;
  }

  lemma {:induction false} WholeDaysDropOut(days: int, x: int)
    ensures (days * 86400 + x) % 86400 == x % 86400
  {
  }

  /** The work duration is the card's length in whole minutes, modulo a day. */
  lemma {:induction false} WorkDurationIsLength(card: TimeCard)
    requires Seconds(card.startTime) <= Seconds(card.endTime)
    ensures WorkDuration(card).Some?
    ensures var d := WorkDuration(card).value;
      d * 60 <= (Seconds(card.endTime) - Seconds(card.startTime)) % 86400 < d * 60 + 60
  {
    WorkDurationIsDelta(card);
  }

  /** The dictionary passed to `writerow` for one row whose work duration is d. */
  function AdminRecordOf(row: Row, d: ClockTime): map<string, string>
  {
    map[
      "name" := row.user.name,
      "ra_name" := row.ra.raName,
      "start_timestamp" := FormatStamp(row.card.startTime),
      "end_timestamp" := FormatStamp(row.card.endTime),
      "work_duration" := FormatClock(d, ":"),
      "break_duration" := FormatClock(row.card.breakDuration, ":"),
      "description" := row.card.description]
  }

  /** The CSV row: user name, RA name, "%Y/%m/%d %H:%M:%S" of start and end,
      "%H:%M" of the work duration and of the break, and the description. */
  function AdminFields(row: Row, d: ClockTime): (f: seq<string>)
    ensures |f| == 7
  {
    [row.user.name, row.ra.raName, FormatStamp(row.card.startTime), FormatStamp(row.card.endTime),
      FormatClock(d, ":"), FormatClock(row.card.breakDuration, ":"), row.card.description]
  }

  /** Every card's work duration can be computed: none ends before it starts. */
  predicate DurationsDefined(rows: seq<Row>)
  {
    forall k :: 0 <= k < |rows| ==> InOrder(rows[k].card)
  }

  /** The file written when every duration is defined: the header, then
      one row per record. */
  function AdminTable(rows: seq<Row>): (t: seq<seq<string>>)
    ensures |t| == |rows| + 1 && t[0] == AdminHeader
  {
    if rows == [] then [AdminHeader]
    else
      var last := rows[|rows| - 1];
      AdminTable(rows[..|rows| - 1]) + [AdminFields(last, ShownDuration(last.card))]
  }

  /** Row k + 1 of the file is the row of record k. */
  lemma {:induction false} AdminTableAt(rows: seq<Row>, k: int)
    requires 0 <= k < |rows|
    ensures AdminTable(rows)[k + 1] == AdminFields(rows[k], ShownDuration(rows[k].card))
  {
    var init := rows[..|rows| - 1];
    if k < |rows| - 1 {
      AdminTableAt(init, k);
      assert init[k] == rows[k];
      SnocAt(AdminTable(init), AdminFields(rows[|rows| - 1], ShownDuration(rows[|rows| - 1].card)), k + 1);
    }
  }

  lemma {:induction false} SnocAt(t: seq<seq<string>>, f: seq<string>, i: int)
    requires 0 <= i < |t|
    ensures (t + [f])[i] == t[i]
  {
  }

  /** Every character of every field has a cp932 code. The writer adds only
      commas, quotes and line ends, which cp932 encodes, so this is when
      `csv_text.encode(encoding="cp932")` succeeds. `cp932` is the codec's
      table, a parameter of the model. */
  predicate Encodable(table: seq<seq<string>>, cp932: char -> bool)
  {
    forall i, j, k :: 0 <= i < |table| && 0 <= j < |table[i]| && 0 <= k < |table[i][j]| ==> cp932(table[i][j][k])
  }

  /** How the command ends. `DurationRaised` is the OverflowError of a card
      ending before it starts; `EncodeRaised` the UnicodeEncodeError of a
      character cp932 cannot encode. */
  datatype AdminOutcome =
    | ContextMissing
    | NotAllowed
    | BadArgument
    | WindowOverflow
    | NoRecords
    | DurationRaised
    | EncodeRaised
    | Sent(year: int, month: int, table: seq<seq<string>>)
  {
    predicate Raises()
    {
      ContextMissing? || WindowOverflow? || DurationRaised? || EncodeRaised?
    }
  }

  /** All users' cards of the chosen month, by RA name, user id and start. */
  function AllRecords(db: Db, w: Window): (rows: seq<Row>)
    ensures multiset(rows) == multiset(SelectRows(db, None, w))
    ensures Sorted(ByRaUserStart, rows)
  {
    SortRows(ByRaUserStart, SelectRows(db, None, w))
  }

  /** `admin_download_all_records`; the store is only read. */
  function AdminExport(db: Db, ctx: Ctx, adminIds: seq<string>, text: string, today: Timestamp, cp932: char -> bool): (r: AdminOutcome)
    ensures !ContextAvailable(ctx) <==> r == ContextMissing
    ensures ContextAvailable(ctx) && ctx.actorUserId !in adminIds <==> r == NotAllowed
    ensures ContextAvailable(ctx) && ctx.actorUserId in adminIds ==> r == AdminAssemble(db, ChooseMonth(text, today), cp932)
    ensures r.Raises() ==> !ContextAvailable(ctx) || ctx.actorUserId in adminIds
  {
    if !ContextAvailable(ctx) then ContextMissing
    else if ctx.actorUserId !in adminIds then NotAllowed
    else AdminAssemble(db, ChooseMonth(text, today), cp932)
  }

  /** On a valid database the export raises only without a context, or for an
      administrator asking for 9999/12 or for a month whose file holds a
      character cp932 cannot encode; the duration computation never raises. */
  lemma {:induction false} AdminRaisesOnly(db: Db, ctx: Ctx, adminIds: seq<string>, text: string, today: Timestamp, cp932: char -> bool)
    requires ValidDb(db)
    ensures var month := ChooseMonth(text, today);
      AdminExport(db, ctx, adminIds, text, today, cp932).Raises() <==>
      !ContextAvailable(ctx) || (ctx.actorUserId in adminIds && (month.WindowOverflow? ||
        (month.Chosen? && AllRecords(db, month.window) != [] && !Encodable(AdminTable(AllRecords(db, month.window)), cp932))))
  {
    var month := ChooseMonth(text, today);
    ValidDbNeverRaises(db, month, cp932);
    if month.Chosen? {
      ValidRowsDefined(db, month.window);
    }
  }

  /** The reply once the month is chosen. */
  function AdminAssemble(db: Db, month: MonthChoice, cp932: char -> bool): (r: AdminOutcome)
    ensures r != ContextMissing && r != NotAllowed
    ensures r == AdminOutcome.BadArgument <==> month == Month.BadArgument
    ensures r == AdminOutcome.WindowOverflow <==> month.WindowOverflow?
    ensures month.Chosen? ==> (r == NoRecords <==> SelectRows(db, None, month.window) == [])
    ensures r == DurationRaised <==> month.Chosen? && AllRecords(db, month.window) != []
                                     && !DurationsDefined(AllRecords(db, month.window))
    ensures r == EncodeRaised <==> month.Chosen? && AllRecords(db, month.window) != []
                                   && DurationsDefined(AllRecords(db, month.window))
                                   && !Encodable(AdminTable(AllRecords(db, month.window)), cp932)
    ensures r.Sent? ==> month.Chosen? && (r.year, r.month) == (month.year, month.month)
    ensures r.Sent? ==> DurationsDefined(AllRecords(db, month.window))
                        && r.table == AdminTable(AllRecords(db, month.window)) && Encodable(r.table, cp932)
  {
    match month
    case BadArgument => AdminOutcome.BadArgument
    case WindowOverflow => AdminOutcome.WindowOverflow
    case Chosen(y, m, w) =>
      var rows := AllRecords(db, w);
      if rows == [] then
        assert multiset(SelectRows(db, None, w)) == multiset{};
        NoRecords
      else
        assert SelectRows(db, None, w) != [] by {
          assert rows[0] in multiset(SelectRows(db, None, w));
        }
        if !DurationsDefined(rows) then DurationRaised
        else if !Encodable(AdminTable(rows), cp932) then EncodeRaised
        else Sent(y, m, AdminTable(rows))
  }

  /** In a valid database every selected card ends after it starts. */
  lemma {:induction false} ValidRowsDefined(db: Db, w: Window)
    requires ValidDb(db)
    ensures DurationsDefined(AllRecords(db, w))
  {
    var rows := AllRecords(db, w);
    var sel := SelectRows(db, None, w);
    forall k | 0 <= k < |rows| ensures InOrder(rows[k].card) {
      ReorderedMember(rows, sel, k);
      var j :| 0 <= j < |sel| && sel[j] == rows[k];
      var i :| 0 <= i < |db.cards| && db.cards[i] == rows[k].card;
      assert Before(db.cards[i].startTime, db.cards[i].endTime);
      PrecedesIsBefore(rows[k].card.endTime, rows[k].card.startTime);
    }
  }

  /** The check constraint `end_time > start_time` keeps the duration computation from
      raising: in a valid database every work duration is defined. */
  lemma {:induction false} ValidDbNeverRaises(db: Db, month: MonthChoice, cp932: char -> bool)
    requires ValidDb(db)
    ensures AdminAssemble(db, month, cp932) != DurationRaised
  {
    if month.Chosen? {
      ValidRowsDefined(db, month.window);
    }
  }

  /** Written from any reordering of the selected rows (AllRecords is one),
      the record behind row k of the file (AdminTableAt) is a selected card
      whose work duration is defined and is the one the row shows. */
  lemma {:induction false} AdminRowsFromSelection(sel: seq<Row>, rows: seq<Row>, k: int)
    requires multiset(rows) == multiset(sel) && DurationsDefined(rows)
    requires 1 <= k <= |rows|
    ensures rows[k - 1] in sel
    ensures WorkDuration(rows[k - 1].card) == Some(ShownDuration(rows[k - 1].card))
  {
    ReorderedMember(rows, sel, k - 1);
  }

  /** Written from any reordering of the selected rows, the file holds the
      row of every selected card, whoever owns it, after its header. */
  lemma {:induction false} AdminCoversSelection(sel: seq<Row>, rows: seq<Row>, x: Row)
    requires multiset(rows) == multiset(sel) && DurationsDefined(rows)
    requires x in sel
    ensures WorkDuration(x.card) == Some(ShownDuration(x.card))
    ensures AdminFields(x, ShownDuration(x.card)) in AdminTable(rows)[1..]
  {
    var j := ReorderedHolds(rows, sel, x);
    AdminTableAt(rows, j);
    assert AdminTable(rows)[1..][j] == AdminTable(rows)[j + 1];
  }

  /** For a card whose stored duration is the minutes between its instants
      (as a mention writes it), the recomputed work duration is the stored one. */
  lemma {:induction false} RecomputedDurationAgrees(card: TimeCard)
    requires card.duration * 60 == Seconds(card.endTime) - Seconds(card.startTime)
    ensures WorkDuration(card) == Some(card.duration)
  {
    WorkDurationIsDelta(card);
    WholeMinutes(card.duration);
  }

  /** The duration and break columns read back through "%H:%M". */
  lemma {:induction false} AdminClocksReadBack(row: Row, d: ClockTime)
    ensures var f := AdminFields(row, d);
      && f[0] == row.user.name && f[1] == row.ra.raName && f[6] == row.card.description
      && ParseClock(f[4]) == Some(d) && ParseClock(f[5]) == Some(row.card.breakDuration)
  {
    ClockRoundTrip(d);
    ClockRoundTrip(row.card.breakDuration);
  }

  /** The timestamp columns carry the instants to the minute, and read back
      as the instants when those fall on a whole minute. */
  lemma {:induction false} AdminStampsReadBack(row: Row, d: ClockTime)
    ensures var f := AdminFields(row, d);
      && f[2][..16] == FormatMinute(row.card.startTime) && f[3][..16] == FormatMinute(row.card.endTime)
      && (row.card.startTime.second == 0 ==> ParseDateTime(f[2][..16]) == Some(row.card.startTime))
      && (row.card.endTime.second == 0 ==> ParseDateTime(f[3][..16]) == Some(row.card.endTime))
  {
    var f := AdminFields(row, d);
    assert f[2] == FormatStamp(row.card.startTime) && f[3] == FormatStamp(row.card.endTime);
    FormatStampFields(row.card.startTime);
    FormatStampFields(row.card.endTime);
    if row.card.startTime.second == 0 { ParseFormatMinute(row.card.startTime); }
    if row.card.endTime.second == 0 { ParseFormatMinute(row.card.endTime); }
  }

  /** The dictionary of a row names only header fields and is written as
      the row's fields. */
  lemma {:induction false} AdminRecordWritten(row: Row, d: ClockTime)
    ensures forall k :: k in AdminRecordOf(row, d) ==> k in AdminHeader
    ensures Ordered(AdminHeader, AdminRecordOf(row, d)) == AdminFields(row, d)
  {
    var f := AdminFields(row, d);
    assert forall i :: 0 <= i < |AdminHeader| ==> f[i] == AdminRecordOf(row, d)[AdminHeader[i]];
  }

  lemma {:induction false} AdminTableSnoc(rows: seq<Row>, i: int)
    requires 0 <= i < |rows|
    ensures AdminTable(rows[..i + 1]) == AdminTable(rows[..i]) + [AdminFields(rows[i], ShownDuration(rows[i].card))]
  {
    assert rows[..i + 1][..i] == rows[..i];
    assert rows[..i + 1][i] == rows[i];
  }

  /** `writer.writerow(...)` of one record. */
  method WriteAdminRecord(writer: Writer, row: Row, d: ClockTime)
    requires writer.fieldnames == AdminHeader
    modifies writer
    ensures writer.rows == old(writer.rows) + [AdminFields(row, d)]
  {
    AdminRecordWritten(row, d);
    writer.WriteRow(AdminRecordOf(row, d));
  }

  /** The loop over the records: compute each duration, then write the row.
      A card ending before it starts stops the loop with an error. */
  method WriteAdminRows(rows: seq<Row>) returns (table: Option<seq<seq<string>>>)
    ensures table.None? <==> !DurationsDefined(rows)
    ensures table.Some? ==> table.value == AdminTable(rows)
  {
    var writer := new Writer(AdminHeader);
    writer.WriteHeader();
    var ok := WriteAdminLoop(writer, rows);
    table := if ok then Some(writer.rows) else None;
  }

  /** The rows after the header, written one record at a time. */
  method WriteAdminLoop(writer: Writer, rows: seq<Row>) returns (ok: bool)
    requires writer.fieldnames == AdminHeader && writer.rows == [AdminHeader]
    modifies writer
    ensures ok <==> DurationsDefined(rows)
    ensures ok ==> writer.rows == AdminTable(rows)
  {
    var i := 0;
    while i < |rows|
      invariant 0 <= i <= |rows|
      invariant DurationsDefined(rows[..i])
      invariant writer.rows == AdminTable(rows[..i])
    {
      ok := WriteAdminStep(writer, rows, i);
      if !ok {
        return;
      }
      i := i + 1;
    }
    assert rows[..|rows|] == rows;
    ok := true;
  }

  lemma {:induction false} InOrderPrefix(rows: seq<Row>, i: int)
    requires 0 <= i < |rows| && InOrder(rows[i].card) && DurationsDefined(rows[..i])
    ensures DurationsDefined(rows[..i + 1])
  {
    assert forall k :: 0 <= k < i ==> rows[..i + 1][k] == rows[..i][k];
  }

  lemma {:induction false} NotInOrder(rows: seq<Row>, i: int)
    requires 0 <= i < |rows| && !InOrder(rows[i].card)
    ensures !DurationsDefined(rows)
  {
  }

  /** One pass of the loop: the duration of record i, then its row; false
      when the duration cannot be computed. */
  method WriteAdminStep(writer: Writer, rows: seq<Row>, i: int) returns (ok: bool)
    requires 0 <= i < |rows|
    requires writer.fieldnames == AdminHeader
    requires writer.rows == AdminTable(rows[..i]) && DurationsDefined(rows[..i])
    modifies writer
    ensures !ok ==> !DurationsDefined(rows)
    ensures ok ==> writer.rows == AdminTable(rows[..i + 1]) && DurationsDefined(rows[..i + 1])
  {
    var d := WorkDuration(rows[i].card);
    if d.None? {
      NotInOrder(rows, i);
      return false;
    }
    InOrderPrefix(rows, i);
    AdminTableSnoc(rows, i);
    WriteAdminRecord(writer, rows[i], d.value);
    ok := true;
  }

  /** The handler. */
  method HandleAdminDownload(db: Db, ctx: Ctx, adminIds: seq<string>, text: string, today: Timestamp, cp932: char -> bool)
    returns (r: AdminOutcome)
    ensures r == AdminExport(db, ctx, adminIds, text, today, cp932)
  {
    if !ContextAvailable(ctx) {
      return ContextMissing;
    }
    if ctx.actorUserId !in adminIds {
      return NotAllowed;
    }
    var month := ChooseMonth(text, today);
    if month == Month.BadArgument {
      return AdminOutcome.BadArgument;
    }
    if month.WindowOverflow? {
      return AdminOutcome.WindowOverflow;
    }
    var rows := AllRecords(db, month.window);
    if rows == [] {
      return NoRecords;
    }
    var table := WriteAdminRows(rows);
    if table.None? {
      return DurationRaised;
    }
    if !Encodable(table.value, cp932) {
      return EncodeRaised;
    }
    r := Sent(month.year, month.month, table.value);
  }
}
