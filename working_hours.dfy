/** The `/get_working_hours` command: the actor's working time in a month.
    Current groups the actor's cards by RA job name and shows, per group, the
    sum of duration minus break as hours and minutes. Legacy sums the stored
    durations only and shows the total through `(datetime.min + total).time()`. */
module WorkingHours {
  import opened Text
  import opened Calendar
  import opened Model
  import opened Request
  import opened Queries
  import opened Month

  // ------------------------------------------------------------ grouping

  /** `TimeCard.duration - TimeCard.break_duration` of one row, in seconds.
      The difference of two times of day is an interval and may be negative. */
  function WorkSeconds(row: Row): int
  {
    (row.card.duration - row.card.breakDuration) * 60
  }

  /** The RA job names of rows, each once, in order of first appearance. */
  function RaNames(rows: seq<Row>): (names: seq<string>)
    ensures forall i, j :: 0 <= i < j < |names| ==> names[i] != names[j]
    ensures forall k :: 0 <= k < |rows| ==> rows[k].ra.raName in names
    ensures forall n :: n in names ==> exists k :: 0 <= k < |rows| && rows[k].ra.raName == n
  {
    if rows == [] then []
    else
      var init := rows[..|rows| - 1];
      var rest := RaNames(init);
      var last := rows[|rows| - 1].ra.raName;
      assert forall k :: 0 <= k < |init| ==> init[k] == rows[k];
      if last in rest then rest else rest + [last]
  }

  /** `sum(duration - break_duration)` over the rows of group `name`. */
  function GroupTotal(rows: seq<Row>, name: string): int
  {
    if rows == [] then 0
    else
      GroupTotal(rows[..|rows| - 1], name)
        + (if rows[|rows| - 1].ra.raName == name then WorkSeconds(rows[|rows| - 1]) else 0)
  }

  /** `group_by(RA.ra_name)` with the sum: one (name, seconds) per RA job name. */
  function Groups(rows: seq<Row>): (g: seq<(string, int)>)
    ensures |g| == |RaNames(rows)|
    ensures forall i :: 0 <= i < |g| ==> g[i] == (RaNames(rows)[i], GroupTotal(rows, RaNames(rows)[i]))
  {
    var names := RaNames(rows);
    seq(|names|, i requires 0 <= i < |names| => (names[i], GroupTotal(rows, names[i])))
  }

  /** The sum over all rows. */
  function TotalSeconds(rows: seq<Row>): int
  {
    if rows == [] then 0 else TotalSeconds(rows[..|rows| - 1]) + WorkSeconds(rows[|rows| - 1])
  }

  /** The sum of the group totals of names. */
  function SumOver(rows: seq<Row>, names: seq<string>): int
  {
    if names == [] then 0 else SumOver(rows, names[..|names| - 1]) + GroupTotal(rows, names[|names| - 1])
  }

  /** A name no row carries has a total of zero. */
  lemma {:induction false} AbsentGroupIsZero(rows: seq<Row>, name: string)
    requires forall k :: 0 <= k < |rows| ==> rows[k].ra.raName != name
    ensures GroupTotal(rows, name) == 0
  {
    if rows != [] {
      AbsentGroupIsZero(rows[..|rows| - 1], name);
    }
  }

  /** Adding a row adds its seconds to exactly one of distinct names, or to
      none when its name is not among them. */
  lemma {:induction false} SumOverAppend(rows: seq<Row>, r: Row, names: seq<string>)
    requires forall i, j :: 0 <= i < j < |names| ==> names[i] != names[j]
    ensures SumOver(rows + [r], names) == SumOver(rows, names) + (if r.ra.raName in names then WorkSeconds(r) else 0)
  {
    assert (rows + [r])[..|rows|] == rows;
    if names != [] {
      var init := names[..|names| - 1];
      SumOverAppend(rows, r, init);
      assert names == init + [names[|names| - 1]];
      assert r.ra.raName in names <==> r.ra.raName in init || r.ra.raName == names[|names| - 1];
    }
  }

  /** The groups partition the rows: their totals add up to the sum over all rows. */
  lemma {:induction false} GroupsPartition(rows: seq<Row>)
    ensures SumOver(rows, RaNames(rows)) == TotalSeconds(rows)
  {
    if rows != [] {
      var init := rows[..|rows| - 1];
      var r := rows[|rows| - 1];
      assert rows == init + [r];
      var names := RaNames(init);
      GroupsPartition(init);
      SumOverAppend(init, r, names);
      if r.ra.raName !in names {
        assert forall k :: 0 <= k < |init| ==> init[k].ra.raName in names;
        AbsentGroupIsZero(init, r.ra.raName);
        assert GroupTotal(rows, r.ra.raName) == WorkSeconds(r);
        assert (names + [r.ra.raName])[..|names|] == names;
        SumOverAppend(init, r, names);
      }
    }
  }

  /** A negative group total needs a row whose break exceeds its duration. */
  lemma {:induction false} NegativeGroupHasNegativeRow(rows: seq<Row>, name: string)
    requires GroupTotal(rows, name) < 0
    ensures exists j :: 0 <= j < |rows| && rows[j].ra.raName == name && WorkSeconds(rows[j]) < 0
  {
    var init := rows[..|rows| - 1];
    var r := rows[|rows| - 1];
    if r.ra.raName == name && WorkSeconds(r) < 0 {
    } else {
      NegativeGroupHasNegativeRow(init, name);
      var j :| 0 <= j < |init| && init[j].ra.raName == name && WorkSeconds(init[j]) < 0;
      assert rows[j] == init[j];
    }
  }

  // ------------------------------------------------------------ display

  /** `hours = total // 3600; minutes = (total - hours * 3600) // 60` with
      Python's floor division: the whole hours and the remaining whole
      minutes of the total. */
  function HoursMinutes(t: int): (r: (int, int))
    ensures 0 <= r.1 < 60
    ensures r.0 * 3600 + r.1 * 60 <= t < r.0 * 3600 + r.1 * 60 + 60
  {
    var h := t / 3600;
    var m := (t - h * 3600) / 60;
    (h, m)
  }

  /** The hours and minutes are the only pair with those two properties. */
  lemma {:induction false} HoursMinutesUnique(t: int, h: int, m: int)
    requires 0 <= m < 60 && h * 3600 + m * 60 <= t < h * 3600 + m * 60 + 60
    ensures HoursMinutes(t) == (h, m)
  {
    var r := HoursMinutes(t);
    var a := h * 60 + m;
    var b := r.0 * 60 + r.1;
    assert a * 60 <= t < a * 60 + 60 && b * 60 <= t < b * 60 + 60;
    assert a == b;
    assert (r.0 - h) * 60 == m - r.1;
  }

  /** One line of the reply: `"\n" + f"{ra_name}:  {hours:02}:{minutes:02}"`. */
  function GroupLine(g: (string, int)): string
  {
    var hm := HoursMinutes(g.1);
    g.0 + ":  " + Pad2(hm.0) + ":" + Pad2(hm.1)
  }

  /** The group lines, in group order. */
  function Lines(groups: seq<(string, int)>): (ls: seq<string>)
    ensures |ls| == |groups|
    ensures forall i :: 0 <= i < |groups| ==> ls[i] == GroupLine(groups[i])
  {
    if groups == [] then [] else Lines(groups[..|groups| - 1]) + [GroupLine(groups[|groups| - 1])]
  }

  /** The reply: the header, then one line per group. */
  function HoursMessage(header: string, groups: seq<(string, int)>): string
  {
    JoinLines([header] + Lines(groups))
  }

  /** The reply has exactly one line per group after the header (when the
      header and the RA names have no line break). */
  lemma {:induction false} MessageLines(header: string, groups: seq<(string, int)>)
    requires NoNewline(header) && forall i :: 0 <= i < |groups| ==> NoNewline(groups[i].0)
    ensures |SplitLines(HoursMessage(header, groups))| == |groups| + 1
    ensures SplitLines(HoursMessage(header, groups))[0] == header
    ensures forall i :: 0 <= i < |groups| ==> SplitLines(HoursMessage(header, groups))[i + 1] == GroupLine(groups[i])
  {
    var lines := [header] + Lines(groups);
    forall i | 0 <= i < |groups| ensures NoNewline(GroupLine(groups[i])) {
      LineNoNewline(groups[i]);
    }
    assert forall k :: 0 <= k < |lines| ==> NoNewline(lines[k]);
    SplitJoin(lines);
  }

  lemma {:induction false} LineNoNewline(g: (string, int))
    requires NoNewline(g.0)
    ensures NoNewline(GroupLine(g))
  {
    var hm := HoursMinutes(g.1);
    PadNoNewline(hm.0);
    PadNoNewline(hm.1);
    var s := GroupLine(g);
    var a := g.0 + ":  ";
    var b := Pad2(hm.0);
    var c := Pad2(hm.1);
    assert s == a + b + ":" + c;
    forall k | 0 <= k < |s| ensures s[k] != '\n' {
      if k < |g.0| { assert s[k] == g.0[k]; assert g.0[k] in g.0; }
      else if k < |a| { }
      else if k < |a| + |b| { assert s[k] == b[k - |a|]; assert b[k - |a|] in b; }
      else if k == |a| + |b| { }
      else { assert s[k] == c[k - |a| - |b| - 1]; assert c[k - |a| - |b| - 1] in c; }
    }
  }

  lemma {:induction false} PadNoNewline(n: int)
    ensures NoNewline(Pad2(n))
  {
    var s := Pad2(n);
    if n >= 0 {
      Pad2Nat(n);
      assert forall k :: 0 <= k < |s| ==> IsDigit(s[k]);
    } else {
      Pad2Negative(n);
      forall k | 0 <= k < |s| ensures s[k] != '\n' {
        if k > 0 { assert s[k] == s[1..][k - 1]; }
      }
    }
  }

  /** One more group adds a line break and its line. */
  lemma {:induction false} MessageAppend(header: string, groups: seq<(string, int)>, g: (string, int))
    ensures HoursMessage(header, groups + [g]) == HoursMessage(header, groups) + "\n" + GroupLine(g)
  {
    assert (groups + [g])[..|groups|] == groups;
    assert [header] + Lines(groups + [g]) == [header] + Lines(groups) + [GroupLine(g)];
    JoinAppend([header] + Lines(groups), GroupLine(g));
  }

  /** `message += ...` for each group, after the header. */
  method BuildMessage(header: string, groups: seq<(string, int)>) returns (message: string)
    ensures message == HoursMessage(header, groups)
  {
    message := header;
    var i := 0;
    while i < |groups|
      invariant 0 <= i <= |groups|
      invariant message == HoursMessage(header, groups[..i])
    {
      assert groups[..i + 1] == groups[..i] + [groups[i]];
      MessageAppend(header, groups[..i], groups[i]);
      message := message + "\n" + GroupLine(groups[i]);
      i := i + 1;
    }
    assert groups[..|groups|] == groups;
  }

  // ------------------------------------------------------------ the command

  /** How the command ends. Legacy shows a single time of day or says there
      are no working hours. */
  datatype HoursOutcome =
    | ContextMissing
    | BadArgument
    | WindowOverflow
    | NoRecords
    | Totals(message: string)
    | LegacyTotal(shown: ClockTime)
  {
    /** The outcomes that end the handler with an exception and send no reply. */
    predicate Raises()
    {
      ContextMissing? || WindowOverflow?
    }
  }

  /** The header of Current's reply. */
  function Header(text: string): string
  {
    ":pencil: Work hours in " + MonthLabel(text, "this month") + " are as follows:"
  }

  /** The sum Legacy queries: `sum(TimeCard.duration)`, break not subtracted. */
  function DurationSeconds(rows: seq<Row>): (t: int)
    ensures t >= 0
  {
    if rows == [] then 0 else DurationSeconds(rows[..|rows| - 1]) + rows[|rows| - 1].card.duration * 60
  }

  /** `get_working_hours` in both versions; the store is only read. */
  function GetWorkingHours(v: Variant, db: Db, ctx: Ctx, text: string, today: Timestamp): (r: HoursOutcome)
    ensures !ContextAvailable(ctx) <==> r == ContextMissing
    ensures ContextAvailable(ctx) ==> r == Summarize(v, db, ctx.actorUserId, text, ChooseMonth(text, today))
    ensures r.Raises() <==> !ContextAvailable(ctx) || ChooseMonth(text, today).WindowOverflow?
  {
    if !ContextAvailable(ctx) then ContextMissing
    else Summarize(v, db, ctx.actorUserId, text, ChooseMonth(text, today))
  }

  /** The reply once the month is chosen: the actor's cards in the window,
      grouped (Current) or summed (Legacy). */
  function Summarize(v: Variant, db: Db, actor: string, text: string, month: MonthChoice): (r: HoursOutcome)
    ensures r != ContextMissing
    ensures r == HoursOutcome.BadArgument <==> month == Month.BadArgument
    ensures r == HoursOutcome.WindowOverflow <==> month.WindowOverflow?
    ensures month.Chosen? ==> r == Tally(v, SelectRows(db, Some(actor), month.window), Header(text))
  {
    match month
    case BadArgument => HoursOutcome.BadArgument
    case WindowOverflow => HoursOutcome.WindowOverflow
    case Chosen(_, _, w) => Tally(v, SelectRows(db, Some(actor), w), Header(text))
  }

  /** The reply for the selected rows. Current says there is nothing when no
      row matched; Legacy when the summed duration is zero or absent. */
  function Tally(v: Variant, rows: seq<Row>, header: string): (r: HoursOutcome)
    ensures r.NoRecords? || r.Totals? || r.LegacyTotal?
    ensures r.Totals? <==> v == Current && rows != []
    ensures r.Totals? ==> r.message == HoursMessage(header, Groups(rows))
    ensures r.LegacyTotal? <==> v == Legacy && DurationSeconds(rows) != 0
    ensures r.LegacyTotal? ==> r.shown == LegacyShown(DurationSeconds(rows))
  {
    match v
    case Current =>
      if rows == [] then NoRecords else Totals(HoursMessage(header, Groups(rows)))
    case Legacy =>
      var total := DurationSeconds(rows);
      if total == 0 then NoRecords else LegacyTotal(LegacyShown(total))
  }

  /** Legacy's display of a total: `(datetime.min + total).time()` as "%H:%M". */
  function LegacyShown(total: nat): (c: ClockTime)
    ensures c * 60 <= total % 86400 < c * 60 + 60
  {
    TimeOfDelta(total).value
  }

  /** Legacy's total wraps at 24 hours: 25 hours of work show as 01:00. */
  lemma {:induction false} LegacyWrapsAtOneDay()
    ensures LegacyShown(25 * 3600) == 60
    ensures HoursMinutes(25 * 3600) == (25, 0)
  {
    HoursMinutesUnique(25 * 3600, 25, 0);
  }

  /** Current's display keeps every whole hour: the hours and minutes shown
      are the total's floor minutes, whatever its size. */
  lemma {:induction false} CurrentShowsWholeTotal(t: int)
    ensures var hm := HoursMinutes(t);
      hm.0 * 60 + hm.1 == t / 60
  {
    var hm := HoursMinutes(t);
    var q := hm.0 * 60 + hm.1;
    assert q * 60 <= t < q * 60 + 60;
  }

  /** The reply as the handler builds it. */
  method HoursReply(v: Variant, db: Db, ctx: Ctx, text: string, today: Timestamp) returns (r: HoursOutcome)
    ensures r == GetWorkingHours(v, db, ctx, text, today)
  {
    if !ContextAvailable(ctx) {
      return ContextMissing;
    }
    var month := ChooseMonth(text, today);
    if month == Month.BadArgument {
      return HoursOutcome.BadArgument;
    }
    if month.WindowOverflow? {
      return HoursOutcome.WindowOverflow;
    }
    var rows := SelectRows(db, Some(ctx.actorUserId), month.window);
    if v == Current {
      if rows == [] {
        return NoRecords;
      }
      var message := BuildMessage(Header(text), Groups(rows));
      r := Totals(message);
    } else {
      var total := DurationSeconds(rows);
      r := if total == 0 then NoRecords else LegacyTotal(LegacyShown(total));
    }
  }
}
