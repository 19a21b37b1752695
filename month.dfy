/** The month argument shared by `/get_working_hours`, `/download_csv` and
    the admin export: empty means the current month, otherwise "%Y/%m". The
    month's window runs from its first midnight to the first midnight of the
    next month. `today` is `date.today()`, an input. */
module Month {
  import opened Text
  import opened Calendar

  /** The month a command reports on. `WindowOverflow` is the ValueError
      `first_day + relativedelta(months=1)` raises for 9999/12. */
  datatype MonthChoice = Chosen(year: int, month: int, window: Window) | BadArgument | WindowOverflow

  function ChooseMonth(text: string, today: Timestamp): (r: MonthChoice)
    ensures r == BadArgument <==> Strip(text) != [] && ParseYearMonth(Strip(text)).None?
    ensures Strip(text) == [] ==> r != BadArgument && (r.Chosen? ==> (r.year, r.month) == (today.year, today.month))
    ensures Strip(text) != [] && ParseYearMonth(Strip(text)).Some? && r.Chosen? ==> (r.year, r.month) == ParseYearMonth(Strip(text)).value
    ensures r.WindowOverflow? <==> r != BadArgument && !r.Chosen?
    ensures r.Chosen? ==> 1 <= r.year <= 9999 && 1 <= r.month <= 12 && MonthWindow(r.year, r.month) == Some(r.window)
    ensures r.WindowOverflow? ==> (Strip(text) == [] ==> (today.year, today.month) == (9999, 12))
  {
    var ym := if Strip(text) == [] then Some((today.year, today.month)) else ParseYearMonth(Strip(text));
    match ym
    case None => BadArgument
    case Some(p) =>
      match MonthWindow(p.0, p.1)
      case None => WindowOverflow
      case Some(w) => Chosen(p.0, p.1, w)
  }

  /** A chosen window holds exactly the instants of that calendar month, so
      a card (which ends after it starts) counts when it starts and ends
      within the month. */
  lemma {:induction false} ChosenWindowIsMonth(text: string, today: Timestamp, start: Timestamp, end: Timestamp)
    requires ChooseMonth(text, today).Chosen? && Before(start, end)
    ensures var r := ChooseMonth(text, today);
      InWindow(start, end, r.window) <==>
        start.year == r.year && start.month == r.month && end.year == r.year && end.month == r.month
  {
    var r := ChooseMonth(text, today);
    WindowIsCalendarMonth(r.year, r.month, start);
    WindowIsCalendarMonth(r.year, r.month, end);
  }

  /** How the reply names the month: the argument, or the words for the
      current month. */
  function MonthLabel(text: string, thisMonth: string): (s: string)
    ensures Strip(text) != [] ==> s == Strip(text)
    ensures Strip(text) == [] ==> s == thisMonth
  {
    if Strip(text) == [] then thisMonth else Strip(text)
  }
}
