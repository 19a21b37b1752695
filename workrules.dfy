/** The work rules a timecard is checked against: enough recess for a long
    day, and a report sent within a day of the end of the work. The clock is
    an input: `now` is the instant `datetime.now()` would return, with its
    microseconds. */
module WorkRules {
  import opened Text
  import opened Calendar
  import opened Model

  /** `datetime.now()`: an instant and the microseconds past its second. */
  datatype Now = Now(instant: Timestamp, micros: nat)

  const RecessMessage: string := ":warning: Recess hours are too short. If you work more than 6 hours, you must take 1 hour's recess."
  const TimingMessage: string := ":stopwatch: More than 24 hours have already passed since you finished your work. Let's try to report on time!"

  /** `record.duration > time(hour=6) and record.break_duration < time(hour=1)`. */
  predicate RecessTooShort(card: TimeCard)
  {
    card.duration > 6 * 60 && card.breakDuration < 60
  }

  /** `now - record.end_time > timedelta(days=1)`, compared in microseconds. */
  predicate ReportedLate(card: TimeCard, now: Now)
    requires now.micros < 1000000
  {
    (Seconds(now.instant) - Seconds(card.endTime)) * 1000000 + now.micros > 86400 * 1000000
  }

  /** `generate_warning_about_recess_hours`. */
  function RecessWarning(card: TimeCard): (r: Option<string>)
    ensures r.Some? <==> card.duration > 360 && card.breakDuration < 60
    ensures r.Some? ==> r.value == RecessMessage
  {
    if RecessTooShort(card) then Some(RecessMessage) else None
  }

  /** `generate_warning_about_report_timing`. */
  function TimingWarning(card: TimeCard, now: Now): (r: Option<string>)
    requires now.micros < 1000000
    ensures r.Some? <==> Seconds(now.instant) - Seconds(card.endTime) > 86400
                         || (Seconds(now.instant) - Seconds(card.endTime) == 86400 && now.micros > 0)
    ensures r.Some? ==> r.value == TimingMessage
  {
    if ReportedLate(card, now) then Some(TimingMessage) else None
  }

  /** The rules in the order `generate_warnings_about_all_rules` applies them. */
  datatype Rule = RecessHours | ReportTiming

  const AllRules: seq<Rule> := [RecessHours, ReportTiming]

  function Apply(rule: Rule, card: TimeCard, now: Now): Option<string>
    requires now.micros < 1000000
  {
    match rule
    case RecessHours => RecessWarning(card)
    case ReportTiming => TimingWarning(card, now)
  }

  /** The warnings rules produce for card, in order, dropping those that did not fire. */
  function Fired(rules: seq<Rule>, card: TimeCard, now: Now): seq<string>
    requires now.micros < 1000000
  {
    if rules == [] then []
    else
      var w := Apply(rules[|rules| - 1], card, now);
      Fired(rules[..|rules| - 1], card, now) + (if w.Some? then [w.value] else [])
  }

  /** `generate_warnings_about_all_rules`: run each rule and append the
      warnings that fired. The recess warning, when it fires, comes first. */
  method GenerateWarnings(card: TimeCard, now: Now) returns (warnings: seq<string>)
    requires now.micros < 1000000
    ensures warnings == (if RecessTooShort(card) then [RecessMessage] else [])
                        + (if ReportedLate(card, now) then [TimingMessage] else [])
    ensures |warnings| <= 2
  {
    warnings := [];
    var i := 0;
    while i < |AllRules|
      invariant 0 <= i <= |AllRules|
      invariant warnings == Fired(AllRules[..i], card, now)
    {
      var w := Apply(AllRules[i], card, now);
      if w.Some? {
        warnings := warnings + [w.value];
      }
      assert AllRules[..i + 1][..i] == AllRules[..i];
      i := i + 1;
    }
    assert AllRules[..2] == AllRules;
    assert AllRules[..1] == [RecessHours];
    assert AllRules[..1][..0] == [];
  }

  /** Exactly six hours of work, or exactly one hour of recess, draws no recess warning. */
  lemma {:induction false} RecessBoundaries(card: TimeCard)
    requires card.duration == 360 || card.breakDuration == 60
    ensures RecessWarning(card).None?
  {
  }

  /** A report exactly 24 hours after the end of the work is on time; one
      microsecond later it is late. */
  lemma {:induction false} TimingBoundary(card: TimeCard, t: Timestamp)
    requires Seconds(t) == Seconds(card.endTime) + 86400
    ensures TimingWarning(card, Now(t, 0)).None?
    ensures TimingWarning(card, Now(t, 1)).Some?
  {
  }
}
