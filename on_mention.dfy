/** The `app_mention` handler: a user reports a piece of work by mentioning
    the bot with a four-bullet message; the bot checks the format, resolves
    the RA job, parses the working hours, and inserts a timecard for the
    message or, when the message was edited, overwrites the card it created
    before. The same handler serves edited messages, so a card is keyed by
    the message's ts. */
module OnMention {
  import opened Text
  import opened Calendar
  import opened Model
  import opened Request
  import opened Queries

  // ------------------------------------------------------------ the template

  const Bullet: string := "\U{2022} "

  /** The four named groups of the template: name, ra_name, duration, description. */
  datatype Captures = Captures(name: string, raName: string, duration: string, description: string)

  /** `<@.+>.*`: a mention, then anything on the same line. */
  predicate MentionLine(l: string)
  {
    |l| >= 4 && l[0] == '<' && l[1] == '@' && exists k :: 3 <= k < |l| && l[k] == '>'
  }

  /** `• .+`: a bullet, a space and at least one character. */
  predicate BulletLine(l: string)
  {
    |l| >= 3 && l[..2] == Bullet
  }

  /** What `.+` can capture: a non-empty piece of one line. */
  predicate Capture(s: string)
  {
    s != [] && NoNewline(s)
  }

  predicate WellFormed(c: Captures)
  {
    Capture(c.name) && Capture(c.raName) && Capture(c.duration) && Capture(c.description)
  }

  /** The lines of a text the template regex matches: a mention line and four
      bullet lines; `$` also matches before one final newline. */
  predicate TemplateLines(lines: seq<string>)
  {
    && (|lines| == 5 || (|lines| == 6 && lines[5] == []))
    && MentionLine(lines[0])
    && BulletLine(lines[1]) && BulletLine(lines[2]) && BulletLine(lines[3]) && BulletLine(lines[4])
  }

  /** `re.match(expected_message_format, text)` and its four groups. */
  function ParseTemplate(text: string): (r: Option<Captures>)
    ensures r.Some? <==> TemplateLines(SplitLines(text))
    ensures r.Some? ==> WellFormed(r.value)
  {
    var lines := SplitLines(text);
    if TemplateLines(lines) then
      assert forall k :: 1 <= k < 5 ==> forall c :: c in lines[k][2..] ==> c in lines[k];
      Some(Captures(lines[1][2..], lines[2][2..], lines[3][2..], lines[4][2..]))
    else None
  }

  /** The message a user writes: a mention line, then the four bullets. */
  function Template(head: string, c: Captures): string
  {
    JoinLines(TemplateOf(head, c))
  }

  function TemplateOf(head: string, c: Captures): seq<string>
  {
    [head, Bullet + c.name, Bullet + c.raName, Bullet + c.duration, Bullet + c.description]
  }

  lemma {:induction false} BulletNoNewline(s: string)
    requires NoNewline(s)
    ensures NoNewline(Bullet + s) && BulletLine(Bullet + s) == (s != []) && (Bullet + s)[2..] == s
  {
    assert forall c :: c in Bullet + s ==> c in Bullet || c in s;
  }

  /** Every message written to the template is accepted, with or without a
      final newline, and yields the captures it was written with. */
  lemma {:induction false} TemplateRoundTrip(head: string, c: Captures)
    requires MentionLine(head) && NoNewline(head) && WellFormed(c)
    ensures ParseTemplate(Template(head, c)) == Some(c)
    ensures ParseTemplate(Template(head, c) + "\n") == Some(c)
  {
    var lines := TemplateOf(head, c);
    BulletNoNewline(c.name);
    BulletNoNewline(c.raName);
    BulletNoNewline(c.duration);
    BulletNoNewline(c.description);
    SplitJoin(lines);
    var e: string := [];
    var lines6 := lines + [e];
    assert forall i :: 0 <= i < |lines6| ==> NoNewline(lines6[i]);
    SplitJoin(lines6);
    JoinAppend(lines, e);
    assert Template(head, c) + "\n" == JoinLines(lines6);
  }

  /** Every accepted message is a mention line and the four captures in the
      template, followed by nothing or by one newline. */
  lemma {:induction false} TemplateComplete(text: string)
    requires ParseTemplate(text).Some?
    ensures var head := SplitLines(text)[0];
      var c := ParseTemplate(text).value;
      text == Template(head, c) || text == Template(head, c) + "\n"
  {
    var lines := SplitLines(text);
    var c := ParseTemplate(text).value;
    JoinSplit(text);
    forall k | 1 <= k < 5
      ensures lines[k] == Bullet + lines[k][2..]
    {
      assert lines[k] == lines[k][..2] + lines[k][2..];
    }
    assert lines[..5] == TemplateOf(lines[0], c);
    if |lines| == 5 {
      assert lines == lines[..5];
    } else {
      assert lines == lines[..5] + [lines[5]];
      JoinAppend(lines[..5], lines[5]);
    }
  }

  // ------------------------------------------------------------ working hours

  /** The word in front of the recess hours: `休憩` (rest) or `R`. */
  datatype Marker = Kyukei | R

  function MarkerText(m: Marker): string
  {
    match m
    case Kyukei => "休憩"
    case R => "R"
  }

  /** The groups of the working-hours regex: date, start_time, end_time and
      the optional marker and break_time. */
  datatype HoursText = HoursText(date: string, startTime: string, endTime: string, brk: Option<(Marker, string)>)

  predicate BreakChar(c: char)
  {
    IsDigit(c) || c == ':'
  }

  /** The working-hours regex of each variant. Current:
      `(.+) (.{5})-(.{5})( (休憩|R)([0-9:]{5}))?$`. Legacy accepts only the
      `休憩` marker and any five characters after it. With the date group
      greedy, the three possible shapes end the date 12, 19 or 20 characters
      before the end of the text; they exclude each other. */
  function ParseHoursText(v: Variant, s: string): (r: Option<HoursText>)
    requires NoNewline(s)
    ensures r.Some? ==> HoursWellFormed(v, r.value)
  {
    var n := |s|;
    if n >= 13 && s[n - 12] == ' ' && s[n - 6] == '-' then
      Some(HoursText(s[..n - 12], s[n - 11..n - 6], s[n - 5..], None))
    else if v == Current && n >= 20 && s[n - 19] == ' ' && s[n - 13] == '-' && s[n - 7] == ' '
            && s[n - 6] == 'R' && (forall k :: n - 5 <= k < n ==> BreakChar(s[k])) then
      Some(HoursText(s[..n - 19], s[n - 18..n - 13], s[n - 12..n - 7], Some((R, s[n - 5..]))))
    else if n >= 21 && s[n - 20] == ' ' && s[n - 14] == '-' && s[n - 8] == ' '
            && s[n - 7] == '休' && s[n - 6] == '憩'
            && (v == Legacy || forall k :: n - 5 <= k < n ==> BreakChar(s[k])) then
      Some(HoursText(s[..n - 20], s[n - 19..n - 14], s[n - 13..n - 8], Some((Kyukei, s[n - 5..]))))
    else None
  }

  /** The groups a match of the variant's regex can produce. */
  predicate HoursWellFormed(v: Variant, h: HoursText)
  {
    && Capture(h.date) && |h.startTime| == 5 && |h.endTime| == 5
    && NoNewline(h.startTime) && NoNewline(h.endTime)
    && (h.brk.Some? ==>
          && |h.brk.value.1| == 5 && NoNewline(h.brk.value.1)
          && (v == Legacy ==> h.brk.value.0 == Kyukei)
          && (v == Current ==> forall k :: 0 <= k < 5 ==> BreakChar(h.brk.value.1[k])))
  }

  /** The working hours as a user writes them, e.g. `2023/11/18 10:00-17:00 R01:00`. */
  function HoursOf(h: HoursText): string
  {
    h.date + HoursTail(h)
  }

  /** What follows the date: ` start-end`, then ` 休憩break` or ` Rbreak`. */
  function HoursTail(h: HoursText): string
  {
    " " + h.startTime + "-" + h.endTime
      + (match h.brk case None => "" case Some(b) => " " + MarkerText(b.0) + b.1)
  }

  /** The tail of well-formed groups has no line break. */
  lemma {:induction false} TailNoNewline(v: Variant, h: HoursText)
    requires HoursWellFormed(v, h)
    ensures NoNewline(HoursOf(h))
  {
    assert '\n' !in MarkerText(R) && '\n' !in MarkerText(Kyukei);
  }

  /** Every well-formed text is accepted and read back into its own groups. */
  lemma {:induction false} HoursRoundTrip(v: Variant, h: HoursText)
    requires HoursWellFormed(v, h)
    ensures NoNewline(HoursOf(h)) && ParseHoursText(v, HoursOf(h)) == Some(h)
  {
    TailNoNewline(v, h);
    match h.brk
    case None => PlainRoundTrip(v, h);
    case Some(b) =>
      match b.0
      case R => RecessRoundTrip(v, h);
      case Kyukei => KyukeiRoundTrip(v, h);
  }

  lemma {:induction false} PlainRoundTrip(v: Variant, h: HoursText)
    requires HoursWellFormed(v, h) && h.brk.None?
    ensures NoNewline(HoursOf(h)) ==> ParseHoursText(v, HoursOf(h)) == Some(h)
  {
    var t := HoursTail(h);
    assert t == " " + h.startTime + "-" + h.endTime;
    assert |t| == 12 && t[0] == ' ' && t[6] == '-' && t[1..6] == h.startTime && t[7..] == h.endTime;
    var s := HoursOf(h);
    var n := |s|;
    assert s[n - 12..] == t;
    assert s[n - 12] == ' ' && s[n - 6] == '-';
    assert s[..n - 12] == h.date && s[n - 11..n - 6] == t[1..6] && s[n - 5..] == t[7..];
  }

  lemma {:induction false} RecessRoundTrip(v: Variant, h: HoursText)
    requires HoursWellFormed(v, h) && h.brk.Some? && h.brk.value.0 == R
    ensures NoNewline(HoursOf(h)) ==> ParseHoursText(v, HoursOf(h)) == Some(h)
  {
    var b := h.brk.value.1;
    var t := HoursTail(h);
    assert t == " " + h.startTime + "-" + h.endTime + " " + "R" + b;
    assert |t| == 19 && t[0] == ' ' && t[6] == '-' && t[12] == ' ' && t[13] == 'R';
    assert t[1..6] == h.startTime && t[7..12] == h.endTime && t[14..] == b;
    var s := HoursOf(h);
    var n := |s|;
    assert s[n - 19..] == t;
    assert s[n - 19] == ' ' && s[n - 13] == '-' && s[n - 7] == ' ' && s[n - 6] == 'R';
    assert s[n - 5..] == b;
    assert forall k :: n - 5 <= k < n ==> s[k] == b[k - (n - 5)];
    assert s[..n - 19] == h.date && s[n - 18..n - 13] == t[1..6] && s[n - 12..n - 7] == t[7..12];
  }

  lemma {:induction false} KyukeiRoundTrip(v: Variant, h: HoursText)
    requires HoursWellFormed(v, h) && h.brk.Some? && h.brk.value.0 == Kyukei
    ensures NoNewline(HoursOf(h)) ==> ParseHoursText(v, HoursOf(h)) == Some(h)
  {
    var b := h.brk.value.1;
    var t := HoursTail(h);
    assert t == " " + h.startTime + "-" + h.endTime + " " + "休憩" + b;
    assert |t| == 20 && t[0] == ' ' && t[6] == '-' && t[12] == ' ' && t[13] == '休' && t[14] == '憩';
    assert t[1..6] == h.startTime && t[7..12] == h.endTime && t[15..] == b;
    var s := HoursOf(h);
    var n := |s|;
    assert s[n - 20..] == t;
    assert s[n - 20] == ' ' && s[n - 14] == '-' && s[n - 8] == ' ' && s[n - 7] == '休' && s[n - 6] == '憩';
    assert s[n - 5..] == b;
    assert forall k :: n - 5 <= k < n ==> s[k] == b[k - (n - 5)];
    assert s[..n - 20] == h.date && s[n - 19..n - 14] == t[1..6] && s[n - 13..n - 8] == t[7..12];
  }

  /** Every accepted text is exactly what its groups spell. */
  lemma {:induction false} HoursComplete(v: Variant, s: string)
    requires NoNewline(s) && ParseHoursText(v, s).Some?
    ensures HoursOf(ParseHoursText(v, s).value) == s
  {
    var n := |s|;
    if n >= 13 && s[n - 12] == ' ' && s[n - 6] == '-' {
      PlainSpelled(s);
    } else if v == Current && n >= 20 && s[n - 19] == ' ' && s[n - 13] == '-' && s[n - 7] == ' '
              && s[n - 6] == 'R' && (forall k :: n - 5 <= k < n ==> BreakChar(s[k])) {
      RecessSpelled(s);
    } else {
      KyukeiSpelled(s);
    }
  }

  lemma {:induction false} PlainSpelled(s: string)
    requires |s| >= 13 && s[|s| - 12] == ' ' && s[|s| - 6] == '-'
    ensures var n := |s|;
      HoursOf(HoursText(s[..n - 12], s[n - 11..n - 6], s[n - 5..], None)) == s
  {
    var n := |s|;
    assert s[n - 12..] == [s[n - 12]] + s[n - 11..n - 6] + [s[n - 6]] + s[n - 5..];
    assert s == s[..n - 12] + s[n - 12..];
  }

  lemma {:induction false} RecessSpelled(s: string)
    requires |s| >= 20 && s[|s| - 19] == ' ' && s[|s| - 13] == '-' && s[|s| - 7] == ' ' && s[|s| - 6] == 'R'
    ensures var n := |s|;
      HoursOf(HoursText(s[..n - 19], s[n - 18..n - 13], s[n - 12..n - 7], Some((R, s[n - 5..])))) == s
  {
    var n := |s|;
    assert s[n - 19..] == [s[n - 19]] + s[n - 18..n - 13] + [s[n - 13]] + s[n - 12..n - 7]
                          + [s[n - 7]] + [s[n - 6]] + s[n - 5..];
    assert s == s[..n - 19] + s[n - 19..];
  }

  lemma {:induction false} KyukeiSpelled(s: string)
    requires |s| >= 21 && s[|s| - 20] == ' ' && s[|s| - 14] == '-' && s[|s| - 8] == ' '
    requires s[|s| - 7] == '休' && s[|s| - 6] == '憩'
    ensures var n := |s|;
      HoursOf(HoursText(s[..n - 20], s[n - 19..n - 14], s[n - 13..n - 8], Some((Kyukei, s[n - 5..])))) == s
  {
    var n := |s|;
    assert s[n - 20..] == [s[n - 20]] + s[n - 19..n - 14] + [s[n - 14]] + s[n - 13..n - 8]
                          + [s[n - 8]] + [s[n - 7], s[n - 6]] + s[n - 5..];
    assert s == s[..n - 20] + s[n - 20..];
  }

  /** How reading the working hours ends: the fields of a card, no match of
      the regex (a reply), or an exception raised by strptime (ValueError) or
      by `datetime.min + (end - start)` when the end is before the start
      (OverflowError). */
  datatype WorkParse = Parsed(w: Work) | NoMatch | BadDateTime | BadSpan | BadBreak

  /** The fields of the card the working hours describe, as the handler
      computes them from the three strptime calls and the subtraction. */
  function ParseWork(v: Variant, hours: string, description: string): (r: WorkParse)
    requires NoNewline(hours)
    ensures r.NoMatch? <==> ParseHoursText(v, hours).None?
  {
    match ParseHoursText(v, hours)
    case None => NoMatch
    case Some(h) => WorkOf(h, description)
  }

  /** The card fields of matched working hours: both instants are the date
      with the start or end time, read by strptime. A strptime that raises
      gives BadDateTime, an end before the start BadSpan, an unreadable break
      BadBreak; otherwise the card carries the two instants read. */
  function WorkOf(h: HoursText, description: string): (r: WorkParse)
    ensures !r.NoMatch?
    ensures var st := ParseDateTime(h.date + " " + h.startTime);
      var et := ParseDateTime(h.date + " " + h.endTime);
      && (r.BadDateTime? <==> st.None? || et.None?)
      && (r.BadSpan? <==> st.Some? && et.Some? && Before(et.value, st.value))
      && (r.BadBreak? <==> st.Some? && et.Some? && !Before(et.value, st.value)
                           && h.brk.Some? && ParseClock(h.brk.value.1).None?)
      && (r.Parsed? ==> st == Some(r.w.startTime) && et == Some(r.w.endTime)
                        && r.w.description == description
                        && (h.brk.None? ==> r.w.breakDuration == 0)
                        && (h.brk.Some? ==> ParseClock(h.brk.value.1) == Some(r.w.breakDuration)))
  {
    Assemble(ParseDateTime(h.date + " " + h.startTime), ParseDateTime(h.date + " " + h.endTime), h.brk, description)
  }

  /** The card fields from the two instants strptime read (None when it
      raised): the duration is `datetime.min + (end - start)` as a time of day,
      the break is 00:00 when none is written. */
  function Assemble(st: Option<Timestamp>, et: Option<Timestamp>, brk: Option<(Marker, string)>, description: string): (r: WorkParse)
    ensures !r.NoMatch?
    ensures r.BadDateTime? <==> st.None? || et.None?
    ensures r.BadSpan? <==> st.Some? && et.Some? && Before(et.value, st.value)
    ensures r.BadBreak? <==> st.Some? && et.Some? && !Before(et.value, st.value)
                             && brk.Some? && ParseClock(brk.value.1).None?
    ensures r.Parsed? ==>
      && st.Some? && et.Some? && r.w.startTime == st.value && r.w.endTime == et.value
      && r.w.duration * 60 <= (Seconds(et.value) - Seconds(st.value)) % 86400 < r.w.duration * 60 + 60
      && r.w.description == description
      && (brk.None? ==> r.w.breakDuration == 0)
      && (brk.Some? ==> ParseClock(brk.value.1) == Some(r.w.breakDuration))
  {
    if st.None? || et.None? then BadDateTime
    else
      match TimeOfDelta(Seconds(et.value) - Seconds(st.value))
      case None => BadSpan
      case Some(d) =>
        match brk
        case None => Parsed(Work(st.value, et.value, d, 0, description))
        case Some(b) =>
          match ParseClock(b.1)
          case None => BadBreak
          case Some(c) => Parsed(Work(st.value, et.value, d, c, description))
  }

  /** Two instants read from the same date differ by the difference of their
      times of day. */
  lemma {:induction false} SameDate(date: string, a: string, b: string)
    requires |a| == 5 && |b| == 5
    requires ParseDateTime(date + " " + a).Some? && ParseDateTime(date + " " + b).Some?
    ensures var st := ParseDateTime(date + " " + a).value;
      var et := ParseDateTime(date + " " + b).value;
      && st.year == et.year && st.month == et.month && st.day == et.day
      && Seconds(et) - Seconds(st) == (ClockOf(et) - ClockOf(st)) * 60
  {
    var x := date + " " + a;
    var y := date + " " + b;
    assert |date| == 10;
    assert x[0..4] == date[0..4] == y[0..4];
    assert x[5..7] == date[5..7] == y[5..7];
    assert x[8..10] == date[8..10] == y[8..10];
  }

  /** A card read from working hours lies on the written date, lasts the time
      between its two instants, keeps the description, and has a recess of
      00:00 unless one is written. */
  lemma {:induction false} WorkOfParsed(h: HoursText, description: string)
    requires |h.startTime| == 5 && |h.endTime| == 5
    requires WorkOf(h, description).Parsed?
    ensures var w := WorkOf(h, description).w;
      && w.startTime.year == w.endTime.year && w.startTime.month == w.endTime.month
      && w.startTime.day == w.endTime.day
      && w.duration == ClockOf(w.endTime) - ClockOf(w.startTime)
      && w.duration * 60 == Seconds(w.endTime) - Seconds(w.startTime)
      && w.description == description
      && (h.brk.None? ==> w.breakDuration == 0)
      && (h.brk.Some? ==> ParseClock(h.brk.value.1) == Some(w.breakDuration))
  {
    var w := WorkOf(h, description).w;
    SameDate(h.date, h.startTime, h.endTime);
    SpanMinutes(w.duration, Seconds(w.endTime) - Seconds(w.startTime), ClockOf(w.endTime) - ClockOf(w.startTime));
  }

  /** A non-negative span of k whole minutes, shorter than a day, shows as k minutes. */
  lemma {:induction false} SpanMinutes(d: int, diff: int, k: int)
    requires diff == k * 60 && 0 <= diff && k < 1440
    requires d * 60 <= diff % 86400 < d * 60 + 60
    ensures d == k && d * 60 == diff
  {
    assert diff % 86400 == diff;
    assert (d - k) * 60 <= 0 < (d - k) * 60 + 60;
  }

  /** The handler's own example: `2023/11/18 10:00-17:00 R01:00` is seven hours
      of work from 10:00 with a one-hour recess. */
  lemma {:induction false} ParseWorkExample()
    ensures ParseWork(Current, "2023/11/18 10:00-17:00 R01:00", "analyzed CICIDS2017 dataset")
      == Parsed(Work(DateTime(2023, 11, 18, 10, 0, 0), DateTime(2023, 11, 18, 17, 0, 0), 7 * 60, 60,
                     "analyzed CICIDS2017 dataset"))
  {
    var h := ExampleHours();
    var d := "analyzed CICIDS2017 dataset";
    assert ParseWork(Current, "2023/11/18 10:00-17:00 R01:00", d) == WorkOf(h, d);
    ExampleWork(h, d);
  }

  /** The card the example's groups describe; a proof step of ParseWorkExample. */
  lemma {:induction false} ExampleWork(h: HoursText, d: string)
    requires h == HoursText("2023/11/18", "10:00", "17:00", Some((R, "01:00")))
    ensures WorkOf(h, d) == Parsed(Work(DateTime(2023, 11, 18, 10, 0, 0), DateTime(2023, 11, 18, 17, 0, 0), 7 * 60, 60, d))
  {
    var st := DateTime(2023, 11, 18, 10, 0, 0);
    var et := DateTime(2023, 11, 18, 17, 0, 0);
    ExampleHoursOfDay();
    ExampleInstant("10:00", 10);
    ExampleInstant("17:00", 17);
    ExampleAssemble(d);
  }

  /** The card assembled from the example's two instants and recess; a proof
      step of ParseWorkExample. */
  lemma {:induction false} ExampleAssemble(d: string)
    ensures Assemble(Some(DateTime(2023, 11, 18, 10, 0, 0)), Some(DateTime(2023, 11, 18, 17, 0, 0)), Some((R, "01:00")), d)
      == Parsed(Work(DateTime(2023, 11, 18, 10, 0, 0), DateTime(2023, 11, 18, 17, 0, 0), 7 * 60, 60, d))
  {
    var st := DateTime(2023, 11, 18, 10, 0, 0);
    var et := DateTime(2023, 11, 18, 17, 0, 0);
    ExampleBreak();
    assert Seconds(et) - Seconds(st) == 7 * 3600;
  }

  /** The example's groups; a proof step of ParseWorkExample. */
  lemma {:induction false} ExampleHours() returns (h: HoursText)
    ensures h == HoursText("2023/11/18", "10:00", "17:00", Some((R, "01:00")))
    ensures NoNewline("2023/11/18 10:00-17:00 R01:00")
    ensures ParseHoursText(Current, "2023/11/18 10:00-17:00 R01:00") == Some(h)
  {
    h := HoursText("2023/11/18", "10:00", "17:00", Some((R, "01:00")));
    assert HoursOf(h) == "2023/11/18 10:00-17:00 R01:00";
    HoursRoundTrip(Current, h);
  }

  /** The example's recess `01:00` is sixty minutes; a proof step of ParseWorkExample. */
  lemma {:induction false} ExampleBreak()
    ensures ParseClock("01:00") == Some(60)
  {
    var c := "01:00";
    assert c[0..2] == "01" && c[3..5] == "00";
    assert "01"[..1] == "0" && "00"[..1] == "0" && "0"[..0] == [];
    assert Value("01") == 1 && Value("00") == 0;
  }

  /** strptime of the example's date with a whole hour `hh:00`; a proof step
      of ParseWorkExample. */
  lemma {:induction false} ExampleInstant(time: string, hour: nat)
    requires |time| == 5 && time[2] == ':' && time[3..] == "00"
    requires AllDigits(time[..2]) && Value(time[..2]) == hour < 24
    ensures ParseDateTime("2023/11/18" + " " + time) == Some(DateTime(2023, 11, 18, hour, 0, 0))
  {
    var p := "2023/11/18 ";
    var s := "2023/11/18" + " " + time;
    assert s == p + time;
    assert s[..11] == p && s[11..] == time;
    assert s[0..4] == p[0..4] == "2023";
    assert s[5..7] == p[5..7] == "11";
    assert s[8..10] == p[8..10] == "18";
    assert s[11..13] == time[..2];
    assert s[14..16] == time[3..] == "00";
    assert s[4] == '/' && s[7] == '/' && s[10] == ' ' && s[13] == ':';
    assert Value("2023") == 2023 by {
      assert "2023"[..3] == "202" && "202"[..2] == "20" && "20"[..1] == "2";
    }
    TwoDigitValue("11");
    TwoDigitValue("18");
    TwoDigitValue("00");
  }

  /** The example's start and end hours; a proof step of ParseWorkExample. */
  lemma {:induction false} ExampleHoursOfDay()
    ensures "10:00"[..2] == "10" && AllDigits("10") && Value("10") == 10
    ensures "17:00"[..2] == "17" && AllDigits("17") && Value("17") == 17
  {
    TwoDigitValue("10");
    TwoDigitValue("17");
  }

  // ------------------------------------------------------------ upsert by ts

  /** How a mention ends. The first three and DurationRejected are replies
      that leave the store alone; DateTimeRaised, SpanRaised, BreakRaised and
      TsAmbiguous are exceptions raised before any write; Recorded and
      Updated are the two success replies; WriteFailed is the failure reply
      after a rollback, followed by re-raising the database error. */
  datatype MentionOutcome =
    | ContextMissing
    | FormatRejected
    | RaUnknown(raName: string)
    | DurationRejected
    | DateTimeRaised
    | SpanRaised
    | BreakRaised
    | TsAmbiguous
    | Recorded(card: TimeCard)
    | Updated(card: TimeCard)
    | WriteFailed(inserting: bool, err: DbError)
  {
    predicate Raises()
    {
      ContextMissing? || DateTimeRaised? || SpanRaised? || BreakRaised? || TsAmbiguous? || WriteFailed?
    }

    predicate Succeeded()
    {
      Recorded? || Updated?
    }
  }

  /** The reconciliation: with no card for ts insert one carrying ts, with one
      card overwrite its five written fields, with several the lookup raises. */
  function Upsert(db: Db, raId: nat, w: Work, ts: string, fault: Option<DbError>): (r: (MentionOutcome, Db))
    ensures !r.0.Succeeded() ==> r.1 == db
    ensures r.0.Succeeded() || r.0.TsAmbiguous? || r.0.WriteFailed?
  {
    match FindCardByTs(db.cards, ts)
    case ManyRows => (TsAmbiguous, db)
    case NoRow =>
      var t := Transact(db, NewCard(db, raId, w, ts), fault);
      if t.err.None? then (Recorded(t.db.cards[|db.cards|]), t.db) else (WriteFailed(true, t.err.value), t.db)
    case OneRow(i) =>
      var t := Transact(db, EditCard(db, i, w), fault);
      if t.err.None? then (Updated(t.db.cards[i]), t.db) else (WriteFailed(false, t.err.value), t.db)
  }

  /** A message with no card yet gets exactly one new card, which carries its
      ts, the resolved RA job and the parsed fields, and a store-drawn id. */
  lemma {:induction false} UpsertInserts(db: Db, raId: nat, w: Work, ts: string)
    requires ValidDb(db) && FindCardByTs(db.cards, ts).NoRow?
    requires HasRa(db.ras, raId) && Before(w.startTime, w.endTime)
    ensures var r := Upsert(db, raId, w, ts, None);
      && r.0 == Recorded(TimeCard(db.nextCardId, raId, w.startTime, w.endTime, w.duration, w.breakDuration, w.description, ts))
      && r.1.cards == db.cards + [r.0.card]
      && r.1.users == db.users && r.1.ras == db.ras
      && FindCardByTs(r.1.cards, ts) == OneRow(|db.cards|)
      && forall k :: 0 <= k < |db.cards| ==> db.cards[k].id != r.0.card.id
  {
    NewCardConstraints(db, raId, w, ts);
    NewCardFound(db, raId, w, ts);
    var r := Upsert(db, raId, w, ts, None);
    assert r.1 == NewCard(db, raId, w, ts);
  }

  /** A first report that the database accepts commits exactly the new card. */
  lemma {:induction false} InsertedState(db: Db, raId: nat, w: Work, ts: string)
    requires ValidDb(db) && FindCardByTs(db.cards, ts).NoRow?
    requires HasRa(db.ras, raId) && Before(w.startTime, w.endTime)
    ensures Upsert(db, raId, w, ts, None).1 == NewCard(db, raId, w, ts)
  {
    NewCardConstraints(db, raId, w, ts);
  }

  /** An edited message overwrites start, end, duration, break and description
      of its card in place; the card keeps its id, RA job and ts, and every other
      card is untouched. */
  lemma {:induction false} UpsertUpdates(db: Db, raId: nat, w: Work, ts: string, i: nat)
    requires ValidDb(db) && FindCardByTs(db.cards, ts) == OneRow(i)
    requires Before(w.startTime, w.endTime)
    ensures var r := Upsert(db, raId, w, ts, None);
      && r.0.Updated?
      && |r.1.cards| == |db.cards| && r.1.users == db.users && r.1.ras == db.ras
      && r.1.cards[i].id == db.cards[i].id && r.1.cards[i].raId == db.cards[i].raId
      && r.1.cards[i].slackMessageTs == ts
      && r.1.cards[i].startTime == w.startTime && r.1.cards[i].endTime == w.endTime
      && r.1.cards[i].duration == w.duration && r.1.cards[i].breakDuration == w.breakDuration
      && r.1.cards[i].description == w.description
      && forall k :: 0 <= k < |db.cards| && k != i ==> r.1.cards[k] == db.cards[k]
  {
    EditCardConstraints(db, i, w);
  }

  /** A zero-length span gives a 00:00 duration and violates the check
      constraint: the write is rolled back and the error is re-raised. */
  lemma {:induction false} ZeroSpanRollsBack(db: Db, raId: nat, w: Work, ts: string)
    requires ValidDb(db) && w.startTime == w.endTime && !FindCardByTs(db.cards, ts).ManyRows?
    ensures Upsert(db, raId, w, ts, None) == (WriteFailed(FindCardByTs(db.cards, ts).NoRow?, CheckViolation), db)
  {
    if FindCardByTs(db.cards, ts).NoRow? {
      NewCardConstraints(db, raId, w, ts);
    } else {
      EditCardConstraints(db, FindCardByTs(db.cards, ts).row, w);
    }
  }

  /** Appending a card for a ts no card carries keeps one card per message. */
  lemma {:induction false} AppendKeepsTsUnique(cards: seq<TimeCard>, c: TimeCard)
    requires TsUnique(cards) && forall i :: 0 <= i < |cards| ==> cards[i].slackMessageTs != c.slackMessageTs
    ensures TsUnique(cards + [c])
  {
    var r := cards + [c];
    forall i, j | 0 <= i < j < |r| ensures r[i].slackMessageTs != r[j].slackMessageTs {
      assert r[i] == cards[i];
      if j < |cards| { assert r[j] == cards[j]; }
    }
  }

  /** Rewriting cards without touching their ts keeps one card per message. */
  lemma {:induction false} SameTsKeepsTsUnique(cards: seq<TimeCard>, cards2: seq<TimeCard>)
    requires TsUnique(cards) && |cards2| == |cards|
    requires forall k :: 0 <= k < |cards| ==> cards2[k].slackMessageTs == cards[k].slackMessageTs
    ensures TsUnique(cards2)
  {
  }

  /** The insert branch keeps the database valid and one card per message. */
  lemma {:induction false} InsertKeepsInvariants(db: Db, raId: nat, w: Work, ts: string, fault: Option<DbError>)
    requires ValidDb(db) && TsUnique(db.cards) && FindCardByTs(db.cards, ts).NoRow?
    ensures var t := Transact(db, NewCard(db, raId, w, ts), fault);
      ValidDb(t.db) && TsUnique(t.db.cards)
  {
    NewCardConstraints(db, raId, w, ts);
    TransactKeepsValid(db, NewCard(db, raId, w, ts), fault);
    AppendKeepsTsUnique(db.cards, NewCard(db, raId, w, ts).cards[|db.cards|]);
  }

  /** The update branch keeps the database valid and one card per message. */
  lemma {:induction false} UpdateKeepsInvariants(db: Db, i: nat, w: Work, fault: Option<DbError>)
    requires ValidDb(db) && TsUnique(db.cards) && i < |db.cards|
    ensures var t := Transact(db, EditCard(db, i, w), fault);
      ValidDb(t.db) && TsUnique(t.db.cards)
  {
    EditCardConstraints(db, i, w);
    TransactKeepsValid(db, EditCard(db, i, w), fault);
    SameTsKeepsTsUnique(db.cards, EditCard(db, i, w).cards);
  }

  /** Every write the reconciliation commits keeps the database valid and
      keeps at most one card per message. */
  lemma {:induction false} UpsertKeepsInvariants(db: Db, raId: nat, w: Work, ts: string, fault: Option<DbError>)
    requires ValidDb(db) && TsUnique(db.cards)
    ensures ValidDb(Upsert(db, raId, w, ts, fault).1)
    ensures TsUnique(Upsert(db, raId, w, ts, fault).1.cards)
  {
    match FindCardByTs(db.cards, ts)
    case ManyRows =>
    case NoRow => InsertKeepsInvariants(db, raId, w, ts, fault);
    case OneRow(i) => UpdateKeepsInvariants(db, i, w, fault);
  }

  /** Overwriting a card with the values it already holds changes nothing. */
  lemma {:induction false} RewriteSame(db: Db, i: nat, w: Work)
    requires ValidDb(db) && i < |db.cards| && Overwrite(db.cards[i], w) == db.cards[i]
    ensures Transact(db, EditCard(db, i, w), None) == Txn(db, None)
  {
    assert EditCard(db, i, w) == db by {
      assert db.cards[i := db.cards[i]] == db.cards;
    }
  }

  /** The card appended for a ts no card carried is the one found by ts. */
  lemma {:induction false} NewCardFound(db: Db, raId: nat, w: Work, ts: string)
    requires FindCardByTs(db.cards, ts).NoRow?
    ensures var c := NewCard(db, raId, w, ts).cards;
      FindCardByTs(c, ts) == OneRow(|db.cards|) && Overwrite(c[|db.cards|], w) == c[|db.cards|]
  {
    var c := NewCard(db, raId, w, ts).cards;
    assert forall k :: 0 <= k < |db.cards| ==> c[k] == db.cards[k];
  }

  /** The card overwritten in place is still the one found by ts. */
  lemma {:induction false} EditedCardFound(db: Db, i: nat, w: Work, ts: string)
    requires FindCardByTs(db.cards, ts) == OneRow(i)
    ensures var c := EditCard(db, i, w).cards;
      FindCardByTs(c, ts) == OneRow(i) && Overwrite(c[i], w) == c[i]
  {
  }

  /** After a successful reconciliation the card for ts is found and holds w. */
  lemma {:induction false} UpsertLeavesCard(db: Db, raId: nat, w: Work, ts: string)
    requires Upsert(db, raId, w, ts, None).0.Succeeded()
    ensures var db1 := Upsert(db, raId, w, ts, None).1;
      exists i :: FindCardByTs(db1.cards, ts) == OneRow(i) && i < |db1.cards| && Overwrite(db1.cards[i], w) == db1.cards[i]
  {
    var db1 := Upsert(db, raId, w, ts, None).1;
    match FindCardByTs(db.cards, ts)
    case NoRow =>
      assert db1 == NewCard(db, raId, w, ts);
      NewCardFound(db, raId, w, ts);
      assert FindCardByTs(db1.cards, ts) == OneRow(|db.cards|);
    case OneRow(j) =>
      assert db1 == EditCard(db, j, w);
      EditedCardFound(db, j, w, ts);
      assert FindCardByTs(db1.cards, ts) == OneRow(j);
  }

  /** Receiving the same report twice changes nothing the second time: the
      second delivery finds the card and writes the same values again. */
  lemma {:induction false} UpsertIdempotent(db: Db, raId: nat, w: Work, ts: string)
    requires ValidDb(db) && TsUnique(db.cards)
    requires Upsert(db, raId, w, ts, None).0.Succeeded()
    ensures var db1 := Upsert(db, raId, w, ts, None).1;
      Upsert(db1, raId, w, ts, None).1 == db1 && Upsert(db1, raId, w, ts, None).0.Updated?
  {
    var db1 := Upsert(db, raId, w, ts, None).1;
    UpsertKeepsInvariants(db, raId, w, ts, None);
    UpsertLeavesCard(db, raId, w, ts);
    var i :| FindCardByTs(db1.cards, ts) == OneRow(i) && i < |db1.cards| && Overwrite(db1.cards[i], w) == db1.cards[i];
    RewriteSame(db1, i, w);
  }

  /** Editing a reported message updates the card the report created: same id,
      same RA job (even when the edit names another one), same ts, new fields. */
  lemma {:induction false} EditAfterReportKeepsCard(db: Db, raId: nat, w: Work, raId2: nat, w2: Work, ts: string)
    requires ValidDb(db) && FindCardByTs(db.cards, ts).NoRow?
    requires HasRa(db.ras, raId) && Before(w.startTime, w.endTime) && Before(w2.startTime, w2.endTime)
    ensures var first := Upsert(db, raId, w, ts, None);
      var second := Upsert(first.1, raId2, w2, ts, None);
      && first.0.Recorded? && second.0.Updated?
      && second.0.card == Overwrite(first.0.card, w2)
      && second.0.card.id == first.0.card.id && second.0.card.raId == raId
      && |second.1.cards| == |db.cards| + 1
  {
    UpsertInserts(db, raId, w, ts);
    var db1 := Upsert(db, raId, w, ts, None).1;
    NewCardConstraints(db, raId, w, ts);
    UpsertUpdates(db1, raId2, w2, ts, |db.cards|);
  }

  // ------------------------------------------------------------ the handler

  /** `on_mention` (Current) and `add_or_update_record` (Legacy) on a store in
      state db. `ts` is the message's ts and `fault` the error the environment
      makes the write fail with, if any. */
  function OnMention(v: Variant, db: Db, ctx: Ctx, ts: string, text: string, fault: Option<DbError>): (r: (MentionOutcome, Db))
    ensures !r.0.Succeeded() ==> r.1 == db
    ensures r.0.Raises() ==> r.1 == db
    ensures !ContextAvailable(ctx) ==> r.0 == ContextMissing
    ensures ContextAvailable(ctx) ==> (r.0 == FormatRejected <==> ParseTemplate(text).None?)
  {
    if !ContextAvailable(ctx) then (ContextMissing, db)
    else
      match ParseTemplate(text)
      case None => (FormatRejected, db)
      case Some(c) => Report(v, db, ctx.actorUserId, ts, c, fault)
  }

  /** The handler after the template matched: strip the captures, resolve the
      RA job, read the working hours, reconcile. */
  function Report(v: Variant, db: Db, actor: string, ts: string, c: Captures, fault: Option<DbError>): (r: (MentionOutcome, Db))
    requires WellFormed(c)
    ensures !r.0.Succeeded() ==> r.1 == db
    ensures !r.0.ContextMissing? && !r.0.FormatRejected?
    ensures r.0.RaUnknown? <==> FindRa(db, actor, Strip(c.raName)).None?
    ensures r.0.RaUnknown? ==> r.0.raName == Strip(c.raName)
  {
    var raName := Strip(c.raName);
    match FindRa(db, actor, raName)
    case None => (RaUnknown(raName), db)
    case Some(raId) =>
      var hours := Strip(c.duration);
      assert NoNewline(hours);
      Record(db, raId, ParseWork(v, hours, Strip(c.description)), ts, fault)
  }

  /** The handler once the RA job is known: reply to a rejected or raise on an
      unreadable working-hours text, or reconcile the parsed card. */
  function Record(db: Db, raId: nat, p: WorkParse, ts: string, fault: Option<DbError>): (r: (MentionOutcome, Db))
    ensures !r.0.Succeeded() ==> r.1 == db
    ensures !r.0.ContextMissing? && !r.0.FormatRejected? && !r.0.RaUnknown?
    ensures r.0 == DurationRejected <==> p.NoMatch?
    ensures p.Parsed? ==> r == Upsert(db, raId, p.w, ts, fault)
  {
    match p
    case NoMatch => (DurationRejected, db)
    case BadDateTime => (DateTimeRaised, db)
    case BadSpan => (SpanRaised, db)
    case BadBreak => (BreakRaised, db)
    case Parsed(w) => Upsert(db, raId, w, ts, fault)
  }

  /** Every outcome of a mention keeps a valid database with one card per message. */
  lemma {:induction false} MentionKeepsInvariants(v: Variant, db: Db, ctx: Ctx, ts: string, text: string, fault: Option<DbError>)
    requires ValidDb(db) && TsUnique(db.cards)
    ensures ValidDb(OnMention(v, db, ctx, ts, text, fault).1)
    ensures TsUnique(OnMention(v, db, ctx, ts, text, fault).1.cards)
  {
    if ContextAvailable(ctx) && ParseTemplate(text).Some? {
      ReportKeepsInvariants(v, db, ctx.actorUserId, ts, ParseTemplate(text).value, fault);
    }
  }

  lemma {:induction false} ReportKeepsInvariants(v: Variant, db: Db, actor: string, ts: string, c: Captures, fault: Option<DbError>)
    requires WellFormed(c) && ValidDb(db) && TsUnique(db.cards)
    ensures ValidDb(Report(v, db, actor, ts, c, fault).1)
    ensures TsUnique(Report(v, db, actor, ts, c, fault).1.cards)
  {
    match FindRa(db, actor, Strip(c.raName))
    case None =>
    case Some(raId) =>
      var hours := Strip(c.duration);
      assert NoNewline(hours);
      RecordKeepsInvariants(db, raId, ParseWork(v, hours, Strip(c.description)), ts, fault);
  }

  lemma {:induction false} RecordKeepsInvariants(db: Db, raId: nat, p: WorkParse, ts: string, fault: Option<DbError>)
    requires ValidDb(db) && TsUnique(db.cards)
    ensures ValidDb(Record(db, raId, p, ts, fault).1)
    ensures TsUnique(Record(db, raId, p, ts, fault).1.cards)
  {
    if p.Parsed? {
      UpsertKeepsInvariants(db, raId, p.w, ts, fault);
    }
  }

  /** A successful reconciliation wrote w and ts into the card it reports;
      a new card also carries the RA job it was given. */
  lemma {:induction false} UpsertWrites(db: Db, raId: nat, w: Work, ts: string, fault: Option<DbError>)
    requires Upsert(db, raId, w, ts, fault).0.Succeeded()
    ensures var card := Upsert(db, raId, w, ts, fault).0.card;
      && card.slackMessageTs == ts && card.startTime == w.startTime && card.endTime == w.endTime
      && card.duration == w.duration && card.breakDuration == w.breakDuration
      && card.description == w.description
      && (Upsert(db, raId, w, ts, fault).0.Recorded? ==> card.raId == raId)
  {
    match FindCardByTs(db.cards, ts)
    case NoRow =>
      assert Upsert(db, raId, w, ts, fault).1 == NewCard(db, raId, w, ts);
    case OneRow(i) =>
      assert Upsert(db, raId, w, ts, fault).1 == EditCard(db, i, w);
  }

  /** The description read with the working hours is the one written. */
  lemma {:induction false} ParseWorkKeepsDescription(v: Variant, hours: string, description: string)
    requires NoNewline(hours) && ParseWork(v, hours, description).Parsed?
    ensures ParseWork(v, hours, description).w.description == description
  {
    var h := ParseHoursText(v, hours).value;
    assert ParseWork(v, hours, description) == WorkOf(h, description);
  }

  /** A successful record step wrote the parsed fields and ts into the card it
      reports; a new card belongs to the resolved RA job. */
  lemma {:induction false} RecordWrites(db: Db, raId: nat, p: WorkParse, ts: string, fault: Option<DbError>)
    requires Record(db, raId, p, ts, fault).0.Succeeded()
    ensures p.Parsed?
    ensures var card := Record(db, raId, p, ts, fault).0.card;
      && card.slackMessageTs == ts && card.description == p.w.description
      && (Record(db, raId, p, ts, fault).0.Recorded? ==> card.raId == raId)
  {
    UpsertWrites(db, raId, p.w, ts, fault);
  }

  /** A successful report wrote the stripped description and the message's
      ts into a card; a new card belongs to the actor's RA job named by the
      second bullet. */
  lemma {:induction false} ReportWritesCaptures(v: Variant, db: Db, actor: string, ts: string, c: Captures, fault: Option<DbError>)
    requires WellFormed(c)
    requires Report(v, db, actor, ts, c, fault).0.Succeeded()
    ensures var card := Report(v, db, actor, ts, c, fault).0.card;
      && card.description == Strip(c.description)
      && card.slackMessageTs == ts
      && (Report(v, db, actor, ts, c, fault).0.Recorded? ==> FindRa(db, actor, Strip(c.raName)) == Some(card.raId))
  {
    var raId := FindRa(db, actor, Strip(c.raName)).value;
    var hours := Strip(c.duration);
    assert NoNewline(hours);
    var p := ParseWork(v, hours, Strip(c.description));
    assert Report(v, db, actor, ts, c, fault) == Record(db, raId, p, ts, fault);
    RecordWrites(db, raId, p, ts, fault);
    ParseWorkKeepsDescription(v, hours, Strip(c.description));
  }

  /** A successful mention wrote the stripped captures of the template into a
      card, so the card's fields are what the message says. */
  lemma {:induction false} OnMentionWritesCaptures(v: Variant, db: Db, ctx: Ctx, ts: string, text: string, fault: Option<DbError>)
    requires OnMention(v, db, ctx, ts, text, fault).0.Succeeded()
    ensures var c := ParseTemplate(text).value;
      var card := OnMention(v, db, ctx, ts, text, fault).0.card;
      && card.description == Strip(c.description)
      && card.slackMessageTs == ts
      && (OnMention(v, db, ctx, ts, text, fault).0.Recorded? ==> FindRa(db, ctx.actorUserId, Strip(c.raName)) == Some(card.raId))
  {
    var c := ParseTemplate(text).value;
    ReportWritesCaptures(v, db, ctx.actorUserId, ts, c, fault);
  }

  /** The reconciliation on the store: look the message up by ts, then add a
      card or assign the five fields of the one found, inside one session. */
  method UpsertByTs(store: Store, raId: nat, w: Work, ts: string, fault: Option<DbError>) returns (out: MentionOutcome)
    modifies store
    ensures (out, store.State()) == Upsert(old(store.State()), raId, w, ts, fault)
  {
    var found := FindCardByTs(store.cards, ts);
    match found {
      case ManyRows =>
        out := TsAmbiguous;
      case NoRow =>
        var n := |store.cards|;
        var err := store.AddCard(raId, w, ts, fault);
        if err.None? {
          out := Recorded(store.cards[n]);
        } else {
          out := WriteFailed(true, err.value);
        }
      case OneRow(i) =>
        var err := store.UpdateCard(i, w, fault);
        if err.None? {
          out := Updated(store.cards[i]);
        } else {
          out := WriteFailed(false, err.value);
        }
    }
  }

  /** The handler on the store: the checks and parsing of the message, then
      the reconciliation. */
  method HandleMention(v: Variant, store: Store, ctx: Ctx, ts: string, text: string, fault: Option<DbError>) returns (out: MentionOutcome)
    modifies store
    ensures (out, store.State()) == OnMention(v, old(store.State()), ctx, ts, text, fault)
    ensures old(store.Valid() && TsUnique(store.cards)) ==> store.Valid() && TsUnique(store.cards)
  {
    if !ContextAvailable(ctx) {
      out := ContextMissing;
    } else {
      var captures := ParseTemplate(text);
      if captures.None? {
        out := FormatRejected;
      } else {
        out := HandleReport(v, store, ctx.actorUserId, ts, captures.value, fault);
      }
    }
    if old(store.Valid() && TsUnique(store.cards)) {
      MentionKeepsInvariants(v, old(store.State()), ctx, ts, text, fault);
    }
  }

  /** The handler on the store once the template matched. */
  method HandleReport(v: Variant, store: Store, actor: string, ts: string, c: Captures, fault: Option<DbError>) returns (out: MentionOutcome)
    requires WellFormed(c)
    modifies store
    ensures (out, store.State()) == Report(v, old(store.State()), actor, ts, c, fault)
  {
    var raName := Strip(c.raName);
    var hours := Strip(c.duration);
    var description := Strip(c.description);
    var ra := FindRa(store.State(), actor, raName);
    if ra.None? {
      return RaUnknown(raName);
    }
    assert NoNewline(hours);
    var parsed := ParseWork(v, hours, description);
    out := HandleRecord(store, ra.value, parsed, ts, fault);
  }

  /** The handler on the store once the RA job is known. */
  method HandleRecord(store: Store, raId: nat, parsed: WorkParse, ts: string, fault: Option<DbError>) returns (out: MentionOutcome)
    modifies store
    ensures (out, store.State()) == Record(old(store.State()), raId, parsed, ts, fault)
  {
    match parsed {
      case NoMatch => out := DurationRejected;
      case BadDateTime => out := DateTimeRaised;
      case BadSpan => out := SpanRaised;
      case BadBreak => out := BreakRaised;
      case Parsed(w) => out := UpsertByTs(store, raId, w, ts, fault);
    }
  }
}
