# RA timecard recorder, modelled in Dafny

The RA timecard recorder is a Slack bot that research assistants (RAs) use to
log their working hours. A user registers with `/init <name>` and adds RA jobs
with `/register_ra <job>`. They then report a piece of work by mentioning the bot with a
four-bullet message (name, RA job, `2023/11/18 10:00-17:00 R01:00`,
description); editing that message updates the record and deleting it removes
the record. `/get_working_hours [YYYY/MM]` sums a month's work per RA job,
`/download_csv [YYYY/MM]` sends the month's records as CSV, and
`/admin_download_all_records [YYYY/MM]` sends every user's records to an
administrator. Records live in three tables (`botuser`, `ra`, `timecard`) with
a unique Slack user id, cascading foreign keys and the check constraint
`end_time > start_time`.

The repository carries two versions of the handlers: the monolithic `app.py`
(called `Legacy` here) and the listener package under `app/listeners`
(`Current`). Handlers that differ take a `Variant` argument.

Layout, one module per file:

- `text.dfy` (`Text`): `str.strip`, line splitting, decimal digits and zero padding.
- `calendar.dfy` (`Calendar`): the proleptic Gregorian calendar, instants in seconds, month windows, and `strptime`/`strftime` for the formats the bot uses.
- `model.dfy` (`Model`): the three tables and their constraints, and all-or-nothing transactions. It also holds the session as the class `Model.Store`.
- `request.dfy` (`Request`): the Bolt context check and the two variants.
- `queries.dfy` (`Queries`): the SELECTs the handlers run: lookups, the three-table join, the month filter and ORDER BY.
- `month.dfy` (`Month`): the shared month argument.
- `workrules.dfy` (`WorkRules`): the recess and report-timing warnings.
- `on_mention.dfy` (`OnMention`): the report parser and the insert/update by message ts.
- `on_message_delete.dfy`, `init.dfy`, `register_ra.dfy`, `working_hours.dfy`, `download_csv.dfy`, `admin_download.dfy`: one handler each.
- `csv.dfy` (`Csv`): `csv.DictWriter` as the sequence of rows it has written.

Each handler has two parts. The first is a function from the database state
and the request to the outcome and the new state; the lemmas are stated about
it. The second is a method on `Model.Store` whose `ensures` ties it to that
function. The environment is made of parameters:

- `fault` is a database failure at commit;
- `today` and `now` are the clock;
- `viewFileExists` says whether the App Home view file exists;
- `adminIds` is the configured administrator list;
- `cp932` says which characters the cp932 codec can encode.

## Model

| member | source | states |
|---|---|---|
| Text.Strip | app/listeners/commands/init.py:25 | the result is a contiguous piece `s[i..j]` of the input with only white space outside it, neither starts nor ends with white space, and is empty exactly when the input is all white space |
| Text.StripInfix | app/listeners/commands/init.py:25 | what stripping the start and then the end leaves is the infix after the dropped leading white space, with only white space around it |
| Text.StripStart | app/listeners/commands/init.py:25 | drops exactly the leading whitespace: a suffix of the input, starting at a non-space |
| Text.StripEnd | app/listeners/commands/init.py:25 | drops exactly the trailing whitespace: a prefix of the input, ending at a non-space |
| Text.StripIdempotent | app/listeners/events/on_mention.py:84-86 | stripping twice is stripping once |
| Text.StripNoPadding | app/listeners/events/on_mention.py:84-86 | a string without surrounding whitespace is left unchanged |
| Text.SplitLines | app/listeners/events/on_mention.py:35-42 | splitting on line breaks gives at least one line, none containing a line break |
| Text.JoinSplit | app/listeners/events/on_mention.py:35-42 | joining the split lines with line breaks gives the text back |
| Text.SplitJoin | app/listeners/events/on_mention.py:35-42 | splitting joined lines that contain no line break gives the lines back |
| Text.JoinAppend | app/listeners/commands/get_working_hours.py:62-69 | joining one more line appends a line break and that line |
| Text.SplitNoNewline | app/listeners/events/on_mention.py:35-42 | a text without a line break is one line |
| Text.SplitPrefix | app/listeners/events/on_mention.py:35-42 | a first line followed by a line break splits off as the first line |
| Text.DigitChar | app/listeners/commands/download_csv.py:88-91 | a digit value below 10 is written as a decimal digit |
| Text.DigitValue | app/listeners/events/on_mention.py:136-139 | a decimal digit reads as a value below 10 whose digit is that character |
| Text.Value | app/listeners/events/on_mention.py:136-139 | a string of n digits reads as a number below 10^n |
| Text.Pow10 | app/listeners/events/on_mention.py:136-139 | powers of ten are positive |
| Text.Digits | app/listeners/commands/download_csv.py:88-91 | a number below 10^w written in width w is w digits that read back as the number |
| Text.DigitsOfValue | app/listeners/events/on_mention.py:136-139 | a string of digits is the zero-padded writing of its own value |
| Text.NatToString | app/listeners/commands/get_working_hours.py:69 | the decimal writing of n reads back as n and has no leading zero |
| Text.Pad2Nat | app/listeners/commands/get_working_hours.py:69 | `:02` of a natural number is at least two digits reading back as the number, and exactly two digits below 100 |
| Text.TwoDigits | app/listeners/commands/get_working_hours.py:69 | a number below 100 is written as its tens digit then its units digit |
| Text.TwoDigitValue | app/listeners/events/on_mention.py:136-139 | two digits read as ten times the first plus the second |
| Text.Pad2Negative | app/listeners/commands/get_working_hours.py:69 | `:02` of a negative number is a minus sign followed by the digits of its absolute value |
| Calendar.DaysInMonth | app/listeners/events/on_mention.py:135-139 | a month has 28 to 31 days, and 29 exactly for February of a leap year |
| Calendar.DaysBeforeMonth | app/listeners/events/on_mention.py:140-142 | the days before month m lie between 28(m-1) and 31(m-1) |
| Calendar.YearIsTwelveMonths | app/listeners/events/on_mention.py:140-142 | the twelve months of a year add up to that year's length |
| Calendar.NextMonth | app/listeners/commands/get_working_hours.py:55-56 | `relativedelta(months=1)` from a first of month: the next month's first day is the day after the last day of this month |
| Calendar.MonthStart | app/listeners/commands/get_working_hours.py:42 | the instant has year y and month m, and is the first day at midnight |
| Calendar.MonthWindow | app/listeners/commands/get_working_hours.py:42-57 | the month's window runs from its first midnight to the next month's, and does not exist for 9999/12 |
| Calendar.MonthsIncrease | app/listeners/commands/get_working_hours.py:54-56 | a later month of the same year starts after an earlier month ends |
| Calendar.YearsIncrease | app/listeners/commands/get_working_hours.py:54-56 | a later year starts after an earlier year ends |
| Calendar.OtherMonthOutside | app/listeners/commands/get_working_hours.py:54-56 | a day of any other month lies before the month's first day or on or after the next month's first day |
| Calendar.WindowIsCalendarMonth | app/listeners/commands/get_working_hours.py:54-56 | an instant is in a month's window exactly when it falls in that calendar month |
| Calendar.DayNumberIncreases | app/listeners/events/on_mention.py:140-142 | a calendar-later date has a larger day number |
| Calendar.PrecedesIsBefore | app/listeners/events/on_mention.py:140-142 | comparing instants field by field agrees with comparing their seconds |
| Calendar.ParseDateTime | app/listeners/events/on_mention.py:135-139 | `strptime(..., "%Y/%m/%d %H:%M")` gives an instant with zero seconds |
| Calendar.MinuteForm | app/listeners/events/on_message_delete.py:49 | year, month and day joined by the separator, then hour and minute, is 16 characters |
| Calendar.FormatMinute | app/listeners/events/on_mention.py:136-139 | "%Y/%m/%d %H:%M" is 16 characters |
| Calendar.FormatMinuteFields | app/listeners/commands/admin_download_all_records.py:103-106 | "%Y/%m/%d %H:%M" carries year, month, day, hour and minute at their fixed places |
| Calendar.FormatStamp | app/listeners/commands/admin_download_all_records.py:103-106 | "%Y/%m/%d %H:%M:%S" is 19 characters |
| Calendar.FormatStampFields | app/listeners/commands/admin_download_all_records.py:103-106 | "%Y/%m/%d %H:%M:%S" carries every field of the instant at its fixed place |
| Calendar.IsoStamp | app/listeners/events/on_message_delete.py:49 | `str(datetime)` is 19 characters |
| Calendar.IsoStampFields | app/listeners/events/on_message_delete.py:49 | `str(datetime)` carries every field of the instant at its fixed place, with `-`, space and `:` separators |
| Calendar.ParseFormatMinute | app/listeners/events/on_mention.py:135-139 | an instant without seconds, formatted and parsed back, is the same instant |
| Calendar.SameMinuteFields | app/listeners/events/on_mention.py:135-139 | two 16-character stamps that agree on every field and separator are equal |
| Calendar.FormatParseMinute | app/listeners/events/on_mention.py:135-139 | a string that parses is the formatting of its parse, so the parse is one-to-one |
| Calendar.FormatClock | app/listeners/commands/download_csv.py:89-91 | "%H%M" or "%H:%M" is four digits plus the separator |
| Calendar.ClockRoundTrip | app/listeners/events/on_mention.py:143-148 | a time of day written as "%H:%M" parses back to itself |
| Calendar.ClockOfParse | app/listeners/events/on_mention.py:143-148 | a string that parses as "%H:%M" is the writing of its parse |
| Calendar.ClockOf | app/listeners/commands/download_csv.py:89-90 | the time of day of an instant keeps its hour and minute |
| Calendar.ParseYearMonth | app/listeners/commands/get_working_hours.py:25-40 | "%Y/%m" yields a year in 1..9999 and a month in 1..12 |
| Calendar.ParseYearMonthOfFormat | app/listeners/commands/get_working_hours.py:25-40 | every month's "YYYY/MM" parses to that month |
| Calendar.TimeOfDelta | app/listeners/commands/admin_download_all_records.py:96-98 | `(datetime.min + delta).time()` fails exactly for a negative delta, and is otherwise the minute of the delta modulo a day |
| Model.Violation | app/db/model.py:24-63 | the commit fails exactly when a constraint is broken; a check violation is reported exactly when a card does not end after it starts |
| Model.Transact | app/listeners/events/on_mention.py:166-170 | a flush and commit either installs the candidate state, or leaves the state unchanged and reports the fault or the violated constraint |
| Model.TransactKeepsValid | app/db/model.py:24-63 | whatever a transaction ends as, a valid database stays valid |
| Model.NewUser | app/listeners/commands/init.py:55-61 | adding a user appends one row with the next id and changes nothing else |
| Model.NewRa | app/listeners/commands/register_RA.py:81-88 | adding an RA job appends one row with the next id and changes nothing else |
| Model.NewCard | app/listeners/events/on_mention.py:157-168 | adding a card appends one row carrying the work and the message ts, and changes nothing else |
| Model.Overwrite | app/listeners/events/on_mention.py:198-202 | an edit replaces times, durations and description, and keeps id, RA job and message ts |
| Model.EditCard | app/listeners/events/on_mention.py:198-204 | only card i is overwritten; every other row is kept |
| Model.RemoveCard | app/listeners/events/on_message_delete.py:31-33 | exactly card i is removed, in order |
| Model.NewUserConstraints | app/db/model.py:24-25 | a fresh user keeps the constraints exactly when no user has the Slack id, and otherwise breaks the unique constraint |
| Model.NewRaConstraints | app/db/model.py:37-41 | a new RA job keeps the constraints exactly when its user exists, and otherwise breaks the foreign key |
| Model.NewCardConstraints | app/db/model.py:52-59 | a new card keeps the constraints exactly when its RA job exists and it ends after it starts; a card that does not breaks the check constraint |
| Model.EditCardConstraints | app/db/model.py:52-59 | an edited card keeps the constraints exactly when it ends after it starts, and otherwise breaks the check constraint |
| Model.RemoveCardConstraints | app/db/model.py:52-59 | removing a card keeps the database valid |
| Model.RasNotOf | app/db/model.py:38-40 | the cascade keeps exactly the RA jobs of other users |
| Model.CardsNotOf | app/db/model.py:53-55 | the cascade keeps exactly the cards of the RA jobs that survive |
| Model.RaIdsOf | app/db/model.py:38-40 | the ids of exactly the user's RA jobs |
| Model.DeleteRa | app/db/model.py:53-55 | deleting an RA job cascades to exactly its cards |
| Model.Without | app/db/model.py:24-37 | deleting by primary key keeps exactly the rows with another key |
| Model.DeleteUser | app/db/model.py:38-40 | deleting a user keeps exactly the other users, exactly the other users' RA jobs, and exactly the cards whose RA job is not one of the user's |
| Model.DeleteUserKeepsReferences | app/db/model.py:38-40 | after a cascading user delete every reference still resolves |
| Model.SurvivingRasHaveUsers | app/db/model.py:38-40 | every RA job that survives a user delete still has its user |
| Model.SurvivingCardsHaveRas | app/db/model.py:53-55 | every card that survives a user delete still has its RA job |
| Model.DeleteRaKeepsReferences | app/db/model.py:53-55 | after a cascading RA delete every reference still resolves |
| Model.CardsWithTs | app/listeners/events/on_mention.py:151-154 | the positions of exactly the cards of message ts, in table order |
| Model.FindCardByTs | app/listeners/events/on_mention.py:151-154 | `scalar_one_or_none`: no row exactly when no card has the ts, one row with its position, or an error when two cards share it |
| Model.FindCardByTsUnique | app/listeners/events/on_mention.py:151-154 | when each message has at most one card the lookup never raises |
| Model.Store.constructor | app/db/setup.py:38-39 | an empty, valid database whose ids start at 1 |
| Model.Store.Restore | app/listeners/events/on_mention.py:169-170 | `sess.rollback()` puts back the saved state |
| Model.Store.FlushCommit | app/listeners/events/on_mention.py:166-170 | flush and commit are a transaction from the saved state |
| Model.Store.AddUser | app/listeners/commands/init.py:55-61 | the session state after `add(User)` and commit is the transaction of the new user |
| Model.Store.AddRa | app/listeners/commands/register_RA.py:81-90 | the session state after `add(RA)` and commit is the transaction of the new RA job |
| Model.Store.AddCard | app/listeners/events/on_mention.py:157-170 | the session state after `add(TimeCard)` and commit is the transaction of the new card |
| Model.Store.UpdateCard | app/listeners/events/on_mention.py:198-206 | the session state after the field assignments and commit is the transaction of the edit |
| Model.Store.DeleteCard | app/listeners/events/on_message_delete.py:31-35 | the session state after `delete` and commit is the transaction of the removal |
| Queries.UserBySlackId | app/listeners/commands/register_RA.py:48-50 | the user lookup finds no row exactly when no user has the id, the one user that has it, or raises when two do |
| Queries.UsersWithSlackId | app/listeners/commands/register_RA.py:48-50 | the positions of exactly the users with the Slack id, in order |
| Queries.UserBySlackIdUnique | app/db/model.py:25 | the unique Slack id makes the user lookup unambiguous |
| Queries.RasNamed | app/listeners/commands/register_RA.py:63-69 | the positions of exactly the actor's RA jobs with the name, in order |
| Queries.FindRa | app/listeners/events/on_mention.py:89-97 | `.first()` of the join: nothing exactly when the actor has no RA job of that name, else the id of one |
| Queries.UserWithId | app/listeners/commands/download_csv.py:47-49 | the user row with the id, or nothing exactly when there is none |
| Queries.RaWithId | app/listeners/commands/download_csv.py:47-49 | the RA row with the id, or nothing exactly when there is none |
| Queries.JoinCard | app/listeners/commands/download_csv.py:47-49 | the joined row holds the card, its RA job and that job's user |
| Queries.SelectRows | app/listeners/commands/download_csv.py:46-57 | every row is the join of its own card and passes the WHERE clause; a card the clause keeps appears as often as it is in the table, and any other card not at all |
| Queries.JoinRowsIn | app/listeners/commands/download_csv.py:46-55 | every row of the join over a part of the card table passes the WHERE clause, and every kept card of that part has its row |
| Queries.JoinRowsOwnCard | app/listeners/commands/download_csv.py:46-51 | each row of the join is the join of its own card |
| Queries.JoinRowsCount | app/listeners/commands/download_csv.py:46-55 | a kept card gives as many rows as its copies in the cards joined, a dropped card none |
| Queries.JoinTotal | app/db/model.py:53-55 | in a valid database every card joins |
| Queries.StrLeTotal | app/listeners/commands/admin_download_all_records.py:66 | the string order is total |
| Queries.StrLeAntisymmetric | app/listeners/commands/admin_download_all_records.py:66 | the string order is antisymmetric |
| Queries.StrLeTransitive | app/listeners/commands/admin_download_all_records.py:66 | the string order is transitive |
| Queries.RowLeTotal | app/listeners/commands/admin_download_all_records.py:66 | both ORDER BY orders are total |
| Queries.RowLeTransitive | app/listeners/commands/admin_download_all_records.py:66 | both ORDER BY orders are transitive |
| Queries.Insert | app/listeners/commands/download_csv.py:56 | inserting into sorted rows keeps them sorted and adds exactly that row |
| Queries.SortRows | app/listeners/commands/download_csv.py:56 | ORDER BY returns a sorted permutation of the rows |
| Queries.SortKeepsSelected | app/listeners/commands/download_csv.py:46-57 | sorting keeps only selected rows |
| Queries.ReorderedMember | app/listeners/commands/download_csv.py:83-94 | a row of a permutation is a row of the original |
| Queries.ReorderedHolds | app/listeners/commands/download_csv.py:83-94 | every row of the original appears in a permutation |
| Month.ChooseMonth | app/listeners/commands/get_working_hours.py:25-42 | an empty argument means today's month and an unparsable one is refused; otherwise the parsed month, whose window computation raises only for 9999/12 |
| Month.ChosenWindowIsMonth | app/listeners/commands/get_working_hours.py:52-57 | a card passes the month filter exactly when it starts and ends in that calendar month |
| Month.MonthLabel | app/listeners/commands/get_working_hours.py:62 | the reply names the argument, or the current month when there is none |
| WorkRules.RecessWarning | app/workrules.py:22-25 | the recess warning fires exactly for more than six hours of work with less than an hour of recess |
| WorkRules.TimingWarning | app/workrules.py:39-40 | the timing warning fires exactly when more than 24 hours have passed since the end, counted to the microsecond |
| WorkRules.GenerateWarnings | app/workrules.py:52-59 | the warnings that fire, the recess warning first; at most two |
| WorkRules.RecessBoundaries | app/workrules.py:22-25 | exactly six hours of work or exactly an hour of recess draws no warning |
| WorkRules.TimingBoundary | app/workrules.py:39-40 | a report exactly 24 hours after the end is on time, and one microsecond later is late |
| OnMention.ParseTemplate | app/listeners/events/on_mention.py:35-45 | the message matches exactly when its lines have the template's shape, and the captures are then well formed |
| OnMention.BulletNoNewline | app/listeners/events/on_mention.py:37-40 | a bullet line carries its text after the two-character bullet |
| OnMention.TemplateRoundTrip | app/listeners/events/on_mention.py:35-42 | a message written from well-formed captures matches with those captures, with or without a final line break |
| OnMention.TemplateComplete | app/listeners/events/on_mention.py:35-42 | a matching message is the template written from its captures |
| OnMention.ParseHoursText | app/listeners/events/on_mention.py:111-113 | the working-hour regex yields well-formed date, start, end and optional break texts |
| OnMention.TailNoNewline | app/listeners/events/on_mention.py:111 | working-hour text written from its parts has no line break |
| OnMention.HoursRoundTrip | app/listeners/events/on_mention.py:111-113 | working-hour text written from well-formed parts parses back to those parts |
| OnMention.PlainRoundTrip | app/listeners/events/on_mention.py:111 | the same, without a break |
| OnMention.RecessRoundTrip | app/listeners/events/on_mention.py:111 | the same, with an `R` break |
| OnMention.KyukeiRoundTrip | app/listeners/events/on_mention.py:111 | the same, with a `休憩` break |
| OnMention.HoursComplete | app/listeners/events/on_mention.py:111-113 | text that parses is the writing of its parts |
| OnMention.PlainSpelled | app/listeners/events/on_mention.py:111 | the no-break shape splits at fixed offsets from the end |
| OnMention.RecessSpelled | app/listeners/events/on_mention.py:111 | the `R` shape splits at fixed offsets from the end |
| OnMention.KyukeiSpelled | app/listeners/events/on_mention.py:111 | the `休憩` shape splits at fixed offsets from the end |
| OnMention.ParseWork | app/listeners/events/on_mention.py:111-148 | the duration is refused exactly when the working-hour regex does not match |
| OnMention.WorkOf | app/listeners/events/on_mention.py:130-148 | matched working-hour text ends in a bad date exactly when a strptime of the date with the start or end time fails, in a negative span exactly when both parse and the end precedes the start, in an unreadable break exactly when both parse in order and the break text fails `%H:%M`; otherwise a card with the two instants read, the description, and the break's value or zero |
| OnMention.Assemble | app/listeners/events/on_mention.py:136-148 | a bad date exactly when a strptime fails; a negative span exactly when the end precedes the start; an unreadable break exactly when the times are in order and a break is written that fails `%H:%M`; otherwise the work with its times, its duration modulo a day and its break or zero |
| OnMention.SameDate | app/listeners/events/on_mention.py:136-139 | start and end parsed on one date share that date |
| OnMention.WorkOfParsed | app/listeners/events/on_mention.py:140-148 | a parsed work's duration is the minutes from start to end, and its break the break text's value or zero |
| OnMention.SpanMinutes | app/listeners/events/on_mention.py:140-142 | a non-negative span of whole minutes shorter than a day shows as exactly those minutes |
| OnMention.ParseWorkExample | app/listeners/events/on_mention.py:61 | the help text's example parses to 10:00–17:00 on 2023/11/18 with seven hours of work and one of recess |
| OnMention.Upsert | app/listeners/events/on_mention.py:151-215 | anything but success leaves the database unchanged; the outcome is a success, an ambiguous ts or a failed write |
| OnMention.UpsertInserts | app/listeners/events/on_mention.py:155-168 | a new message on a valid database with a good span inserts exactly one card |
| OnMention.InsertedState | app/listeners/events/on_mention.py:155-168 | that insert leaves the database with the new card appended |
| OnMention.UpsertUpdates | app/listeners/events/on_mention.py:196-204 | an edited message rewrites its own card in place and nothing else |
| OnMention.ZeroSpanRollsBack | app/listeners/events/on_mention.py:169-179 | a zero-length span breaks the check constraint and rolls back |
| OnMention.AppendKeepsTsUnique | app/listeners/events/on_mention.py:155-168 | appending a card of a new message keeps one card per message |
| OnMention.SameTsKeepsTsUnique | app/listeners/events/on_mention.py:196-204 | rewriting cards without changing their ts keeps one card per message |
| OnMention.InsertKeepsInvariants | app/listeners/events/on_mention.py:155-179 | an insert, committed or rolled back, keeps the database valid and one card per message |
| OnMention.UpdateKeepsInvariants | app/listeners/events/on_mention.py:196-215 | an update, committed or rolled back, keeps the same |
| OnMention.UpsertKeepsInvariants | app/listeners/events/on_mention.py:151-215 | every outcome keeps the database valid with one card per message |
| OnMention.MentionKeepsInvariants | app/listeners/events/on_mention.py:28-215 | every outcome of a mention keeps the database valid with one card per message |
| OnMention.ReportKeepsInvariants | app/listeners/events/on_mention.py:84-215 | the same once the template matched |
| OnMention.RecordKeepsInvariants | app/listeners/events/on_mention.py:111-215 | the same once the RA job is known |
| OnMention.RewriteSame | app/listeners/events/on_mention.py:196-204 | rewriting a card with its own values commits and changes nothing |
| OnMention.NewCardFound | app/listeners/events/on_mention.py:151-168 | once inserted, the message's card is found by its ts |
| OnMention.EditedCardFound | app/listeners/events/on_mention.py:151-204 | once edited, the message's card is still found at the same place |
| OnMention.UpsertLeavesCard | app/listeners/events/on_mention.py:151-204 | after a success the message's card holds the reported work |
| OnMention.UpsertIdempotent | app/listeners/events/on_mention.py:151-204 | delivering the same report twice leaves the database as one delivery does |
| OnMention.EditAfterReportKeepsCard | app/listeners/events/on_mention.py:151-204 | editing a report keeps one card for the message, now holding the edit |
| OnMention.OnMention | app/listeners/events/on_mention.py:28-81 | the handler raises without a context, refuses exactly the messages off the template, writes only on success, and never writes when it raises |
| OnMention.Report | app/listeners/events/on_mention.py:84-106 | an unknown RA job is refused exactly when the actor has none of the stripped name, and nothing is written |
| OnMention.Record | app/listeners/events/on_mention.py:111-148 | a duration off the regex is refused; a parsed work goes to the upsert |
| OnMention.UpsertWrites | app/listeners/events/on_mention.py:157-165 | the card a success reports carries the work and the message ts |
| OnMention.ParseWorkKeepsDescription | app/listeners/events/on_mention.py:163 | the parsed work keeps the description |
| OnMention.RecordWrites | app/listeners/events/on_mention.py:157-165 | a success came from a parsed work, and its card carries that work |
| OnMention.ReportWritesCaptures | app/listeners/events/on_mention.py:84-165 | a success writes the stripped description to the actor's RA job of the stripped name |
| OnMention.OnMentionWritesCaptures | app/listeners/events/on_mention.py:28-204 | a successful mention writes what its bullets say, under the message ts |
| OnMention.UpsertByTs | app/listeners/events/on_mention.py:151-215 | the store method ends as the upsert function |
| OnMention.HandleMention | app/listeners/events/on_mention.py:28-215 | the store handler ends as the mention function, and keeps a valid store with one card per message valid |
| OnMention.HandleReport | app/listeners/events/on_mention.py:84-215 | the store handler ends as the report function |
| OnMention.HandleRecord | app/listeners/events/on_mention.py:111-215 | the store handler ends as the record function |
| OnMessageDelete.OnMessageDelete | app/listeners/events/on_message_delete.py:12-50 | raises without a context, ignores events that are not deletions, and does nothing for a message with no card; a shared ts raises; only a deletion changes the state, and a raise never does |
| OnMessageDelete.DeleteRemovesOnlyThatCard | app/listeners/events/on_message_delete.py:24-33 | a deletion removes exactly the message's card and keeps the order of the rest |
| OnMessageDelete.DeleteIsMultisetRemoval | app/listeners/events/on_message_delete.py:31-33 | the cards lose exactly one copy of that card |
| OnMessageDelete.RemoveAtMultiset | app/listeners/events/on_message_delete.py:31 | removing position i removes one copy of that element |
| OnMessageDelete.DeleteSucceeds | app/listeners/events/on_message_delete.py:24-33 | on a valid database with no fault a found card is deleted |
| OnMessageDelete.RemoveKeepsTsUnique | app/listeners/events/on_message_delete.py:31-33 | removing a card keeps one card per message |
| OnMessageDelete.DeleteKeepsInvariants | app/listeners/events/on_message_delete.py:22-44 | every outcome keeps the database valid with one card per message |
| OnMessageDelete.DeleteRaisesOnly | app/listeners/events/on_message_delete.py:12-50 | on a valid database with one card per message and a commit that does not fail, the handler raises exactly when the context is missing |
| OnMessageDelete.DeleteTwiceIsNoCard | app/listeners/events/on_message_delete.py:29-30 | a second deletion of the same message finds no card and changes nothing |
| OnMessageDelete.DeleteLast | app/listeners/events/on_message_delete.py:24-33 | deleting the last card's message drops just that card |
| OnMessageDelete.ReportThenDeleteRestoresCards | app/listeners/events/on_message_delete.py:24-33 | reporting and then deleting the report gives back the original cards |
| OnMessageDelete.ReportedState | app/listeners/events/on_mention.py:155-168 | a first report appends its card and keeps the database valid |
| OnMessageDelete.DeletedReply | app/listeners/events/on_message_delete.py:49 | the reply names the card's start and end as `str(datetime)` around `から` |
| OnMessageDelete.HandleMessageDelete | app/listeners/events/on_message_delete.py:12-50 | the store handler ends as the delete function, and keeps a valid store with one card per message valid |
| Init.Init | app/listeners/commands/init.py:22-94 | raises without a context; refuses an empty name, and for Current a name enclosed in `<`, `>` or `*`; commits only the new user, and reports a missing view file; a raise leaves the database unchanged except for the missing view file, which raises after the commit |
| Init.Attempt | app/listeners/commands/init.py:53-94 | adding the user commits exactly the new user, or changes nothing |
| Init.Settle | app/listeners/commands/init.py:74-94 | a unique violation is "already registered"; other integrity errors are replied to by Current; anything else raises; only a commit changes the state |
| Init.InitRegistersUnlessKnown | app/listeners/commands/init.py:53-84 | an acceptable name is refused as already registered exactly when the Slack id is known, and otherwise registered |
| Init.InitThenLookup | app/listeners/commands/init.py:55-61 | after a registration the Slack id finds exactly the new user |
| Init.InitTwice | app/listeners/commands/init.py:74-84 | a second `/init` is refused as already registered and changes nothing |
| Init.InitKeepsValid | app/listeners/commands/init.py:53-94 | every outcome keeps the database valid |
| Init.InitOtherErrors | app/listeners/commands/init.py:85-94 | on other integrity errors Current replies and Legacy raises |
| Init.EnclosedNameVariants | app/listeners/commands/init.py:37-48 | a name enclosed in symbols is refused by Current and registered by Legacy |
| Init.HandleInit | app/listeners/commands/init.py:17-113 | the store handler ends as the init function, keeps a valid store valid and leaves the cards alone |
| RegisterRa.RegisterRa | app/listeners/commands/register_RA.py:18-99 | raises without a context; refuses exactly an empty name and, for Current, exactly an enclosed one; refuses an acceptable name as unregistered exactly when no user has the actor's Slack id; for Current refuses a name the user already has; only a registration changes the state, and a raise never does |
| RegisterRa.Settle | app/listeners/commands/register_RA.py:81-99 | the RA job is registered exactly when the commit succeeds |
| RegisterRa.RegisterAddsRa | app/listeners/commands/register_RA.py:81-88 | a registration appends one RA job with the stripped name, owned by the actor's user |
| RegisterRa.RegisterSucceeds | app/listeners/commands/register_RA.py:46-88 | a registered user without an RA job of that name registers it when nothing fails |
| RegisterRa.OwnedByUser | app/listeners/commands/register_RA.py:63-69 | an RA job of the actor's user is found by the join |
| RegisterRa.CurrentKeepsNamesUnique | app/listeners/commands/register_RA.py:62-79 | Current keeps RA names unique per user |
| RegisterRa.LegacyDuplicatesName | app.py:106-153 | Legacy registers a name the user already has, giving two RA jobs of one name |
| RegisterRa.RegisterThenFind | app/listeners/commands/register_RA.py:81-88 | after Current registers an RA job, a report naming it resolves to it |
| RegisterRa.RasNamedOnly | app/listeners/commands/register_RA.py:63-69 | when only the newest RA job matches, the join returns just it |
| RegisterRa.RegisterKeepsValid | app/listeners/commands/register_RA.py:46-99 | every outcome keeps the database valid |
| RegisterRa.HandleRegisterRa | app/listeners/commands/register_RA.py:18-108 | the store handler ends as the register function, keeps a valid store valid and leaves the cards alone |
| WorkingHours.RaNames | app/listeners/commands/get_working_hours.py:58 | the group names: each RA name of the rows, once |
| WorkingHours.Groups | app/listeners/commands/get_working_hours.py:45-59 | one total per RA name, summed over that name's rows |
| WorkingHours.AbsentGroupIsZero | app/listeners/commands/get_working_hours.py:48 | a name no row carries sums to zero |
| WorkingHours.SumOverAppend | app/listeners/commands/get_working_hours.py:48 | one more row adds its seconds to exactly one group |
| WorkingHours.GroupsPartition | app/listeners/commands/get_working_hours.py:45-59 | the group totals add up to the total over all rows |
| WorkingHours.NegativeGroupHasNegativeRow | app/listeners/commands/get_working_hours.py:48 | a negative group total needs a card whose break exceeds its duration |
| WorkingHours.HoursMinutes | app/listeners/commands/get_working_hours.py:65-69 | the whole hours and the minutes below 60 that the total falls in |
| WorkingHours.HoursMinutesUnique | app/listeners/commands/get_working_hours.py:65-69 | those are the only hours and minutes with that property |
| WorkingHours.Lines | app/listeners/commands/get_working_hours.py:63-69 | one line per group, in group order |
| WorkingHours.MessageLines | app/listeners/commands/get_working_hours.py:62-69 | the reply is the header followed by exactly one line per group |
| WorkingHours.LineNoNewline | app/listeners/commands/get_working_hours.py:69 | a group line has no line break |
| WorkingHours.PadNoNewline | app/listeners/commands/get_working_hours.py:69 | a padded number has no line break |
| WorkingHours.MessageAppend | app/listeners/commands/get_working_hours.py:69 | one more group adds a line break and its line |
| WorkingHours.BuildMessage | app/listeners/commands/get_working_hours.py:62-69 | the loop builds the reply |
| WorkingHours.DurationSeconds | app.py:405-415 | Legacy's sum is never negative |
| WorkingHours.GetWorkingHours | app/listeners/commands/get_working_hours.py:22-82 | raises without a context; otherwise the reply for the chosen month; it raises exactly without a context or for 9999/12 |
| WorkingHours.Summarize | app/listeners/commands/get_working_hours.py:25-59 | a bad argument is refused and 9999/12 raises; otherwise the tally of the actor's rows in the window |
| WorkingHours.Tally | app/listeners/commands/get_working_hours.py:61-82 | Current replies with the group lines exactly when there are rows; Legacy shows a time exactly when the sum is non-zero |
| WorkingHours.LegacyShown | app.py:417-424 | Legacy shows the sum as a time of day, that is, modulo 24 hours |
| WorkingHours.LegacyWrapsAtOneDay | app.py:417-424 | 25 hours show as 01:00 in Legacy and as 25:00 in Current |
| WorkingHours.CurrentShowsWholeTotal | app/listeners/commands/get_working_hours.py:65-69 | Current's hours and minutes give back the total to the minute |
| WorkingHours.HoursReply | app/listeners/commands/get_working_hours.py:22-82 | the handler ends as the hours function |
| Csv.Ordered | app/listeners/commands/download_csv.py:85-94 | `writerow` writes the record's values in field-name order, and a missing key as empty |
| Csv.Writer.constructor | app/listeners/commands/download_csv.py:70-81 | a writer over an empty buffer |
| Csv.Writer.WriteHeader | app/listeners/commands/download_csv.py:82 | `writeheader` appends the field names |
| Csv.Writer.WriteRow | app/listeners/commands/download_csv.py:85-94 | `writerow` appends the record's row |
| DownloadCsv.Table | app/listeners/commands/download_csv.py:82-94 | the file is the header and one row per record |
| DownloadCsv.TableAt | app/listeners/commands/download_csv.py:83-94 | row k + 1 of the file is the row of record k |
| DownloadCsv.HourMinuteRoundTrip | app/listeners/commands/download_csv.py:89-91 | "%H%M" of a time of day reads back as that time |
| DownloadCsv.HourMinuteOfReading | app/listeners/commands/download_csv.py:89-91 | a string that reads as a time is that time's "%H%M" |
| DownloadCsv.FieldsReadBack | app/listeners/commands/download_csv.py:86-93 | a CSV row gives back the RA name, day, start, end, break and description of its card |
| DownloadCsv.Records | app/listeners/commands/download_csv.py:46-57 | the actor's cards of the month, as a permutation of the selection sorted by start |
| DownloadCsv.Export | app/listeners/commands/download_csv.py:22-57 | raises without a context; otherwise the reply for the chosen month; it raises exactly without a context or for 9999/12 |
| DownloadCsv.Assemble | app/listeners/commands/download_csv.py:26-94 | a bad argument is refused and 9999/12 raises; no file exactly when nothing is selected; otherwise the table of the sorted records |
| DownloadCsv.TableRowsFromSelection | app/listeners/commands/download_csv.py:83-94 | every row of the file is the row of a selected card |
| DownloadCsv.TableCoversSelection | app/listeners/commands/download_csv.py:83-94 | every selected card has its row in the file |
| DownloadCsv.RecordWritten | app/listeners/commands/download_csv.py:85-94 | the row's dictionary uses only header keys and is written as the row's fields |
| DownloadCsv.TableAppend | app/listeners/commands/download_csv.py:83-94 | one more record adds its row |
| DownloadCsv.WriteRecord | app/listeners/commands/download_csv.py:85-94 | writing a record appends its fields |
| DownloadCsv.WriteRows | app/listeners/commands/download_csv.py:82-94 | the writer loop produces the table |
| DownloadCsv.HandleDownloadCsv | app/listeners/commands/download_csv.py:22-94 | the handler ends as the export function |
| AdminDownload.WorkDurationDefined | app/listeners/commands/admin_download_all_records.py:96-98 | the duration cannot be computed exactly when the card ends before it starts |
| AdminDownload.WorkDurationIsDelta | app/listeners/commands/admin_download_all_records.py:96-98 | the duration is the time `datetime.min + (end - start)` shows |
| AdminDownload.WholeMinutes | app/listeners/commands/admin_download_all_records.py:96-98 | a whole number of minutes shows as those minutes |
| AdminDownload.WorkDurationIsLength | app/listeners/commands/admin_download_all_records.py:96-98 | for an ordered card the duration is its length in whole minutes, modulo a day |
| AdminDownload.AdminFields | app/listeners/commands/admin_download_all_records.py:99-110 | the CSV row has seven fields |
| AdminDownload.AdminTable | app/listeners/commands/admin_download_all_records.py:80-111 | the file is the header followed by one row per record |
| AdminDownload.AdminTableAt | app/listeners/commands/admin_download_all_records.py:94-111 | row k + 1 of the file is the row of record k |
| AdminDownload.AllRecords | app/listeners/commands/admin_download_all_records.py:56-67 | every user's cards of the month, as a permutation of the selection sorted by RA name, user id and start |
| AdminDownload.AdminExport | app/listeners/commands/admin_download_all_records.py:23-35 | raises without a context; refuses exactly the actors not in the admin list; otherwise the reply for the chosen month; a non-administrator never makes it raise |
| AdminDownload.AdminAssemble | app/listeners/commands/admin_download_all_records.py:37-123 | a bad argument is refused and 9999/12 raises; no file exactly when nothing is selected; the duration raises exactly when a card ends before it starts; the encoding raises exactly when the table holds a character cp932 cannot encode; otherwise the table, all of it encodable |
| AdminDownload.ValidRowsDefined | app/db/model.py:57-59 | in a valid database every selected card ends after it starts |
| AdminDownload.ValidDbNeverRaises | app/db/model.py:57-59 | the check constraint keeps the duration computation of the export from raising |
| AdminDownload.AdminRaisesOnly | app/listeners/commands/admin_download_all_records.py:23-123 | on a valid database the export raises exactly without a context, or for an administrator asking for 9999/12 or for a month with cards whose file holds a character cp932 cannot encode |
| AdminDownload.AdminRowsFromSelection | app/listeners/commands/admin_download_all_records.py:94-111 | every row of the file is the row of a selected card, with its duration |
| AdminDownload.AdminCoversSelection | app/listeners/commands/admin_download_all_records.py:94-111 | every selected card has its row in the file |
| AdminDownload.RecomputedDurationAgrees | app/listeners/commands/admin_download_all_records.py:96-98 | for a card whose stored duration is the minutes between its instants, the recomputed duration is the stored one |
| AdminDownload.AdminClocksReadBack | app/listeners/commands/admin_download_all_records.py:107-108 | the name, RA name and description columns are the row's, and the duration and break columns parse back through "%H:%M" |
| AdminDownload.AdminStampsReadBack | app/listeners/commands/admin_download_all_records.py:103-106 | the timestamp columns begin with the minute form of the instants, which parses back to the instant when its seconds are zero |
| AdminDownload.AdminRecordWritten | app/listeners/commands/admin_download_all_records.py:99-110 | the row's dictionary uses only header keys and is written as the row's fields |
| AdminDownload.AdminTableSnoc | app/listeners/commands/admin_download_all_records.py:94-111 | one more record adds its row |
| AdminDownload.InOrderPrefix | app/listeners/commands/admin_download_all_records.py:94-98 | an ordered card extends a prefix whose durations are all defined |
| AdminDownload.NotInOrder | app/listeners/commands/admin_download_all_records.py:96-98 | one card ending before it starts makes the export raise |
| AdminDownload.WriteAdminRecord | app/listeners/commands/admin_download_all_records.py:99-111 | writing a record appends its fields |
| AdminDownload.WriteAdminRows | app/listeners/commands/admin_download_all_records.py:93-111 | the writer loop raises exactly when some duration is undefined, and otherwise produces the table |
| AdminDownload.WriteAdminLoop | app/listeners/commands/admin_download_all_records.py:94-111 | the same, after the header |
| AdminDownload.WriteAdminStep | app/listeners/commands/admin_download_all_records.py:95-111 | one pass: the record's duration, then its row |
| AdminDownload.HandleAdminDownload | app/listeners/commands/admin_download_all_records.py:23-123 | the handler ends as the export function |

The definitions below carry no contract of their own. They model the cited lines, and the rows named after them state their properties.

- `Calendar.ParseClock`: `strptime(..., "%H:%M")` of the break (app/listeners/events/on_mention.py:145-146). Covered by `ClockRoundTrip`, `ClockOfParse`, `Assemble` and `WorkOf`.
- `Text.Pad2`: `f"{n:02}"` (app/listeners/commands/get_working_hours.py:69). Covered by `Pad2Nat`, `TwoDigits`, `TwoDigitValue`, `Pad2Negative` and `PadNoNewline`.
- `AdminDownload.WorkDuration` and `ShownDuration`: the recomputed duration (app/listeners/commands/admin_download_all_records.py:96-98). Covered by `WorkDurationDefined`, `WorkDurationIsDelta`, `WorkDurationIsLength` and `RecomputedDurationAgrees`.
- `AdminDownload.AdminRecordOf`: the dictionary of one admin row (app/listeners/commands/admin_download_all_records.py:99-110). Covered by `AdminRecordWritten` and `WriteAdminRecord`.
- `WorkingHours.GroupLine`, `HoursMessage` and `Header`: the reply text (app/listeners/commands/get_working_hours.py:62-69). Covered by `Lines`, `MessageLines`, `LineNoNewline`, `BuildMessage`, `Summarize` and `Tally`.
- `WorkingHours.WorkSeconds`, `GroupTotal` and `TotalSeconds`: the per-job sums (app/listeners/commands/get_working_hours.py:46-58). Covered by `Groups`, `AbsentGroupIsZero`, `SumOverAppend`, `GroupsPartition` and `NegativeGroupHasNegativeRow`.
- `DownloadCsv.Header`, `Fields` and `RecordOf`: the header and the dictionary of one row (app/listeners/commands/download_csv.py:86-93). Covered by `RecordWritten`, `FieldsReadBack`, `Table`, `TableAt` and `WriteRecord`.
- `WorkRules.RecessTooShort`, `ReportedLate`, `Apply` and `Fired`: the two rules and their application in order (app/workrules.py:22-59). Covered by `RecessWarning`, `TimingWarning`, `RecessBoundaries`, `TimingBoundary` and `GenerateWarnings`, whose loop invariant is `Fired` of the rules seen so far.
- `Request.ContextAvailable` and `Enclosed`: the context check and the refused names (app/listeners/commands/init.py:22, 37-39). Covered by every handler's outcome row and by `Init.EnclosedNameVariants`.
- `Queries.Matches` and `Keeps`: the WHERE clause (app/listeners/commands/download_csv.py:50-55). Covered by `SelectRows`, `JoinRowsIn` and `JoinRowsCount`.
- `OnMention.TemplateLines`, `MentionLine` and `BulletLine`: the lines of the message template (app/listeners/events/on_mention.py:35-42). Covered by `ParseTemplate`, `TemplateRoundTrip` and `TemplateComplete`.
- `Model.ValidDb` and its parts `KeysUnique`, `ReferencesExist`, `TimesIntact` and `IdsFresh`, together with `TsUnique`: the schema's constraints and the ids the database hands out (app/db/model.py:24-63). Covered by `Violation`, `TransactKeepsValid`, the `*Constraints` rows and the `*KeepsInvariants` and `*KeepsReferences` rows.

## Left out

- Slack I/O is not modelled: `ack`, ephemeral replies, DMs, `views_publish` and `files_upload_v2`. Outcomes are datatypes, and only the reply texts the bot compares or formats are spelled out.
- Loading the App Home view file is a boolean parameter (`viewFileExists`). The JSON contents are not modelled.
- The clock is a parameter: `date.today()` is `today` and `datetime.now()` is `now`.
- The admin list is a parameter: `botcfg.admin_ids` is `adminIds`. Configuration loading (`app/config.py`, `config.py`) and startup (`run.py`, `app/db/setup.py`, `database.py`) are not part of this model.
- Database failures other than constraint violations are the `fault` parameter: connection loss, and the cases where PostgreSQL reports a different error class.
- Concurrency and isolation between sessions are not modelled; each handler is one transaction on one state.
- Id sequences are not modelled exactly: a rolled-back insert does not consume an id here, whereas it does in PostgreSQL.
- SQL row order is modelled as table order: rows without ORDER BY, ties under ORDER BY (a stable sort), the group order of `group_by` and which row `.first()` returns.
- String collation is modelled as code-point order for ORDER BY `ra_name`. PostgreSQL's locale collation may differ.
- CSV quoting and escaping are not modelled. The writer keeps the rows of fields, not the text. The cp932 encoding of the admin file is modelled only as whether it raises: `Encodable` asks that every character of every field be in `cp932`, since the writer's own commas, quotes and line ends are ASCII. The bytes it produces are not modelled.
- `timedelta.total_seconds()` is modelled as exact integer seconds. Its float type does not matter for card times, which are whole minutes.
- Legacy `(datetime.min + sum).time()` raises OverflowError once the sum reaches about 10,000 years. That is not modelled.
- `strptime` is modelled for the zero-padded fixed-width forms the bot prints, in ASCII digits. Python's `%Y/%m/%d %H:%M` accepts more, and those forms parse to None here, so the handler ends in `DateTimeRaised` where Python records the card. It accepts one-digit fields (`2023/1/5 10:00-17:00`), a space before a one-digit day (`2023/11/ 5`), and several white-space characters between date and time (`2023/11/18  9:00-17:00`, whose start group is ` 9:00`). A leading or trailing space fails in Python too. It also accepts full-width digits wherever its pattern has `\d`: in the four year digits, in the second digit of a two-digit day, hour or minute, and in a one-digit hour or minute. Examples are `２０２３/11/18 10:00-17:00` and `2023/11/1８ 1０:00-1７:00`. A full-width month, or a full-width first digit of a two-digit day, hour or minute, fails in Python as it does here. The month argument `%Y/%m` accepts one- and two-digit ASCII months, as Python does. `ParseYearMonth` refuses a full-width year such as `２０２３/11`, which Python accepts.
- The top-level `model.py` (the legacy table declarations) is not modelled; the model gives the legacy variant the schema of `app/db/model.py`. The legacy file differs in ways the model does not capture. Its RA foreign key names `user.id` (model.py:27), while the user table is `botuser` (model.py:13). Its `TimeCard` (model.py:32-44) has a `Time` duration and no `break_duration`, `description` or `slack_message_ts` columns, all of which `app.py` writes.
- `on_message_events_to_ignore.py` and the listener registration files are not part of this model; they only acknowledge events.
- on_mention: a `strptime` ValueError and the OverflowError of an end before the start raise before the store is touched, as the code does.
- WorkRules: the rules are modelled as their own module. Neither handler calls `generate_warnings_about_all_rules`, so no handler emits these warnings here.

## Findings

| source | as written | input that shows it | evidently intended | confidence | as-written member | corrected member |
|---|---|---|---|---|---|---|
| app.py:417-424 | Legacy `/get_working_hours` shows the month's total as `(datetime.min + total).time()`, that is, the total modulo 24 hours | a month with 25 hours of recorded work is reported as `01:00` | the total in hours and minutes, 25:00, as the Current handler computes with floor division (app/listeners/commands/get_working_hours.py:65-69) | not executed | WorkingHours.LegacyShown, WorkingHours.LegacyWrapsAtOneDay | WorkingHours.HoursMinutes, WorkingHours.CurrentShowsWholeTotal, WorkingHours.HoursMinutesUnique |
