# Dingo chore chart, modelled in Dafny

This project models the core of `Code.ts`, the Apps Script behind a house's weekly chore chart.
The "Weekly chores" sheet has one row per person (column A: name, linked to a `mailto:`
address), that person's chore (column B) and one status column per week (columns C onwards,
dated in row 1). The model covers the scheduled operations that read and change that sheet:

- **Report engine**: `isLate` and `getReport`. The audit column is the first header equal to
  the audit date, and the column to its left must be the week before. Each row with a person
  and a chore becomes one entry with a lateness level of 0, 1 or 2. The model has the pure
  function `Report.ReportFor` and the row loop `Sheet.ChoreSheet.GetReport`, which is proved
  equal to it.
- **Grid fill** (`fillEmptyCells`): in the audit column, an empty cell on a row with a person
  becomes "Pardoned" if the row has no chore and "Pending (unexcused late)" if it has one.
  `Sheet.ChoreSheet.FillEmptyCells` fills a copy of the column in a loop and writes it back.
- **Week preparer** (`prepareNextWeek`) is `Sheet.ChoreSheet.PrepareNextWeek`. It runs, in
  the source's order:
  - the right-to-left column deletion loop;
  - blank columns appended up to 10;
  - the header back-fill loop;
  - blank rows inserted up to 30;
  - shading of every status column except the next audit date's.

  Each step is a method proved against a function of `WeekPrep`.
- **Notification dispatch**: `sendEmailReport`, `sendChoreReminders` and
  `sendUpdateChartReminders`. Each `MailApp.sendEmail` call appends a `Notify.Mail` to a ghost
  outbox, so every contract states exactly which messages go out, in which order, and when
  none do.
- **Weekly audit** (`weeklyAudit`) does fill, then report (unless disabled), then prepare.
  A step that throws stops the run.

The grid is held column by column (`Grid.WeekColumn`: header, status cells, shading), with
column A and column B as two sequences. `Grid.WellFormed` says that all of them cover the
same data rows, and every operation preserves it. A date is a whole day number counted from
1 January 1970, and `getTime()` is that number times 86 400 000. This assumes every date is
a midnight in UTC (see "## Left out"). A thrown error is a `Report.ReportError` value in a
`Result` or `Outcome`.

Each function or lemma below has a partner, as follows:
- The loops are proved equal to the specification functions.
- The specification functions are characterised by lemmas:
  - `ReportMeaning` covers the report: one entry per assigned row, in row order, with the
    lateness rule.
  - `FindDateColumnExact` covers the audit column search.
  - `FillChangesOnlyEmptyPersonCells`, `FillIdempotent` and `FillKeepsLateness` cover the
    fill.
  - `KeptMembers` and `KeptConcat` cover deletion.
  - `PreparedWeeksShape` covers the prepared grid.
  - `RecipientsEmpty`, `SubjectReflectsWorstLateness` and `RemindersExactly` cover the
    mail.
- Two worked examples pin down concrete results.

### Behaviour as written

The model follows the code as written, including where it differs from the code's own
comments or from a neighbouring function:

- **Column deletion threshold.** `Code.ts:322` compares each header's `getTime()` with
  `oldestDate.getMilliseconds()`. That is the millisecond component of the time of day, and
  it is 0 for the whole-day dates the callers pass. The comments at `Code.ts:309` and
  `Code.ts:317` say that two previous weeks are kept and older columns are removed. As
  written, only columns whose timestamp is negative are deleted: with whole-day dates in
  UTC, those dated before 1 January 1970. `WeekPrep.ExpiredMeansBeforeEpoch` and
  `WeekPrep.RetentionRuleNotApplied` state this, and `WeekPrep.NoPostEpochColumnDeleted`
  states that no later column is lost.
- **Header back-fill.** `lastDate` (`Code.ts:332`) starts as `''` and is never assigned, so
  the condition on `Code.ts:335` never holds. No header is ever written, although the
  comments at `Code.ts:310-311` and `Code.ts:331` speak of adding columns for the next audit
  date and several future weeks. `Sheet.ChoreSheet.BackfillHeaders` leaves the columns
  unchanged.
- **Blank header before the audit date.** `findIndex` (`Code.ts:190`) calls `getTime()` on
  every header until it finds a match. A blank header reached first throws; it is not
  skipped. This is `ReportError.HeaderNotADate`.
- **Row padding.** `insertRows(getMaxRows(), n)` (`Code.ts:346`) inserts the blank rows
  before the last row, not after it, so the last data row stays last (`WeekPrep.PadRows`).
- **Chart-update reminder recipients.** `sendEmailReport` returns early when no entry has
  an address (`Code.ts:127`). `sendUpdateChartReminders` has no such check (`Code.ts:102-113`),
  so its message then goes to an empty recipient list.

## Model

| member | source | states |
|---|---|---|
| Dates.MillisecondsOf | Code.ts:322 | `getMilliseconds()` of a whole-day date is 0 |
| Dates.AddDaysLaws | Code.ts:164-169 | moving by a then b days is moving by a + b; moving back undoes moving forward; moving forward is later |
| Dates.AddWeeksLaws | Code.ts:254-258 | a week is seven days; weeks add up; `addWeeks(d, -n)` undoes `addWeeks(d, n)`; moving forward is at least a week later |
| Report.LateLevel | Code.ts:232-238 | the level is at most 2; 0 iff the audit-week status is not late; 2 iff both weeks are late |
| Report.EmailOf | Code.ts:219-223 | a link starting `mailto:` yields the rest of the URL; no link, or any other link, yields "" |
| Report.EmailOfMailto | Code.ts:221-222 | the address behind `mailto:` is recovered exactly |
| Report.FindDateColumn | Code.ts:190-191 | the result is the first header equal to the date, with only dates before it; a blank header reached first throws; no match throws "could not find column"; a matching column with only dates before it is always the one found |
| Report.FindDateColumnExact | Code.ts:190 | the search succeeds with `col` iff `col` is the first header equal to the date and every header before it is a date |
| Report.AssignedRows | Code.ts:213-227 | the rows with both a person and a chore, in increasing order, all of them |
| Report.EntriesFollowAssignedRows | Code.ts:213-249 | entry j is built from the j-th row with a person and a chore: one entry per such row, in row order |
| Report.ReportFor | Code.ts:182-252 | succeeds iff the audit column exists, is not the first, and has the week before on its left. On success, the entries come from exactly those two columns. "No column for the audit date" happens iff no header equals it and all are dates. "Left edge" happens iff the audit column is the first |
| Report.ReportForErrors | Code.ts:190-195 | a blank header before the audit date gives `HeaderNotADate` at the first such blank, and only then. An audit column whose left neighbour is not the week before gives `PreviousWeekMismatch` with the expected and the found date |
| Report.FindDateColumnBlank | Code.ts:190 | a blank header with only other dates before it stops the search with an error at that column |
| Report.ReportMeaning | Code.ts:213-251 | a report's entries are exactly the assigned rows, in order. Each entry has the row's name, address, chore and audit-week status, and the lateness rule applied to the two columns |
| Fill.FillWeeks | Code.ts:287-305 | filling keeps the grid well formed |
| Fill.FillChangesOnlyEmptyPersonCells | Code.ts:289-304 | a non-empty cell, or a cell on a row without a person, is kept. An empty cell with a person becomes "Pardoned" without a chore and "Pending (unexcused late)" with one. Every row with a person ends non-empty |
| Fill.FilledLateness | Code.ts:260-262 | `isLate` holds for "", "Done (unexcused late)" and "Pending (unexcused late)" but not "Pardoned". A filled cell on a row with a chore is late iff it was, and a pardoned cell is not late |
| Fill.FillIdempotent | Code.ts:289-304 | filling a column twice gives the same column as filling it once |
| Fill.FillTouchesOneColumn | Code.ts:287-305 | every other column, and the filled column's header and shading, are unchanged |
| Fill.FillKeepsLateness | Code.ts:301-303 | after filling the audit column, the report has the same entries with the same names, chores and lateness. An empty status now reads "Pending (unexcused late)", and none is empty |
| WeekPrep.DeletionThreshold | Code.ts:318-322 | the as-written threshold is 0 ms for every next audit date |
| WeekPrep.ExpiredMeansBeforeEpoch | Code.ts:322 | a column is deleted iff its header is a date before the epoch |
| WeekPrep.RetentionRuleNotApplied | Code.ts:316-322 | a post-epoch column older than the two-week window that the comment describes is not deleted |
| WeekPrep.NoPostEpochColumnDeleted | Code.ts:320-325 | no column with a blank header or a date on or after the epoch is removed by the deletion loop |
| WeekPrep.Kept | Code.ts:320-325 | deletion never adds columns (what survives is stated by `KeptMembers`) |
| WeekPrep.KeptMembers | Code.ts:320-325 | a column survives iff its header is not expired |
| WeekPrep.KeptConcat | Code.ts:319-325 | deletion keeps the survivors' left-to-right order, part by part |
| WeekPrep.KeptAllWhenNoneExpired | Code.ts:320-325 | with no expired header, no column is deleted |
| WeekPrep.KeptKeepsWidths | Code.ts:323 | deleting whole columns keeps every surviving column's row count |
| WeekPrep.PadColumns | Code.ts:327-329 | there are at least 10 status columns afterwards. Existing columns are kept in place and the new ones are blank |
| WeekPrep.PaddedWidths | Code.ts:328 | appended columns have the sheet's row count |
| WeekPrep.PadRows | Code.ts:344-347 | there are at least 30 rows afterwards. All rows but the last keep their place, the last row stays last, and the inserted rows are blank |
| WeekPrep.PadRowsSource | Code.ts:346 | each row of a padded column is its old source row, or blank for an inserted row |
| WeekPrep.PaddedRowsAligned | Code.ts:343-347 | after padding, row i of column A, column B and every status column all come from the same old row, or are all blank |
| WeekPrep.FirstWithDate | Code.ts:351-356 | the first column headed by the date, or none when no header is that date |
| WeekPrep.Shade | Code.ts:349-357 | headers and cells are unchanged. A column is unshaded iff it is the first headed by the next audit date |
| WeekPrep.PreparedWeeksShape | Code.ts:313-358 | after preparing there are at least 10 columns, all with the padded row count. Survivors come first with their headers and cells; the rest are blank |
| Sheet.ChoreSheet.GetReport | Code.ts:182-252 | the row loop returns exactly `ReportFor` |
| Sheet.ChoreSheet.FillEmptyCells | Code.ts:267-306 | if the audit column is found, only that column is filled and the outcome is Pass. Otherwise the search error is returned and nothing changes. Columns A and B are unchanged |
| Sheet.ChoreSheet.PrepareNextWeek | Code.ts:313-358 | the new columns are `PreparedWeeks` of the old ones, and the rows are padded. There are at least 10 columns and 30 rows; the grid stays well formed |
| Sheet.ChoreSheet.DeleteOldColumns | Code.ts:316-325 | the right-to-left loop leaves exactly the survivors of `Kept`, in order |
| Sheet.ChoreSheet.AddMissingColumns | Code.ts:327-329 | the columns become `PadColumns` of the old ones |
| Sheet.ChoreSheet.BackfillHeaders | Code.ts:331-339 | the back-fill loop leaves every column as it was |
| Sheet.ChoreSheet.AddMissingRows | Code.ts:343-347 | columns A and B and every status column are padded by `PadRows` |
| Sheet.ChoreSheet.ShadeColumns | Code.ts:349-357 | the columns become `Shade` of the old ones |
| Notify.Join | Code.ts:102-104 | `join` starts with the first part |
| Notify.JoinLength | Code.ts:102-104 | a join holds every part plus one separator between neighbours, and nothing else |
| Notify.JoinEmpty | Code.ts:126 | joining non-empty parts gives "" iff there are no parts |
| Notify.Emails | Code.ts:126 | an address is listed iff it is non-empty and belongs to some entry. There is at most one per entry, and the list is empty iff no entry has an address |
| Notify.EmailsConcat | Code.ts:126 | addresses are listed in entry order |
| Notify.RecipientsEmpty | Code.ts:126-127 | the recipient list is empty iff no entry has an address |
| Notify.MaxLate | Code.ts:129 | some entry has the maximum lateness, and no entry exceeds it |
| Notify.SubjectReflectsWorstLateness | Code.ts:129-138 | with levels up to 2, the subject says "late twice" iff some entry is late twice. It says "no one late" iff all are on time, and "some people are late" iff the worst level is 1 |
| Notify.ReportMail | Code.ts:124-152 | no report is sent iff no entry has an address. Otherwise one message goes to the joined addresses. Its subject is the prefix, the date and the suffix for the worst lateness; its body is the line list, due-date line and footer |
| Notify.SendEmailReport | Code.ts:124-152 | the outbox gains exactly `ReportMail` |
| Notify.BuildReportBody | Code.ts:140-148 | the body loop builds one line per entry, then the due-date line and the footer |
| Notify.ReminderMails | Code.ts:70-78 | at most one reminder per entry (which ones: `RemindersExactly`) |
| Notify.RemindersExactly | Code.ts:70-78 | every reminder is for an entry with an empty status and an address, sent to that address. Every such entry gets one |
| Notify.RemindersConcat | Code.ts:70-78 | reminders are sent in entry order |
| Notify.SendChoreReminders | Code.ts:64-79 | when disabled nothing is sent; when the report fails its error is returned and nothing is sent. Otherwise the outbox gains exactly `ReminderMails` |
| Notify.BlankStatusChores | Code.ts:96 | an entry is kept iff its status is empty |
| Notify.UpdateChartMail | Code.ts:96-113 | no message iff every status is set. Otherwise one message, with the chart-update subject, to the joined addresses of all entries |
| Notify.SendUpdateChartReminders | Code.ts:90-114 | when disabled nothing is sent; when the report fails its error is returned. Otherwise the outbox gains exactly `UpdateChartMail` |
| Audit.WeeklyAudit | Code.ts:44-50 | a failed fill stops everything. Otherwise the column is filled; unless disabled, the report of the filled grid is sent or its error stops the run. Then the week after is prepared |
| Audit.AuditReportAfterFill | Code.ts:45-47 | the report sent after filling has the unfilled grid's names, chores and lateness, and no empty status |
| Audit.ExampleLateTwice | Code.ts:232-238 | Alice, empty on 8 January and "Done (unexcused late)" on 15 January: the 15 January report rates her late twice, with the late-twice subject |
| Audit.ExampleOneReminder | Code.ts:70-77 | an entry with an empty status gets exactly one reminder; a "Done" entry gets none |

## Left out

- SpreadsheetApp, MailApp, Logger and HtmlService are modelled only as values:
  - sheets are a `Sheet.ChoreSheet` object;
  - a send is an append to the ghost outbox;
  - logging is dropped.
- `getSheetByName`, `getChoresSheet` and `getConfigSheet` are not modelled: opening a spreadsheet by id and failing on a missing tab is host I/O.
- `isDisabled` is the `disabled` parameter; reading the configuration cell is host I/O.
- `today`, `dateOnly` and the default audit dates (today, yesterday, two days ago) are not modelled: they read the clock. The audit date is a parameter.
- `addDays` and `addWeeks` are whole-day integer arithmetic. Time zones, daylight saving time and calendar rollover inside `Date` are not modelled.
- Every date is assumed to be a whole day in UTC, with `getTime()` equal to the day number times 86 400 000. Week headers are read straight from the sheet (`Code.ts:186-187`, `321`, `352`), and `TEST_DATE` and `addWeeks` do not go through `dateOnly`; the model does not capture a header that is not at midnight. In a time zone east of UTC, local midnight of 1 January 1970 has a negative timestamp, so that column is deleted too; the model's day numbers are UTC days.
- `toLocaleDateString("en-US")` is not modelled; the formatted date is the `dateText` parameter.
- The footer constant `VIEW_CHORE_CHART_FOOTER` is the `footer` parameter.
- `doGet`, `include`, the web app's week and status endpoints and `HtmlService.ts` are not part of this model. They are web front-end code outside the audit path.
- The `TEST_*` functions, `SHEET_ID`, `TEST_SHEET_ID` and `TEST_DATE` are not modelled: they are manual test wiring.
- `setColumnWidths` (`Code.ts:341`) and the data validation of status cells are not modelled: they are display only.
- Shading is a per-column flag. The header row is shaded with its column, as the source's range includes row 1.
- Cell values are strings, and headers are dates or blank. A header holding another kind of value (a number, some text) is not modelled. `findIndex` would throw on it as it does on a blank.
- A person cell with several links is not modelled: `getLinkUrl` then returns null, which is the same as no link.
- Sheet.ChoreSheet.PrepareNextWeek: requires at least one data row, and so does Audit.WeeklyAudit, which calls it. On a sheet with only its header row, `insertRows(getMaxRows(), n)` would insert the blank rows above the header; that case is not modelled.
- The delivery of a message with an empty recipient list is left to the mail service and not modelled.
- Notify.SubjectReflectsWorstLateness: it is stated for lateness levels up to 2, the only levels `getReport` produces; a level above 2 gives no suffix (`Notify.SubjectSuffix`).
- The message text of each thrown error is not modelled; each error is a `Report.ReportError` case carrying its data.
