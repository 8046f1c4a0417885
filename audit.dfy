/**
 * `weeklyAudit`: fill the audit column, send the report unless notifications are
 * disabled, and prepare the sheet for the week after. A step that throws stops the run,
 * so the steps after it do not happen.
 */
module Audit {
  import opened Wrappers
  import opened Dates
  import opened Grid
  import opened Report
  import opened Fill
  import opened WeekPrep
  import opened Sheet
  import opened Notify

  method WeeklyAudit(sheet: ChoreSheet, disabled: bool, auditDate: int, dateText: string, footer: string, outbox: Outbox)
    returns (outcome: Outcome<ReportError>)
    requires sheet.Valid() && |sheet.people| >= 1
    modifies sheet, outbox
    ensures sheet.Valid()
    ensures var found := FindDateColumn(old(sheet.weeks), auditDate, 0);
            found.Err? ==>
              && outcome == Fail(found.error)
              && sheet.people == old(sheet.people) && sheet.chores == old(sheet.chores)
              && sheet.weeks == old(sheet.weeks) && outbox.sent == old(outbox.sent)
    ensures var found := FindDateColumn(old(sheet.weeks), auditDate, 0);
            found.Ok? ==>
              var filled := FillWeeks(old(sheet.people), old(sheet.chores), old(sheet.weeks), found.value);
              var report := ReportFor(old(sheet.people), old(sheet.chores), filled, auditDate);
              if !disabled && report.Err? then
                && outcome == Fail(report.error)
                && sheet.people == old(sheet.people) && sheet.chores == old(sheet.chores)
                && sheet.weeks == filled && outbox.sent == old(outbox.sent)
              else
                && outcome == Pass
                && outbox.sent == old(outbox.sent) + (if disabled then [] else ReportMail(report.value, dateText, footer))
                && sheet.people == PadRows(old(sheet.people), BLANK_PERSON)
                && sheet.chores == PadRows(old(sheet.chores), "")
                && sheet.weeks == PreparedWeeks(filled, |old(sheet.people)|, AddWeeks(auditDate, 1))
  {
    var filling := sheet.FillEmptyCells(auditDate);
    if filling.Fail? {
      return filling;
    }
    if !disabled {
      var report := sheet.GetReport(auditDate);
      if report.Err? {
        return Fail(report.error);
      }
      SendEmailReport(report.value, dateText, footer, outbox);
    }
    sheet.PrepareNextWeek(AddWeeks(auditDate, 1));
    return Pass;
  }

  /**
   * The report a weekly audit sends is the report of the grid before filling, except that
   * every entry's audit-week status is set: an empty one reads "Pending (unexcused late)".
   * Names, descriptions and lateness levels are those of the unfilled grid.
   */
  lemma AuditReportAfterFill(people: seq<PersonCell>, chores: seq<string>, weeks: seq<WeekColumn>, auditDate: int)
    requires WellFormed(people, chores, weeks)
    requires FindDateColumn(weeks, auditDate, 0).Ok?
    requires ReportFor(people, chores, weeks, auditDate).Ok?
    ensures var filled := FillWeeks(people, chores, weeks, FindDateColumn(weeks, auditDate, 0).value);
            var after := ReportFor(people, chores, filled, auditDate);
            var before := ReportFor(people, chores, weeks, auditDate).value;
            && after.Ok?
            && |after.value.chores| == |before.chores|
            && forall j :: 0 <= j < |before.chores| ==>
                 var a, b := after.value.chores[j], before.chores[j];
                 && a.person == b.person && a.description == b.description && a.late == b.late
                 && a.auditWeekStatus == (if b.auditWeekStatus == "" then PENDING_LATE else b.auditWeekStatus)
                 && a.auditWeekStatus != ""
  {
    var col := FindDateColumn(weeks, auditDate, 0).value;
    var filled := FillWeeks(people, chores, weeks, col);
    FindDateColumnExact(weeks, auditDate, col);
    FillTouchesOneColumn(people, chores, weeks, col);
    assert IsAuditColumn(filled, auditDate, col);
    FillKeepsLateness(people, chores, weeks, col - 1, col, |people|);
  }

  /**
   * A worked example: weeks dated 1, 8 and 15 January 2020 (days 18262, 18269, 18276 since
   * the epoch); Alice, assigned the dishes, left 8 January empty and marked 15 January
   * "Done (unexcused late)". The report for 15 January has one entry, late twice, and its
   * subject says some people were late twice.
   */
  lemma ExampleLateTwice()
    ensures var people := [PersonCell("Alice", Some("mailto:alice@example.com"))];
            var weeks := [WeekColumn(Dated(18262), [""], true), WeekColumn(Dated(18269), [""], true),
                          WeekColumn(Dated(18276), [DONE_LATE], false)];
            var report := ReportFor(people, ["Dishes"], weeks, 18276);
            && report == Ok(ChoreReport(18276, [Chore(Person("Alice", "alice@example.com"), "Dishes", 2, DONE_LATE)]))
            && SubjectSuffix(MaxLate(report.value.chores)) == LATE_TWICE
  {
    var people := [PersonCell("Alice", Some("mailto:alice@example.com"))];
    var weeks := [WeekColumn(Dated(18262), [""], true), WeekColumn(Dated(18269), [""], true),
                  WeekColumn(Dated(18276), [DONE_LATE], false)];
    var chores := ["Dishes"];
    assert IsAuditColumn(weeks, 18276, 2);
    FindDateColumnExact(weeks, 18276, 2);
    assert weeks[1].header == Dated(AddWeeks(18276, -1));
    var report := ReportFor(people, chores, weeks, 18276);
    assert report == Ok(ChoreReport(18276, Entries(people, chores, weeks, 1, 2, 1)));
    assert MAILTO + "alice@example.com" == "mailto:alice@example.com";
    EmailOfMailto("alice@example.com");
    var alice := Chore(Person("Alice", "alice@example.com"), "Dishes", 2, DONE_LATE);
    assert MakeChore(people[0], chores[0], "", DONE_LATE) == alice;
    assert Entries(people, chores, weeks, 1, 2, 1) == [] + [alice] == [alice];
  }

  /**
   * A worked example: of two entries, the one with an empty status and an address gets
   * exactly one reminder; the one marked "Done" gets none.
   */
  lemma ExampleOneReminder(footer: string)
    ensures var pending := Chore(Person("Alice", "alice@example.com"), "Dishes", 1, "");
            var done := Chore(Person("Bob", "bob@example.com"), "Trash", 0, "Done");
            ReminderMails([pending, done], footer) == [ReminderMail(pending, footer)]
  {
    var pending := Chore(Person("Alice", "alice@example.com"), "Dishes", 1, "");
    var done := Chore(Person("Bob", "bob@example.com"), "Trash", 0, "Done");
    assert [pending, done][..1] == [pending];
    assert [pending][..0] == [];
  }
}
