/**
 * Notification selection: who receives the audit report, the chore reminders and the
 * chart-update reminder, when nothing is sent, and what subject and body lines go out.
 * Sending is an append to a ghost outbox; the host's date formatting is the `dateText`
 * parameter and the chart footer line is the `footer` parameter.
 */
module Notify {
  import opened Wrappers
  import opened Grid
  import opened Report
  import opened Sheet

  const REPORT_SUBJECT_PREFIX: string := "Dingo chores report for "
  const NO_ONE_LATE: string := ": no one late"
  const SOME_LATE: string := ": some people are late"
  const LATE_TWICE: string := ": some people were late twice!"
  const LATE_TWICE_NOTE: string := " - Late twice in a row!"
  const DUE_LINE: string := "These chores were due in the most wee hours of the night of "
  const REMINDER_SUBJECT: string := "You have chores due. Dingo needs you!"
  const UPDATE_SUBJECT: string := "Please update the chore chart"
  const UPDATE_NOTE: string := "Forget not to update the chart! The final report will be sent out soon."

  datatype Mail = Mail(recipients: string, subject: string, body: string)

  /** The messages handed to the mail service, oldest first. */
  class Outbox {
    ghost var sent: seq<Mail>

    constructor ()
      ensures sent == []
    {
      sent := [];
    }
  }

  /** `Array.prototype.join`. */
  function Join(parts: seq<string>, separator: string): (r: string)
    ensures parts != [] ==> parts[0] <= r
  {
    if parts == [] then ""
    else if |parts| == 1 then parts[0]
    else parts[0] + separator + Join(parts[1..], separator)
  }

  /** The total length of `parts`. */
  function TotalLength(parts: seq<string>): nat
  {
    if parts == [] then 0 else |parts[0]| + TotalLength(parts[1..])
  }

  /** A join holds every part and one separator between each two neighbours, and nothing else. */
  lemma {:induction false} JoinLength(parts: seq<string>, separator: string)
    requires parts != []
    ensures |Join(parts, separator)| == TotalLength(parts) + (|parts| - 1) * |separator|
  {
    if |parts| > 1 {
      JoinLength(parts[1..], separator);
    }
  }

  /** Joining non-empty parts gives the empty string only when there are no parts. */
  lemma JoinEmpty(parts: seq<string>, separator: string)
    requires forall p :: p in parts ==> p != ""
    ensures Join(parts, separator) == "" <==> parts == []
  {
    if parts != [] {
      assert parts[0] in parts;
    }
  }

  /** The non-empty addresses of the entries, in report order. */
  function Emails(chores: seq<Chore>): (r: seq<string>)
    ensures |r| <= |chores|
    ensures forall e :: e in r ==> e != ""
    ensures r == [] <==> forall c :: c in chores ==> c.person.email == ""
    ensures forall e :: e in r <==> e != "" && exists c :: c in chores && c.person.email == e
  {
    if chores == [] then []
    else
      assert chores == [chores[0]] + chores[1..];
      (if chores[0].person.email != "" then [chores[0].person.email] else []) + Emails(chores[1..])
  }

  /** Addresses are listed in entry order: those of a first part of the report precede those of the rest. */
  lemma {:induction false} EmailsConcat(front: seq<Chore>, back: seq<Chore>)
    ensures Emails(front + back) == Emails(front) + Emails(back)
  {
    if front != [] {
      assert (front + back)[0] == front[0];
      assert (front + back)[1..] == front[1..] + back;
      EmailsConcat(front[1..], back);
    } else {
      assert front + back == back;
    }
  }

  /** The comma-joined recipient list of the audit report and the chart-update reminder. */
  function Recipients(chores: seq<Chore>): string
  {
    Join(Emails(chores), ",")
  }

  /** The recipient list is empty exactly when no entry has an address. */
  lemma RecipientsEmpty(chores: seq<Chore>)
    ensures Recipients(chores) == "" <==> forall c :: c in chores ==> c.person.email == ""
  {
    JoinEmpty(Emails(chores), ",");
  }

  /** `Math.max` of the entries' lateness levels. */
  function MaxLate(chores: seq<Chore>): (m: nat)
    requires chores != []
    ensures exists c :: c in chores && c.late == m
    ensures forall c :: c in chores ==> c.late <= m
  {
    if |chores| == 1 then chores[0].late
    else
      var rest := MaxLate(chores[1..]);
      assert chores == [chores[0]] + chores[1..];
      if chores[0].late >= rest then chores[0].late else rest
  }

  /** The subject suffix chosen by the worst lateness level. */
  function SubjectSuffix(maxLate: nat): string
  {
    if maxLate == 0 then NO_ONE_LATE
    else if maxLate == 1 then SOME_LATE
    else if maxLate == 2 then LATE_TWICE
    else ""
  }

  /**
   * For lateness levels 0 to 2, the subject says "some people were late twice!" iff an
   * entry is late twice, "no one late" iff every entry is on time, and "some people are
   * late" otherwise.
   */
  lemma SubjectReflectsWorstLateness(chores: seq<Chore>)
    requires chores != [] && forall c :: c in chores ==> c.late <= 2
    ensures SubjectSuffix(MaxLate(chores)) == LATE_TWICE <==> exists c :: c in chores && c.late == 2
    ensures SubjectSuffix(MaxLate(chores)) == NO_ONE_LATE <==> forall c :: c in chores ==> c.late == 0
    ensures SubjectSuffix(MaxLate(chores)) == SOME_LATE <==>
      (exists c :: c in chores && c.late == 1) && forall c :: c in chores ==> c.late <= 1
  {
    assert |NO_ONE_LATE| != |SOME_LATE| && |SOME_LATE| != |LATE_TWICE| && |NO_ONE_LATE| != |LATE_TWICE|;
  }

  /** The body line of one entry; only a late-twice entry carries the note. */
  function ReportLine(chore: Chore): string
  {
    var status := chore.auditWeekStatus + (if chore.late == 2 then LATE_TWICE_NOTE else "");
    chore.person.name + " - " + chore.description + " - " + status
  }

  /** One line per entry, in report order. */
  function ReportLines(chores: seq<Chore>): string
  {
    if chores == [] then ""
    else ReportLines(chores[..|chores| - 1]) + ReportLine(chores[|chores| - 1]) + "\n"
  }

  /** The audit report `sendEmailReport` sends for `report`: none when no entry has an address. */
  function ReportMail(report: ChoreReport, dateText: string, footer: string): (r: seq<Mail>)
    ensures r == [] <==> forall c :: c in report.chores ==> c.person.email == ""
    ensures r != [] ==> |r| == 1 && r[0].recipients == Recipients(report.chores)
    ensures r != [] ==>
      && r[0].subject == REPORT_SUBJECT_PREFIX + dateText + SubjectSuffix(MaxLate(report.chores))
      && r[0].body == ReportBody(report.chores, dateText, footer)
  {
    var recipients := Recipients(report.chores);
    RecipientsEmpty(report.chores);
    if recipients == "" then []
    else
      var subject := REPORT_SUBJECT_PREFIX + dateText + SubjectSuffix(MaxLate(report.chores));
      [Mail(recipients, subject, ReportBody(report.chores, dateText, footer))]
  }

  /** The report body: one line per entry, then the due-date line and the footer. */
  function ReportBody(chores: seq<Chore>, dateText: string, footer: string): string
  {
    ReportLines(chores) + "\n" + DUE_LINE + dateText + ".\n" + "\n" + footer
  }

  /** `sendEmailReport`: picks the subject, builds the body line by line, and sends one message. */
  method SendEmailReport(report: ChoreReport, dateText: string, footer: string, outbox: Outbox)
    modifies outbox
    ensures outbox.sent == old(outbox.sent) + ReportMail(report, dateText, footer)
  {
    var chores := report.chores;
    var recipients := Join(Emails(chores), ",");
    RecipientsEmpty(chores);
    if |recipients| == 0 {
      return;
    }
    var maxLate := MaxLate(chores);
    var subject := REPORT_SUBJECT_PREFIX + dateText;
    if maxLate == 0 {
      subject := subject + NO_ONE_LATE;
    } else if maxLate == 1 {
      subject := subject + SOME_LATE;
    } else if maxLate == 2 {
      subject := subject + LATE_TWICE;
    } else {
      assert subject + SubjectSuffix(maxLate) == subject;
    }
    var body := BuildReportBody(chores, dateText, footer);
    outbox.sent := outbox.sent + [Mail(recipients, subject, body)];
  }

  /** The body loop of `sendEmailReport`. */
  method BuildReportBody(chores: seq<Chore>, dateText: string, footer: string) returns (body: string)
    ensures body == ReportBody(chores, dateText, footer)
  {
    body := "";
    for i := 0 to |chores|
      invariant body == ReportLines(chores[..i])
    {
      assert chores[..i + 1][..i] == chores[..i];
      var status := chores[i].auditWeekStatus + (if chores[i].late == 2 then LATE_TWICE_NOTE else "");
      var line := chores[i].person.name + " - " + chores[i].description + " - " + status;
      body := body + line;
      body := body + "\n";
    }
    assert chores[..|chores|] == chores;
    body := body + "\n" + DUE_LINE + dateText + ".\n";
    body := body + "\n" + footer;
  }

  /** A chore reminder goes to an entry whose status is still empty and that has an address. */
  predicate NeedsReminder(chore: Chore)
  {
    chore.auditWeekStatus == "" && chore.person.email != ""
  }

  function ReminderMail(chore: Chore, footer: string): Mail
  {
    var body := "Please remember to do you chores (" + chore.description + ") and update the online chore chart.";
    Mail(chore.person.email, REMINDER_SUBJECT, body + "\n\n" + footer)
  }

  /** The reminders `sendChoreReminders` sends, in report order. */
  function ReminderMails(chores: seq<Chore>, footer: string): (r: seq<Mail>)
    ensures |r| <= |chores|
  {
    if chores == [] then []
    else
      ReminderMails(chores[..|chores| - 1], footer)
      + if NeedsReminder(chores[|chores| - 1]) then [ReminderMail(chores[|chores| - 1], footer)] else []
  }

  /**
   * Every reminder is for an entry with an empty status and an address and goes to that
   * address; every such entry gets a reminder. Order is `RemindersConcat`.
   */
  lemma {:induction false} RemindersExactly(chores: seq<Chore>, footer: string)
    ensures var r := ReminderMails(chores, footer);
            && (forall m :: m in r ==> exists c :: c in chores && NeedsReminder(c) && m == ReminderMail(c, footer))
            && (forall c :: c in chores && NeedsReminder(c) ==> ReminderMail(c, footer) in r)
            && (forall m :: m in r ==> m.recipients != "" && m.subject == REMINDER_SUBJECT)
  {
    if chores != [] {
      var front, last := chores[..|chores| - 1], chores[|chores| - 1];
      RemindersExactly(front, footer);
      assert chores == front + [last];
      var r, earlier := ReminderMails(chores, footer), ReminderMails(front, footer);
      forall m | m in r
        ensures exists c :: c in chores && NeedsReminder(c) && m == ReminderMail(c, footer)
      {
        if m in earlier {
          var c :| c in front && NeedsReminder(c) && m == ReminderMail(c, footer);
          assert c in chores;
        } else {
          assert last in chores;
        }
      }
    }
  }

  /** Reminders follow report order: those of a first part of the report precede those of the rest. */
  lemma {:induction false} RemindersConcat(front: seq<Chore>, back: seq<Chore>, footer: string)
    ensures ReminderMails(front + back, footer) == ReminderMails(front, footer) + ReminderMails(back, footer)
  {
    if back == [] {
      assert front + back == front;
    } else {
      var last := back[|back| - 1];
      assert (front + back)[..|front + back| - 1] == front + back[..|back| - 1];
      assert (front + back)[|front + back| - 1] == last;
      RemindersConcat(front, back[..|back| - 1], footer);
    }
  }

  /** `sendChoreReminders`: unless disabled, one reminder per entry still without a status. */
  method SendChoreReminders(sheet: ChoreSheet, disabled: bool, auditDate: int, footer: string, outbox: Outbox)
    returns (outcome: Outcome<ReportError>)
    requires sheet.Valid()
    modifies outbox
    ensures var report := ReportFor(sheet.people, sheet.chores, sheet.weeks, auditDate);
            if disabled then outcome == Pass && outbox.sent == old(outbox.sent)
            else if report.Err? then outcome == Fail(report.error) && outbox.sent == old(outbox.sent)
            else outcome == Pass && outbox.sent == old(outbox.sent) + ReminderMails(report.value.chores, footer)
  {
    if disabled {
      return Pass;
    }
    var report := sheet.GetReport(auditDate);
    if report.Err? {
      return Fail(report.error);
    }
    var chores := report.value.chores;
    for i := 0 to |chores|
      invariant outbox.sent == old(outbox.sent) + ReminderMails(chores[..i], footer)
    {
      assert chores[..i + 1][..i] == chores[..i];
      var chore := chores[i];
      if chore.auditWeekStatus != "" {
        continue;
      }
      if chore.person.email == "" {
        continue;
      }
      var body := "Please remember to do you chores (" + chore.description + ") and update the online chore chart.";
      body := body + "\n\n" + footer;
      outbox.sent := outbox.sent + [Mail(chore.person.email, REMINDER_SUBJECT, body)];
    }
    assert chores[..|chores|] == chores;
    return Pass;
  }

  /** The entries whose audit-week status is still empty, in report order. */
  function BlankStatusChores(chores: seq<Chore>): (r: seq<Chore>)
    ensures forall c :: c in r <==> c in chores && c.auditWeekStatus == ""
  {
    if chores == [] then []
    else
      assert chores == [chores[0]] + chores[1..];
      (if chores[0].auditWeekStatus == "" then [chores[0]] else []) + BlankStatusChores(chores[1..])
  }

  function Names(chores: seq<Chore>): seq<string>
  {
    seq(|chores|, i requires 0 <= i < |chores| => chores[i].person.name)
  }

  /**
   * The chart-update reminder: sent only when some entry has an empty status, once, to
   * the comma-joined addresses of all entries, naming the entries with an empty status.
   */
  function UpdateChartMail(chores: seq<Chore>, footer: string): (r: seq<Mail>)
    ensures r == [] <==> forall c :: c in chores ==> c.auditWeekStatus != ""
    ensures r != [] ==> |r| == 1 && r[0].recipients == Recipients(chores) && r[0].subject == UPDATE_SUBJECT
  {
    var emptyStatusChores := BlankStatusChores(chores);
    if emptyStatusChores == [] then []
    else
      var body := "Did " + Join(Names(emptyStatusChores), ", ") + " do their chores?\n\n" + UPDATE_NOTE + "\n\n" + footer;
      [Mail(Recipients(chores), UPDATE_SUBJECT, body)]
  }

  /** `sendUpdateChartReminders`: unless disabled, one message when some status is empty. */
  method SendUpdateChartReminders(sheet: ChoreSheet, disabled: bool, auditDate: int, footer: string, outbox: Outbox)
    returns (outcome: Outcome<ReportError>)
    requires sheet.Valid()
    modifies outbox
    ensures var report := ReportFor(sheet.people, sheet.chores, sheet.weeks, auditDate);
            if disabled then outcome == Pass && outbox.sent == old(outbox.sent)
            else if report.Err? then outcome == Fail(report.error) && outbox.sent == old(outbox.sent)
            else outcome == Pass && outbox.sent == old(outbox.sent) + UpdateChartMail(report.value.chores, footer)
  {
    if disabled {
      return Pass;
    }
    var report := sheet.GetReport(auditDate);
    if report.Err? {
      return Fail(report.error);
    }
    var chores := report.value.chores;
    var emptyStatusChores := BlankStatusChores(chores);
    if |emptyStatusChores| == 0 {
      return Pass;
    }
    var recipients := Join(Emails(chores), ",");
    var emptyStatusPeople := Join(Names(emptyStatusChores), ", ");
    var body := "Did " + emptyStatusPeople + " do their chores?\n\n";
    body := body + UPDATE_NOTE;
    body := body + "\n\n" + footer;
    outbox.sent := outbox.sent + [Mail(recipients, UPDATE_SUBJECT, body)];
    return Pass;
  }
}
