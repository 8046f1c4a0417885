/**
 * The report engine: `isLate` and the pure content of `getReport`.
 *
 * A report is computed for an audit date: the first week header equal to that date
 * names the audit column, the column to its left must be the week before, and every
 * row with a person and a chore becomes one entry, top to bottom, carrying a lateness
 * level of 0, 1 or 2.
 */
module Report {
  import opened Wrappers
  import opened Dates
  import opened Grid

  const DONE_LATE: string := "Done (unexcused late)"
  const PENDING_LATE: string := "Pending (unexcused late)"
  const MAILTO: string := "mailto:"

  datatype Person = Person(name: string, email: string)

  /** One report entry; `late` is 0 (on time), 1 (late this week) or 2 (late two weeks running). */
  datatype Chore = Chore(person: Person, description: string, late: nat, auditWeekStatus: string)

  datatype ChoreReport = ChoreReport(auditDate: int, chores: seq<Chore>)

  /** The errors `getReport` throws. */
  datatype ReportError =
    | HeaderNotADate(column: nat)          // a blank header is reached before the audit date: `getTime` is not a function
    | NoAuditColumn(auditDate: int)        // no header equals the audit date
    | AuditColumnAtLeftEdge                // the audit column is the first status column
    | PreviousWeekMismatch(expected: int, found: int)  // the column to the left is not the week before

  /** The three statuses that count as late. */
  predicate IsLate(status: string)
  {
    status == "" || status == DONE_LATE || status == PENDING_LATE
  }

  /** Lateness of one row from its audit-week and previous-week statuses. */
  function LateLevel(auditWeekStatus: string, lastWeekStatus: string): (late: nat)
    ensures late <= 2
    ensures late == 0 <==> !IsLate(auditWeekStatus)
    ensures late == 2 <==> IsLate(auditWeekStatus) && IsLate(lastWeekStatus)
  {
    if IsLate(auditWeekStatus) then
      if IsLate(lastWeekStatus) then 2 else 1
    else
      0
  }

  /** The e-mail address of a person cell: its link URL without a leading `mailto:`, else empty. */
  function EmailOf(link: Option<string>): (email: string)
    ensures link.Some? && MAILTO <= link.value ==> link.value == MAILTO + email
    ensures !(link.Some? && MAILTO <= link.value) ==> email == ""
  {
    if link.Some? && MAILTO <= link.value then link.value[|MAILTO|..] else ""
  }

  lemma EmailOfMailto(address: string)
    ensures EmailOf(Some(MAILTO + address)) == address
  {
    assert MAILTO <= MAILTO + address;
  }

  /** Headers `lo` up to `hi` (exclusive) are all dates, none of them `day`. */
  ghost predicate DatedOtherThan(weeks: seq<WeekColumn>, day: int, lo: nat, hi: nat)
    requires lo <= hi <= |weeks|
  {
    forall k :: lo <= k < hi ==> weeks[k].header.Dated? && weeks[k].header.day != day
  }

  /** `col` is the index `findIndex` returns for `day`: the first header equal to it, all earlier ones dates. */
  ghost predicate IsAuditColumn(weeks: seq<WeekColumn>, day: int, col: nat)
  {
    col < |weeks| && weeks[col].header == Dated(day) && DatedOtherThan(weeks, day, 0, col)
  }

  /**
   * `dates.findIndex(v => v.getTime() === day)` from position `i` on: the first header
   * equal to `day`; reaching a blank header first throws, and so does finding none.
   */
  function FindDateColumn(weeks: seq<WeekColumn>, day: int, i: nat): (r: Result<nat, ReportError>)
    requires i <= |weeks|
    ensures r.Ok? ==>
      i <= r.value < |weeks| && weeks[r.value].header == Dated(day) && DatedOtherThan(weeks, day, i, r.value)
    ensures r.Err? && r.error.HeaderNotADate? ==>
      i <= r.error.column < |weeks| && weeks[r.error.column].header == Blank
      && DatedOtherThan(weeks, day, i, r.error.column)
    ensures r.Err? ==> r.error.HeaderNotADate? || r.error == NoAuditColumn(day)
    ensures r == Err(NoAuditColumn(day)) <==> DatedOtherThan(weeks, day, i, |weeks|)
    ensures forall c: nat :: i <= c < |weeks| && weeks[c].header == Dated(day) && DatedOtherThan(weeks, day, i, c) ==> r == Ok(c)
    decreases |weeks| - i
  {
    if i == |weeks| then Err(NoAuditColumn(day))
    else match weeks[i].header
      case Blank => Err(HeaderNotADate(i))
      case Dated(d) => if d == day then Ok(i) else FindDateColumn(weeks, day, i + 1)
  }

  /** A blank header with only other dates before it stops the search with `HeaderNotADate` at that column. */
  lemma {:induction false} FindDateColumnBlank(weeks: seq<WeekColumn>, day: int, i: nat, k: nat)
    requires i <= k < |weeks| && weeks[k].header == Blank && DatedOtherThan(weeks, day, i, k)
    ensures FindDateColumn(weeks, day, i) == Err(HeaderNotADate(k))
    decreases k - i
  {
    if i < k {
      FindDateColumnBlank(weeks, day, i + 1, k);
    }
  }

  /** The audit column search finds exactly the column `IsAuditColumn` describes. */
  lemma FindDateColumnExact(weeks: seq<WeekColumn>, day: int, col: nat)
    ensures FindDateColumn(weeks, day, 0) == Ok(col) <==> IsAuditColumn(weeks, day, col)
  {
  }

  /** Rows that take part in a report: a person and a chore are both present. */
  predicate Assigned(person: PersonCell, chore: string)
  {
    person.text != "" && chore != ""
  }

  /** The report entry of one row, given its previous-week and audit-week statuses. */
  function MakeChore(person: PersonCell, chore: string, lastWeekStatus: string, auditWeekStatus: string): Chore
  {
    Chore(Person(person.text, EmailOf(person.link)), chore, LateLevel(auditWeekStatus, lastWeekStatus), auditWeekStatus)
  }

  /** The columns `prev` and `col` exist in a well-formed grid. */
  ghost predicate ReadsColumns(people: seq<PersonCell>, chores: seq<string>, weeks: seq<WeekColumn>, prev: nat, col: nat)
  {
    WellFormed(people, chores, weeks) && prev < |weeks| && col < |weeks|
  }

  /** The entries the first `n` rows contribute, reading statuses from columns `prev` and `col`. */
  function Entries(people: seq<PersonCell>, chores: seq<string>, weeks: seq<WeekColumn>, prev: nat, col: nat, n: nat): (r: seq<Chore>)
    requires ReadsColumns(people, chores, weeks, prev, col) && n <= |people|
  {
    if n == 0 then []
    else
      Entries(people, chores, weeks, prev, col, n - 1)
      + if Assigned(people[n - 1], chores[n - 1])
        then [MakeChore(people[n - 1], chores[n - 1], weeks[prev].cells[n - 1], weeks[col].cells[n - 1])]
        else []
  }

  /** The indices of the assigned rows among the first `n`, top to bottom. */
  ghost function AssignedRows(people: seq<PersonCell>, chores: seq<string>, n: nat): (rows: seq<nat>)
    requires |chores| == |people| && n <= |people|
    ensures forall j :: 0 <= j < |rows| ==> rows[j] < n && Assigned(people[rows[j]], chores[rows[j]])
    ensures forall j, k :: 0 <= j < k < |rows| ==> rows[j] < rows[k]
    ensures forall i :: 0 <= i < n && Assigned(people[i], chores[i]) ==> i in rows
  {
    if n == 0 then []
    else AssignedRows(people, chores, n - 1) + if Assigned(people[n - 1], chores[n - 1]) then [n - 1] else []
  }

  /** Entry `j` of the report is the entry of the `j`-th assigned row: one entry per such row, in row order. */
  lemma {:induction false} EntriesFollowAssignedRows(
    people: seq<PersonCell>, chores: seq<string>, weeks: seq<WeekColumn>, prev: nat, col: nat, n: nat)
    requires ReadsColumns(people, chores, weeks, prev, col) && n <= |people|
    ensures var rows := AssignedRows(people, chores, n);
            var es := Entries(people, chores, weeks, prev, col, n);
            |es| == |rows|
            && forall j :: 0 <= j < |rows| ==>
                 es[j] == MakeChore(people[rows[j]], chores[rows[j]], weeks[prev].cells[rows[j]], weeks[col].cells[rows[j]])
  {
    if n > 0 {
      EntriesFollowAssignedRows(people, chores, weeks, prev, col, n - 1);
    }
  }

  /**
   * `getReport` without the spreadsheet: find the audit column, check the week to its
   * left, and list the entries of all data rows.
   */
  function ReportFor(people: seq<PersonCell>, chores: seq<string>, weeks: seq<WeekColumn>, auditDate: int): (r: Result<ChoreReport, ReportError>)
    requires WellFormed(people, chores, weeks)
    ensures r.Ok? <==>
      exists col :: IsAuditColumn(weeks, auditDate, col) && 0 < col && weeks[col - 1].header == Dated(AddWeeks(auditDate, -1))
    ensures forall col: nat :: IsAuditColumn(weeks, auditDate, col) && 0 < col && r.Ok? ==>
      r.value == ChoreReport(auditDate, Entries(people, chores, weeks, col - 1, col, |people|))
    ensures r == Err(NoAuditColumn(auditDate)) <==> DatedOtherThan(weeks, auditDate, 0, |weeks|)
    ensures r == Err(AuditColumnAtLeftEdge) <==> IsAuditColumn(weeks, auditDate, 0)
    ensures r.Err? && r.error.PreviousWeekMismatch? ==>
      exists col :: IsAuditColumn(weeks, auditDate, col) && 0 < col && weeks[col - 1].header != Dated(AddWeeks(auditDate, -1))
  {
    var found := FindDateColumn(weeks, auditDate, 0);
    FindDateColumnFacts(weeks, auditDate, found);
    match found
    case Err(e) => Err(e)
    case Ok(col) =>
      if col == 0 then Err(AuditColumnAtLeftEdge)
      else if weeks[col - 1].header.day != AddWeeks(auditDate, -1) then
        Err(PreviousWeekMismatch(AddWeeks(auditDate, -1), weeks[col - 1].header.day))
      else Ok(ChoreReport(auditDate, Entries(people, chores, weeks, col - 1, col, |people|)))
  }

  /**
   * The two remaining errors of `getReport`, each with its data: a blank header before any
   * header equal to the audit date gives `HeaderNotADate` for the first such blank, and an
   * audit column whose left neighbour is not the week before gives `PreviousWeekMismatch`
   * with the expected and the found date.
   */
  lemma ReportForErrors(people: seq<PersonCell>, chores: seq<string>, weeks: seq<WeekColumn>, auditDate: int)
    requires WellFormed(people, chores, weeks)
    ensures var r := ReportFor(people, chores, weeks, auditDate);
            && (forall col: nat :: IsAuditColumn(weeks, auditDate, col) && 0 < col && weeks[col - 1].header != Dated(AddWeeks(auditDate, -1)) ==>
                  r == Err(PreviousWeekMismatch(AddWeeks(auditDate, -1), weeks[col - 1].header.day)))
            && (r.Err? && r.error.HeaderNotADate? ==>
                  r.error.column < |weeks| && weeks[r.error.column].header == Blank && DatedOtherThan(weeks, auditDate, 0, r.error.column))
            && (forall k: nat :: k < |weeks| && weeks[k].header == Blank && DatedOtherThan(weeks, auditDate, 0, k) ==>
                  r == Err(HeaderNotADate(k)))
  {
    var found := FindDateColumn(weeks, auditDate, 0);
    FindDateColumnFacts(weeks, auditDate, found);
  }

  lemma FindDateColumnFacts(weeks: seq<WeekColumn>, day: int, found: Result<nat, ReportError>)
    requires found == FindDateColumn(weeks, day, 0)
    ensures found.Ok? ==> IsAuditColumn(weeks, day, found.value)
    ensures forall col: nat :: IsAuditColumn(weeks, day, col) ==> found == Ok(col)
    ensures forall k: nat :: k < |weeks| && weeks[k].header == Blank && DatedOtherThan(weeks, day, 0, k) ==>
      found == Err(HeaderNotADate(k))
  {
    forall k: nat | k < |weeks| && weeks[k].header == Blank && DatedOtherThan(weeks, day, 0, k)
      ensures found == Err(HeaderNotADate(k))
    {
      FindDateColumnBlank(weeks, day, 0, k);
    }
    forall col: nat | IsAuditColumn(weeks, day, col)
      ensures found == Ok(col)
    {
      FindDateColumnExact(weeks, day, col);
    }
  }

  /**
   * What a successful report says about the grid: its date is the audit date, and its
   * entries are, in row order, exactly the rows with a person and a chore, each carrying
   * that row's name, address, description and audit-week status, and a lateness level
   * that is 0 iff the audit-week status is not late and 2 iff both weeks are late.
   */
  lemma {:induction false} ReportMeaning(people: seq<PersonCell>, chores: seq<string>, weeks: seq<WeekColumn>, auditDate: int, col: nat)
    requires WellFormed(people, chores, weeks)
    requires ReportFor(people, chores, weeks, auditDate).Ok?
    requires IsAuditColumn(weeks, auditDate, col)
    ensures 0 < col
    ensures var report := ReportFor(people, chores, weeks, auditDate).value;
            var rows := AssignedRows(people, chores, |people|);
            && report.auditDate == auditDate
            && |report.chores| == |rows|
            && forall j :: 0 <= j < |rows| ==>
                 var e, i := report.chores[j], rows[j];
                 && e.person.name == people[i].text != ""
                 && e.person.email == EmailOf(people[i].link)
                 && e.description == chores[i] != ""
                 && e.auditWeekStatus == weeks[col].cells[i]
                 && e.late <= 2
                 && (e.late == 0 <==> !IsLate(weeks[col].cells[i]))
                 && (e.late == 2 <==> IsLate(weeks[col].cells[i]) && IsLate(weeks[col - 1].cells[i]))
  {
    FindDateColumnExact(weeks, auditDate, col);
    EntriesFollowAssignedRows(people, chores, weeks, col - 1, col, |people|);
  }
}
