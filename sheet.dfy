/**
 * The "Weekly chores" sheet as an object the script reads and changes in place:
 * `getReport`, `fillEmptyCells` and `prepareNextWeek`, each proved against the
 * functions of `Report`, `Fill` and `WeekPrep`.
 */
module Sheet {
  import opened Wrappers
  import opened Dates
  import opened Grid
  import opened Report
  import opened Fill
  import opened WeekPrep

  class ChoreSheet {
    /** Column A, rows 2 onwards. */
    var people: seq<PersonCell>
    /** Column B, rows 2 onwards. */
    var chores: seq<string>
    /** Columns C onwards: header, status cells and shading of each week. */
    var weeks: seq<WeekColumn>

    ghost predicate Valid()
      reads this
    {
      WellFormed(people, chores, weeks)
    }

    constructor (people: seq<PersonCell>, chores: seq<string>, weeks: seq<WeekColumn>)
      requires WellFormed(people, chores, weeks)
      ensures Valid()
      ensures this.people == people && this.chores == chores && this.weeks == weeks
    {
      this.people := people;
      this.chores := chores;
      this.weeks := weeks;
    }

    /** `getReport`: the audit report for `auditDate`, built row by row. */
    method GetReport(auditDate: int) returns (r: Result<ChoreReport, ReportError>)
      requires Valid()
      ensures r == ReportFor(people, chores, weeks, auditDate)
    {
      var found := FindDateColumn(weeks, auditDate, 0);
      if found.Err? {
        return Err(found.error);
      }
      var dateColumn := found.value;
      if dateColumn == 0 {
        return Err(AuditColumnAtLeftEdge);
      }
      var previousDateColumn := dateColumn - 1;
      var previousWeek := AddWeeks(auditDate, -1);
      if weeks[previousDateColumn].header.day != previousWeek {
        return Err(PreviousWeekMismatch(previousWeek, weeks[previousDateColumn].header.day));
      }

      var list: seq<Chore> := [];
      for i := 0 to |people|
        invariant list == Entries(people, chores, weeks, previousDateColumn, dateColumn, i)
      {
        var personCell := people[i];
        if personCell.text == "" {
          continue;
        }
        var name := personCell.text;
        var email := "";
        if personCell.link.Some? && MAILTO <= personCell.link.value {
          email := personCell.link.value[|MAILTO|..];
        }
        var description := chores[i];
        if description == "" {
          continue;
        }
        var lastWeekStatus := weeks[previousDateColumn].cells[i];
        var auditWeekStatus := weeks[dateColumn].cells[i];
        var late := 0;
        if IsLate(auditWeekStatus) {
          late := 1;
          if IsLate(lastWeekStatus) {
            late := 2;
          }
        }
        list := list + [Chore(Person(name, email), description, late, auditWeekStatus)];
      }
      return Ok(ChoreReport(auditDate, list));
    }

    /**
     * `fillEmptyCells`: fills the audit column's empty cells in a copy of the column and
     * writes the copy back. It fails, changing nothing, when the audit column is not found.
     */
    method FillEmptyCells(auditDate: int) returns (outcome: Outcome<ReportError>)
      requires Valid()
      modifies this
      ensures Valid()
      ensures people == old(people) && chores == old(chores)
      ensures var found := FindDateColumn(old(weeks), auditDate, 0);
              if found.Ok? then outcome == Pass && weeks == FillWeeks(people, chores, old(weeks), found.value)
              else outcome == Fail(found.error) && weeks == old(weeks)
    {
      var found := FindDateColumn(weeks, auditDate, 0);
      if found.Err? {
        return Fail(found.error);
      }
      var dateColumn := found.value;
      var statuses := weeks[dateColumn].cells;
      for i := 0 to |statuses|
        invariant |statuses| == |people|
        invariant forall k :: 0 <= k < i ==> statuses[k] == FilledStatus(people[k], chores[k], weeks[dateColumn].cells[k])
        invariant forall k :: i <= k < |statuses| ==> statuses[k] == weeks[dateColumn].cells[k]
      {
        if people[i].text == "" {
          continue;
        }
        if chores[i] == "" {
          if statuses[i] == "" {
            statuses := statuses[i := PARDONED];
          }
          continue;
        }
        if statuses[i] == "" {
          statuses := statuses[i := PENDING_LATE];
        }
      }
      assert statuses == FillColumn(people, chores, weeks[dateColumn].cells);
      weeks := weeks[dateColumn := weeks[dateColumn].(cells := statuses)];
      return Pass;
    }

    /**
     * `prepareNextWeek`: delete expired columns, add blank columns up to the minimum, run
     * the header back-fill loop, add blank rows up to the minimum and shade every status
     * column except the next audit date's.
     */
    method PrepareNextWeek(nextAuditDate: int)
      requires Valid() && |people| >= 1
      modifies this
      ensures Valid()
      ensures people == PadRows(old(people), BLANK_PERSON) && chores == PadRows(old(chores), "")
      ensures weeks == PreparedWeeks(old(weeks), |old(people)|, nextAuditDate)
      ensures |weeks| >= MIN_STATUS_COLUMNS && |people| >= MIN_ROWS
    {
      var oldestDate := AddWeeks(nextAuditDate, -MAX_OLD_COLUMNS);
      DeleteOldColumns(MillisecondsOf(oldestDate));
      AddMissingColumns();
      BackfillHeaders();
      AddMissingRows();
      ShadeColumns(nextAuditDate);
    }

    /** Deletes, scanning from the rightmost status column leftwards, every expired column. */
    method DeleteOldColumns(thresholdMs: int)
      requires Valid()
      modifies this
      ensures Valid() && people == old(people) && chores == old(chores)
      ensures weeks == Kept(old(weeks), thresholdMs)
    {
      ghost var original := weeks;
      var i := |weeks|;
      while i > 0
        invariant 0 <= i <= |original|
        invariant weeks == original[..i] + Kept(original[i..], thresholdMs)
        invariant people == old(people) && chores == old(chores)
      {
        i := i - 1;
        ghost var survivors := Kept(original[i + 1..], thresholdMs);
        KeptStep(original, i, thresholdMs);
        assert weeks == original[..i] + [original[i]] + survivors;
        if Expired(weeks[i].header, thresholdMs) {
          DropAt(original[..i], original[i], survivors);
          weeks := weeks[..i] + weeks[i + 1..];
          assert weeks == original[..i] + Kept(original[i..], thresholdMs);
        } else {
          assert weeks == original[..i] + Kept(original[i..], thresholdMs);
        }
      }
      assert original[0..] == original;
      KeptKeepsWidths(original, thresholdMs, |people|);
    }

    /** Removing the middle element of `front + [x] + back`. */
    static lemma DropAt<T>(front: seq<T>, x: T, back: seq<T>)
      ensures var s := front + [x] + back;
              s[|front|] == x && s[..|front|] + s[|front| + 1..] == front + back
    {
      var s := front + [x] + back;
      assert s[..|front|] == front;
      assert s[|front| + 1..] == back;
    }

    /** One step of the right-to-left scan: the survivors from `i` on. */
    static lemma KeptStep(original: seq<WeekColumn>, i: nat, thresholdMs: int)
      requires i < |original|
      ensures original[..i + 1] == original[..i] + [original[i]]
      ensures Kept(original[i..], thresholdMs)
              == (if Expired(original[i].header, thresholdMs) then [] else [original[i]]) + Kept(original[i + 1..], thresholdMs)
    {
      assert original[i..][0] == original[i];
      assert original[i..][1..] == original[i + 1..];
    }

    /** Appends blank status columns until there are `MIN_STATUS_COLUMNS`. */
    method AddMissingColumns()
      requires Valid()
      modifies this
      ensures Valid() && people == old(people) && chores == old(chores)
      ensures weeks == PadColumns(old(weeks), |people|)
    {
      if |weeks| < MIN_STATUS_COLUMNS {
        var rows := |people|;
        weeks := weeks + seq(MIN_STATUS_COLUMNS - |weeks|, _ => BlankColumn(rows));
      }
    }

    /**
     * The header back-fill loop over the first `MIN_STATUS_COLUMNS` status columns. Its
     * `lastDate` starts blank and is never reassigned, so no header is ever written.
     */
    method BackfillHeaders()
      requires Valid() && |weeks| >= MIN_STATUS_COLUMNS
      modifies this
      ensures Valid() && people == old(people) && chores == old(chores)
      ensures weeks == old(weeks)
    {
      var columns := weeks;
      var lastDate: Header := Blank;
      for c := 0 to MIN_STATUS_COLUMNS
        invariant columns == weeks
      {
        var dateValue := columns[c].header;
        if dateValue == Blank && lastDate != Blank {
          dateValue := WeekAfter(lastDate);
          columns := WithHeader(columns, c, dateValue);
        }
      }
      weeks := columns;
    }

    /** Inserts blank rows before the last row until there are `MIN_ROWS` data rows. */
    method AddMissingRows()
      requires Valid() && |people| >= 1
      modifies this
      ensures Valid()
      ensures people == PadRows(old(people), BLANK_PERSON) && chores == PadRows(old(chores), "")
      ensures weeks == PadRowsInColumns(old(weeks))
    {
      var rowsToInsert := MIN_ROWS - |people|;
      if rowsToInsert > 0 {
        var at := |people| - 1;
        people := people[..at] + seq(rowsToInsert, _ => BLANK_PERSON) + people[at..];
        chores := chores[..at] + seq(rowsToInsert, _ => "") + chores[at..];
        var columns := weeks;
        weeks := seq(|columns|, c requires 0 <= c < |columns| =>
          columns[c].(cells := columns[c].cells[..at] + seq(rowsToInsert, _ => "") + columns[c].cells[at..]));
      }
    }

    /** Shades every status column, then clears the first one headed by `nextAuditDate`. */
    method ShadeColumns(nextAuditDate: int)
      requires Valid()
      modifies this
      ensures Valid() && people == old(people) && chores == old(chores)
      ensures weeks == Shade(old(weeks), nextAuditDate)
    {
      var columns := weeks;
      weeks := seq(|columns|, c requires 0 <= c < |columns| => columns[c].(shaded := true));
      var c := 0;
      while c < |weeks|
        invariant 0 <= c <= |weeks| == |columns|
        invariant forall k :: 0 <= k < |columns| ==> weeks[k] == columns[k].(shaded := true)
        invariant forall k :: 0 <= k < c ==> columns[k].header != Dated(nextAuditDate)
        invariant people == old(people) && chores == old(chores)
      {
        if weeks[c].header == Dated(nextAuditDate) {
          weeks := weeks[c := weeks[c].(shaded := false)];
          break;
        }
        c := c + 1;
      }
      ghost var shaded := Shade(columns, nextAuditDate);
      assert forall k :: 0 <= k < |weeks| ==> weeks[k] == shaded[k];
    }
  }
}
