/**
 * Grid fill (`fillEmptyCells`): before an audit, the empty status cells of the audit
 * column are made explicit. A row without a person is left alone; an empty cell on a
 * row without a chore becomes "Pardoned", on a row with a chore "Pending (unexcused late)".
 */
module Fill {
  import opened Grid
  import opened Report

  const PARDONED: string := "Pardoned"

  /** The new content of one status cell. */
  function FilledStatus(person: PersonCell, chore: string, status: string): string
  {
    if person.text == "" then status
    else if chore == "" then
      if status == "" then PARDONED else status
    else if status == "" then PENDING_LATE else status
  }

  /** A whole status column after filling, row by row. */
  function FillColumn(people: seq<PersonCell>, chores: seq<string>, cells: seq<string>): (r: seq<string>)
    requires |chores| == |people| && |cells| == |people|
    ensures |r| == |cells|
    ensures forall i :: 0 <= i < |r| ==> r[i] == FilledStatus(people[i], chores[i], cells[i])
  {
    seq(|cells|, i requires 0 <= i < |cells| => FilledStatus(people[i], chores[i], cells[i]))
  }

  /** The status columns after filling column `col`. */
  function FillWeeks(people: seq<PersonCell>, chores: seq<string>, weeks: seq<WeekColumn>, col: nat): (r: seq<WeekColumn>)
    requires WellFormed(people, chores, weeks) && col < |weeks|
    ensures WellFormed(people, chores, r)
  {
    weeks[col := weeks[col].(cells := FillColumn(people, chores, weeks[col].cells))]
  }

  /**
   * Filling changes only empty cells on rows with a person: such a cell becomes
   * "Pardoned" when the row has no chore and "Pending (unexcused late)" otherwise;
   * afterwards every row with a person has a non-empty status.
   */
  lemma FillChangesOnlyEmptyPersonCells(people: seq<PersonCell>, chores: seq<string>, cells: seq<string>)
    requires |chores| == |people| && |cells| == |people|
    ensures var filled := FillColumn(people, chores, cells);
            forall i :: 0 <= i < |cells| ==>
              && (people[i].text == "" || cells[i] != "" ==> filled[i] == cells[i])
              && (people[i].text != "" && cells[i] == "" && chores[i] == "" ==> filled[i] == PARDONED)
              && (people[i].text != "" && cells[i] == "" && chores[i] != "" ==> filled[i] == PENDING_LATE)
              && (people[i].text != "" ==> filled[i] != "")
  {
  }

  /**
   * How `isLate` reads a filled cell on a row with a person: an empty cell on a row with a
   * chore becomes "Pending (unexcused late)", which is late, as the empty cell was; an
   * empty cell on a row without a chore becomes "Pardoned", which is not late.
   */
  lemma FilledLateness(person: PersonCell, chore: string, status: string)
    requires person.text != ""
    ensures chore != "" ==> (IsLate(FilledStatus(person, chore, status)) <==> IsLate(status))
    ensures chore == "" && status == "" ==> !IsLate(FilledStatus(person, chore, status))
    ensures IsLate(DONE_LATE) && IsLate(PENDING_LATE) && IsLate("") && !IsLate(PARDONED)
  {
    assert |PARDONED| != |DONE_LATE| && |PARDONED| != |PENDING_LATE|;
  }

  /** Filling a second time changes nothing. */
  lemma FillIdempotent(people: seq<PersonCell>, chores: seq<string>, cells: seq<string>)
    requires |chores| == |people| && |cells| == |people|
    ensures FillColumn(people, chores, FillColumn(people, chores, cells)) == FillColumn(people, chores, cells)
  {
    var once := FillColumn(people, chores, cells);
    var twice := FillColumn(people, chores, once);
    assert forall i :: 0 <= i < |once| ==> twice[i] == once[i];
  }

  /** Filling leaves the other status columns, and the headers and shading, as they were. */
  lemma FillTouchesOneColumn(people: seq<PersonCell>, chores: seq<string>, weeks: seq<WeekColumn>, col: nat)
    requires WellFormed(people, chores, weeks) && col < |weeks|
    ensures var r := FillWeeks(people, chores, weeks, col);
            && |r| == |weeks|
            && (forall c :: 0 <= c < |r| && c != col ==> r[c] == weeks[c])
            && r[col].header == weeks[col].header && r[col].shaded == weeks[col].shaded
  {
  }

  /**
   * Filling the audit column does not change the report's entries except that an empty
   * audit-week status reads "Pending (unexcused late)": names, descriptions and lateness
   * levels are the same, and no entry keeps an empty status.
   */
  lemma {:induction false} FillKeepsLateness(
    people: seq<PersonCell>, chores: seq<string>, weeks: seq<WeekColumn>, prev: nat, col: nat, n: nat)
    requires ReadsColumns(people, chores, weeks, prev, col) && prev != col && n <= |people|
    ensures var before := Entries(people, chores, weeks, prev, col, n);
            var after := Entries(people, chores, FillWeeks(people, chores, weeks, col), prev, col, n);
            && |after| == |before|
            && forall j :: 0 <= j < |after| ==>
                 && after[j].person == before[j].person
                 && after[j].description == before[j].description
                 && after[j].late == before[j].late
                 && after[j].auditWeekStatus == (if before[j].auditWeekStatus == "" then PENDING_LATE else before[j].auditWeekStatus)
                 && after[j].auditWeekStatus != ""
  {
    if n > 0 {
      FillKeepsLateness(people, chores, weeks, prev, col, n - 1);
    }
  }
}
