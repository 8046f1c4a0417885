/**
 * The "Weekly chores" sheet as plain data.
 *
 * Row 1 holds, from column C on, one week header per status column. From row 2 on,
 * column A holds a person (link text = name, link URL = `mailto:` address), column B the
 * chore description and columns C onwards the weekly status strings. The status area is
 * kept column by column: every operation on it (find a week, fill a week, delete a week,
 * add weeks, shade weeks) works on whole columns.
 */
module Grid {
  import opened Wrappers

  /** A week header: an empty cell, or a date given as a day number. */
  datatype Header = Blank | Dated(day: int)

  /** A cell of column A: its visible text and the URL of its link, if it has one. */
  datatype PersonCell = PersonCell(text: string, link: Option<string>)

  /**
   * One status column: its header (row 1), its status cells (rows 2 onwards, one per
   * person row) and whether its background is shaded grey.
   */
  datatype WeekColumn = WeekColumn(header: Header, cells: seq<string>, shaded: bool)

  const BLANK_PERSON: PersonCell := PersonCell("", None)

  /** Column A, column B and every status column cover the same data rows. */
  ghost predicate WellFormed(people: seq<PersonCell>, chores: seq<string>, weeks: seq<WeekColumn>)
  {
    && |chores| == |people|
    && forall c :: 0 <= c < |weeks| ==> |weeks[c].cells| == |people|
  }
}
