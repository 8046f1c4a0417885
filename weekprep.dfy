/**
 * The week preparer (`prepareNextWeek`) as functions on the status columns: which
 * columns are deleted, how many blank columns and rows are added, and which column is
 * left unshaded. The stateful steps are in `Sheet.ChoreSheet`.
 */
module WeekPrep {
  import opened Wrappers
  import opened Dates
  import opened Grid

  /** How many data rows the sheet keeps available. */
  const MIN_ROWS: nat := 30
  /** How many status columns the sheet keeps available. */
  const MIN_STATUS_COLUMNS: nat := 10
  /** How many past weeks the retention comment promises to keep. */
  const MAX_OLD_COLUMNS: int := 2

  /**
   * The deletion threshold as Code.ts:322 computes it: the millisecond component of
   * `oldestDate` (two weeks before the next audit date), not its timestamp.
   */
  function DeletionThreshold(nextAuditDate: int): (ms: int)
    ensures ms == 0
  {
    MillisecondsOf(AddWeeks(nextAuditDate, -MAX_OLD_COLUMNS))
  }

  /** A column is deleted when its header is a date whose timestamp is below the threshold. */
  predicate Expired(h: Header, thresholdMs: int)
  {
    h.Dated? && TimestampMs(h.day) < thresholdMs
  }

  /** With the as-written threshold, only columns dated before the epoch are ever deleted. */
  lemma ExpiredMeansBeforeEpoch(h: Header, nextAuditDate: int)
    ensures Expired(h, DeletionThreshold(nextAuditDate)) <==> h.Dated? && h.day < 0
  {
  }

  /** The retention rule the comment at Code.ts:317 describes: older than two weeks before the next audit. */
  predicate OlderThanRetention(h: Header, nextAuditDate: int)
  {
    h.Dated? && h.day < AddWeeks(nextAuditDate, -MAX_OLD_COLUMNS)
  }

  /** Every post-epoch week older than the retention window is kept, although the comment says it goes. */
  lemma RetentionRuleNotApplied(nextAuditDate: int, day: int)
    requires 0 <= day < AddWeeks(nextAuditDate, -MAX_OLD_COLUMNS)
    ensures OlderThanRetention(Dated(day), nextAuditDate)
    ensures !Expired(Dated(day), DeletionThreshold(nextAuditDate))
  {
    ExpiredMeansBeforeEpoch(Dated(day), nextAuditDate);
  }

  /** The status columns that survive deletion, in their original order. */
  function Kept(weeks: seq<WeekColumn>, thresholdMs: int): (r: seq<WeekColumn>)
    ensures |r| <= |weeks|
  {
    if weeks == [] then []
    else (if Expired(weeks[0].header, thresholdMs) then [] else [weeks[0]]) + Kept(weeks[1..], thresholdMs)
  }

  /** Exactly the columns whose header is not expired survive. */
  lemma {:induction false} KeptMembers(weeks: seq<WeekColumn>, thresholdMs: int)
    ensures forall w :: w in Kept(weeks, thresholdMs) ==> w in weeks && !Expired(w.header, thresholdMs)
    ensures forall w :: w in weeks && !Expired(w.header, thresholdMs) ==> w in Kept(weeks, thresholdMs)
  {
    if weeks != [] {
      KeptMembers(weeks[1..], thresholdMs);
      assert weeks == [weeks[0]] + weeks[1..];
    }
  }

  /**
   * With the as-written threshold, no column with a blank header and no column dated on or
   * after the epoch is deleted; in particular every column dated from two weeks before the
   * next audit date on survives whenever that date is not before the epoch.
   */
  lemma NoPostEpochColumnDeleted(weeks: seq<WeekColumn>, nextAuditDate: int)
    ensures forall w :: w in weeks && (w.header.Blank? || w.header.day >= 0) ==>
              w in Kept(weeks, DeletionThreshold(nextAuditDate))
  {
    KeptMembers(weeks, DeletionThreshold(nextAuditDate));
  }

  /** Deletion keeps relative order: the survivors of a left part precede those of a right part. */
  lemma {:induction false} KeptConcat(left: seq<WeekColumn>, right: seq<WeekColumn>, thresholdMs: int)
    ensures Kept(left + right, thresholdMs) == Kept(left, thresholdMs) + Kept(right, thresholdMs)
  {
    if left != [] {
      assert (left + right)[0] == left[0];
      assert (left + right)[1..] == left[1..] + right;
      KeptConcat(left[1..], right, thresholdMs);
    } else {
      assert left + right == right;
    }
  }

  /** When no header is expired, no column is deleted. */
  lemma {:induction false} KeptAllWhenNoneExpired(weeks: seq<WeekColumn>, thresholdMs: int)
    requires forall c :: 0 <= c < |weeks| ==> !Expired(weeks[c].header, thresholdMs)
    ensures Kept(weeks, thresholdMs) == weeks
  {
    if weeks != [] {
      KeptAllWhenNoneExpired(weeks[1..], thresholdMs);
    }
  }

  /** Deletion keeps every surviving column's row count. */
  lemma KeptKeepsWidths(original: seq<WeekColumn>, thresholdMs: int, rows: nat)
    requires forall c :: 0 <= c < |original| ==> |original[c].cells| == rows
    ensures forall w :: w in Kept(original, thresholdMs) ==> |w.cells| == rows
  {
    var kept := Kept(original, thresholdMs);
    KeptMembers(original, thresholdMs);
    forall w | w in kept ensures |w.cells| == rows {
      var k :| 0 <= k < |original| && original[k] == w;
    }
  }

  /** A new, empty status column for `rows` data rows. */
  function BlankColumn(rows: nat): WeekColumn
  {
    WeekColumn(Blank, seq(rows, _ => ""), false)
  }

  /** Blank columns appended until there are `MIN_STATUS_COLUMNS`. */
  function PadColumns(weeks: seq<WeekColumn>, rows: nat): (r: seq<WeekColumn>)
    ensures |r| == if |weeks| < MIN_STATUS_COLUMNS then MIN_STATUS_COLUMNS else |weeks|
    ensures forall c :: 0 <= c < |weeks| ==> r[c] == weeks[c]
    ensures forall c :: |weeks| <= c < |r| ==> r[c] == BlankColumn(rows)
  {
    if |weeks| < MIN_STATUS_COLUMNS then weeks + seq(MIN_STATUS_COLUMNS - |weeks|, _ => BlankColumn(rows))
    else weeks
  }

  /** Padding with blank columns keeps every column at `rows` cells. */
  lemma PaddedWidths(weeks: seq<WeekColumn>, rows: nat)
    requires forall w :: w in weeks ==> |w.cells| == rows
    ensures forall c :: 0 <= c < |PadColumns(weeks, rows)| ==> |PadColumns(weeks, rows)[c].cells| == rows
  {
    var padded := PadColumns(weeks, rows);
    forall c | 0 <= c < |padded| ensures |padded[c].cells| == rows {
      if c < |weeks| {
        assert padded[c] == weeks[c] && weeks[c] in weeks;
      }
    }
  }

  /**
   * Blank entries inserted until there are `MIN_ROWS`; `insertRows(getMaxRows(), n)`
   * inserts them before the last row, so the last row stays last and no row is lost.
   */
  function PadRows<T>(xs: seq<T>, blank: T): (r: seq<T>)
    requires |xs| >= 1
    ensures |r| == if |xs| < MIN_ROWS then MIN_ROWS else |xs|
    ensures r[..|xs| - 1] == xs[..|xs| - 1] && r[|r| - 1] == xs[|xs| - 1]
    ensures forall i :: |xs| - 1 <= i < |r| - 1 ==> r[i] == blank
  {
    if |xs| < MIN_ROWS then xs[..|xs| - 1] + seq(MIN_ROWS - |xs|, _ => blank) + xs[|xs| - 1..]
    else xs
  }

  /** Every status column grown by the same blank rows. */
  function PadRowsInColumns(weeks: seq<WeekColumn>): (r: seq<WeekColumn>)
    requires forall c :: 0 <= c < |weeks| ==> |weeks[c].cells| >= 1
    ensures |r| == |weeks|
    ensures forall c :: 0 <= c < |r| ==> r[c] == weeks[c].(cells := PadRows(weeks[c].cells, ""))
  {
    seq(|weeks|, c requires 0 <= c < |weeks| => weeks[c].(cells := PadRows(weeks[c].cells, "")))
  }

  /**
   * The old row that row `i` comes from after padding a sheet of `n` data rows, or None for
   * an inserted blank row.
   */
  function SourceRow(n: nat, i: nat): Option<nat>
  {
    if n >= MIN_ROWS || i + 1 < n then Some(i)
    else if n >= 1 && i + 1 == MIN_ROWS then Some(n - 1)
    else None
  }

  /** Row `i` of one padded column is its source row, or blank. */
  lemma PadRowsSource<T>(xs: seq<T>, blank: T, i: nat)
    requires |xs| >= 1 && i < |PadRows(xs, blank)|
    ensures var r := PadRows(xs, blank);
            match SourceRow(|xs|, i)
            case Some(j) => j < |xs| && r[i] == xs[j]
            case None => r[i] == blank
  {
    var r := PadRows(xs, blank);
    if |xs| < MIN_ROWS && i + 1 < |xs| {
      assert r[..|xs| - 1][i] == xs[..|xs| - 1][i];
    }
  }

  /**
   * Padding keeps the rows aligned: after it, row `i` of column A, of column B and of every
   * status column all come from the same old row, or are all blank.
   */
  lemma PaddedRowsAligned(people: seq<PersonCell>, chores: seq<string>, weeks: seq<WeekColumn>)
    requires WellFormed(people, chores, weeks) && |people| >= 1
    ensures var people', chores' := PadRows(people, BLANK_PERSON), PadRows(chores, "");
            var weeks' := PadRowsInColumns(weeks);
            && |chores'| == |people'| && |weeks'| == |weeks|
            && forall i :: 0 <= i < |people'| ==>
                 match SourceRow(|people|, i)
                 case Some(j) =>
                   && j < |people| && people'[i] == people[j] && chores'[i] == chores[j]
                   && forall c :: 0 <= c < |weeks| ==> |weeks'[c].cells| == |people'| && weeks'[c].cells[i] == weeks[c].cells[j]
                 case None =>
                   && people'[i] == BLANK_PERSON && chores'[i] == ""
                   && forall c :: 0 <= c < |weeks| ==> |weeks'[c].cells| == |people'| && weeks'[c].cells[i] == ""
  {
    var people', chores' := PadRows(people, BLANK_PERSON), PadRows(chores, "");
    var weeks' := PadRowsInColumns(weeks);
    forall i | 0 <= i < |people'|
      ensures match SourceRow(|people|, i)
              case Some(j) =>
                && j < |people| && people'[i] == people[j] && chores'[i] == chores[j]
                && forall c :: 0 <= c < |weeks| ==> |weeks'[c].cells| == |people'| && weeks'[c].cells[i] == weeks[c].cells[j]
              case None =>
                && people'[i] == BLANK_PERSON && chores'[i] == ""
                && forall c :: 0 <= c < |weeks| ==> |weeks'[c].cells| == |people'| && weeks'[c].cells[i] == ""
    {
      PadRowsSource(people, BLANK_PERSON, i);
      PadRowsSource(chores, "", i);
      forall c | 0 <= c < |weeks|
        ensures |weeks'[c].cells| == |people'|
        ensures match SourceRow(|people|, i)
                case Some(j) => j < |weeks[c].cells| && weeks'[c].cells[i] == weeks[c].cells[j]
                case None => weeks'[c].cells[i] == ""
      {
        PadRowsSource(weeks[c].cells, "", i);
      }
    }
  }

  /** The first column from `i` on whose header is the date `day`; blank headers are skipped. */
  function FirstWithDate(weeks: seq<WeekColumn>, day: int, i: nat): (r: Option<nat>)
    requires i <= |weeks|
    ensures r.Some? ==>
      i <= r.value < |weeks| && weeks[r.value].header == Dated(day)
      && forall k :: i <= k < r.value ==> weeks[k].header != Dated(day)
    ensures r.None? ==> forall k :: i <= k < |weeks| ==> weeks[k].header != Dated(day)
    decreases |weeks| - i
  {
    if i == |weeks| then None
    else if weeks[i].header == Dated(day) then Some(i)
    else FirstWithDate(weeks, day, i + 1)
  }

  /**
   * Shading: every status column is grey except the first one headed by the next audit
   * date, which is cleared; with no such column, all are grey.
   */
  function Shade(weeks: seq<WeekColumn>, nextAuditDate: int): (r: seq<WeekColumn>)
    ensures |r| == |weeks|
    ensures forall c :: 0 <= c < |r| ==> r[c].header == weeks[c].header && r[c].cells == weeks[c].cells
    ensures forall c :: 0 <= c < |r| ==>
      (!r[c].shaded <==>
        weeks[c].header == Dated(nextAuditDate) && forall k :: 0 <= k < c ==> weeks[k].header != Dated(nextAuditDate))
  {
    var cleared := FirstWithDate(weeks, nextAuditDate, 0);
    seq(|weeks|, c requires 0 <= c < |weeks| => weeks[c].(shaded := cleared != Some(c)))
  }

  /** Header back-fill value: the week after `lastDate` (a blank stays blank). */
  function WeekAfter(lastDate: Header): Header
  {
    match lastDate
    case Blank => Blank
    case Dated(d) => Dated(AddWeeks(d, 1))
  }

  /** `weeks` with the header of column `c` set to `h`. */
  function WithHeader(weeks: seq<WeekColumn>, c: int, h: Header): seq<WeekColumn>
  {
    if 0 <= c < |weeks| then weeks[c := weeks[c].(header := h)] else weeks
  }

  /** The status columns after `prepareNextWeek(nextAuditDate)` on a sheet with `rows` data rows. */
  function PreparedWeeks(weeks: seq<WeekColumn>, rows: nat, nextAuditDate: int): seq<WeekColumn>
    requires rows >= 1 && forall c :: 0 <= c < |weeks| ==> |weeks[c].cells| == rows
  {
    var kept := Kept(weeks, DeletionThreshold(nextAuditDate));
    KeptKeepsWidths(weeks, DeletionThreshold(nextAuditDate), rows);
    PaddedWidths(kept, rows);
    Shade(PadRowsInColumns(PadColumns(kept, rows)), nextAuditDate)
  }

  /**
   * After preparing: at least `MIN_STATUS_COLUMNS` columns, all with the padded row
   * count; the surviving columns come first, in order, with their headers and existing
   * cells, followed by blank-headed columns; no header is rewritten.
   */
  lemma PreparedWeeksShape(weeks: seq<WeekColumn>, rows: nat, nextAuditDate: int)
    requires rows >= 1 && forall c :: 0 <= c < |weeks| ==> |weeks[c].cells| == rows
    ensures var r := PreparedWeeks(weeks, rows, nextAuditDate);
            var kept := Kept(weeks, DeletionThreshold(nextAuditDate));
            && |r| >= MIN_STATUS_COLUMNS
            && |r| >= |kept|
            && (forall c :: 0 <= c < |r| ==> |r[c].cells| == if rows < MIN_ROWS then MIN_ROWS else rows)
            && (forall c :: 0 <= c < |kept| ==>
                  r[c].header == kept[c].header && |kept[c].cells| == rows && r[c].cells == PadRows(kept[c].cells, ""))
            && (forall c :: |kept| <= c < |r| ==>
                  r[c].header == Blank && forall i :: 0 <= i < |r[c].cells| ==> r[c].cells[i] == "")
  {
    var kept := Kept(weeks, DeletionThreshold(nextAuditDate));
    KeptKeepsWidths(weeks, DeletionThreshold(nextAuditDate), rows);
    var padded := PadColumns(kept, rows);
    PaddedWidths(kept, rows);
    var grown := PadRowsInColumns(padded);
    var r := Shade(grown, nextAuditDate);
    assert r == PreparedWeeks(weeks, rows, nextAuditDate);
    forall c | 0 <= c < |r|
      ensures |r[c].cells| == if rows < MIN_ROWS then MIN_ROWS else rows
      ensures c < |kept| ==> r[c].header == kept[c].header && |kept[c].cells| == rows && r[c].cells == PadRows(kept[c].cells, "")
      ensures |kept| <= c ==> r[c].header == Blank && forall i :: 0 <= i < |r[c].cells| ==> r[c].cells[i] == ""
    {
      assert r[c].header == grown[c].header && r[c].cells == grown[c].cells;
      assert grown[c].cells == PadRows(padded[c].cells, "");
      if c < |kept| {
        assert padded[c] == kept[c] && kept[c] in kept;
      } else {
        assert padded[c] == BlankColumn(rows);
      }
    }
  }
}
