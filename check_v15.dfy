/**
 * Version 1.5 (betta/convert_html_to_excel_v_1.5.py): `chek` builds the
 * records with `get_tables_with_colspan_and_rowspan` (one row per `tr`, no
 * empty-row skipping) and runs `_chek`, the in-place sweep with the plain
 * skeleton, on them alone. `_chek` is the sweep that version 1.7 names
 * `vertical_chek`, so it is modelled once, by `SpanRecords.CarryLoop` and
 * `CheckV17.VerticalChek`.
 */
module CheckV15 {
  import opened Wrappers
  import opened Markup
  import opened Grids
  import opened SpanRecords
  import opened SpanRecordsFacts
  import CheckV17

  /** `chek`: the untransposed sweep of the freshly built records; None when building raises. */
  function ChekOf(rows: seq<RawRow>): (r: Option<bool>)
    ensures r.None? <==> Build(rows, false).None?
    ensures r.Some? ==> r.value == Carry(Build(rows, false).value, Plain).ok
    ensures r == Some(true) ==> |Build(rows, false).value| >= 2
  {
    match Build(rows, false)
    case None => None
    case Some(g) => Some(Carry(g, Plain).ok)
  }

  method Chek(rows: seq<RawRow>) returns (r: Option<bool>)
    ensures r == ChekOf(rows)
  {
    var built := BuildLoop(rows, false);
    if built.None? {
      return None;
    }
    var table := new Table(built.value);
    var ok := CheckV17.VerticalChek(table);
    return Some(ok);
  }

  /**
   * On records of 1x1 cells `chek` accepts exactly the tables of at least two
   * rows, all as long as the first, whose cells from row 2 on have the plain
   * skeleton of the cell above.
   */
  lemma UnitChek(rows: seq<RawRow>)
    requires Build(rows, false).Some? && UnitGrid(Build(rows, false).value)
    ensures var g := Build(rows, false).value;
      ChekOf(rows) == Some(|g| >= 2 && RowsFrom(g, 0, |g[0]|) && TagsFrom(g, 2, Plain))
  {
    UnitCarry(Build(rows, false).value, Plain);
  }

  /** Version 1.7's `chek` accepts whatever this one does, and both raise on the same input. */
  lemma ChekWidenedBy17(rows: seq<RawRow>)
    requires PositiveSpans(rows)
    ensures ChekOf(rows).None? <==> CheckV17.ChekOf(rows).None?
    ensures ChekOf(rows) == Some(true) ==> CheckV17.ChekOf(rows) == Some(true)
  {
  }

  /**
   * A single row of two or more 1x1 cells: this version rejects it, having
   * fewer than two rows, while version 1.7 accepts its transpose, a column of
   * one-cell rows.
   */
  lemma OneRowOnly17(rows: seq<RawRow>, row: seq<Rec>)
    requires PositiveSpans(rows) && Build(rows, false) == Some([row])
    requires |row| >= 2 && forall j :: 0 <= j < |row| ==> UnitRec(row[j])
    requires forall j :: 2 <= j < |row| ==> SameTags(row[j - 1], row[j], Plain)
    ensures ChekOf(rows) == Some(false) && CheckV17.ChekOf(rows) == Some(true)
  {
    ColumnAccepted(row);
  }

  /** The transpose of such a row passes the plain sweep. */
  lemma ColumnAccepted(row: seq<Rec>)
    requires |row| >= 2 && forall j :: 0 <= j < |row| ==> UnitRec(row[j])
    requires forall j :: 2 <= j < |row| ==> SameTags(row[j - 1], row[j], Plain)
    ensures WellSpanned([row]) && Carry(CheckV17.TransposeOrEmpty([row]), Plain).ok
  {
    var g := [row];
    assert CheckV17.UnitRectangle(g);
    CheckV17.UnitTransposeTable(g);
    var t := CheckV17.TransposeOrEmpty(g);
    ColumnShape(row, t);
    UnitCarry(t, Plain);
  }

  lemma ColumnShape(row: seq<Rec>, t: Grid)
    requires |row| >= 2 && forall j :: 0 <= j < |row| ==> UnitRec(row[j])
    requires forall j :: 2 <= j < |row| ==> SameTags(row[j - 1], row[j], Plain)
    requires |t| == |row| && forall c :: 0 <= c < |t| ==> |t[c]| == 1 && t[c][0] == SwapRec(row[c])
    ensures UnitGrid(t) && |t| >= 2 && RowsFrom(t, 0, |t[0]|) && TagsFrom(t, 2, Plain)
  {
    assert TagsFrom(t, 2, Plain) by {
      forall r | 2 <= r < |t|
        ensures TagsAgree(t[r - 1], t[r], Plain)
      {
        assert t[r - 1][0] == SwapRec(row[r - 1]) && t[r][0] == SwapRec(row[r]);
      }
    }
  }
}
