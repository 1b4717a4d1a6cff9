/**
 * Version 0.4 (betta/convert_html_to_excel_v_0.4.py): `is_relatable_table`, a
 * table is relational when it has rows, the first row is at least two columns
 * wide, and every row is as wide as the first, widths counting colspans.
 */
module RelatableV04 {
  import opened Markup

  /** One cell's contribution in `count_cols`: a colspan `int()` rejects counts as 1. */
  function ColWidth(a: Attr): (n: int)
    ensures a.Num? ==> n == a.n
    ensures !a.Num? ==> n == 1
  {
    match a
    case Num(v) => v
    case _ => 1
  }

  /** `count_cols` as a sum over the cells of a row. */
  function CountCols(cells: seq<RawCell>): int {
    if cells == [] then 0 else CountCols(cells[..|cells| - 1]) + ColWidth(cells[|cells| - 1].colspan)
  }

  /** The answer `is_relatable_table` gives. */
  predicate Relatable(rows: seq<RawRow>) {
    rows != [] && CountCols(rows[0].cells) >= 2 &&
    forall r :: 0 <= r < |rows| ==> CountCols(rows[r].cells) == CountCols(rows[0].cells)
  }

  /** `count_cols`: the loop accumulating `total_cols`. */
  method CountColsLoop(cells: seq<RawCell>) returns (total: int)
    ensures total == CountCols(cells)
  {
    total := 0;
    var k := 0;
    while k < |cells|
      invariant k <= |cells| && total == CountCols(cells[..k])
    {
      assert cells[..k + 1][..k] == cells[..k];
      total := total + ColWidth(cells[k].colspan);
      k := k + 1;
    }
    assert cells[..k] == cells;
  }

  /** `is_relatable_table` */
  method IsRelatableTable(rows: seq<RawRow>) returns (b: bool)
    ensures b == Relatable(rows)
  {
    if rows == [] {
      return false;
    }
    var expected := CountColsLoop(rows[0].cells);
    if expected < 2 {
      return false;
    }
    var r := 0;
    while r < |rows|
      invariant r <= |rows| && forall q :: 0 <= q < r ==> CountCols(rows[q].cells) == expected
    {
      var cols := CountColsLoop(rows[r].cells);
      if cols != expected {
        return false;
      }
      r := r + 1;
    }
    return true;
  }

  /**
   * The answers of `is_relatable_table`: False without rows and False when the
   * first row is narrower than two columns; True exactly when, beyond that,
   * any two rows are equally wide.
   */
  lemma RelatableCases(rows: seq<RawRow>)
    ensures rows == [] ==> !Relatable(rows)
    ensures rows != [] && CountCols(rows[0].cells) < 2 ==> !Relatable(rows)
    ensures Relatable(rows) <==>
      (rows != [] && CountCols(rows[0].cells) >= 2 &&
       forall r, q :: 0 <= r < |rows| && 0 <= q < |rows| ==> CountCols(rows[r].cells) == CountCols(rows[q].cells))
  {
  }

  /** A row of cells without a colspan attribute is as wide as it has cells. */
  lemma {:induction false} PlainRowWidth(cells: seq<RawCell>)
    requires forall j :: 0 <= j < |cells| ==> cells[j].colspan.Absent?
    ensures CountCols(cells) == |cells|
  {
    if cells != [] {
      PlainRowWidth(cells[..|cells| - 1]);
    }
  }

  /** Rows whose cells weigh the same have the same width; rowspan and payload never matter. */
  lemma {:induction false} WidthOnlyReadsColspan(a: seq<RawCell>, b: seq<RawCell>)
    requires |a| == |b| && forall j :: 0 <= j < |a| ==> ColWidth(a[j].colspan) == ColWidth(b[j].colspan)
    ensures CountCols(a) == CountCols(b)
  {
    if a != [] {
      WidthOnlyReadsColspan(a[..|a| - 1], b[..|b| - 1]);
    }
  }

  /** A colspan `int()` rejects weighs what an absent one does. */
  lemma MalformedCountsAsOne(cells: seq<RawCell>, j: nat)
    requires j < |cells| && cells[j].colspan.Malformed?
    ensures CountCols(cells[j := cells[j].(colspan := Absent)]) == CountCols(cells)
  {
    WidthOnlyReadsColspan(cells[j := cells[j].(colspan := Absent)], cells);
  }
}
