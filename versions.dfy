/**
 * The versions side by side, on the same input rows. On tables without span
 * attributes the sweeps of versions 3.0 and 2.3 give the same answer, and the
 * sweep of version 1.5 is that of version 1.4 plus the skeleton comparison. A
 * staggered table, where a two-row cell starts beside one that is still
 * spanning, separates versions 3.0 and 2.3: only 3.0 has the rule that a new
 * cell may not reach below a cell that is still spanning. Rows of equal
 * width whose column boundaries do not line up separate the width-only test
 * of version 0.4 from every span sweep.
 */
module Versions {
  import opened Wrappers
  import opened Markup
  import opened Grids
  import opened SpanRecords
  import opened SpanRecordsFacts
  import V3 = SpanTableV3
  import V3Facts = SpanTableV3Facts
  import V23 = SpanTableV23
  import V14 = SweepV14
  import V14Facts = SweepV14Facts
  import CheckV15
  import RelatableV04
  import Samples

  /** No cell carries a rowspan or colspan attribute. */
  predicate NoSpanAttrs(rows: seq<RawRow>) {
    forall i, j :: 0 <= i < |rows| && 0 <= j < |rows[i].cells| ==>
      rows[i].cells[j].rowspan.Absent? && rows[i].cells[j].colspan.Absent?
  }

  // ---------------------------------------------------------------------------
  // What the builders make of rows without span attributes
  // ---------------------------------------------------------------------------

  lemma {:induction false} KeptRowsAgree(rows: seq<RawRow>)
    ensures V3.KeptRows(rows) == KeptRows(rows, true)
  {
    if rows != [] {
      KeptRowsAgree(rows[..|rows| - 1]);
    }
  }

  lemma RowOfUnitRecs(cells: seq<RawCell>)
    requires forall j :: 0 <= j < |cells| ==> cells[j].rowspan.Absent? && cells[j].colspan.Absent?
    ensures NewRow(cells).Some? && |NewRow(cells).value| == |cells|
    ensures forall j :: 0 <= j < |cells| ==> NewRow(cells).value[j] == Rec(cells[j].value, 1, 1, false)
  {
  }

  lemma RowOfUnitCells(cells: seq<RawCell>)
    requires forall j :: 0 <= j < |cells| ==> cells[j].rowspan.Absent? && cells[j].colspan.Absent?
    ensures V3.NewRow(cells).Some? && |V3.NewRow(cells).value| == |cells|
    ensures forall j :: 0 <= j < |cells| ==> V3.NewRow(cells).value[j] == V3.Cell(cells[j].value, 1, 1, 1, 1, false)
  {
  }

  /** The rows both builders keep, none with a span attribute. */
  lemma KeptPlain(rows: seq<RawRow>) returns (k: seq<RawRow>)
    requires NoSpanAttrs(rows)
    ensures k == KeptRows(rows, true) && k == V3.KeptRows(rows) && NoSpanAttrs(k)
  {
    k := KeptRows(rows, true);
    KeptRowsFacts(rows, true);
    KeptRowsAgree(rows);
    forall i, j | 0 <= i < |k| && 0 <= j < |k[i].cells|
      ensures k[i].cells[j].rowspan.Absent? && k[i].cells[j].colspan.Absent?
    {
      var r :| 0 <= r < |rows| && rows[r] == k[i];
    }
  }

  /**
   * Without span attributes both builders succeed, on the same rows, and give
   * records of rowspan and colspan 1 holding the same cells.
   */
  lemma BuildsPlain(rows: seq<RawRow>)
    requires NoSpanAttrs(rows)
    ensures Build(rows, true).Some? && V3.Build(rows).Some?
    ensures UnitGrid(Build(rows, true).value) && V3Facts.UnitGrid(V3.Build(rows).value)
    ensures SameCells(Build(rows, true).value, V3.Build(rows).value)
  {
    var k := KeptPlain(rows);
    forall i | 0 <= i < |k|
      ensures NewRow(k[i].cells).Some? && V3.NewRow(k[i].cells).Some?
    {
      RowOfUnitRecs(k[i].cells);
      RowOfUnitCells(k[i].cells);
    }
    var g := BuildRows(k).value;
    var h := V3.BuildRows(k).value;
    forall i | 0 <= i < |g|
      ensures |g[i]| == |h[i]| == |k[i].cells|
      ensures forall j :: 0 <= j < |g[i]| ==> g[i][j] == Rec(k[i].cells[j].value, 1, 1, false)
      ensures forall j :: 0 <= j < |h[i]| ==> h[i][j] == V3.Cell(k[i].cells[j].value, 1, 1, 1, 1, false)
    {
      RowOfUnitRecs(k[i].cells);
      RowOfUnitCells(k[i].cells);
    }
  }

  // ---------------------------------------------------------------------------
  // Versions 3.0 and 2.3
  // ---------------------------------------------------------------------------

  /** Records of the two models holding the same cells in the same places. */
  predicate SameCells(g: Grid, h: V3.Grid) {
    |g| == |h| &&
    forall i :: 0 <= i < |g| ==> |g[i]| == |h[i]| && forall j :: 0 <= j < |g[i]| ==> g[i][j].value == h[i][j].value
  }

  lemma SameRowLengths(g: Grid, h: V3.Grid)
    requires SameCells(g, h) && |g| >= 1
    ensures RowsFrom(g, 0, |g[0]|) <==> V3Facts.RowsFrom(h, 0, |h[0]|)
  {
  }

  lemma SameSkeletons(g: Grid, h: V3.Grid)
    requires SameCells(g, h)
    ensures TagsFrom(g, 2, SpanTransparent) <==> V3Facts.TagsFrom(h, 2)
  {
    forall r | 2 <= r < |g|
      ensures TagsAgree(g[r - 1], g[r], SpanTransparent) <==> V3Facts.TagsAgree(h[r - 1], h[r])
    {
    }
  }

  /** On 1x1 records holding the same cells the two sweeps agree. */
  lemma UnitSweepsAgree(g: Grid, h: V3.Grid)
    requires UnitGrid(g) && V3Facts.UnitGrid(h) && SameCells(g, h)
    ensures V3.Vertical(h) == V23.Vertical(g)
  {
    V3Facts.UnitVertical(h);
    UnitCarry(g, SpanTransparent);
    if |g| >= 1 {
      SameRowLengths(g, h);
    }
    SameSkeletons(g, h);
  }

  /** Without span attributes `vertical_check` of version 3.0 answers as that of version 2.3. */
  lemma PlainTopAgrees(rows: seq<RawRow>)
    requires NoSpanAttrs(rows)
    ensures Build(rows, true).Some? && V3.Build(rows).Some?
    ensures V3.Vertical(V3.Build(rows).value) == V23.Vertical(Build(rows, true).value)
  {
    BuildsPlain(rows);
    UnitSweepsAgree(Build(rows, true).value, V3.Build(rows).value);
  }

  /** Rows 0-2: a two-row cell A beside a one-row cell B, a two-row cell C under B, a cell D under A. */
  predicate StaggeredRows(rows: seq<RawRow>) {
    |rows| == 3 && |rows[0].cells| == 2 && |rows[1].cells| == 1 && |rows[2].cells| == 1 &&
    (forall i :: 0 <= i < 3 ==> rows[i].inner != "") &&
    (forall i, j :: 0 <= i < 3 && 0 <= j < |rows[i].cells| ==> rows[i].cells[j].colspan.Absent?) &&
    rows[0].cells[0].rowspan == Num(2) && rows[0].cells[1].rowspan.Absent? &&
    rows[1].cells[0].rowspan == Num(2) && rows[2].cells[0].rowspan.Absent?
  }

  lemma {:induction false} KeptAllRecords(rows: seq<RawRow>)
    requires forall i :: 0 <= i < |rows| ==> rows[i].inner != ""
    ensures KeptRows(rows, true) == rows
  {
    if rows != [] {
      KeptAllRecords(rows[..|rows| - 1]);
      assert rows[..|rows| - 1] + [rows[|rows| - 1]] == rows;
    }
  }

  /** The records of version 3.0 for a staggered table. */
  predicate StaggeredCells(h: V3.Grid) {
    |h| == 3 && |h[0]| == 2 && |h[1]| == 1 && |h[2]| == 1 &&
    h[0][0].rowspan == 2 && h[0][0].rowspanOriginal == 2 && h[0][1].rowspan == 1 && h[1][0].rowspan == 2
  }

  /** The records of version 2.3 for a staggered table. */
  predicate StaggeredRecs(g: Grid) {
    |g| == 3 && |g[0]| == 2 && |g[1]| == 1 && |g[2]| == 1 &&
    g[0][0].rowspan == 2 && g[0][1].rowspan == 1 && g[1][0].rowspan == 2 && g[2][0].rowspan == 1 &&
    (forall i, j :: 0 <= i < 3 && 0 <= j < |g[i]| ==> g[i][j].colspan == 1) &&
    !g[0][0].nottitle && !g[0][1].nottitle
  }

  lemma BuildStaggeredCells(rows: seq<RawRow>)
    requires StaggeredRows(rows)
    ensures V3.Build(rows).Some? && StaggeredCells(V3.Build(rows).value)
  {
    Samples.KeptAll(rows);
    assert V3.BuildRows(rows).Some?;
    var h := V3.BuildRows(rows).value;
    assert V3.NewRow(rows[0].cells) == Some(h[0]) && V3.NewRow(rows[1].cells) == Some(h[1]);
    assert V3.NewCell(rows[0].cells[0]) == Some(h[0][0]) && V3.NewCell(rows[0].cells[1]) == Some(h[0][1]);
    assert V3.NewCell(rows[1].cells[0]) == Some(h[1][0]);
  }

  lemma BuildStaggeredRecs(rows: seq<RawRow>)
    requires StaggeredRows(rows)
    ensures Build(rows, true).Some? && StaggeredRecs(Build(rows, true).value)
  {
    KeptAllRecords(rows);
    assert BuildRows(rows).Some?;
    var g := BuildRows(rows).value;
    assert NewRow(rows[0].cells) == Some(g[0]) && NewRow(rows[1].cells) == Some(g[1]);
    assert NewRow(rows[2].cells) == Some(g[2]);
    assert NewRec(rows[0].cells[0]) == Some(g[0][0]) && NewRec(rows[0].cells[1]) == Some(g[0][1]);
    assert NewRec(rows[1].cells[0]) == Some(g[1][0]) && NewRec(rows[2].cells[0]) == Some(g[2][0]);
  }

  /** Version 3.0: after row 0 A still spans row 1, and C would reach below it, so row 1 is refused. */
  lemma StaggeredV3Refused(h: V3.Grid)
    requires StaggeredCells(h)
    ensures !V3.Vertical(h)
  {
    var prev := RowPositions(0, 2);
    V3Facts.DecRow(h, 0, 2, 0);
    var w1 := V3.DecFrom(h, prev, 0);
    assert w1[0][0] == h[0][0].(rowspan := 1) && w1[0][1].rowspan == 0 && w1[1] == h[1];
    assert prev[0] == (0, 0) && prev[1] == (0, 1);
    assert V3.Blocks(V3.At(w1, prev[0]), w1[1][0]);
    assert V3.SweepRow(w1, prev, 1, [(0, 0)], 0, 1, 0) == V3.Reject;
    var none: seq<Pos> := [];
    assert none + [prev[0]] == [(0, 0)];
    assert V3.SweepRow(w1, prev, 1, [], 0, 0, 0) == V3.Reject;
  }

  /** Version 2.3, row 1: A is carried with one row left, C closes the slot of B. */
  lemma StaggeredRow1(g: Grid, d: Dialect) returns (w: Grid)
    requires StaggeredRecs(g)
    ensures CarryRow(g, RowPositions(0, 2), 1, [], 0, 0, 0, d) == Go(w, [(0, 0), (1, 0)])
    ensures |w| == 3 && |w[0]| == 2 && |w[1]| == 1 && w[2] == g[2]
    ensures w[0][0] == g[0][0].(rowspan := 1) && w[1][0].rowspan == 2 && w[1][0].colspan == 1
  {
    var prev := RowPositions(0, 2);
    assert prev[0] == (0, 0) && prev[1] == (0, 1);
    var w0: Grid := Put(g, prev[0], g[0][0].(rowspan := 1));
    w := Put(w0, (1, 0), w0[1][0].(nottitle := true));
    assert At(w, prev[1]) == g[0][1];
    assert CarryRow(w, prev, 1, [(0, 0), (1, 0)], 1, 2, 0, d) == Go(w, [(0, 0), (1, 0)]);
    assert CarryRow(w0, prev, 1, [(0, 0)], 0, 1, 0, d) == Go(w, [(0, 0), (1, 0)]);
    var none: seq<Pos> := [];
    assert none + [prev[0]] == [(0, 0)];
  }

  /** Version 2.3, row 2: D closes the slot of A, and C is carried with one row left. */
  lemma StaggeredRow2(w: Grid, d: Dialect) returns (w2: Grid)
    requires |w| == 3 && |w[0]| == 2 && |w[1]| == 1 && |w[2]| == 1
    requires w[0][0].rowspan == 1 && w[0][0].colspan == 1 && !w[0][0].nottitle
    requires w[1][0].rowspan == 2 && w[2][0].rowspan == 1 && w[2][0].colspan == 1
    ensures CarryRow(w, [(0, 0), (1, 0)], 2, [], 0, 0, 0, d) == Go(w2, [(2, 0), (1, 0)])
    ensures AllOne(w2, [(2, 0), (1, 0)])
  {
    var prev := [(0, 0), (1, 0)];
    var w1: Grid := Put(w, (2, 0), w[2][0].(nottitle := true));
    w2 := Put(w1, (1, 0), w1[1][0].(rowspan := 1));
    assert CarryRow(w2, prev, 2, [(2, 0), (1, 0)], 1, 2, 0, d) == Go(w2, [(2, 0), (1, 0)]);
    assert CarryRow(w1, prev, 2, [(2, 0)], 1, 1, 0, d) == Go(w2, [(2, 0), (1, 0)]);
    var none: seq<Pos> := [];
    assert none + [(2, 0)] == [(2, 0)];
  }

  /** The carrying sweep (versions 2.3, 1.7 and 1.5) accepts a staggered table, in either skeleton dialect. */
  lemma StaggeredCarried(g: Grid, d: Dialect)
    requires StaggeredRecs(g)
    ensures Carry(g, d).ok
  {
    var w := StaggeredRow1(g, d);
    var w2 := StaggeredRow2(w, d);
    assert CarryFrom(w2, [(2, 0), (1, 0)], 3, d).ok;
    assert CarryFrom(w, [(0, 0), (1, 0)], 2, d).ok;
  }

  /**
   * The same staggered rows: version 3.0's `vertical_check` refuses them,
   * version 2.3's accepts them.
   */
  lemma StaggeredSplitsV3FromV23(rows: seq<RawRow>)
    requires StaggeredRows(rows)
    ensures V3.Build(rows).Some? && !V3.Vertical(V3.Build(rows).value)
    ensures Build(rows, true).Some? && V23.Vertical(Build(rows, true).value)
  {
    BuildStaggeredCells(rows);
    StaggeredV3Refused(V3.Build(rows).value);
    BuildStaggeredRecs(rows);
    StaggeredCarried(Build(rows, true).value, SpanTransparent);
  }

  // ---------------------------------------------------------------------------
  // Column boundaries that do not line up
  // ---------------------------------------------------------------------------

  /**
   * Two rows, each three columns wide, whose column boundaries differ: A | B B
   * above C C | D. No cell has a rowspan attribute.
   */
  predicate MisalignedRows(rows: seq<RawRow>) {
    |rows| == 2 && |rows[0].cells| == 2 && |rows[1].cells| == 2 &&
    rows[0].inner != "" && rows[1].inner != "" &&
    (forall i, j :: 0 <= i < 2 && 0 <= j < 2 ==> rows[i].cells[j].rowspan.Absent?) &&
    rows[0].cells[0].colspan.Absent? && rows[0].cells[1].colspan == Num(2) &&
    rows[1].cells[0].colspan == Num(2) && rows[1].cells[1].colspan.Absent?
  }

  /** Two raw cells of widths 1 and 2, in either order, count three columns. */
  lemma CountThree(cells: seq<RawCell>)
    requires |cells| == 2
    requires (cells[0].colspan.Absent? && cells[1].colspan == Num(2)) || (cells[0].colspan == Num(2) && cells[1].colspan.Absent?)
    ensures RelatableV04.CountCols(cells) == 3
  {
    assert cells[..1][..0] == [];
    assert RelatableV04.CountCols(cells[..1]) == RelatableV04.ColWidth(cells[0].colspan);
  }

  /** The cells of version 3.0 for misaligned rows. */
  lemma BuildMisalignedCells(rows: seq<RawRow>)
    requires MisalignedRows(rows)
    ensures var a, b, c, e := rows[0].cells[0].value, rows[0].cells[1].value, rows[1].cells[0].value, rows[1].cells[1].value;
      V3.Build(rows) == Some([[V3.Cell(a, 1, 1, 1, 1, false), V3.Cell(b, 1, 2, 1, 2, false)],
                              [V3.Cell(c, 1, 2, 1, 2, false), V3.Cell(e, 1, 1, 1, 1, false)]])
  {
    Samples.KeptAll(rows);
    assert V3.BuildRows(rows).Some?;
    var h := V3.BuildRows(rows).value;
    assert V3.NewRow(rows[0].cells) == Some(h[0]) && V3.NewRow(rows[1].cells) == Some(h[1]);
    assert V3.NewCell(rows[0].cells[0]) == Some(h[0][0]) && V3.NewCell(rows[0].cells[1]) == Some(h[0][1]);
    assert V3.NewCell(rows[1].cells[0]) == Some(h[1][0]) && V3.NewCell(rows[1].cells[1]) == Some(h[1][1]);
    var a, b, c, e := rows[0].cells[0].value, rows[0].cells[1].value, rows[1].cells[0].value, rows[1].cells[1].value;
    assert h[0] == [V3.Cell(a, 1, 1, 1, 1, false), V3.Cell(b, 1, 2, 1, 2, false)];
    assert h[1] == [V3.Cell(c, 1, 2, 1, 2, false), V3.Cell(e, 1, 1, 1, 1, false)];
    assert h == [h[0], h[1]];
  }

  /** The records of versions 2.3 down to 1.4 for misaligned rows, with or without skipping empty rows. */
  lemma BuildMisalignedRecs(rows: seq<RawRow>)
    requires MisalignedRows(rows)
    ensures var a, b, c, e := rows[0].cells[0].value, rows[0].cells[1].value, rows[1].cells[0].value, rows[1].cells[1].value;
      var g := [[Rec(a, 1, 1, false), Rec(b, 1, 2, false)], [Rec(c, 1, 2, false), Rec(e, 1, 1, false)]];
      Build(rows, true) == Some(g) && Build(rows, false) == Some(g)
  {
    KeptAllRecords(rows);
    KeptRowsFacts(rows, false);
    assert BuildRows(rows).Some?;
    var g := BuildRows(rows).value;
    assert NewRow(rows[0].cells) == Some(g[0]) && NewRow(rows[1].cells) == Some(g[1]);
    assert NewRec(rows[0].cells[0]) == Some(g[0][0]) && NewRec(rows[0].cells[1]) == Some(g[0][1]);
    assert NewRec(rows[1].cells[0]) == Some(g[1][0]) && NewRec(rows[1].cells[1]) == Some(g[1][1]);
    var a, b, c, e := rows[0].cells[0].value, rows[0].cells[1].value, rows[1].cells[0].value, rows[1].cells[1].value;
    assert g[0] == [Rec(a, 1, 1, false), Rec(b, 1, 2, false)];
    assert g[1] == [Rec(c, 1, 2, false), Rec(e, 1, 1, false)];
    assert g == [g[0], g[1]];
  }

  /**
   * The width-only test of version 0.4 accepts misaligned rows, while every
   * span sweep refuses them: version 3.0, the carrying sweep of versions 2.3,
   * 1.7 and 1.5 in either dialect, and version 1.4.
   */
  lemma MisalignedSplitsV04FromSweeps(rows: seq<RawRow>)
    requires MisalignedRows(rows)
    ensures RelatableV04.Relatable(rows)
    ensures V3.Build(rows).Some? && !V3.Vertical(V3.Build(rows).value)
    ensures Build(rows, true).Some? && !Carry(Build(rows, true).value, SpanTransparent).ok && !Carry(Build(rows, true).value, Plain).ok
    ensures V14.ChekOf(rows) == Some(false) && CheckV15.ChekOf(rows) == Some(false)
  {
    CountThree(rows[0].cells);
    CountThree(rows[1].cells);
    assert RelatableV04.Relatable(rows);
    var a, b, c, e := rows[0].cells[0].value, rows[0].cells[1].value, rows[1].cells[0].value, rows[1].cells[1].value;
    BuildMisalignedCells(rows);
    V3Facts.MisalignedNotVertical(a, b, c, e);
    BuildMisalignedRecs(rows);
    var g := [[Rec(a, 1, 1, false), Rec(b, 1, 2, false)], [Rec(c, 1, 2, false), Rec(e, 1, 1, false)]];
    assert Build(rows, true) == Some(g) && Build(rows, false) == Some(g);
    CarryMisaligned(a, b, c, e, SpanTransparent);
    CarryMisaligned(a, b, c, e, Plain);
    V14Facts.MisalignedRejected(a, b, c, e);
    assert V14.ChekOf(rows) == Some(V14.Sweep(g).ok);
  }

  // ---------------------------------------------------------------------------
  // Versions 1.5 and 1.4
  // ---------------------------------------------------------------------------

  /**
   * Without span attributes version 1.5's `chek` accepts exactly when version
   * 1.4's does and, from row 2 on, every cell has the plain skeleton of the
   * cell above.
   */
  lemma PlainV15IsV14WithTags(rows: seq<RawRow>)
    requires NoSpanAttrs(rows)
    ensures Build(rows, false).Some? && V14.ChekOf(rows).Some?
    ensures CheckV15.ChekOf(rows) == Some(V14.ChekOf(rows).value && TagsFrom(Build(rows, false).value, 2, Plain))
  {
    PlainRecords(rows);
    var g := Build(rows, false).value;
    CheckV15.UnitChek(rows);
    assert V14Facts.OneByOne(g);
    V14Facts.UnitSweep(g);
  }

  /** Without span attributes the builder of versions 1.4-1.7 keeps every row and makes 1x1 records. */
  lemma PlainRecords(rows: seq<RawRow>)
    requires NoSpanAttrs(rows)
    ensures Build(rows, false).Some? && UnitGrid(Build(rows, false).value)
  {
    KeptRowsFacts(rows, false);
    forall i | 0 <= i < |rows|
      ensures NewRow(rows[i].cells).Some?
    {
      RowOfUnitRecs(rows[i].cells);
    }
    var g := BuildRows(rows).value;
    forall i | 0 <= i < |g|
      ensures forall j :: 0 <= j < |g[i]| ==> UnitRec(g[i][j])
    {
      RowOfUnitRecs(rows[i].cells);
    }
  }
}
