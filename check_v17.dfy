/**
 * Version 1.7 (betta/convert_html_to_excel_v_1.7.py): free functions over the
 * record table. `vertical_chek` sweeps its argument in place with the plain
 * skeleton (no `span` rule), `chek` tries the table and its transpose, and
 * `flip_table_vertical` mirrors the table through the dense matrix.
 */
module CheckV17 {
  import opened Wrappers
  import opened Markup
  import opened Grids
  import Layout
  import Mirror
  import opened SpanRecords

  /** The records named by a layout of positions, copied field for field. */
  function Records(g: Grid, L: seq<seq<Pos>>): (t: Grid)
    requires forall r, k :: 0 <= r < |L| && 0 <= k < |L[r]| ==> ValidPos(g, L[r][k])
    ensures |t| == |L|
    ensures forall r :: 0 <= r < |L| ==> |t[r]| == |L[r]|
    ensures forall r, k :: 0 <= r < |L| && 0 <= k < |L[r]| ==> t[r][k] == At(g, L[r][k])
  {
    seq(|L|, r requires 0 <= r < |L| => seq(|L[r]|, k requires 0 <= k < |L[r]| => At(g, L[r][k])))
  }

  /**
   * `flip_table_vertical`, with the marked columns shifted by `shift`: `[]` for
   * an empty table or first row, otherwise at most one row per source row and
   * no empty row.
   */
  function FlipTable(g: Grid, shift: int): (f: Grid)
    requires WellSpanned(g)
    ensures f == [] <==> g == [] || g[0] == []
    ensures |f| <= |g|
    ensures forall r :: 0 <= r < |f| ==> f[r] != []
  {
    if g == [] || g[0] == [] then []
    else
      Mirror.MirroredNonEmpty(Spans(g), shift);
      Records(g, Mirror.Mirrored(Spans(g), shift))
  }

  /** The source's flip: it marks `(i + r, j - c + 1)`. */
  function FlipAsWritten(g: Grid): (f: Grid)
    requires WellSpanned(g)
  {
    FlipTable(g, 1)
  }

  /** The flip with the slots of the emitted cell marked, `(i + r, j - c)`. */
  function FlipCorrected(g: Grid): (f: Grid)
    requires WellSpanned(g)
  {
    FlipTable(g, 0)
  }

  /** Every record of a flipped table is a record of the source with its fields unchanged. */
  lemma FlipCellsAreCells(g: Grid, shift: int)
    requires WellSpanned(g)
    ensures forall r, k :: 0 <= r < |FlipTable(g, shift)| && 0 <= k < |FlipTable(g, shift)[r]| ==>
      FlipTable(g, shift)[r][k] in Cells(g)
  {
    if g != [] && g[0] != [] {
      var L := Mirror.Mirrored(Spans(g), shift);
      var f := FlipTable(g, shift);
      assert f == Records(g, L);
      forall r, k | 0 <= r < |f| && 0 <= k < |f[r]|
        ensures f[r][k] in Cells(g)
      {
        var p: Pos := L[r][k];
        assert f[r][k] == g[p.0][p.1];
      }
    }
  }

  /** A rectangle of 1x1 records: every row as long as the first, which is not empty. */
  predicate UnitRectangle(g: Grid) {
    g != [] && g[0] != [] &&
    forall i :: 0 <= i < |g| ==> |g[i]| == |g[0]| && forall j :: 0 <= j < |g[i]| ==> g[i][j].rowspan == 1 && g[i][j].colspan == 1
  }

  /** On a rectangle of 1x1 records both markings give every row reversed. */
  lemma UnitFlip(g: Grid, shift: int)
    requires UnitRectangle(g) && 0 <= shift <= 1
    ensures WellSpanned(g) && FlipTable(g, shift) == Flip(g)
  {
    var sg := Spans(g);
    assert Layout.UnitRect(sg);
    Mirror.UnitMirrored(sg, shift);
    var f := FlipTable(g, shift);
    var n := |g[0]|;
    forall r | 0 <= r < |g|
      ensures f[r] == Flip(g)[r]
    {
      assert Mirror.Mirrored(sg, shift)[r] == Mirror.Leftward(r, n, n);
      forall k | 0 <= k < n
        ensures f[r][k] == Flip(g)[r][k]
      {
        assert f[r][k] == g[r][n - 1 - k];
      }
    }
  }

  /** On a rectangle of 1x1 records `transpose_table_structure` puts the record at (r, c) at (c, r). */
  lemma UnitTransposeTable(g: Grid)
    requires UnitRectangle(g)
    ensures WellSpanned(g)
    ensures |TransposeOrEmpty(g)| == |g[0]|
    ensures forall c :: 0 <= c < |g[0]| ==> |TransposeOrEmpty(g)[c]| == |g|
    ensures forall c, r :: 0 <= c < |g[0]| && 0 <= r < |g| ==> TransposeOrEmpty(g)[c][r] == SwapRec(g[r][c])
  {
    var sg := Spans(g);
    assert Layout.UnitRect(sg);
    Layout.UnitTransposedIsTranspose(sg);
  }

  /** Row 0: a record of two rows, then a 1x1 record; row 1: one 1x1 record. */
  function Staircase(a: Node, b: Node, c: Node): Grid {
    [[Rec(a, 2, 1, false), Rec(b, 1, 1, false)], [Rec(c, 1, 1, false)]]
  }

  lemma StaircaseSpans(a: Node, b: Node, c: Node)
    ensures WellSpanned(Staircase(a, b, c)) && Spans(Staircase(a, b, c)) == Mirror.Staircase()
  {
    var sg := Spans(Staircase(a, b, c));
    assert sg[0] == [Layout.Span(2, 1), Layout.Span(1, 1)] && sg[1] == [Layout.Span(1, 1)];
  }

  lemma RecordsOfTwoRows(g: Grid, p: Pos, q: Pos, r: Pos)
    requires ValidPos(g, p) && ValidPos(g, q) && ValidPos(g, r)
    ensures Records(g, [[p, q], [r]]) == [[At(g, p), At(g, q)], [At(g, r)]]
  {
    var t := Records(g, [[p, q], [r]]);
    assert t[0] == [At(g, p), At(g, q)] && t[1] == [At(g, r)];
  }

  /** The source's flip yields the two-row record twice and loses the record of row 1. */
  lemma StaircaseFlipAsWritten(a: Node, b: Node, c: Node)
    ensures WellSpanned(Staircase(a, b, c))
    ensures FlipAsWritten(Staircase(a, b, c)) == [[Rec(b, 1, 1, false), Rec(a, 2, 1, false)], [Rec(a, 2, 1, false)]]
  {
    var g := Staircase(a, b, c);
    StaircaseSpans(a, b, c);
    Mirror.StaircaseMirrored();
    RecordsOfTwoRows(g, (0, 1), (0, 0), (0, 0));
  }

  /** The corrected flip yields the mirror image: row 0 reversed, then the record of row 1. */
  lemma StaircaseFlipCorrected(a: Node, b: Node, c: Node)
    ensures WellSpanned(Staircase(a, b, c))
    ensures FlipCorrected(Staircase(a, b, c)) == [[Rec(b, 1, 1, false), Rec(a, 2, 1, false)], [Rec(c, 1, 1, false)]]
  {
    var g := Staircase(a, b, c);
    StaircaseSpans(a, b, c);
    Mirror.StaircaseMirrored();
    RecordsOfTwoRows(g, (0, 1), (0, 0), (1, 0));
  }

  /** `flip_table_vertical` with its loops, as written. */
  method FlipTableVertical(g: Grid) returns (f: Grid)
    requires WellSpanned(g)
    ensures f == FlipAsWritten(g)
  {
    if g == [] || g[0] == [] {
      return [];
    }
    var layout := Mirror.MirrorLayout(Spans(g), 1);
    f := Records(g, layout);
  }

  /** `transpose_table_structure`: the shared transpose, with `[]` for an empty table or first row. */
  function TransposeOrEmpty(g: Grid): (t: Grid)
    requires WellSpanned(g)
    ensures t == [] <==> g == [] || g[0] == []
    ensures WellSpanned(t)
  {
    match Transpose(g)
    case None => []
    case Some(t) => t
  }

  method TransposeTableStructure(g: Grid) returns (t: Grid)
    requires WellSpanned(g)
    ensures t == TransposeOrEmpty(g)
  {
    var r := TransposeLoop(g);
    t := if r.None? then [] else r.value;
  }

  /** `vertical_chek`: the sweep with the plain skeleton, updating the records of its argument. */
  method VerticalChek(t: Table) returns (ok: bool)
    modifies t
    ensures Run(ok, t.rows) == Carry(old(t.rows), Plain)
  {
    var w;
    ok, w := CarryLoop(t.rows, Plain);
    t.rows := w;
  }

  /** `chek`: the table passes, or its transpose does; None when building the table raises. */
  function ChekOf(rows: seq<RawRow>): (r: Option<bool>)
    requires PositiveSpans(rows)
    ensures r.None? <==> Build(rows, false).None?
  {
    match Build(rows, false)
    case None => None
    case Some(g) =>
      BuiltWellSpanned(rows, false);
      Some(Carry(g, Plain).ok || Carry(TransposeOrEmpty(g), Plain).ok)
  }

  /**
   * `chek`: the transpose is built from fresh records before the sweep updates
   * the table, and the flip's result is not used.
   */
  method Chek(rows: seq<RawRow>) returns (r: Option<bool>)
    requires PositiveSpans(rows)
    ensures r == ChekOf(rows)
  {
    var built := BuildLoop(rows, false);
    if built.None? {
      return None;
    }
    var g := built.value;
    BuiltWellSpanned(rows, false);
    var transposed := TransposeTableStructure(g);
    var flipped := FlipTableVertical(g);
    var table := new Table(g);
    var ok := VerticalChek(table);
    if ok {
      return Some(true);
    }
    var other := new Table(transposed);
    ok := VerticalChek(other);
    return Some(ok);
  }
}
