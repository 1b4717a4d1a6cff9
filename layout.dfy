/**
 * The geometry shared by every `get_transpose` / `transpose_table_structure`:
 * fill a dense rows x width matrix with the cell that covers each slot, transpose
 * it, and collapse each spanned region back into one cell. Only spans matter for
 * the geometry, so the matrix holds the source POSITION (row, index) of the
 * covering cell; each version then builds its output records from those positions.
 */
module Layout {
  import opened Wrappers

  /** The span pair of one cell. */
  datatype Span = Span(rs: int, cs: int)

  type SpanGrid = seq<seq<Span>>

  /** The dense matrix: `None` for a free slot, `Some(p)` for the cell at position p. */
  type Matrix = seq<seq<Option<Pos>>>

  /** Position p names a cell of g. */
  predicate ValidPos(g: SpanGrid, p: Pos) {
    p.0 < |g| && p.1 < |g[p.0]|
  }

  /** Every span is a positive integer. */
  predicate WellSpanned(g: SpanGrid) {
    forall i, j :: 0 <= i < |g| && 0 <= j < |g[i]| ==> g[i][j].rs >= 1 && g[i][j].cs >= 1
  }

  /** The sum of the colspans of a row. */
  function Width(row: seq<Span>): int {
    if row == [] then 0 else row[0].cs + Width(row[1..])
  }

  lemma {:induction false} WidthPositive(row: seq<Span>)
    requires forall j :: 0 <= j < |row| ==> row[j].cs >= 1
    ensures Width(row) >= |row|
  {
    if row != [] {
      WidthPositive(row[1..]);
    }
  }

  /** Every row of `m` has length `cols` and every entry names a cell of `g`. */
  predicate Shaped(m: Matrix, rows: nat, cols: nat, g: SpanGrid) {
    |m| == rows &&
    (forall a :: 0 <= a < |m| ==> |m[a]| == cols) &&
    (forall a, b :: 0 <= a < |m| && 0 <= b < |m[a]| && m[a][b].Some? ==> ValidPos(g, m[a][b].value))
  }

  /** `[[None for _ in range(cols)] for _ in range(rows)]` */
  function Empty(rows: nat, cols: nat): (m: Matrix)
    ensures |m| == rows && forall a :: 0 <= a < rows ==> |m[a]| == cols && forall b :: 0 <= b < cols ==> m[a][b].None?
  {
    seq(rows, _ => seq(cols, _ => None))
  }

  /** `while current_col < cols and matrix[i][current_col] is not None: current_col += 1` */
  function SkipFilled(row: seq<Option<Pos>>, c: nat): (r: nat)
    ensures c <= r
    ensures r <= |row| || r == c
    ensures forall b :: c <= b < r ==> b < |row| && row[b].Some?
    ensures r < |row| ==> row[r].None?
    decreases |row| - c
  {
    if c < |row| && row[c].Some? then SkipFilled(row, c + 1) else c
  }

  /** True when slot (a, b) lies in the rectangle of `h` rows and `w` columns at (i, c0). */
  predicate InRect(a: int, b: int, i: int, c0: int, h: int, w: int) {
    i <= a < i + h && c0 <= b < c0 + w
  }

  /**
   * The double loop over `range(rowspan)` and `range(colspan)`, complete for the
   * first `r` rows of the rectangle and for the first `cc` columns of row `r`:
   * every such slot inside the matrix receives `p`; slots outside are dropped.
   */
  function PaintPartial(m: Matrix, i: nat, c0: nat, r: nat, cc: nat, w: int, p: Pos): (m': Matrix)
    ensures |m'| == |m| && forall a :: 0 <= a < |m| ==> |m'[a]| == |m[a]|
  {
    seq(|m|, a requires 0 <= a < |m| =>
      seq(|m[a]|, b requires 0 <= b < |m[a]| =>
        if InRect(a, b, i, c0, r, w) || (a == i + r && c0 <= b < c0 + cc) then Some(p) else m[a][b]))
  }

  /** Writing the cell at `p` into the slots its span covers from (i, c0), clipped at the matrix bounds. */
  function Paint(m: Matrix, i: nat, c0: nat, sp: Span, p: Pos): (m': Matrix)
    ensures |m'| == |m| && forall a :: 0 <= a < |m| ==> |m'[a]| == |m[a]|
    ensures forall a, b :: 0 <= a < |m| && 0 <= b < |m[a]| ==>
      m'[a][b] == if InRect(a, b, i, c0, sp.rs, sp.cs) then Some(p) else m[a][b]
  {
    PaintPartial(m, i, c0, if sp.rs < 0 then 0 else sp.rs, 0, sp.cs, p)
  }

  /** The loop over the cells of row `i` from cell `idx` on, with `current_col` at `c`. */
  function FillRow(m: Matrix, i: nat, row: seq<Span>, idx: nat, c: nat): (m': Matrix)
    requires i < |m| && idx <= |row|
    ensures |m'| == |m| && forall a :: 0 <= a < |m| ==> |m'[a]| == |m[a]|
    decreases |row| - idx
  {
    if idx == |row| then m
    else
      var c' := SkipFilled(m[i], c);
      var next := c' + row[idx].cs;
      FillRow(Paint(m, i, c', row[idx], (i, idx)), i, row, idx + 1, if next < 0 then 0 else next)
  }

  /** The loop over the rows of the table from row `i` on. */
  function FillRows(m: Matrix, g: SpanGrid, i: nat): (m': Matrix)
    requires |m| == |g|
    ensures |m'| == |m| && forall a :: 0 <= a < |m| ==> |m'[a]| == |m[a]|
    decreases |g| - i
  {
    if i >= |g| then m else FillRows(FillRow(m, i, g[i], 0, 0), g, i + 1)
  }

  /** The filled matrix of a table whose first row gives the width. */
  function Fill(g: SpanGrid): (m: Matrix)
    requires g != []
  {
    var cols := Width(g[0]);
    FillRows(Empty(|g|, if cols < 0 then 0 else cols), g, 0)
  }

  /** `list(map(list, zip(*matrix)))` for a rows x cols matrix with rows > 0. */
  function TransposeMatrix(m: Matrix, cols: nat): (t: Matrix)
    requires forall a :: 0 <= a < |m| ==> |m[a]| == cols
    ensures |t| == cols && forall a :: 0 <= a < cols ==> |t[a]| == |m|
    ensures forall a, b :: 0 <= a < cols && 0 <= b < |m| ==> t[a][b] == m[b][a]
  {
    seq(cols, a requires 0 <= a < cols => seq(|m|, b requires 0 <= b < |m| => m[b][a]))
  }

  /** `zip(*matrix)` undoes itself: transposing back restores a rectangular matrix. */
  lemma TransposeTwice(m: Matrix, cols: nat)
    requires forall a :: 0 <= a < |m| ==> |m[a]| == cols
    ensures TransposeMatrix(TransposeMatrix(m, cols), |m|) == m
  {
    var t := TransposeMatrix(m, cols);
    var u := TransposeMatrix(t, |m|);
    forall b | 0 <= b < |m|
      ensures u[b] == m[b]
    {
      assert forall a :: 0 <= a < cols ==> u[b][a] == t[a][b] == m[b][a];
    }
  }

  /** The slots marked in `processed_cells` for a new cell of `h` rows and `w` columns at (i, j). */
  function Rect(i: nat, j: nat, h: int, w: int): (s: set<Pos>)
    ensures forall a: nat, b: nat :: (a, b) in s <==> InRect(a, b, i, j, h, w)
  {
    set a: nat, b: nat | i <= a < i + h && j <= b < j + w :: (a, b)
  }

  /** Every entry of row `i` of `t` names a cell of `g`. */
  predicate RowValid(t: Matrix, g: SpanGrid, i: nat)
    requires i < |t|
  {
    forall b :: 0 <= b < |t[i]| && t[i][b].Some? ==> ValidPos(g, t[i][b].value)
  }

  /**
   * The loop over row `i` of the transposed matrix from slot `j` on: a slot that
   * holds a cell and is not yet processed starts a new cell (spans swapped) and
   * marks the slots that new cell covers.
   */
  function CollapseRow(t: Matrix, g: SpanGrid, i: nat, j: nat, done: set<Pos>, acc: seq<Pos>): (r: (seq<Pos>, set<Pos>))
    requires i < |t| && j <= |t[i]| && RowValid(t, g, i)
    requires forall k :: 0 <= k < |acc| ==> ValidPos(g, acc[k])
    ensures |acc| <= |r.0| <= |acc| + |t[i]| - j && r.0[..|acc|] == acc
    ensures forall k :: 0 <= k < |r.0| ==> ValidPos(g, r.0[k])
    decreases |t[i]| - j
  {
    if j == |t[i]| then (acc, done)
    else if t[i][j].Some? && (i, j) !in done then
      var p := t[i][j].value;
      var sp := g[p.0][p.1];
      CollapseRow(t, g, i, j + 1, done + Rect(i, j, sp.cs, sp.rs), acc + [p])
    else
      CollapseRow(t, g, i, j + 1, done, acc)
  }

  /** The loop over the rows of the transposed matrix from row `i` on; empty rows are not kept. */
  function CollapseRows(t: Matrix, g: SpanGrid, i: nat, done: set<Pos>): (rs: seq<seq<Pos>>)
    requires i <= |t| && forall a :: 0 <= a < |t| ==> RowValid(t, g, a) && |t[a]| == |t[0]|
    ensures |rs| <= |t| - i
    ensures forall r :: 0 <= r < |rs| ==> rs[r] != [] && |rs[r]| <= |t[0]|
    ensures forall r, k :: 0 <= r < |rs| && 0 <= k < |rs[r]| ==> ValidPos(g, rs[r][k])
    decreases |t| - i
  {
    if i == |t| then []
    else
      var (row, done') := CollapseRow(t, g, i, 0, done, []);
      var rest := CollapseRows(t, g, i + 1, done');
      if row != [] then [row] + rest else rest
  }

  /** `Paint` keeps every entry valid when the painted position is valid. */
  lemma PaintValid(m: Matrix, i: nat, c0: nat, sp: Span, p: Pos, rows: nat, cols: nat, g: SpanGrid)
    requires Shaped(m, rows, cols, g) && ValidPos(g, p)
    ensures Shaped(Paint(m, i, c0, sp, p), rows, cols, g)
  {
  }

  lemma {:induction false} FillRowValid(m: Matrix, i: nat, g: SpanGrid, idx: nat, c: nat, cols: nat)
    requires i < |g| && idx <= |g[i]| && Shaped(m, |g|, cols, g)
    ensures Shaped(FillRow(m, i, g[i], idx, c), |g|, cols, g)
    decreases |g[i]| - idx
  {
    if idx < |g[i]| {
      var c' := SkipFilled(m[i], c);
      var next := c' + g[i][idx].cs;
      PaintValid(m, i, c', g[i][idx], (i, idx), |g|, cols, g);
      FillRowValid(Paint(m, i, c', g[i][idx], (i, idx)), i, g, idx + 1, if next < 0 then 0 else next, cols);
    }
  }

  lemma {:induction false} FillRowsValid(m: Matrix, g: SpanGrid, i: nat, cols: nat)
    requires Shaped(m, |g|, cols, g)
    ensures Shaped(FillRows(m, g, i), |g|, cols, g)
    decreases |g| - i
  {
    if i < |g| {
      FillRowValid(m, i, g, 0, 0, cols);
      FillRowsValid(FillRow(m, i, g[i], 0, 0), g, i + 1, cols);
    }
  }

  /** The filled matrix is rows x width and names only cells of the table. */
  lemma FillShaped(g: SpanGrid)
    requires g != [] && Width(g[0]) >= 0
    ensures Shaped(Fill(g), |g|, Width(g[0]), g)
  {
    FillRowsValid(Empty(|g|, Width(g[0])), g, 0, Width(g[0]));
  }

  /**
   * The transposed layout: one output row per non-empty row of the transposed
   * matrix, each a list of source positions. Nothing outside the rows x width
   * box survives: there are at most `width` rows of at most `rows` cells.
   */
  function Transposed(g: SpanGrid): (rs: seq<seq<Pos>>)
    requires g != [] && g[0] != [] && WellSpanned(g)
    ensures |rs| <= Width(g[0])
    ensures forall r :: 0 <= r < |rs| ==> 0 < |rs[r]| <= |g|
    ensures forall r, k :: 0 <= r < |rs| && 0 <= k < |rs[r]| ==> ValidPos(g, rs[r][k])
  {
    WidthPositive(g[0]);
    FillShaped(g);
    var t := TransposeMatrix(Fill(g), Width(g[0]));
    CollapseRows(t, g, 0, {})
  }

  /** A table of 1x1 cells in which every row has as many cells as the first, which is not empty. */
  predicate UnitRect(g: SpanGrid) {
    g != [] && g[0] != [] &&
    forall i :: 0 <= i < |g| ==> |g[i]| == |g[0]| && forall j :: 0 <= j < |g[i]| ==> g[i][j] == Span(1, 1)
  }

  lemma {:induction false} UnitWidth(row: seq<Span>)
    requires forall j :: 0 <= j < |row| ==> row[j] == Span(1, 1)
    ensures Width(row) == |row|
  {
    if row != [] {
      UnitWidth(row[1..]);
    }
  }

  /** The rows before `i`, and the first `idx` slots of row `i`, hold their own cell; the rest is free. */
  predicate FilledUpTo(m: Matrix, i: nat, idx: nat, rows: nat, cols: nat) {
    |m| == rows && (forall a :: 0 <= a < rows ==> |m[a]| == cols) &&
    forall a, b :: 0 <= a < rows && 0 <= b < cols ==>
      m[a][b] == if a < i || (a == i && b < idx) then Some((a, b)) else None
  }

  lemma {:induction false} UnitFillRow(m: Matrix, g: SpanGrid, i: nat, idx: nat)
    requires UnitRect(g) && i < |g| && idx <= |g[0]| && FilledUpTo(m, i, idx, |g|, |g[0]|)
    ensures FilledUpTo(FillRow(m, i, g[i], idx, idx), i + 1, 0, |g|, |g[0]|)
    decreases |g[0]| - idx
  {
    if idx < |g[i]| {
      assert m[i][idx].None?;
      assert SkipFilled(m[i], idx) == idx;
      var m' := Paint(m, i, idx, g[i][idx], (i, idx));
      assert FilledUpTo(m', i, idx + 1, |g|, |g[0]|);
      UnitFillRow(m', g, i, idx + 1);
    }
  }

  lemma {:induction false} UnitFillRows(m: Matrix, g: SpanGrid, i: nat)
    requires UnitRect(g) && i <= |g| && FilledUpTo(m, i, 0, |g|, |g[0]|)
    ensures FilledUpTo(FillRows(m, g, i), |g|, 0, |g|, |g[0]|)
    decreases |g| - i
  {
    if i < |g| {
      UnitFillRow(m, g, i, 0);
      UnitFillRows(FillRow(m, i, g[i], 0, 0), g, i + 1);
    }
  }

  /** Slot (a, b) of the transposed matrix holds the cell at (b, a). */
  predicate UnitTransposedMatrix(t: Matrix, cols: nat, rows: nat) {
    |t| == cols && forall a :: 0 <= a < cols ==> |t[a]| == rows && forall b :: 0 <= b < rows ==> t[a][b] == Some((b, a))
  }

  /** The positions (0, a), (1, a), ..., (rows - 1, a): column `a` of the source, top to bottom. */
  function Column(a: nat, rows: nat): (col: seq<Pos>)
  {
    seq(rows, k => (k, a))
  }

  lemma {:induction false} UnitCollapseRow(t: Matrix, g: SpanGrid, a: nat, j: nat, done: set<Pos>, acc: seq<Pos>)
    requires UnitRect(g) && UnitTransposedMatrix(t, |g[0]|, |g|) && a < |g[0]| && j <= |g|
    requires forall p :: p in done ==> p.0 < a || (p.0 == a && p.1 < j)
    requires acc == seq(j, k => (k, a))
    ensures RowValid(t, g, a)
    ensures CollapseRow(t, g, a, j, done, acc).0 == Column(a, |g|)
    ensures forall p :: p in CollapseRow(t, g, a, j, done, acc).1 ==> p.0 <= a
    decreases |g| - j
  {
    if j < |g| {
      assert (a, j) !in done;
      var p := t[a][j].value;
      assert g[p.0][p.1] == Span(1, 1);
      var done' := done + Rect(a, j, 1, 1);
      assert acc + [p] == seq(j + 1, k => (k, a));
      UnitCollapseRow(t, g, a, j + 1, done', acc + [p]);
    }
  }

  lemma CollapseRowsUnfold(t: Matrix, g: SpanGrid, a: nat, done: set<Pos>)
    requires a < |t| && forall x :: 0 <= x < |t| ==> RowValid(t, g, x) && |t[x]| == |t[0]|
    ensures var res := CollapseRow(t, g, a, 0, done, []);
      CollapseRows(t, g, a, done) ==
        if res.0 != [] then [res.0] + CollapseRows(t, g, a + 1, res.1) else CollapseRows(t, g, a + 1, res.1)
  {
  }

  lemma UnitCollapseStep(t: Matrix, g: SpanGrid, a: nat, done: set<Pos>) returns (done': set<Pos>)
    requires UnitRect(g) && UnitTransposedMatrix(t, |g[0]|, |g|) && a < |g[0]|
    requires forall p :: p in done ==> p.0 < a
    requires forall x :: 0 <= x < |t| ==> RowValid(t, g, x) && |t[x]| == |t[0]|
    ensures CollapseRows(t, g, a, done) == [Column(a, |g|)] + CollapseRows(t, g, a + 1, done')
    ensures forall p :: p in done' ==> p.0 < a + 1
  {
    UnitCollapseRow(t, g, a, 0, done, []);
    CollapseRowsUnfold(t, g, a, done);
    done' := CollapseRow(t, g, a, 0, done, []).1;
  }

  /** Columns a, a + 1, ..., n - 1 of a source with `m` rows. */
  function Columns(a: nat, n: nat, m: nat): (cs: seq<seq<Pos>>)
    decreases n - a
  {
    if a >= n then [] else [Column(a, m)] + Columns(a + 1, n, m)
  }

  lemma {:induction false} ColumnsAt(a: nat, n: nat, m: nat)
    ensures |Columns(a, n, m)| == if a <= n then n - a else 0
    ensures forall c :: 0 <= c < n - a ==> Columns(a, n, m)[c] == Column(a + c, m)
    decreases n - a
  {
    if a < n {
      ColumnsAt(a + 1, n, m);
      var rest := Columns(a + 1, n, m);
      assert Columns(a, n, m) == [Column(a, m)] + rest;
      forall c | 0 <= c < n - a
        ensures Columns(a, n, m)[c] == Column(a + c, m)
      {
        if c > 0 {
          assert Columns(a, n, m)[c] == rest[c - 1];
        }
      }
    }
  }

  lemma {:induction false} UnitCollapseRows(t: Matrix, g: SpanGrid, a: nat, done: set<Pos>)
    requires UnitRect(g) && UnitTransposedMatrix(t, |g[0]|, |g|) && a <= |g[0]|
    requires forall p :: p in done ==> p.0 < a
    requires forall x :: 0 <= x < |t| ==> RowValid(t, g, x) && |t[x]| == |t[0]|
    ensures CollapseRows(t, g, a, done) == Columns(a, |g[0]|, |g|)
    decreases |g[0]| - a
  {
    if a < |g[0]| {
      var done' := UnitCollapseStep(t, g, a, done);
      UnitCollapseRows(t, g, a + 1, done');
    }
  }

  /** An occupied slot stays occupied through the rest of a row's fill. */
  lemma {:induction false} FillRowKeeps(m: Matrix, i: nat, row: seq<Span>, idx: nat, c: nat, a: nat, b: nat)
    requires i < |m| && idx <= |row| && a < |m| && b < |m[a]| && m[a][b].Some?
    ensures FillRow(m, i, row, idx, c)[a][b].Some?
    decreases |row| - idx
  {
    if idx < |row| {
      var c' := SkipFilled(m[i], c);
      var next := c' + row[idx].cs;
      FillRowKeeps(Paint(m, i, c', row[idx], (i, idx)), i, row, idx + 1, if next < 0 then 0 else next, a, b);
    }
  }

  lemma {:induction false} FillRowsKeeps(m: Matrix, g: SpanGrid, i: nat, a: nat, b: nat)
    requires |m| == |g| && a < |m| && b < |m[a]| && m[a][b].Some?
    ensures FillRows(m, g, i)[a][b].Some?
    decreases |g| - i
  {
    if i < |g| {
      FillRowKeeps(m, i, g[i], 0, 0, a, b);
      FillRowsKeeps(FillRow(m, i, g[i], 0, 0), g, i + 1, a, b);
    }
  }

  /** The first cell always covers slot (0, 0), so the transposed layout has a first row. */
  lemma TransposedNonEmpty(g: SpanGrid)
    requires g != [] && g[0] != [] && WellSpanned(g)
    ensures Transposed(g) != []
  {
    WidthPositive(g[0]);
    var cols := Width(g[0]);
    var e := Empty(|g|, cols);
    var p := Paint(e, 0, 0, g[0][0], (0, 0));
    assert SkipFilled(e[0], 0) == 0;
    FillRowKeeps(p, 0, g[0], 1, g[0][0].cs, 0, 0);
    FillRowsKeeps(FillRow(e, 0, g[0], 0, 0), g, 1, 0, 0);
    FillShaped(g);
    var t: Matrix := TransposeMatrix(Fill(g), cols);
    assert t[0][0].Some?;
    assert CollapseRow(t, g, 0, 0, {}, []).0 != [];
  }

  /**
   * On a rectangular table of 1x1 cells the transpose is the textbook one:
   * output row c, position r is the source cell at row r, position c.
   */
  lemma UnitTransposedIsTranspose(g: SpanGrid)
    requires UnitRect(g)
    ensures WellSpanned(g)
    ensures |Transposed(g)| == |g[0]|
    ensures forall c :: 0 <= c < |g[0]| ==> |Transposed(g)[c]| == |g|
    ensures forall c, r :: 0 <= c < |g[0]| && 0 <= r < |g| ==> Transposed(g)[c][r] == (r, c)
  {
    UnitWidth(g[0]);
    UnitFillRows(Empty(|g|, |g[0]|), g, 0);
    FillShaped(g);
    var t := TransposeMatrix(Fill(g), |g[0]|);
    assert UnitTransposedMatrix(t, |g[0]|, |g|);
    UnitCollapseRows(t, g, 0, {});
    ColumnsAt(0, |g[0]|, |g|);
  }

  // ---------------------------------------------------------------------------
  // The loops of the source, proved against the functions above.
  // ---------------------------------------------------------------------------

  lemma PaintStep(m: Matrix, i: nat, c0: nat, r: nat, c: nat, w: int, p: Pos)
    requires c < w
    ensures var m1 := PaintPartial(m, i, c0, r, c, w, p);
      PaintPartial(m, i, c0, r, c + 1, w, p) ==
        if i + r < |m1| && c0 + c < |m1[i + r]| then m1[i + r := m1[i + r][c0 + c := Some(p)]] else m1
  {
    var m1 := PaintPartial(m, i, c0, r, c, w, p);
    var m2 := PaintPartial(m, i, c0, r, c + 1, w, p);
    if i + r < |m1| && c0 + c < |m1[i + r]| {
      var m3 := m1[i + r := m1[i + r][c0 + c := Some(p)]];
      assert forall a :: 0 <= a < |m2| ==> m2[a] == m3[a];
    } else {
      assert forall a :: 0 <= a < |m2| ==> m2[a] == m1[a];
    }
  }

  lemma PaintNothing(m: Matrix, i: nat, c0: nat, w: int, p: Pos)
    ensures PaintPartial(m, i, c0, 0, 0, w, p) == m
  {
    var m1 := PaintPartial(m, i, c0, 0, 0, w, p);
    assert forall a :: 0 <= a < |m| ==> m1[a] == m[a];
  }

  lemma PaintRowDone(m: Matrix, i: nat, c0: nat, r: nat, w: int, p: Pos)
    ensures PaintPartial(m, i, c0, r, if w < 0 then 0 else w, w, p) == PaintPartial(m, i, c0, r + 1, 0, w, p)
  {
    var m1 := PaintPartial(m, i, c0, r, if w < 0 then 0 else w, w, p);
    var m2 := PaintPartial(m, i, c0, r + 1, 0, w, p);
    assert forall a :: 0 <= a < |m2| ==> m1[a] == m2[a];
  }

  /** The inner loop over `range(colspan)` for row `r` of the rectangle. */
  method PaintRowOfCell(ghost m0: Matrix, m: Matrix, i: nat, c0: nat, r: nat, w: int, p: Pos) returns (m': Matrix)
    requires m == PaintPartial(m0, i, c0, r, 0, w, p)
    ensures m' == PaintPartial(m0, i, c0, r + 1, 0, w, p)
  {
    m' := m;
    var c: nat := 0;
    while c < w
      invariant c <= w || c == 0
      invariant m' == PaintPartial(m0, i, c0, r, c, w, p)
    {
      PaintStep(m0, i, c0, r, c, w, p);
      if i + r < |m'| && c0 + c < |m'[i + r]| {
        m' := m'[i + r := m'[i + r][c0 + c := Some(p)]];
      }
      c := c + 1;
    }
    PaintRowDone(m0, i, c0, r, w, p);
  }

  /** The double loop that writes one cell into the slots it covers. */
  method PaintCell(m: Matrix, i: nat, c0: nat, sp: Span, p: Pos) returns (m': Matrix)
    ensures m' == Paint(m, i, c0, sp, p)
  {
    m' := m;
    PaintNothing(m, i, c0, sp.cs, p);
    var r: nat := 0;
    while r < sp.rs
      invariant r <= sp.rs || r == 0
      invariant m' == PaintPartial(m, i, c0, r, 0, sp.cs, p)
    {
      m' := PaintRowOfCell(m, m', i, c0, r, sp.cs, p);
      r := r + 1;
    }
  }

  /** The skipping loop: `current_col` moves past the filled slots of the row. */
  method SkipLoop(row: seq<Option<Pos>>, c0: nat) returns (c: nat)
    ensures c == SkipFilled(row, c0)
  {
    c := c0;
    while c < |row| && row[c].Some?
      invariant c0 <= c && SkipFilled(row, c) == SkipFilled(row, c0)
      decreases |row| - c
    {
      c := c + 1;
    }
  }

  /** One pass of the loop over the cells of a row: skip to `c1`, paint into `m1`. */
  lemma FillRowStep(m: Matrix, i: nat, row: seq<Span>, idx: nat, c: nat, c1: nat, m1: Matrix, c2: nat)
    requires i < |m| && idx < |row| && row[idx].cs >= 1
    requires c1 == SkipFilled(m[i], c) && m1 == Paint(m, i, c1, row[idx], (i, idx)) && c2 == c1 + row[idx].cs
    ensures |m1| == |m| && FillRow(m1, i, row, idx + 1, c2) == FillRow(m, i, row, idx, c)
  {
  }

  /** The loop over the cells of row `i`: skip filled slots, paint, advance `current_col`. */
  method FillRowLoop(m: Matrix, i: nat, row: seq<Span>) returns (m': Matrix)
    requires i < |m| && forall j :: 0 <= j < |row| ==> row[j].cs >= 1
    ensures m' == FillRow(m, i, row, 0, 0)
  {
    m' := m;
    var c: nat := 0;
    var idx := 0;
    while idx < |row|
      invariant idx <= |row| && |m'| == |m|
      invariant FillRow(m', i, row, idx, c) == FillRow(m, i, row, 0, 0)
    {
      m', c := FillCell(m', i, row, idx, c);
      idx := idx + 1;
    }
  }

  /** The body of the loop over the cells of a row: skip, paint cell `idx`, advance. */
  method FillCell(m: Matrix, i: nat, row: seq<Span>, idx: nat, c: nat) returns (m': Matrix, c': nat)
    requires i < |m| && idx < |row| && row[idx].cs >= 1
    ensures |m'| == |m| && FillRow(m', i, row, idx + 1, c') == FillRow(m, i, row, idx, c)
  {
    var c1 := SkipLoop(m[i], c);
    m' := PaintCell(m, i, c1, row[idx], (i, idx));
    c' := c1 + row[idx].cs;
    FillRowStep(m, i, row, idx, c, c1, m', c');
  }

  /** The matrix-filling part of `get_transpose`. */
  method FillMatrix(g: SpanGrid) returns (m: Matrix)
    requires g != [] && WellSpanned(g)
    ensures m == Fill(g)
  {
    WidthPositive(g[0]);
    var cols := Width(g[0]);
    m := Empty(|g|, cols);
    var i := 0;
    while i < |g|
      invariant i <= |g| && |m| == |g|
      invariant FillRows(m, g, i) == Fill(g)
    {
      m := FillRowLoop(m, i, g[i]);
      i := i + 1;
    }
  }

  /** `for c in range(w): processed_cells.add((a, j + c))` */
  method MarkColumns(done: set<Pos>, a: nat, j: nat, w: int) returns (done': set<Pos>)
    ensures done' == done + Rect(a, j, 1, w)
  {
    done' := done;
    var c: nat := 0;
    while c < w
      invariant c <= w || c == 0
      invariant done' == done + Rect(a, j, 1, c)
    {
      done' := done' + {(a, j + c)};
      c := c + 1;
    }
  }

  /** `for r in range(h): for c in range(w): processed_cells.add((i + r, j + c))` */
  method MarkProcessed(done: set<Pos>, i: nat, j: nat, h: int, w: int) returns (done': set<Pos>)
    ensures done' == done + Rect(i, j, h, w)
  {
    done' := done;
    var r: nat := 0;
    while r < h
      invariant r <= h || r == 0
      invariant done' == done + Rect(i, j, r, w)
    {
      done' := MarkColumns(done', i + r, j, w);
      assert Rect(i, j, r, w) + Rect(i + r, j, 1, w) == Rect(i, j, r + 1, w);
      r := r + 1;
    }
  }

  /** The loop over row `i` of the transposed matrix: start new cells, mark what they cover. */
  method CollapseRowLoop(t: Matrix, g: SpanGrid, i: nat, done: set<Pos>) returns (row: seq<Pos>, done': set<Pos>)
    requires i < |t| && RowValid(t, g, i)
    ensures (row, done') == CollapseRow(t, g, i, 0, done, [])
  {
    row, done' := [], done;
    var j := 0;
    while j < |t[i]|
      invariant j <= |t[i]|
      invariant forall k :: 0 <= k < |row| ==> ValidPos(g, row[k])
      invariant CollapseRow(t, g, i, j, done', row) == CollapseRow(t, g, i, 0, done, [])
    {
      if t[i][j].Some? && (i, j) !in done' {
        var p := t[i][j].value;
        var sp := g[p.0][p.1];
        row := row + [p];
        done' := MarkProcessed(done', i, j, sp.cs, sp.rs);
      }
      j := j + 1;
    }
  }

  /** The row loop's bookkeeping: row i collapsed into `row`, kept when it is not empty. */
  lemma CollapseRowsStep(t: Matrix, g: SpanGrid, i: nat, done: set<Pos>, rs: seq<seq<Pos>>, row: seq<Pos>, done': set<Pos>)
    requires i < |t| && forall a :: 0 <= a < |t| ==> RowValid(t, g, a) && |t[a]| == |t[0]|
    requires (row, done') == CollapseRow(t, g, i, 0, done, [])
    ensures rs + CollapseRows(t, g, i, done) == (if row != [] then rs + [row] else rs) + CollapseRows(t, g, i + 1, done')
  {
    CollapseRowsUnfold(t, g, i, done);
    var rest := CollapseRows(t, g, i + 1, done');
    if row != [] {
      assert rs + ([row] + rest) == (rs + [row]) + rest;
    }
  }

  /** The collapsing part of `get_transpose`, with `processed_cells`. */
  method CollapseMatrix(t: Matrix, g: SpanGrid) returns (rs: seq<seq<Pos>>)
    requires forall a :: 0 <= a < |t| ==> RowValid(t, g, a) && |t[a]| == |t[0]|
    ensures rs == CollapseRows(t, g, 0, {})
  {
    rs := [];
    var done: set<Pos> := {};
    var i := 0;
    while i < |t|
      invariant i <= |t|
      invariant rs + CollapseRows(t, g, i, done) == CollapseRows(t, g, 0, {})
    {
      ghost var done0 := done;
      var newRow;
      newRow, done := CollapseRowLoop(t, g, i, done);
      CollapseRowsStep(t, g, i, done0, rs, newRow, done);
      if newRow != [] {
        rs := rs + [newRow];
      }
      i := i + 1;
    }
  }

  /** Fill, transpose and collapse: the geometry of `get_transpose`. */
  method TransposeLayout(g: SpanGrid) returns (rs: seq<seq<Pos>>)
    requires g != [] && g[0] != [] && WellSpanned(g)
    ensures rs == Transposed(g)
  {
    var m := FillMatrix(g);
    WidthPositive(g[0]);
    FillShaped(g);
    var t := TransposeMatrix(m, Width(g[0]));
    rs := CollapseMatrix(t, g);
  }
}
