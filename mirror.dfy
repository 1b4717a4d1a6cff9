/**
 * The geometry of `flip_table_vertical` (version 1.7): fill the dense matrix
 * as the transposes do, then read every row from right to left, emitting each
 * covering cell the first time one of its slots is met and marking slots in
 * `processed_cells`. The source marks the slot columns `j - c + 1`; `shift`
 * is that `+ 1`, and `shift == 0` is the marking of the slots the cell covers.
 */
module Mirror {
  import opened Wrappers
  import opened Layout

  /**
   * The slots marked for a cell of `h` rows and `w` columns met at (i, j):
   * rows i .. i + h - 1, columns j + shift - w + 1 .. j + shift. Negative
   * columns are never visited, so they are not kept.
   */
  function Marked(i: nat, j: int, h: int, w: int, shift: int): (s: set<Pos>)
    ensures forall a: nat, b: nat :: (a, b) in s <==> i <= a < i + h && j + shift - w < b <= j + shift
  {
    set a: nat, b: nat | i <= a < i + h && j + shift - w < b <= j + shift :: (a, b)
  }

  /** The loop `while j >= 0` over row `i` of the matrix, with `new_row` being `acc`. */
  function MirrorRow(m: Matrix, g: SpanGrid, i: nat, j: int, done: set<Pos>, acc: seq<Pos>, shift: int): (r: (seq<Pos>, set<Pos>))
    requires WellSpanned(g) && i < |m| && -1 <= j < |m[i]| && RowValid(m, g, i)
    requires forall k :: 0 <= k < |acc| ==> ValidPos(g, acc[k])
    ensures |acc| <= |r.0| <= |acc| + j + 1 && r.0[..|acc|] == acc
    ensures forall k :: 0 <= k < |r.0| ==> ValidPos(g, r.0[k])
    decreases j + 1
  {
    if j < 0 then (acc, done)
    else if m[i][j].Some? && (i, j) !in done then
      var p := m[i][j].value;
      var sp := g[p.0][p.1];
      var j' := if j - sp.cs < -1 then -1 else j - sp.cs;
      MirrorRow(m, g, i, j', done + Marked(i, j, sp.rs, sp.cs, shift), acc + [p], shift)
    else
      MirrorRow(m, g, i, j - 1, done, acc, shift)
  }

  /** The loop over the rows of the matrix from row `i` on; empty rows are not kept. */
  function MirrorRows(m: Matrix, g: SpanGrid, cols: nat, i: nat, done: set<Pos>, shift: int): (rs: seq<seq<Pos>>)
    requires WellSpanned(g) && i <= |m| && forall a :: 0 <= a < |m| ==> RowValid(m, g, a) && |m[a]| == cols
    ensures |rs| <= |m| - i
    ensures forall r :: 0 <= r < |rs| ==> rs[r] != [] && |rs[r]| <= cols
    ensures forall r, k :: 0 <= r < |rs| && 0 <= k < |rs[r]| ==> ValidPos(g, rs[r][k])
    decreases |m| - i
  {
    if i == |m| then []
    else
      var (row, done') := MirrorRow(m, g, i, cols - 1, done, [], shift);
      var rest := MirrorRows(m, g, cols, i + 1, done', shift);
      if row != [] then [row] + rest else rest
  }

  /** The mirrored layout: rows of source positions, none of them empty. */
  function Mirrored(g: SpanGrid, shift: int): (rs: seq<seq<Pos>>)
    requires g != [] && g[0] != [] && WellSpanned(g)
    ensures |rs| <= |g|
    ensures forall r :: 0 <= r < |rs| ==> rs[r] != [] && |rs[r]| <= Width(g[0])
    ensures forall r, k :: 0 <= r < |rs| && 0 <= k < |rs[r]| ==> ValidPos(g, rs[r][k])
  {
    WidthPositive(g[0]);
    FillShaped(g);
    MirrorRows(Fill(g), g, Width(g[0]), 0, {}, shift)
  }

  // ---------------------------------------------------------------------------
  // The marking: the slots of the cell, or the slots shifted one column right.
  // ---------------------------------------------------------------------------

  /** Without the shift, the marked slots are exactly those the cell covers, ending at column j. */
  lemma MarksCoverCell(i: nat, j: nat, h: int, w: int)
    requires 1 <= w <= j + 1
    ensures Marked(i, j, h, w, 0) == Rect(i, j - w + 1, h, w)
  {
  }

  /** With the source's `+ 1`, the left column of the cell is never marked and the column to its right is. */
  lemma MarksShiftedRight(i: nat, j: nat, h: int, w: int)
    requires 1 <= w <= j + 1 && h >= 1
    ensures (i, j - w + 1) !in Marked(i, j, h, w, 1)
    ensures (i, j + 1) in Marked(i, j, h, w, 1) && (i, j + 1) !in Rect(i, j - w + 1, h, w)
  {
  }

  // ---------------------------------------------------------------------------
  // The layout is never empty, and on 1x1 cells it is the row-wise mirror.
  // ---------------------------------------------------------------------------

  /** A row with an occupied slot at or left of `j` yields a cell when nothing is marked yet. */
  lemma {:induction false} MirrorRowFinds(m: Matrix, g: SpanGrid, i: nat, j: int, acc: seq<Pos>, b: nat, shift: int)
    requires WellSpanned(g) && i < |m| && -1 <= j < |m[i]| && RowValid(m, g, i)
    requires forall k :: 0 <= k < |acc| ==> ValidPos(g, acc[k])
    requires b <= j && m[i][b].Some?
    ensures |MirrorRow(m, g, i, j, {}, acc, shift).0| > |acc|
    decreases j + 1
  {
    if m[i][j].None? {
      MirrorRowFinds(m, g, i, j - 1, acc, b, shift);
    }
  }

  lemma MirroredNonEmpty(g: SpanGrid, shift: int)
    requires g != [] && g[0] != [] && WellSpanned(g)
    ensures Mirrored(g, shift) != []
  {
    WidthPositive(g[0]);
    var cols := Width(g[0]);
    var e := Empty(|g|, cols);
    var p := Paint(e, 0, 0, g[0][0], (0, 0));
    assert SkipFilled(e[0], 0) == 0;
    FillRowKeeps(p, 0, g[0], 1, g[0][0].cs, 0, 0);
    FillRowsKeeps(FillRow(e, 0, g[0], 0, 0), g, 1, 0, 0);
    FillShaped(g);
    var m := Fill(g);
    MirrorRowFinds(m, g, 0, cols - 1, [], 0, shift);
  }

  /** The first `len` slots of row `i` of an `n`-column table, read from the right: (i, n - 1), (i, n - 2), ... */
  function Leftward(i: nat, n: nat, len: nat): (s: seq<Pos>)
    requires len <= n
    ensures |s| == len && forall k :: 0 <= k < len ==> s[k] == (i, n - 1 - k)
  {
    seq(len, k requires 0 <= k < len => (i, n - 1 - k))
  }

  /** Every slot of a rows x cols matrix holds its own position. */
  predicate Identity(m: Matrix, rows: nat, cols: nat) {
    |m| == rows && forall a :: 0 <= a < rows ==> |m[a]| == cols && forall b :: 0 <= b < cols ==> m[a][b] == Some((a, b))
  }

  lemma {:induction false} UnitMirrorRow(m: Matrix, g: SpanGrid, i: nat, j: int, done: set<Pos>, acc: seq<Pos>, shift: int)
    requires UnitRect(g) && WellSpanned(g) && Identity(m, |g|, |g[0]|) && i < |g| && -1 <= j < |g[0]|
    requires 0 <= shift <= 1
    requires forall p :: p in done ==> p.0 < i || (p.0 == i && p.1 > j)
    requires acc == Leftward(i, |g[0]|, |g[0]| - 1 - j)
    ensures RowValid(m, g, i)
    ensures MirrorRow(m, g, i, j, done, acc, shift).0 == Leftward(i, |g[0]|, |g[0]|)
    ensures forall p :: p in MirrorRow(m, g, i, j, done, acc, shift).1 ==> p.0 <= i
    decreases j + 1
  {
    var n := |g[0]|;
    assert RowValid(m, g, i);
    if j >= 0 {
      assert m[i][j] == Some((i, j));
      assert (i, j) !in done;
      assert g[i][j] == Span(1, 1);
      var done' := done + Marked(i, j, 1, 1, shift);
      assert forall p :: p in done' ==> p.0 < i || (p.0 == i && p.1 > j - 1);
      assert acc + [(i, j)] == Leftward(i, n, n - 1 - (j - 1));
      assert MirrorRow(m, g, i, j, done, acc, shift) == MirrorRow(m, g, i, j - 1, done', acc + [(i, j)], shift);
      UnitMirrorRow(m, g, i, j - 1, done', acc + [(i, j)], shift);
    }
  }

  lemma MirrorRowsUnfold(m: Matrix, g: SpanGrid, cols: nat, i: nat, done: set<Pos>, shift: int)
    requires WellSpanned(g) && i < |m| && forall a :: 0 <= a < |m| ==> RowValid(m, g, a) && |m[a]| == cols
    ensures var res := MirrorRow(m, g, i, cols - 1, done, [], shift);
      MirrorRows(m, g, cols, i, done, shift) ==
        if res.0 != [] then [res.0] + MirrorRows(m, g, cols, i + 1, res.1, shift) else MirrorRows(m, g, cols, i + 1, res.1, shift)
  {
  }

  /** The row loop's bookkeeping: row i read into `row`, kept when it is not empty. */
  lemma MirrorRowsStep(m: Matrix, g: SpanGrid, cols: nat, i: nat, done: set<Pos>, shift: int,
                       rs: seq<seq<Pos>>, row: seq<Pos>, done': set<Pos>)
    requires WellSpanned(g) && i < |m| && forall a :: 0 <= a < |m| ==> RowValid(m, g, a) && |m[a]| == cols
    requires (row, done') == MirrorRow(m, g, i, cols - 1, done, [], shift)
    ensures rs + MirrorRows(m, g, cols, i, done, shift) ==
      (if row != [] then rs + [row] else rs) + MirrorRows(m, g, cols, i + 1, done', shift)
  {
    MirrorRowsUnfold(m, g, cols, i, done, shift);
    var rest := MirrorRows(m, g, cols, i + 1, done', shift);
    if row != [] {
      assert rs + ([row] + rest) == (rs + [row]) + rest;
    }
  }

  /** Rows i .. rows - 1 of an `n`-column table, each read from the right. */
  function UnitRows(i: nat, rows: nat, n: nat): (rs: seq<seq<Pos>>)
    requires i <= rows
    decreases rows - i
  {
    if i == rows then [] else [Leftward(i, n, n)] + UnitRows(i + 1, rows, n)
  }

  lemma {:induction false} UnitRowsAt(i: nat, rows: nat, n: nat)
    requires i <= rows
    ensures |UnitRows(i, rows, n)| == rows - i
    ensures forall r :: 0 <= r < rows - i ==> UnitRows(i, rows, n)[r] == Leftward(i + r, n, n)
    decreases rows - i
  {
    if i < rows {
      UnitRowsAt(i + 1, rows, n);
      var rest := UnitRows(i + 1, rows, n);
      forall r | 0 <= r < rows - i
        ensures UnitRows(i, rows, n)[r] == Leftward(i + r, n, n)
      {
        if r > 0 {
          assert UnitRows(i, rows, n)[r] == rest[r - 1];
        }
      }
    }
  }

  /** The filled matrix of a rectangle of 1x1 cells. */
  predicate UnitSetting(m: Matrix, g: SpanGrid) {
    UnitRect(g) && WellSpanned(g) && Identity(m, |g|, |g[0]|) && forall a :: 0 <= a < |m| ==> RowValid(m, g, a)
  }

  lemma UnitRowStep(m: Matrix, g: SpanGrid, i: nat, done: set<Pos>, shift: int) returns (done': set<Pos>)
    requires UnitSetting(m, g) && i < |g| && 0 <= shift <= 1
    requires forall p :: p in done ==> p.0 < i
    ensures MirrorRows(m, g, |g[0]|, i, done, shift) == [Leftward(i, |g[0]|, |g[0]|)] + MirrorRows(m, g, |g[0]|, i + 1, done', shift)
    ensures forall p :: p in done' ==> p.0 < i + 1
  {
    var cols := |g[0]|;
    UnitMirrorRow(m, g, i, cols - 1, done, [], shift);
    MirrorRowsUnfold(m, g, cols, i, done, shift);
    done' := MirrorRow(m, g, i, cols - 1, done, [], shift).1;
  }

  lemma {:induction false} UnitMirrorRows(m: Matrix, g: SpanGrid, i: nat, done: set<Pos>, shift: int)
    requires UnitSetting(m, g) && i <= |g| && 0 <= shift <= 1
    requires forall p :: p in done ==> p.0 < i
    ensures MirrorRows(m, g, |g[0]|, i, done, shift) == UnitRows(i, |g|, |g[0]|)
    decreases |g| - i
  {
    if i < |g| {
      var done' := UnitRowStep(m, g, i, done, shift);
      UnitMirrorRows(m, g, i + 1, done', shift);
    }
  }

  /** On a rectangle of 1x1 cells, output row i lists row i of the source from right to left. */
  lemma UnitMirrored(g: SpanGrid, shift: int)
    requires UnitRect(g) && 0 <= shift <= 1
    ensures WellSpanned(g)
    ensures |Mirrored(g, shift)| == |g|
    ensures forall r :: 0 <= r < |g| ==> Mirrored(g, shift)[r] == Leftward(r, |g[0]|, |g[0]|)
  {
    UnitRowsAt(0, |g|, |g[0]|);
    UnitWidth(g[0]);
    UnitFillRows(Empty(|g|, |g[0]|), g, 0);
    FillShaped(g);
    var m := Fill(g);
    assert Identity(m, |g|, |g[0]|);
    assert UnitSetting(m, g);
    UnitMirrorRows(m, g, 0, {}, shift);
  }

  // ---------------------------------------------------------------------------
  // The loops of the source, proved against the functions above.
  // ---------------------------------------------------------------------------

  /** `for c in range(w): processed_cells.add((a, j - c + shift))` */
  method MarkColumns(done: set<Pos>, a: nat, j: int, w: int, shift: int) returns (done': set<Pos>)
    ensures done' == done + Marked(a, j, 1, w, shift)
  {
    done' := done;
    var c: nat := 0;
    while c < w
      invariant c <= w || c == 0
      invariant done' == done + Marked(a, j, 1, c, shift)
    {
      if j - c + shift >= 0 {
        done' := done' + {(a, j - c + shift)};
      }
      c := c + 1;
    }
  }

  /** `for r in range(h): for c in range(w): processed_cells.add((i + r, j - c + shift))` */
  method MarkMirrored(done: set<Pos>, i: nat, j: int, h: int, w: int, shift: int) returns (done': set<Pos>)
    ensures done' == done + Marked(i, j, h, w, shift)
  {
    done' := done;
    var r: nat := 0;
    while r < h
      invariant r <= h || r == 0
      invariant done' == done + Marked(i, j, r, w, shift)
    {
      done' := MarkColumns(done', i + r, j, w, shift);
      assert Marked(i, j, r, w, shift) + Marked(i + r, j, 1, w, shift) == Marked(i, j, r + 1, w, shift);
      r := r + 1;
    }
  }

  /** The `while j >= 0` loop over row `i`. */
  method MirrorRowLoop(m: Matrix, g: SpanGrid, i: nat, cols: nat, done: set<Pos>, shift: int) returns (row: seq<Pos>, done': set<Pos>)
    requires WellSpanned(g) && i < |m| && |m[i]| == cols && RowValid(m, g, i)
    ensures (row, done') == MirrorRow(m, g, i, cols - 1, done, [], shift)
  {
    row, done' := [], done;
    var j: int := cols - 1;
    while j >= 0
      invariant -1 <= j < cols
      invariant forall k :: 0 <= k < |row| ==> ValidPos(g, row[k])
      invariant MirrorRow(m, g, i, j, done', row, shift) == MirrorRow(m, g, i, cols - 1, done, [], shift)
      decreases j + 1
    {
      var cell := m[i][j];
      if cell.Some? && (i, j) !in done' {
        var p := cell.value;
        var sp := g[p.0][p.1];
        row := row + [p];
        done' := MarkMirrored(done', i, j, sp.rs, sp.cs, shift);
        j := if j - sp.cs < -1 then -1 else j - sp.cs;
      } else {
        j := j - 1;
      }
    }
  }

  /** The row loop of `flip_table_vertical` over the filled matrix. */
  method MirrorMatrix(m: Matrix, g: SpanGrid, cols: nat, shift: int) returns (rs: seq<seq<Pos>>)
    requires WellSpanned(g) && forall a :: 0 <= a < |m| ==> RowValid(m, g, a) && |m[a]| == cols
    ensures rs == MirrorRows(m, g, cols, 0, {}, shift)
  {
    rs := [];
    var done: set<Pos> := {};
    var i := 0;
    while i < |m|
      invariant i <= |m|
      invariant rs + MirrorRows(m, g, cols, i, done, shift) == MirrorRows(m, g, cols, 0, {}, shift)
    {
      rs, done := MirrorRowInto(m, g, cols, i, done, shift, rs);
      i := i + 1;
    }
  }

  /** The body of the row loop: read row i, append it when it is not empty. */
  method MirrorRowInto(m: Matrix, g: SpanGrid, cols: nat, i: nat, done: set<Pos>, shift: int, rs: seq<seq<Pos>>)
    returns (rs': seq<seq<Pos>>, done': set<Pos>)
    requires WellSpanned(g) && i < |m| && forall a :: 0 <= a < |m| ==> RowValid(m, g, a) && |m[a]| == cols
    ensures rs' + MirrorRows(m, g, cols, i + 1, done', shift) == rs + MirrorRows(m, g, cols, i, done, shift)
  {
    var newRow;
    newRow, done' := MirrorRowLoop(m, g, i, cols, done, shift);
    MirrorRowsStep(m, g, cols, i, done, shift, rs, newRow, done');
    rs' := if newRow != [] then rs + [newRow] else rs;
  }

  /** Fill, then read right to left: the geometry of `flip_table_vertical`. */
  method MirrorLayout(g: SpanGrid, shift: int) returns (rs: seq<seq<Pos>>)
    requires g != [] && g[0] != [] && WellSpanned(g)
    ensures rs == Mirrored(g, shift)
  {
    var m := FillMatrix(g);
    WidthPositive(g[0]);
    FillShaped(g);
    rs := MirrorMatrix(m, g, Width(g[0]), shift);
  }

  // ---------------------------------------------------------------------------
  // A two-row table whose first cell spans both rows.
  // ---------------------------------------------------------------------------

  /** Row 0: a cell of two rows, then a 1x1 cell; row 1: one 1x1 cell, placed in column 1. */
  function Staircase(): SpanGrid {
    [[Span(2, 1), Span(1, 1)], [Span(1, 1)]]
  }

  lemma Square(m: Matrix, x: Option<Pos>, y: Option<Pos>, z: Option<Pos>, t: Option<Pos>)
    requires |m| == 2 && |m[0]| == 2 && |m[1]| == 2
    requires m[0][0] == x && m[0][1] == y && m[1][0] == z && m[1][1] == t
    ensures m == [[x, y], [z, t]]
  {
    assert m[0] == [x, y] && m[1] == [z, t];
  }

  lemma StaircaseFill()
    ensures WellSpanned(Staircase())
    ensures Fill(Staircase()) == [[Some((0, 0)), Some((0, 1))], [Some((0, 0)), Some((1, 0))]]
  {
    var g := Staircase();
    assert Width(g[0]) == 2;
    var e := Empty(2, 2);
    assert SkipFilled(e[0], 0) == 0;
    var m1 := Paint(e, 0, 0, g[0][0], (0, 0));
    Square(m1, Some((0, 0)), None, Some((0, 0)), None);
    assert SkipFilled(m1[0], 1) == 1;
    var m2 := Paint(m1, 0, 1, g[0][1], (0, 1));
    Square(m2, Some((0, 0)), Some((0, 1)), Some((0, 0)), None);
    assert FillRow(e, 0, g[0], 0, 0) == m2;
    assert SkipFilled(m2[1], 0) == 1;
    var m3 := Paint(m2, 1, 1, g[1][0], (1, 0));
    Square(m3, Some((0, 0)), Some((0, 1)), Some((0, 0)), Some((1, 0)));
    assert FillRow(m2, 1, g[1], 0, 0) == m3;
  }

  /**
   * With the source's marking the two-row cell is emitted again in row 1 and
   * the cell of row 1 is lost; with the marking of the covered slots the
   * result is the mirror image: row 0 reversed, and the cell of row 1.
   */
  lemma StaircaseMirrored()
    ensures WellSpanned(Staircase())
    ensures Mirrored(Staircase(), 1) == [[(0, 1), (0, 0)], [(0, 0)]]
    ensures Mirrored(Staircase(), 0) == [[(0, 1), (0, 0)], [(1, 0)]]
  {
    StaircaseFill();
    var g := Staircase();
    var m := Fill(g);
    FillShaped(g);
    StaircaseRows(m, 1);
    StaircaseRows(m, 0);
  }

  lemma StaircaseRow0(m: Matrix, shift: int) returns (d: set<Pos>)
    requires 0 <= shift <= 1
    requires m == [[Some((0, 0)), Some((0, 1))], [Some((0, 0)), Some((1, 0))]]
    ensures WellSpanned(Staircase()) && RowValid(m, Staircase(), 0)
    ensures MirrorRow(m, Staircase(), 0, 1, {}, [], shift) == ([(0, 1), (0, 0)], d)
    ensures shift == 1 ==> (1, 1) in d && (1, 0) !in d
    ensures shift == 0 ==> (1, 1) !in d && (1, 0) in d
  {
    var g := Staircase();
    var d1 := Marked(0, 1, 1, 1, shift);
    assert (0, 0) !in d1;
    assert {} + d1 == d1 && [] + [(0, 1)] == [(0, 1)];
    assert m[0][1] == Some((0, 1)) && g[0][1] == Span(1, 1) && m[0][0] == Some((0, 0)) && g[0][0] == Span(2, 1);
    assert MirrorRow(m, g, 0, 1, {}, [], shift) == MirrorRow(m, g, 0, 0, d1, [(0, 1)], shift);
    d := d1 + Marked(0, 0, 2, 1, shift);
    assert [(0, 1)] + [(0, 0)] == [(0, 1), (0, 0)];
    assert MirrorRow(m, g, 0, 0, d1, [(0, 1)], shift) == MirrorRow(m, g, 0, -1, d, [(0, 1), (0, 0)], shift);
  }

  lemma StaircaseRow1(m: Matrix, d: set<Pos>, shift: int)
    requires 0 <= shift <= 1
    requires m == [[Some((0, 0)), Some((0, 1))], [Some((0, 0)), Some((1, 0))]]
    requires shift == 1 ==> (1, 1) in d && (1, 0) !in d
    requires shift == 0 ==> (1, 1) !in d && (1, 0) in d
    ensures WellSpanned(Staircase()) && RowValid(m, Staircase(), 1)
    ensures MirrorRow(m, Staircase(), 1, 1, d, [], shift).0 == if shift == 1 then [(0, 0)] else [(1, 0)]
  {
    var g := Staircase();
    assert RowValid(m, g, 1);
    if shift == 1 {
      assert MirrorRow(m, g, 1, 1, d, [], shift) == MirrorRow(m, g, 1, 0, d, [], shift);
      assert [] + [(0, 0)] == [(0, 0)];
      assert MirrorRow(m, g, 1, 0, d, [], shift).0 == [(0, 0)];
    } else {
      var d3 := d + Marked(1, 1, 1, 1, shift);
      assert [] + [(1, 0)] == [(1, 0)];
      assert MirrorRow(m, g, 1, 1, d, [], shift) == MirrorRow(m, g, 1, 0, d3, [(1, 0)], shift);
      assert (1, 0) in d3;
      assert MirrorRow(m, g, 1, 0, d3, [(1, 0)], shift).0 == [(1, 0)];
    }
  }

  lemma StaircaseRows(m: Matrix, shift: int)
    requires 0 <= shift <= 1
    requires m == [[Some((0, 0)), Some((0, 1))], [Some((0, 0)), Some((1, 0))]]
    ensures WellSpanned(Staircase())
    ensures forall a :: 0 <= a < |m| ==> RowValid(m, Staircase(), a) && |m[a]| == 2
    ensures MirrorRows(m, Staircase(), 2, 0, {}, shift) == [[(0, 1), (0, 0)], if shift == 1 then [(0, 0)] else [(1, 0)]]
  {
    var g := Staircase();
    var d := StaircaseRow0(m, shift);
    StaircaseRow1(m, d, shift);
    MirrorRowsUnfold(m, g, 2, 0, {}, shift);
    MirrorRowsUnfold(m, g, 2, 1, d, shift);
  }
}
