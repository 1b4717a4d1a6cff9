/**
 * Properties of the version 3.0 model: the sweep on tables of 1x1 cells, the
 * frontier width an accepted row preserves, mirror and transpose facts, and the
 * classifier's failure cases.
 */
module SpanTableV3Facts {
  import opened Wrappers
  import opened Markup
  import opened Grids
  import opened SpanTableV3

  /** A fresh 1x1 record, as `make_table` builds it for a cell without span attributes. */
  predicate UnitCell(c: Cell) {
    c.rowspan == 1 && c.colspan == 1 && c.rowspanOriginal == 1 && c.colspanOriginal == 1 && !c.similarity
  }

  predicate UnitGrid(g: Grid) {
    forall i, j :: 0 <= i < |g| && 0 <= j < |g[i]| ==> UnitCell(g[i][j])
  }

  predicate SameTags(a: Cell, b: Cell) {
    TagStructure(a.value, SpanTransparent) == TagStructure(b.value, SpanTransparent)
  }

  /** Rows i, i + 1, ... all have n cells. */
  predicate RowsFrom(g: Grid, i: nat, n: nat) {
    forall r :: i <= r < |g| ==> |g[r]| == n
  }

  /** Each cell of row `down` has the skeleton of the cell at its index in row `up`. */
  predicate TagsAgree(up: seq<Cell>, down: seq<Cell>) {
    forall q :: 0 <= q < |down| && q < |up| ==> SameTags(up[q], down[q])
  }

  /** From row max(i, 2) on, every cell has the skeleton of the cell above it. */
  predicate TagsFrom(g: Grid, i: nat) {
    forall r :: i <= r < |g| && 2 <= r ==> TagsAgree(g[r - 1], g[r])
  }

  /** `for k in range(len(old)): old[k]["rowspan"] -= 1` on a frontier that is row r from index k on. */
  lemma {:induction false} DecRow(w: Grid, r: nat, n: nat, k: nat)
    requires r < |w| && n == |w[r]| && k <= n
    ensures var d := DecFrom(w, RowPositions(r, n), k);
      SameShape(w, d) &&
      (forall x, q :: 0 <= x < |w| && 0 <= q < |w[x]| && !(x == r && k <= q) ==> d[x][q] == w[x][q]) &&
      (forall q :: k <= q < n ==> d[r][q] == w[r][q].(rowspan := w[r][q].rowspan - 1))
    decreases n - k
  {
    if k < n {
      var ps := RowPositions(r, n);
      var c := At(w, ps[k]);
      var w' := Put(w, ps[k], c.(rowspan := c.rowspan - 1));
      DecRow(w', r, n, k + 1);
    }
  }

  /**
   * The working copy while the cursor loop of row i of a 1x1 table is at index j:
   * row i - 1 is spent (rowspan 0), cells of row i before j are marked, the rest
   * of the table is untouched.
   */
  predicate AtCursor(g: Grid, w: Grid, i: nat, n: nat, j: nat) {
    1 <= i < |g| && |g[i - 1]| == n && SameShape(g, w) && j <= n && j <= |g[i]| &&
    (forall r, q :: r + 1 == i && 0 <= q < n ==> w[r][q] == g[r][q].(rowspan := 0, similarity := i >= 2)) &&
    (forall q :: 0 <= q < j ==> w[i][q] == g[i][q].(similarity := true)) &&
    (forall q :: j <= q < |g[i]| ==> w[i][q] == g[i][q]) &&
    (forall r, q :: i < r < |g| && 0 <= q < |g[r]| ==> w[r][q] == g[r][q])
  }

  /** One pass of the cursor loop: cell j of row i fits under frontier cell j. */
  lemma RowUnitStep(g: Grid, w: Grid, i: nat, n: nat, j: nat) returns (w': Grid)
    requires UnitGrid(g) && AtCursor(g, w, i, n, j) && j < n && j < |g[i]|
    ensures AllValid(w, RowPositions(i - 1, n)) && AllValid(w, RowPositions(i, j))
    ensures AtCursor(g, w', i, n, j + 1)
    ensures var before := SweepRow(w, RowPositions(i - 1, n), i, RowPositions(i, j), j, j, 0);
      if i >= 2 && !SameTags(g[i - 1][j], g[i][j]) then before == Reject
      else before == SweepRow(w', RowPositions(i - 1, n), i, RowPositions(i, j + 1), j + 1, j + 1, 0)
  {
    var prev := RowPositions(i - 1, n);
    var next := RowPositions(i, j);
    assert !AnyBlocks(w, prev, w[i][j]) by {
      forall t | 0 <= t < |prev|
        ensures !Blocks(At(w, prev[t]), w[i][j])
      {
        assert At(w, prev[t]) == w[i - 1][t];
      }
    }
    w' := Put(w, (i, j), w[i][j].(similarity := true));
    assert At(w', prev[j]) == w[i - 1][j];
    assert next + [(i, j)] == RowPositions(i, j + 1);
  }

  /** Tags agree on suffixes from j exactly when they agree at j and on suffixes from j + 1. */
  lemma TagsAgreeFrom(up: seq<Cell>, down: seq<Cell>, j: nat)
    requires j < |up| && j < |down|
    ensures TagsAgree(up[j..], down[j..]) <==> SameTags(up[j], down[j]) && TagsAgree(up[j + 1..], down[j + 1..])
  {
    var u, d := up[j..], down[j..];
    var u', d' := up[j + 1..], down[j + 1..];
    if TagsAgree(u', d') && SameTags(up[j], down[j]) {
      forall q | 0 <= q < |d| && q < |u|
        ensures SameTags(u[q], d[q])
      {
        if q > 0 {
          assert u[q] == u'[q - 1] && d[q] == d'[q - 1];
        }
      }
    }
    if TagsAgree(u, d) {
      assert SameTags(u[0], d[0]);
      forall q | 0 <= q < |d'| && q < |u'|
        ensures SameTags(u'[q], d'[q])
      {
        assert u'[q] == u[q + 1] && d'[q] == d[q + 1];
      }
    }
  }

  /** The end of the cursor loop: row i is used up or the frontier is. */
  lemma RowUnitEnd(g: Grid, w: Grid, i: nat, n: nat, j: nat)
    requires UnitGrid(g) && AtCursor(g, w, i, n, j) && (j == n || j == |g[i]|)
    ensures AllValid(w, RowPositions(i - 1, n)) && AllValid(w, RowPositions(i, j))
    ensures var res := SweepRow(w, RowPositions(i - 1, n), i, RowPositions(i, j), j, j, 0);
      (res.Accept? <==> |g[i]| == n) &&
      (res.Accept? ==> res.next == RowPositions(i, n) && Entering(g, res.w, i + 1, n))
  {
    var prev := RowPositions(i - 1, n);
    if j < n {
      assert At(w, prev[j]) == w[i - 1][j];
    }
  }

  /** The cursor loop on row i of a 1x1 table, from index j with the frontier being row i - 1. */
  lemma {:induction false} RowUnit(g: Grid, w: Grid, i: nat, n: nat, j: nat)
    requires UnitGrid(g) && AtCursor(g, w, i, n, j)
    ensures AllValid(w, RowPositions(i - 1, n)) && AllValid(w, RowPositions(i, j))
    ensures var res := SweepRow(w, RowPositions(i - 1, n), i, RowPositions(i, j), j, j, 0);
      (res.Accept? <==> |g[i]| == n && (i >= 2 ==> TagsAgree(g[i - 1][j..], g[i][j..]))) &&
      (res.Accept? ==> res.next == RowPositions(i, n) && Entering(g, res.w, i + 1, n))
    decreases n - j
  {
    if j < n && j < |g[i]| {
      var w' := RowUnitStep(g, w, i, n, j);
      TagsAgreeFrom(g[i - 1], g[i], j);
      if !(i >= 2 && !SameTags(g[i - 1][j], g[i][j])) {
        RowUnit(g, w', i, n, j + 1);
      }
    } else {
      RowUnitEnd(g, w, i, n, j);
    }
  }

  /** The state of the working copy when the sweep of a 1x1 table reaches row i. */
  predicate Entering(g: Grid, w: Grid, i: nat, n: nat)
    requires 1 <= i <= |g|
  {
    SameShape(g, w) && |g[i - 1]| == n &&
    (forall r, q :: r + 1 == i && 0 <= q < n ==> w[r][q] == g[r][q].(similarity := i >= 2)) &&
    (forall r, q :: i <= r < |g| && 0 <= q < |g[r]| ==> w[r][q] == g[r][q])
  }

  /** One row of the sweep of a 1x1 table: accepted exactly when it is as long as row i - 1 and, from row 2 on, its skeletons agree. */
  lemma SweepFromUnitStep(g: Grid, w: Grid, i: nat, n: nat) returns (w2: Grid)
    requires UnitGrid(g) && 1 <= i < |g| && Entering(g, w, i, n)
    ensures AllValid(w, RowPositions(i - 1, n))
    ensures if |g[i]| == n && (i >= 2 ==> TagsAgree(g[i - 1], g[i])) then
        Entering(g, w2, i + 1, n) && AllValid(w2, RowPositions(i, n)) &&
        SweepFrom(w, RowPositions(i - 1, n), i) == SweepFrom(w2, RowPositions(i, n), i + 1)
      else !SweepFrom(w, RowPositions(i - 1, n), i)
  {
    var prev := RowPositions(i - 1, n);
    var w1 := DecFrom(w, prev, 0);
    DecRow(w, i - 1, n, 0);
    assert RowPositions(i, 0) == [];
    assert g[i - 1][0..] == g[i - 1] && g[i][0..] == g[i];
    RowUnit(g, w1, i, n, 0);
    w2 := match SweepRow(w1, prev, i, [], 0, 0, 0) case Reject => w case Accept(w', _) => w';
  }

  lemma {:induction false} SweepFromUnit(g: Grid, w: Grid, i: nat, n: nat)
    requires UnitGrid(g) && 1 <= i <= |g| && Entering(g, w, i, n)
    ensures AllValid(w, RowPositions(i - 1, n))
    ensures SweepFrom(w, RowPositions(i - 1, n), i) <==> RowsFrom(g, i, n) && TagsFrom(g, i)
    decreases |g| - i
  {
    if i < |g| {
      var w2 := SweepFromUnitStep(g, w, i, n);
      RowsFromNext(g, i, n);
      if |g[i]| == n && (i >= 2 ==> TagsAgree(g[i - 1], g[i])) {
        SweepFromUnit(g, w2, i + 1, n);
      }
    } else {
      SweepFromUnitEnd(g, w, n);
    }
  }

  /** After the last row the frontier is the last row, whose 1x1 records all have rowspan 1. */
  lemma SweepFromUnitEnd(g: Grid, w: Grid, n: nat)
    requires UnitGrid(g) && 1 <= |g| && Entering(g, w, |g|, n)
    ensures AllValid(w, RowPositions(|g| - 1, n))
    ensures SweepFrom(w, RowPositions(|g| - 1, n), |g|)
  {
    var prev := RowPositions(|g| - 1, n);
    assert forall t :: 0 <= t < |prev| ==> At(w, prev[t]) == w[|g| - 1][t];
  }

  lemma RowsFromNext(g: Grid, i: nat, n: nat)
    requires 1 <= i < |g|
    ensures RowsFrom(g, i, n) <==> |g[i]| == n && RowsFrom(g, i + 1, n)
    ensures TagsFrom(g, i) <==> (i >= 2 ==> TagsAgree(g[i - 1], g[i])) && TagsFrom(g, i + 1)
  {
  }

  /**
   * On a table of 1x1 cells, `vertical_check` holds exactly when there are at
   * least two rows, every row has as many cells as row 0, and from row 2 on each
   * cell has the skeleton of the cell above it (row 1 is not compared with row 0).
   */
  lemma UnitVertical(g: Grid)
    requires UnitGrid(g)
    ensures Vertical(g) <==> |g| >= 2 && RowsFrom(g, 0, |g[0]|) && TagsFrom(g, 2)
  {
    if |g| >= 2 {
      SweepFromUnit(g, g, 1, |g[0]|);
    }
  }

  // ---------------------------------------------------------------------------
  // Mirror and transpose
  // ---------------------------------------------------------------------------

  /** `get_flip` applied twice gives back the table. */
  lemma FlipTwice(g: Grid)
    ensures Flip(Flip(g)) == g
  {
    var f := Flip(Flip(g));
    assert forall i :: 0 <= i < |g| ==> f[i] == g[i];
  }

  /** A rectangle of 1x1 records, the first row not empty. */
  predicate UnitRectangle(g: Grid) {
    g != [] && g[0] != [] && RowsFrom(g, 0, |g[0]|) &&
    forall i, j :: 0 <= i < |g| && 0 <= j < |g[i]| ==> g[i][j].rowspan == 1 && g[i][j].colspan == 1
  }

  /** On a rectangle of 1x1 records, `get_transpose` puts the record at (r, c) at (c, r), spans swapped. */
  lemma UnitTranspose(g: Grid)
    requires UnitRectangle(g)
    ensures WellSpanned(g) && Transpose(g).Some?
    ensures |Transpose(g).value| == |g[0]|
    ensures forall c :: 0 <= c < |g[0]| ==> |Transpose(g).value[c]| == |g|
    ensures forall c, r :: 0 <= c < |g[0]| && 0 <= r < |g| ==> Transpose(g).value[c][r] == SwapCell(g[r][c])
  {
    var sg := Spans(g);
    assert Layout.UnitRect(sg);
    Layout.UnitTransposedIsTranspose(sg);
  }

  // ---------------------------------------------------------------------------
  // The classifier
  // ---------------------------------------------------------------------------

  /**
   * `get_type_of_genuine` raises exactly when the table or its first row is
   * empty and the sweep of the table itself failed: otherwise every transpose in
   * the chain has a first row.
   */
  lemma ClassifyFails(g: Grid)
    requires WellSpanned(g)
    ensures Classify(g).None? <==> (g == [] || g[0] == []) && !Vertical(g)
  {
    if g != [] && g[0] != [] {
      ClassifyDefined(g);
    } else {
      assert Transpose(g).None?;
    }
  }

  /** With a first row, the three transposed checks all reach `vertical_check`. */
  lemma ChecksDefined(g: Grid)
    requires WellSpanned(g) && g != [] && g[0] != []
    ensures LeftCheck(g).Some? && RightCheck(g).Some? && BottomCheck(g).Some?
  {
    FlipKeepsFirstRow(g);
    var t := Transpose(g).value;
    assert t[0] != [];
    FlipKeepsFirstRow(t);
  }

  /** Mirroring keeps the spans and a non-empty first row. */
  lemma FlipKeepsFirstRow(g: Grid)
    requires WellSpanned(g) && g != [] && g[0] != []
    ensures WellSpanned(Flip(g)) && Flip(g) != [] && Flip(g)[0] != []
  {
  }

  lemma ClassifyDefined(g: Grid)
    requires WellSpanned(g) && g != [] && g[0] != []
    ensures Classify(g).Some?
  {
    ChecksDefined(g);
  }

  /** The cells of a table. */
  function Cells(g: Grid): set<Cell> {
    set i, j | 0 <= i < |g| && 0 <= j < |g[i]| :: g[i][j]
  }

  /** Every cell of a transposed table is a cell of the source with its spans swapped. */
  lemma TransposeCellsAreSwaps(g: Grid)
    requires WellSpanned(g) && Transpose(g).Some?
    ensures forall i, k :: 0 <= i < |Transpose(g).value| && 0 <= k < |Transpose(g).value[i]| ==>
      SwapCell(Transpose(g).value[i][k]) in Cells(g)
  {
    var L := Layout.Transposed(Spans(g));
    var t := Transpose(g).value;
    forall i, k | 0 <= i < |t| && 0 <= k < |t[i]|
      ensures SwapCell(t[i][k]) in Cells(g)
    {
      var p: Pos := L[i][k];
      assert SwapCell(t[i][k]) == g[p.0][p.1];
    }
  }

  /**
   * A one-row table of at least two 1x1 cells is classified 'left' when the
   * cells after the first have the skeleton of their left neighbour: its
   * transpose is a column of one-cell rows.
   */
  lemma OneRowIsLeft(row: seq<Cell>)
    requires |row| >= 2 && forall j :: 0 <= j < |row| ==> UnitCell(row[j])
    requires forall j :: 2 <= j < |row| ==> SameTags(row[j - 1], row[j])
    ensures WellSpanned([row]) && Classify([row]) == Some(Left)
  {
    OneRowTransposePasses(row);
    assert !Vertical([row]);
  }

  lemma OneRowTransposePasses(row: seq<Cell>)
    requires |row| >= 2 && forall j :: 0 <= j < |row| ==> UnitCell(row[j])
    requires forall j :: 2 <= j < |row| ==> SameTags(row[j - 1], row[j])
    ensures WellSpanned([row]) && Transpose([row]).Some? && Vertical(Transpose([row]).value)
  {
    var g := [row];
    UnitTranspose(g);
    var t := Transpose(g).value;
    assert |t| == |row|;
    assert forall c :: 0 <= c < |t| ==> t[c] == [SwapCell(row[c])] by {
      forall c | 0 <= c < |t|
        ensures t[c] == [SwapCell(row[c])]
      {
        assert |t[c]| == 1 && t[c][0] == SwapCell(g[0][c]);
      }
    }
    ColumnPasses(row, t);
  }

  /** The transposed one-row table: one row per cell. */
  lemma ColumnPasses(row: seq<Cell>, t: Grid)
    requires |row| >= 2 && forall j :: 0 <= j < |row| ==> UnitCell(row[j])
    requires forall j :: 2 <= j < |row| ==> SameTags(row[j - 1], row[j])
    requires |t| == |row| && forall c :: 0 <= c < |t| ==> t[c] == [SwapCell(row[c])]
    ensures Vertical(t)
  {
    assert UnitGrid(t);
    assert RowsFrom(t, 0, |t[0]|);
    assert TagsFrom(t, 2) by {
      forall r | 2 <= r < |t|
        ensures TagsAgree(t[r - 1], t[r])
      {
        assert t[r - 1] == [SwapCell(row[r - 1])] && t[r] == [SwapCell(row[r])];
      }
    }
    UnitVertical(t);
  }

  // ---------------------------------------------------------------------------
  // Frontier width
  // ---------------------------------------------------------------------------

  /** The summed colspans of the records at positions ps. */
  function FrontierWidth(w: Grid, ps: seq<Pos>): int
    requires AllValid(w, ps)
  {
    if ps == [] then 0 else FrontierWidth(w, ps[..|ps| - 1]) + At(w, ps[|ps| - 1]).colspan
  }

  lemma {:induction false} FrontierWidthFront(w: Grid, ps: seq<Pos>)
    requires AllValid(w, ps) && ps != []
    ensures FrontierWidth(w, ps) == At(w, ps[0]).colspan + FrontierWidth(w, ps[1..])
    decreases |ps|
  {
    if |ps| > 1 {
      FrontierWidthFront(w, ps[..|ps| - 1]);
      assert ps[..|ps| - 1][1..] == ps[1..][..|ps| - 2];
    }
  }

  lemma {:induction false} FrontierWidthFrozen(w: Grid, w': Grid, ps: seq<Pos>)
    requires Frozen(w, w') && AllValid(w, ps)
    ensures AllValid(w', ps) && FrontierWidth(w', ps) == FrontierWidth(w, ps)
    decreases |ps|
  {
    if ps != [] {
      FrontierWidthFrozen(w, w', ps[..|ps| - 1]);
    }
  }

  /**
   * An accepted row keeps the frontier width: the colspans of the next frontier
   * add up to those of the current one. From a cursor state, what is still to
   * come is the rest of the frontier minus the part `s` of slot k already filled.
   */
  lemma {:induction false} SweepRowWidth(w: Grid, prev: seq<Pos>, i: nat, next: seq<Pos>, j: nat, k: nat, s: int)
    requires i < |w| && AllValid(w, prev) && AllValid(w, next) && j <= |w[i]| && k <= |prev|
    requires s == 0 || (k < |prev| && At(w, prev[k]).rowspan <= 0)
    ensures var r := SweepRow(w, prev, i, next, j, k, s);
      r.Accept? ==> FrontierWidth(r.w, r.next) == FrontierWidth(w, next) + FrontierWidth(w, prev[k..]) - s
    decreases |prev| - k + |w[i]| - j
  {
    if k < |prev| && SweepRow(w, prev, i, next, j, k, s).Accept? {
      var w', next', j', k', s' := WidthStepCase(w, prev, i, next, j, k, s);
      SweepRowWidth(w', prev, i, next', j', k', s');
    }
  }

  /** One step of the cursor loop of an accepted row, with the width still to come unchanged. */
  lemma WidthStepCase(w: Grid, prev: seq<Pos>, i: nat, next: seq<Pos>, j: nat, k: nat, s: int)
    returns (w': Grid, next': seq<Pos>, j': nat, k': nat, s': int)
    requires i < |w| && AllValid(w, prev) && AllValid(w, next) && j <= |w[i]| && k < |prev|
    requires s == 0 || At(w, prev[k]).rowspan <= 0
    requires SweepRow(w, prev, i, next, j, k, s).Accept?
    ensures i < |w'| && |w'[i]| == |w[i]| && AllValid(w', prev) && AllValid(w', next') && j' <= |w'[i]| && k' <= |prev|
    ensures s' == 0 || (k' < |prev| && At(w', prev[k']).rowspan <= 0)
    ensures |prev| - k' + |w[i]| - j' < |prev| - k + |w[i]| - j
    ensures SweepRow(w', prev, i, next', j', k', s') == SweepRow(w, prev, i, next, j, k, s)
    ensures FrontierWidth(w', next') + FrontierWidth(w', prev[k'..]) - s' ==
      FrontierWidth(w, next) + FrontierWidth(w, prev[k..]) - s
  {
    FrontierWidthFront(w, prev[k..]);
    assert prev[k..][1..] == prev[k + 1..];
    if At(w, prev[k]).rowspan > 0 {
      assert (next + [prev[k]])[..|next|] == next;
      w', next', j', k', s' := w, next + [prev[k]], j, k + 1, s;
    } else {
      assert (next + [(i, j)])[..|next|] == next;
      w' := WidthStepCell(w, prev, i, next, j, k, s);
      next', j' := next + [(i, j)], j + 1;
      if s + w[i][j].colspan < At(w, prev[k]).colspan {
        k', s' := k, s + w[i][j].colspan;
      } else {
        k', s' := k + 1, 0;
      }
    }
  }

  /** The step that reads cell j of row i under a spent frontier record k. */
  lemma WidthStepCell(w: Grid, prev: seq<Pos>, i: nat, next: seq<Pos>, j: nat, k: nat, s: int) returns (w': Grid)
    requires i < |w| && AllValid(w, prev) && AllValid(w, next) && j <= |w[i]| && k < |prev|
    requires At(w, prev[k]).rowspan <= 0
    requires SweepRow(w, prev, i, next, j, k, s).Accept?
    ensures j < |w[i]| && SameShape(w, w') && AllValid(w', prev) && AllValid(w', next + [(i, j)])
    ensures var n := w[i][j]; var o := At(w, prev[k]);
      if s + n.colspan < o.colspan then
        w' == w && SweepRow(w, prev, i, next + [(i, j)], j + 1, k, s + n.colspan) == SweepRow(w, prev, i, next, j, k, s)
      else
        s + n.colspan == o.colspan &&
        SweepRow(w', prev, i, next + [(i, j)], j + 1, k + 1, 0) == SweepRow(w, prev, i, next, j, k, s)
    ensures FrontierWidth(w', next + [(i, j)]) == FrontierWidth(w, next + [(i, j)])
    ensures FrontierWidth(w', prev[k + 1..]) == FrontierWidth(w, prev[k + 1..])
  {
    var n := w[i][j];
    var o := At(w, prev[k]);
    if s + n.colspan < o.colspan || s != 0 {
      w' := w;
    } else {
      w' := Put(w, (i, j), n.(similarity := true));
      assert Frozen(w, w');
      FrontierWidthFrozen(w, w', next + [(i, j)]);
      FrontierWidthFrozen(w, w', prev[k + 1..]);
    }
  }

  /** When no frontier record is still spanning, an accepted row's next frontier is exactly that row. */
  lemma {:induction false} SweepRowNoCarry(w: Grid, prev: seq<Pos>, i: nat, j: nat, k: nat, s: int)
    requires i < |w| && AllValid(w, prev) && j <= |w[i]| && k <= |prev|
    requires forall t :: 0 <= t < |prev| ==> At(w, prev[t]).rowspan <= 0
    ensures AllValid(w, RowPositions(i, j))
    ensures var r := SweepRow(w, prev, i, RowPositions(i, j), j, k, s);
      r.Accept? ==> r.next == RowPositions(i, |w[i]|)
    decreases |prev| - k + |w[i]| - j
  {
    var r := SweepRow(w, prev, i, RowPositions(i, j), j, k, s);
    if k < |prev| && r.Accept? {
      assert RowPositions(i, j) + [(i, j)] == RowPositions(i, j + 1);
      var o := At(w, prev[k]);
      var n := w[i][j];
      if s + n.colspan < o.colspan {
        SweepRowNoCarry(w, prev, i, j + 1, k, s + n.colspan);
      } else if s == 0 {
        var w' := Put(w, (i, j), n.(similarity := true));
        assert forall t :: 0 <= t < |prev| ==> At(w', prev[t]).rowspan == At(w, prev[t]).rowspan;
        SweepRowNoCarry(w', prev, i, j + 1, k + 1, 0);
      } else {
        SweepRowNoCarry(w, prev, i, j + 1, k + 1, 0);
      }
    }
  }

  lemma {:induction false} RowFrontierWidth(w: Grid, r: nat, n: nat)
    requires r < |w| && n <= |w[r]|
    ensures AllValid(w, RowPositions(r, n)) && FrontierWidth(w, RowPositions(r, n)) == RowWidth(w[r][..n])
  {
    if n > 0 {
      RowFrontierWidth(w, r, n - 1);
      assert RowPositions(r, n)[..n - 1] == RowPositions(r, n - 1);
      assert w[r][..n][..n - 1] == w[r][..n - 1];
    }
  }

  lemma {:induction false} RowWidthSameColspans(a: seq<Cell>, b: seq<Cell>)
    requires |a| == |b| && forall j :: 0 <= j < |a| ==> a[j].colspan == b[j].colspan
    ensures RowWidth(a) == RowWidth(b)
  {
    if a != [] {
      RowWidthSameColspans(a[..|a| - 1], b[..|b| - 1]);
    }
  }

  /** Row r of w has the colspans of row r of g. */
  lemma RowWidthOf(g: Grid, w: Grid, r: nat)
    requires Frozen(g, w) && r < |g|
    ensures AllValid(w, RowPositions(r, |w[r]|)) && FrontierWidth(w, RowPositions(r, |w[r]|)) == RowWidth(g[r])
  {
    RowFrontierWidth(w, r, |w[r]|);
    assert w[r][..|w[r]|] == w[r];
    RowWidthSameColspans(g[r], w[r]);
  }

  /** One row of the sweep when no cell spans rows: an accepted row is as wide as the one before it. */
  lemma WidthStep(g: Grid, w: Grid, i: nat) returns (w2: Grid)
    requires 1 <= i < |g| && Frozen(g, w)
    requires forall r, q :: i - 1 <= r < |g| && 0 <= q < |g[r]| ==> w[r][q].rowspan == 1
    ensures AllValid(w, RowPositions(i - 1, |w[i - 1]|))
    ensures SweepFrom(w, RowPositions(i - 1, |w[i - 1]|), i) ==>
      Frozen(g, w2) && (forall r, q :: i <= r < |g| && 0 <= q < |g[r]| ==> w2[r][q].rowspan == 1) &&
      AllValid(w2, RowPositions(i, |w2[i]|)) && SweepFrom(w2, RowPositions(i, |w2[i]|), i + 1) &&
      RowWidth(g[i]) == RowWidth(g[i - 1])
  {
    var n := |w[i - 1]|;
    var prev := RowPositions(i - 1, n);
    DecRow(w, i - 1, n, 0);
    assert RowPositions(i, 0) == [];
    SweepRowNoCarry(DecFrom(w, prev, 0), prev, i, 0, 0, 0);
    w2 := w;
    if SweepRow(DecFrom(w, prev, 0), prev, i, [], 0, 0, 0).Accept? {
      var next;
      w2, next := KeepsWidthStep(g, w, prev, i);
      RowWidthOf(g, g, i);
      RowWidthOf(g, g, i - 1);
    }
  }

  lemma {:induction false} SweepFromWidths(g: Grid, w: Grid, i: nat)
    requires 1 <= i <= |g| && Frozen(g, w)
    requires forall r, q :: i - 1 <= r < |g| && 0 <= q < |g[r]| ==> w[r][q].rowspan == 1
    ensures AllValid(w, RowPositions(i - 1, |w[i - 1]|))
    ensures SweepFrom(w, RowPositions(i - 1, |w[i - 1]|), i) ==>
      forall r :: i <= r < |g| ==> RowWidth(g[r]) == RowWidth(g[i - 1])
    decreases |g| - i
  {
    if i < |g| {
      var w2 := WidthStep(g, w, i);
      if SweepFrom(w, RowPositions(i - 1, |w[i - 1]|), i) {
        SweepFromWidths(g, w2, i + 1);
      }
    }
  }

  /** Every rowspan is 1. */
  predicate OneHigh(g: Grid) {
    forall i, j :: 0 <= i < |g| && 0 <= j < |g[i]| ==> g[i][j].rowspan == 1
  }

  /**
   * When no cell spans rows, a table `vertical_check` accepts has rows of equal
   * width (sum of colspans): the sweep keeps the frontier width and the frontier
   * is always the row just read.
   */
  lemma VerticalWidths(g: Grid)
    requires OneHigh(g)
    ensures Vertical(g) ==> forall r :: 0 <= r < |g| ==> RowWidth(g[r]) == RowWidth(g[0])
  {
    if |g| >= 2 {
      SweepFromWidths(g, g, 1);
    }
  }

  /**
   * The frontiers the sweep passes through from row i on: the current one, then
   * the one each accepted row leaves for the next.
   */
  function Frontiers(w: Grid, prev: seq<Pos>, i: nat): (fs: seq<seq<Pos>>)
    requires 1 <= i <= |w| && AllValid(w, prev)
    ensures fs != [] && fs[0] == prev
    decreases |w| - i
  {
    if i == |w| then [prev]
    else
      match SweepRow(DecFrom(w, prev, 0), prev, i, [], 0, 0, 0)
      case Reject => [prev]
      case Accept(w', next) => [prev] + Frontiers(w', next, i + 1)
  }

  /** Every frontier in fs lies in g and has width `width`. */
  predicate AllWidth(g: Grid, fs: seq<seq<Pos>>, width: int) {
    forall t :: 0 <= t < |fs| ==> AllValid(g, fs[t]) && FrontierWidth(g, fs[t]) == width
  }

  lemma AllWidthCons(g: Grid, p: seq<Pos>, fs: seq<seq<Pos>>, width: int)
    requires AllValid(g, p) && FrontierWidth(g, p) == width && AllWidth(g, fs, width)
    ensures AllWidth(g, [p] + fs, width)
  {
    forall t | 1 <= t < |[p] + fs|
      ensures AllValid(g, ([p] + fs)[t]) && FrontierWidth(g, ([p] + fs)[t]) == width
    {
      assert ([p] + fs)[t] == fs[t - 1];
    }
  }

  /**
   * From row i on, every frontier the sweep passes, up to where it stops or
   * ends, has the width of the current one (colspans read in g, which the sweep
   * never changes).
   */
  lemma {:induction false} SweepFromKeepsWidth(g: Grid, w: Grid, prev: seq<Pos>, i: nat)
    requires 1 <= i <= |w| && Frozen(g, w) && AllValid(w, prev)
    ensures AllValid(g, prev) && AllWidth(g, Frontiers(w, prev, i), FrontierWidth(g, prev))
    decreases |w| - i
  {
    assert AllValid(g, prev);
    if i < |w| && SweepRow(DecFrom(w, prev, 0), prev, i, [], 0, 0, 0).Accept? {
      var w2, next := KeepsWidthStep(g, w, prev, i);
      SweepFromKeepsWidth(g, w2, next, i + 1);
      AllWidthCons(g, prev, Frontiers(w2, next, i + 1), FrontierWidth(g, prev));
    } else {
      assert Frontiers(w, prev, i) == [prev];
      assert AllWidth(g, [prev], FrontierWidth(g, prev));
    }
  }

  /** One accepted row of `SweepFromKeepsWidth`: the next frontier has the width of the current one. */
  lemma KeepsWidthStep(g: Grid, w: Grid, prev: seq<Pos>, i: nat) returns (w2: Grid, next: seq<Pos>)
    requires 1 <= i < |w| && Frozen(g, w) && AllValid(w, prev)
    requires SweepRow(DecFrom(w, prev, 0), prev, i, [], 0, 0, 0).Accept?
    ensures SweepRow(DecFrom(w, prev, 0), prev, i, [], 0, 0, 0) == Accept(w2, next)
    ensures |w2| == |w| && Frozen(g, w2) && AllValid(w2, next) && AllValid(g, prev) && AllValid(g, next)
    ensures Frontiers(w, prev, i) == [prev] + Frontiers(w2, next, i + 1)
    ensures FrontierWidth(g, next) == FrontierWidth(g, prev)
  {
    var w1 := DecFrom(w, prev, 0);
    DecFromFrozen(w, prev, 0);
    FrozenTrans(g, w, w1);
    w2, next := SweepRow(w1, prev, i, [], 0, 0, 0).w, SweepRow(w1, prev, i, [], 0, 0, 0).next;
    FrozenTrans(g, w1, w2);
    assert prev[0..] == prev;
    SweepRowWidth(w1, prev, i, [], 0, 0, 0);
    FrontierWidthFrozen(g, w1, prev);
    assert AllValid(g, next);
    FrontierWidthFrozen(g, w2, next);
  }

  /** An accepting sweep from row i passes one frontier per remaining row. */
  lemma {:induction false} FrontiersLength(w: Grid, prev: seq<Pos>, i: nat)
    requires 1 <= i <= |w| && AllValid(w, prev)
    ensures SweepFrom(w, prev, i) ==> |Frontiers(w, prev, i)| == |w| - i + 1
    decreases |w| - i
  {
    if i < |w| {
      match SweepRow(DecFrom(w, prev, 0), prev, i, [], 0, 0, 0)
      case Reject =>
      case Accept(w2, next) => FrontiersLength(w2, next, i + 1);
    }
  }

  /**
   * Row spans included, every frontier of a table `vertical_check` accepts, from
   * the first row's down to the one its end test reads, has the width of the
   * first row: the cells a row adds and the cells carried past it together cover
   * the table exactly.
   */
  lemma VerticalKeepsWidth(g: Grid)
    ensures Vertical(g) ==>
      AllValid(g, RowPositions(0, |g[0]|)) &&
      var fs := Frontiers(g, RowPositions(0, |g[0]|), 1);
      |fs| == |g| && forall t :: 0 <= t < |fs| ==> AllValid(g, fs[t]) && FrontierWidth(g, fs[t]) == RowWidth(g[0])
  {
    if Vertical(g) {
      RowWidthOf(g, g, 0);
      SweepFromKeepsWidth(g, g, RowPositions(0, |g[0]|), 1);
      FrontiersLength(g, RowPositions(0, |g[0]|), 1);
      assert AllWidth(g, Frontiers(g, RowPositions(0, |g[0]|), 1), RowWidth(g[0]));
    }
  }

  // ---------------------------------------------------------------------------
  // A cell over two rows, and over three
  // ---------------------------------------------------------------------------

  /** A cell over two rows beside one of a single row, and the cell under the latter: accepted, with rows of widths 2 and 1. */
  lemma StaircaseVertical(a: Node, b: Node, c: Node)
    ensures Vertical([[Cell(a, 2, 1, 2, 1, false), Cell(b, 1, 1, 1, 1, false)], [Cell(c, 1, 1, 1, 1, false)]])
  {
    var g := [[Cell(a, 2, 1, 2, 1, false), Cell(b, 1, 1, 1, 1, false)], [Cell(c, 1, 1, 1, 1, false)]];
    var ps := RowPositions(0, 2);
    assert ps == [(0, 0), (0, 1)];
    var m := Put(g, (0, 0), Cell(a, 1, 1, 2, 1, false));
    var w1 := Put(m, (0, 1), Cell(b, 0, 1, 1, 1, false));
    assert DecFrom(m, ps, 1) == w1;
    assert DecFrom(g, ps, 0) == w1;
    assert At(w1, (0, 0)) == Cell(a, 1, 1, 2, 1, false) && At(w1, (0, 1)) == Cell(b, 0, 1, 1, 1, false);
    assert At(w1, (1, 0)) == Cell(c, 1, 1, 1, 1, false) && |w1[1]| == 1;
    var w2 := Put(w1, (1, 0), Cell(c, 1, 1, 1, 1, true));
    assert At(w2, (0, 0)) == Cell(a, 1, 1, 2, 1, false) && At(w2, (0, 1)) == Cell(b, 0, 1, 1, 1, false);
    assert !AnyBlocks(w1, ps, w1[1][0]) by {
      assert !Blocks(At(w1, ps[0]), w1[1][0]) && !Blocks(At(w1, ps[1]), w1[1][0]);
    }
    assert [(0, 0)] + [(1, 0)] == [(0, 0), (1, 0)];
    assert SweepRow(w1, ps, 1, [(0, 0)], 0, 1, 0) == Accept(w2, [(0, 0), (1, 0)]);
    assert [] + [ps[0]] == [(0, 0)];
    assert SweepRow(w1, ps, 1, [], 0, 0, 0) == Accept(w2, [(0, 0), (1, 0)]);
    assert AllOne(w2, [(0, 0), (1, 0)]);
  }

  /** The same table with the tall cell over three rows: its rowspan runs past the last row and the end test refuses it. */
  lemma OverhangNotVertical(a: Node, b: Node, c: Node)
    ensures !Vertical([[Cell(a, 3, 1, 3, 1, false), Cell(b, 1, 1, 1, 1, false)], [Cell(c, 1, 1, 1, 1, false)]])
  {
    var g := [[Cell(a, 3, 1, 3, 1, false), Cell(b, 1, 1, 1, 1, false)], [Cell(c, 1, 1, 1, 1, false)]];
    var ps := RowPositions(0, 2);
    var w2 := OverhangRow(a, b, c);
    var last := [(0, 0), (1, 0)];
    assert !AllOne(w2, last) by {
      assert At(w2, last[0]).rowspan == 2;
    }
    assert !SweepFrom(w2, last, 2);
    assert !SweepFrom(g, ps, 1);
  }

  /** The one row pass of `OverhangNotVertical`: the tall cell is carried with one row still to go. */
  lemma OverhangRow(a: Node, b: Node, c: Node) returns (w2: Grid)
    ensures var g := [[Cell(a, 3, 1, 3, 1, false), Cell(b, 1, 1, 1, 1, false)], [Cell(c, 1, 1, 1, 1, false)]];
      var ps := RowPositions(0, 2);
      SweepRow(DecFrom(g, ps, 0), ps, 1, [], 0, 0, 0) == Accept(w2, [(0, 0), (1, 0)]) &&
      |w2| == 2 && ValidPos(w2, (0, 0)) && At(w2, (0, 0)).rowspan == 2
  {
    var g := [[Cell(a, 3, 1, 3, 1, false), Cell(b, 1, 1, 1, 1, false)], [Cell(c, 1, 1, 1, 1, false)]];
    var ps := RowPositions(0, 2);
    assert ps == [(0, 0), (0, 1)];
    var m := Put(g, (0, 0), Cell(a, 2, 1, 3, 1, false));
    var w1 := Put(m, (0, 1), Cell(b, 0, 1, 1, 1, false));
    assert DecFrom(m, ps, 1) == w1;
    assert DecFrom(g, ps, 0) == w1;
    assert At(w1, (0, 0)) == Cell(a, 2, 1, 3, 1, false) && At(w1, (0, 1)) == Cell(b, 0, 1, 1, 1, false);
    assert At(w1, (1, 0)) == Cell(c, 1, 1, 1, 1, false) && |w1[1]| == 1;
    w2 := Put(w1, (1, 0), Cell(c, 1, 1, 1, 1, true));
    assert At(w2, (0, 0)) == Cell(a, 2, 1, 3, 1, false) && At(w2, (0, 1)) == Cell(b, 0, 1, 1, 1, false);
    assert !AnyBlocks(w1, ps, w1[1][0]) by {
      assert !Blocks(At(w1, ps[0]), w1[1][0]) && !Blocks(At(w1, ps[1]), w1[1][0]);
    }
    assert [(0, 0)] + [(1, 0)] == [(0, 0), (1, 0)];
    assert SweepRow(w1, ps, 1, [(0, 0)], 0, 1, 0) == Accept(w2, [(0, 0), (1, 0)]);
    assert [] + [ps[0]] == [(0, 0)];
  }

  /**
   * Both rows are three columns wide, but the column boundaries do not line
   * up: C (colspan 2) starts under A (colspan 1) and overshoots its slot, so
   * row 1 is refused.
   */
  lemma MisalignedNotVertical(a: Node, b: Node, c: Node, e: Node)
    ensures !Vertical([[Cell(a, 1, 1, 1, 1, false), Cell(b, 1, 2, 1, 2, false)],
                       [Cell(c, 1, 2, 1, 2, false), Cell(e, 1, 1, 1, 1, false)]])
  {
    var g := [[Cell(a, 1, 1, 1, 1, false), Cell(b, 1, 2, 1, 2, false)],
              [Cell(c, 1, 2, 1, 2, false), Cell(e, 1, 1, 1, 1, false)]];
    var ps := RowPositions(0, 2);
    assert ps[0] == (0, 0) && ps[1] == (0, 1);
    var m := Put(g, (0, 0), Cell(a, 0, 1, 1, 1, false));
    var w1 := Put(m, (0, 1), Cell(b, 0, 2, 1, 2, false));
    assert DecFrom(m, ps, 1) == w1;
    assert DecFrom(g, ps, 0) == w1;
    assert At(w1, (0, 0)) == Cell(a, 0, 1, 1, 1, false) && w1[1][0] == Cell(c, 1, 2, 1, 2, false);
    assert SweepRow(w1, ps, 1, [], 0, 0, 0) == Reject;
    assert !SweepFrom(g, ps, 1);
  }
}
