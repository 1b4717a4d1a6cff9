/**
 * The record model and span reconciliation sweep that versions 2.3, 1.7 and 1.5
 * share (betta/convert_html_to_excel_v_2.3.py, _v_1.7.py, _v_1.5.py). A record
 * holds `value`, `rowspan`, `colspan` and `nottitle`; the sweep carries a
 * frontier cell while its rowspan is above 1, decrementing it in place, and
 * otherwise requires the next row's cells to fill its colspan exactly.
 *
 * As in the version 3.0 model, records are values, the records being swept
 * form a grid value, and the frontier holds positions into it, so an in-place
 * update made through one frontier entry is seen through every entry that
 * refers to the same record.
 */
module SpanRecords {
  import opened Wrappers
  import opened Markup
  import opened Grids
  import Layout

  /** One record: `{'value', 'rowspan', 'colspan', 'nottitle'}`. */
  datatype Rec = Rec(value: Node, rowspan: int, colspan: int, nottitle: bool)

  type Grid = seq<seq<Rec>>

  predicate ValidPos(w: Grid, p: Pos) {
    p.0 < |w| && p.1 < |w[p.0]|
  }

  predicate AllValid(w: Grid, ps: seq<Pos>) {
    forall t :: 0 <= t < |ps| ==> ValidPos(w, ps[t])
  }

  function At(w: Grid, p: Pos): Rec
    requires ValidPos(w, p)
  {
    w[p.0][p.1]
  }

  predicate SameShape(w: Grid, w': Grid) {
    |w'| == |w| && forall r :: 0 <= r < |w| ==> |w'[r]| == |w[r]|
  }

  /** An in-place write to the record at position p. */
  function Put(w: Grid, p: Pos, c: Rec): (w': Grid)
    requires ValidPos(w, p)
    ensures SameShape(w, w') && At(w', p) == c
    ensures forall q :: ValidPos(w, q) && q != p ==> At(w', q) == At(w, q)
  {
    w[p.0 := w[p.0][p.1 := c]]
  }

  lemma PutKeepsValid(w: Grid, w': Grid, ps: seq<Pos>)
    requires SameShape(w, w') && AllValid(w, ps)
    ensures AllValid(w', ps)
  {
  }

  predicate WellSpanned(g: Grid) {
    forall i, j :: 0 <= i < |g| && 0 <= j < |g[i]| ==> g[i][j].rowspan >= 1 && g[i][j].colspan >= 1
  }

  /** `sum(cell['colspan'] for cell in row)` */
  function RowWidth(row: seq<Rec>): int {
    if row == [] then 0 else RowWidth(row[..|row| - 1]) + row[|row| - 1].colspan
  }

  // ---------------------------------------------------------------------------
  // The builders: `make_table` (v2.3) and `get_tables_with_colspan_and_rowspan` (v1.7, v1.5)
  // ---------------------------------------------------------------------------

  /** The record built for one cell; None when `int()` raises on a span. */
  function NewRec(rc: RawCell): (r: Option<Rec>)
    ensures r.Some? <==> SpanValue(rc.rowspan).Some? && SpanValue(rc.colspan).Some?
    ensures r.Some? ==> r.value == Rec(rc.value, SpanValue(rc.rowspan).value, SpanValue(rc.colspan).value, false)
  {
    match (SpanValue(rc.rowspan), SpanValue(rc.colspan))
    case (Some(r), Some(c)) => Some(Rec(rc.value, r, c, false))
    case _ => None
  }

  function NewRow(cells: seq<RawCell>): (r: Option<seq<Rec>>)
    ensures r.Some? <==> forall j :: 0 <= j < |cells| ==> NewRec(cells[j]).Some?
    ensures r.Some? ==> |r.value| == |cells| && forall j :: 0 <= j < |cells| ==> NewRec(cells[j]) == Some(r.value[j])
  {
    if cells == [] then Some([])
    else
      match (NewRow(cells[..|cells| - 1]), NewRec(cells[|cells| - 1]))
      case (Some(front), Some(c)) => Some(front + [c])
      case _ => None
  }

  /** The rows a builder keeps: with `skipEmpty` (v2.3) those whose inner markup is not exactly ''. */
  function KeptRows(rows: seq<RawRow>, skipEmpty: bool): (k: seq<RawRow>)
    ensures |k| <= |rows|
  {
    if rows == [] then []
    else
      var front := KeptRows(rows[..|rows| - 1], skipEmpty);
      if skipEmpty && rows[|rows| - 1].inner == "" then front else front + [rows[|rows| - 1]]
  }

  /** The kept rows are rows of the input, with `skipEmpty` none of them empty, and every row the builder must keep is there. */
  lemma {:induction false} KeptRowsFacts(rows: seq<RawRow>, skipEmpty: bool)
    ensures var k := KeptRows(rows, skipEmpty);
      && (forall i :: 0 <= i < |k| ==> k[i] in rows)
      && (skipEmpty ==> forall i :: 0 <= i < |k| ==> k[i].inner != "")
      && (forall i :: 0 <= i < |rows| && (!skipEmpty || rows[i].inner != "") ==> rows[i] in k)
      && (!skipEmpty ==> k == rows)
  {
    if rows != [] {
      var init := rows[..|rows| - 1];
      KeptRowsFacts(init, skipEmpty);
      assert forall i :: 0 <= i < |rows| - 1 ==> rows[i] == init[i];
      assert rows == init + [rows[|rows| - 1]];
    }
  }

  /** The built table; None when some kept cell has a span `int()` rejects (the source raises). */
  function Build(rows: seq<RawRow>, skipEmpty: bool): Option<Grid> {
    BuildRows(KeptRows(rows, skipEmpty))
  }

  /** One table row per kept row, in order; None as soon as one of them fails. */
  function BuildRows(kept: seq<RawRow>): (r: Option<Grid>)
    ensures r.Some? <==> forall i :: 0 <= i < |kept| ==> NewRow(kept[i].cells).Some?
    ensures r.Some? ==> |r.value| == |kept| && forall i :: 0 <= i < |kept| ==> NewRow(kept[i].cells) == Some(r.value[i])
  {
    if kept == [] then Some([])
    else
      match (BuildRows(kept[..|kept| - 1]), NewRow(kept[|kept| - 1].cells))
      case (Some(f), Some(row)) => Some(f + [row])
      case _ => None
  }

  /** Building one more raw row: skipped when empty under `skipEmpty`, otherwise appended or failing. */
  lemma BuildSnoc(rows: seq<RawRow>, skipEmpty: bool, i: nat)
    requires i < |rows|
    ensures Build(rows[..i + 1], skipEmpty) ==
      if skipEmpty && rows[i].inner == "" then Build(rows[..i], skipEmpty)
      else match (Build(rows[..i], skipEmpty), NewRow(rows[i].cells))
        case (Some(f), Some(row)) => Some(f + [row])
        case _ => None
  {
    assert rows[..i + 1][..i] == rows[..i];
    var k := KeptRows(rows[..i], skipEmpty);
    if !(skipEmpty && rows[i].inner == "") {
      assert KeptRows(rows[..i + 1], skipEmpty) == k + [rows[i]];
      assert (k + [rows[i]])[..|k|] == k;
    }
  }

  /** The builder's loop over the cells of one row. */
  method NewRowLoop(cells: seq<RawCell>) returns (r: Option<seq<Rec>>)
    ensures r == NewRow(cells)
  {
    var rowCells: seq<Rec> := [];
    var j := 0;
    while j < |cells|
      invariant j <= |cells| && NewRow(cells[..j]) == Some(rowCells)
    {
      assert cells[..j + 1][..j] == cells[..j];
      var rowspan := SpanValue(cells[j].rowspan);
      var colspan := SpanValue(cells[j].colspan);
      if rowspan.None? || colspan.None? {
        NewRowFails(cells, j);
        return None;
      }
      rowCells := rowCells + [Rec(cells[j].value, rowspan.value, colspan.value, false)];
      j := j + 1;
    }
    assert cells[..j] == cells;
    return Some(rowCells);
  }

  lemma NewRowFails(cells: seq<RawCell>, j: nat)
    requires j < |cells| && NewRec(cells[j]).None?
    ensures NewRow(cells).None?
  {
  }

  /** The builder's loop over the rows, failing on the first span `int()` rejects. */
  method BuildLoop(rows: seq<RawRow>, skipEmpty: bool) returns (r: Option<Grid>)
    ensures r == Build(rows, skipEmpty)
  {
    var spans: Grid := [];
    var i := 0;
    while i < |rows|
      invariant i <= |rows| && Build(rows[..i], skipEmpty) == Some(spans)
    {
      BuildSnoc(rows, skipEmpty, i);
      if skipEmpty && rows[i].inner == "" {
        i := i + 1;
        continue;
      }
      var rowCells := NewRowLoop(rows[i].cells);
      if rowCells.None? {
        FailurePersists(rows, skipEmpty, i);
        return None;
      }
      spans := spans + [rowCells.value];
      i := i + 1;
    }
    assert rows[..i] == rows;
    return Some(spans);
  }

  /** Every span attribute that is a number is at least 1. */
  predicate PositiveSpans(rows: seq<RawRow>) {
    forall i, j :: 0 <= i < |rows| && 0 <= j < |rows[i].cells| ==>
      (rows[i].cells[j].rowspan.Num? ==> rows[i].cells[j].rowspan.n >= 1) &&
      (rows[i].cells[j].colspan.Num? ==> rows[i].cells[j].colspan.n >= 1)
  }

  /** With positive span attributes the built table has positive spans. */
  lemma BuiltWellSpanned(rows: seq<RawRow>, skipEmpty: bool)
    requires PositiveSpans(rows) && Build(rows, skipEmpty).Some?
    ensures WellSpanned(Build(rows, skipEmpty).value)
  {
    var g: Grid := Build(rows, skipEmpty).value;
    var kept := KeptRows(rows, skipEmpty);
    KeptRowsFacts(rows, skipEmpty);
    forall i, j | 0 <= i < |g| && 0 <= j < |g[i]|
      ensures g[i][j].rowspan >= 1 && g[i][j].colspan >= 1
    {
      assert NewRow(kept[i].cells) == Some(g[i]);
      assert NewRec(kept[i].cells[j]) == Some(g[i][j]);
      assert kept[i] in rows;
      var m :| 0 <= m < |rows| && rows[m] == kept[i];
      assert kept[i].cells[j] == rows[m].cells[j];
    }
  }

  /** A kept row whose cells fail makes the build fail. */
  lemma FailurePersists(rows: seq<RawRow>, skipEmpty: bool, i: nat)
    requires i < |rows| && (!skipEmpty || rows[i].inner != "") && NewRow(rows[i].cells).None?
    ensures Build(rows, skipEmpty).None?
  {
    KeptRowsFacts(rows, skipEmpty);
    assert rows[i] in KeptRows(rows, skipEmpty);
  }

  // ---------------------------------------------------------------------------
  // Mirror and transpose
  // ---------------------------------------------------------------------------

  /** `get_flip` (v2.3): every row reversed. */
  function Flip(g: Grid): (f: Grid)
    ensures SameShape(g, f)
    ensures forall i, j :: 0 <= i < |g| && 0 <= j < |g[i]| ==> f[i][j] == g[i][|g[i]| - 1 - j]
  {
    seq(|g|, i requires 0 <= i < |g| => Reverse(g[i]))
  }

  /** The record a transpose builds from a covering cell: spans swapped. */
  function SwapRec(c: Rec): Rec {
    Rec(c.value, c.colspan, c.rowspan, c.nottitle)
  }

  function Spans(g: Grid): (sg: Layout.SpanGrid)
    ensures |sg| == |g|
    ensures forall i :: 0 <= i < |g| ==> |sg[i]| == |g[i]|
    ensures forall i, j :: 0 <= i < |g| && 0 <= j < |g[i]| ==> sg[i][j] == Layout.Span(g[i][j].rowspan, g[i][j].colspan)
  {
    seq(|g|, i requires 0 <= i < |g| => seq(|g[i]|, j requires 0 <= j < |g[i]| => Layout.Span(g[i][j].rowspan, g[i][j].colspan)))
  }

  lemma {:induction false} RowWidthFront(row: seq<Rec>)
    requires row != []
    ensures RowWidth(row) == row[0].colspan + RowWidth(row[1..])
    decreases |row|
  {
    if |row| > 1 {
      RowWidthFront(row[..|row| - 1]);
      assert row[..|row| - 1][1..] == row[1..][..|row[1..]| - 1];
    }
  }

  lemma {:induction false} RowWidthIsLayoutWidth(row: seq<Rec>, sr: seq<Layout.Span>)
    requires |sr| == |row| && forall j :: 0 <= j < |row| ==> sr[j].cs == row[j].colspan
    ensures RowWidth(row) == Layout.Width(sr)
  {
    if row != [] {
      RowWidthIsLayoutWidth(row[1..], sr[1..]);
      RowWidthFront(row);
    }
  }

  function Place(g: Grid, L: seq<seq<Pos>>): (t: Grid)
    requires forall r, k :: 0 <= r < |L| && 0 <= k < |L[r]| ==> ValidPos(g, L[r][k])
    ensures |t| == |L|
    ensures forall r :: 0 <= r < |L| ==> |t[r]| == |L[r]|
    ensures forall r, k :: 0 <= r < |L| && 0 <= k < |L[r]| ==> t[r][k] == SwapRec(At(g, L[r][k]))
  {
    seq(|L|, r requires 0 <= r < |L| => seq(|L[r]|, k requires 0 <= k < |L[r]| => SwapRec(At(g, L[r][k]))))
  }

  /**
   * `get_transpose` (v2.3) and `transpose_table_structure` (v1.7). None stands
   * for the bare `[]` returned for an empty table or an empty first row.
   */
  function Transpose(g: Grid): (r: Option<Grid>)
    requires WellSpanned(g)
    ensures r.None? <==> g == [] || g[0] == []
    ensures r.Some? ==> 0 < |r.value| <= RowWidth(g[0])
    ensures r.Some? ==> forall i :: 0 <= i < |r.value| ==> 0 < |r.value[i]| <= |g|
    ensures r.Some? ==> WellSpanned(r.value)
  {
    if g == [] || g[0] == [] then None
    else
      var sg := Spans(g);
      var L := Layout.Transposed(sg);
      RowWidthIsLayoutWidth(g[0], sg[0]);
      Layout.TransposedNonEmpty(sg);
      Some(Place(g, L))
  }

  /** The records of a table. */
  function Cells(g: Grid): set<Rec> {
    set i, j | 0 <= i < |g| && 0 <= j < |g[i]| :: g[i][j]
  }

  /** Every record of a transposed table is a record of the source with its spans swapped. */
  lemma TransposeCellsAreSwaps(g: Grid)
    requires WellSpanned(g) && Transpose(g).Some?
    ensures forall i, k :: 0 <= i < |Transpose(g).value| && 0 <= k < |Transpose(g).value[i]| ==>
      SwapRec(Transpose(g).value[i][k]) in Cells(g)
  {
    var L := Layout.Transposed(Spans(g));
    var t := Transpose(g).value;
    forall i, k | 0 <= i < |t| && 0 <= k < |t[i]|
      ensures SwapRec(t[i][k]) in Cells(g)
    {
      var p: Pos := L[i][k];
      assert SwapRec(t[i][k]) == g[p.0][p.1];
    }
  }

  /** The geometry of a transpose on records: built from the shared layout loops. */
  method TransposeLoop(g: Grid) returns (r: Option<Grid>)
    requires WellSpanned(g)
    ensures r == Transpose(g)
  {
    if g == [] || g[0] == [] {
      return None;
    }
    var layout := Layout.TransposeLayout(Spans(g));
    return Some(Place(g, layout));
  }

  // ---------------------------------------------------------------------------
  // The sweep
  // ---------------------------------------------------------------------------

  /** Only `rowspan` and `nottitle` of a record ever change during the sweep. */
  predicate Frozen(w: Grid, w': Grid) {
    SameShape(w, w') &&
    forall r, c :: 0 <= r < |w| && 0 <= c < |w[r]| ==>
      w'[r][c].value == w[r][c].value && w'[r][c].colspan == w[r][c].colspan
  }

  /** Rowspans only go down and `nottitle` is only ever set. */
  predicate Monotone(w: Grid, w': Grid)
    requires SameShape(w, w')
  {
    forall r, c :: 0 <= r < |w| && 0 <= c < |w[r]| ==>
      w'[r][c].rowspan <= w[r][c].rowspan && (w[r][c].nottitle ==> w'[r][c].nottitle)
  }

  /** The outcome of one row: stopped (the sweep returns False) or the next frontier; both with the records as left. */
  datatype Step = Stop(w: Grid) | Go(w: Grid, next: seq<Pos>)

  /** The `while k < len(old)` loop for row i and the end-of-row cursor test, from cursor state (j, k, s). */
  function CarryRow(w: Grid, prev: seq<Pos>, i: nat, next: seq<Pos>, j: nat, k: nat, s: int, d: Dialect): (r: Step)
    requires i < |w| && AllValid(w, prev) && AllValid(w, next) && j <= |w[i]| && k <= |prev|
    ensures SameShape(w, r.w)
    ensures r.Go? ==> AllValid(r.w, r.next)
    decreases |prev| - k + |w[i]| - j
  {
    if k == |prev| then
      if j == |w[i]| then Go(w, next) else Stop(w)
    else
      var o := At(w, prev[k]);
      if o.rowspan > 1 then
        CarryRow(Put(w, prev[k], o.(rowspan := o.rowspan - 1)), prev, i, next + [prev[k]], j, k + 1, s, d)
      else if j < |w[i]| then
        var n := w[i][j];
        if s + n.colspan < o.colspan then
          CarryRow(w, prev, i, next + [(i, j)], j + 1, k, s + n.colspan, d)
        else if s + n.colspan == o.colspan then
          if s == 0 then
            var w' := Put(w, (i, j), n.(nottitle := true));
            var o' := At(w', prev[k]);
            if o'.nottitle && TagStructure(o'.value, d) != TagStructure(n.value, d) then Stop(w')
            else CarryRow(w', prev, i, next + [(i, j)], j + 1, k + 1, 0, d)
          else
            CarryRow(w, prev, i, next + [(i, j)], j + 1, k + 1, 0, d)
        else Stop(w)
      else Stop(w)
  }

  /** `all(cell['rowspan'] == 1 for cell in old)` */
  predicate AllOne(w: Grid, prev: seq<Pos>)
    requires AllValid(w, prev)
  {
    forall t :: 0 <= t < |prev| ==> At(w, prev[t]).rowspan == 1
  }

  /** What the sweep returns, and the records as it leaves them. */
  datatype Run = Run(ok: bool, w: Grid)

  /** The loop over rows i, i + 1, ... and the final test. */
  function CarryFrom(w: Grid, prev: seq<Pos>, i: nat, d: Dialect): (r: Run)
    requires 1 <= i <= |w| && AllValid(w, prev)
    ensures SameShape(w, r.w)
    decreases |w| - i
  {
    if i == |w| then Run(AllOne(w, prev), w)
    else
      match CarryRow(w, prev, i, [], 0, 0, 0, d)
      case Stop(w') => Run(false, w')
      case Go(w', next) => CarryFrom(w', next, i + 1, d)
  }

  /** The sweep of `vertical_check` (v2.3), `vertical_chek` (v1.7) and `_chek` (v1.5). */
  function Carry(g: Grid, d: Dialect): (r: Run)
    ensures r.ok ==> |g| >= 2
  {
    if |g| < 2 then Run(false, g) else CarryFrom(g, RowPositions(0, |g[0]|), 1, d)
  }

  /** The loop body when frontier cell k is not carried: cell j of row i narrows or closes it. */
  method FitCell(w: Grid, prev: seq<Pos>, i: nat, next: seq<Pos>, j: nat, k: nat, s: int, d: Dialect)
    returns (stop: bool, w': Grid, next': seq<Pos>, j': nat, k': nat, s': int)
    requires i < |w| && AllValid(w, prev) && AllValid(w, next) && j < |w[i]| && k < |prev|
    requires At(w, prev[k]).rowspan <= 1
    ensures SameShape(w, w') && AllValid(w', prev) && AllValid(w', next')
    ensures j' == j + 1 && k <= k' <= |prev|
    ensures stop ==> CarryRow(w, prev, i, next, j, k, s, d) == Stop(w')
    ensures !stop ==> CarryRow(w', prev, i, next', j', k', s', d) == CarryRow(w, prev, i, next, j, k, s, d)
  {
    var o := At(w, prev[k]);
    var n := w[i][j];
    w', next', j', k', s' := w, next + [(i, j)], j + 1, k, s;
    if s + n.colspan < o.colspan {
      s' := s + n.colspan;
      return false, w', next', j', k', s';
    }
    if s + n.colspan != o.colspan {
      return true, w', next', j', k', s';
    }
    k', s' := k + 1, 0;
    if s == 0 {
      w' := Put(w, (i, j), n.(nottitle := true));
      PutKeepsValid(w, w', prev);
      PutKeepsValid(w, w', next');
      var o' := At(w', prev[k]);
      if o'.nottitle && TagStructure(o'.value, d) != TagStructure(n.value, d) {
        return true, w', next', j', k', s';
      }
    }
    stop := false;
  }

  /** The cursor loop over the frontier and row i, and the end-of-row test. */
  method CarryRowLoop(w0: Grid, prev: seq<Pos>, i: nat, d: Dialect) returns (ok: bool, w: Grid, next: seq<Pos>)
    requires i < |w0| && AllValid(w0, prev)
    ensures ok <==> CarryRow(w0, prev, i, [], 0, 0, 0, d).Go?
    ensures w == CarryRow(w0, prev, i, [], 0, 0, 0, d).w
    ensures ok ==> next == CarryRow(w0, prev, i, [], 0, 0, 0, d).next
  {
    w, next := w0, [];
    var j, k, s := 0, 0, 0;
    while k < |prev|
      invariant SameShape(w0, w) && AllValid(w, prev) && AllValid(w, next)
      invariant j <= |w[i]| && k <= |prev|
      invariant CarryRow(w, prev, i, next, j, k, s, d) == CarryRow(w0, prev, i, [], 0, 0, 0, d)
      decreases |prev| - k + |w0[i]| - j
    {
      var o := At(w, prev[k]);
      if o.rowspan > 1 {
        var w' := Put(w, prev[k], o.(rowspan := o.rowspan - 1));
        PutKeepsValid(w, w', prev);
        PutKeepsValid(w, w', next);
        next := next + [prev[k]];
        w, k := w', k + 1;
        continue;
      }
      if j < |w[i]| {
        var stop, w', next', j', k', s' := FitCell(w, prev, i, next, j, k, s, d);
        if stop {
          return false, w', next';
        }
        w, next, j, k, s := w', next', j', k', s';
        continue;
      }
      return false, w, next;
    }
    ok := j == |w[i]| && k == |prev|;
  }

  method AllOneLoop(w: Grid, prev: seq<Pos>) returns (b: bool)
    requires AllValid(w, prev)
    ensures b == AllOne(w, prev)
  {
    var t := 0;
    while t < |prev|
      invariant t <= |prev| && forall u :: 0 <= u < t ==> At(w, prev[u]).rowspan == 1
    {
      if At(w, prev[t]).rowspan != 1 {
        return false;
      }
      t := t + 1;
    }
    return true;
  }

  /**
   * The list of rows of records handed to the in-place sweeps of versions 1.7
   * and 1.5, which update the records of their argument.
   */
  class Table {
    var rows: Grid

    constructor (g: Grid)
      ensures rows == g
    {
      rows := g;
    }
  }

  /** The whole sweep on the records `g`, returning its answer and the records as it leaves them. */
  method CarryLoop(g: Grid, d: Dialect) returns (ok: bool, w: Grid)
    ensures Run(ok, w) == Carry(g, d)
  {
    w := g;
    if |w| < 2 {
      return false, w;
    }
    var prev := RowPositions(0, |w[0]|);
    var i := 1;
    while i < |w|
      invariant 1 <= i <= |w| && AllValid(w, prev)
      invariant CarryFrom(w, prev, i, d) == Carry(g, d)
    {
      var rowOk, w', next := CarryRowLoop(w, prev, i, d);
      if !rowOk {
        return false, w';
      }
      w, prev := w', next;
      i := i + 1;
    }
    ok := AllOneLoop(w, prev);
  }

  lemma Chain(a: Grid, b: Grid, c: Grid)
    requires Frozen(a, b) && Monotone(a, b) && Frozen(b, c) && Monotone(b, c)
    ensures Frozen(a, c) && Monotone(a, c)
  {
  }

  /** A write that keeps value and colspan, lowers no rowspan upwards and clears no `nottitle`. */
  lemma PutEffects(w: Grid, p: Pos, c: Rec)
    requires ValidPos(w, p) && c.value == At(w, p).value && c.colspan == At(w, p).colspan
    requires c.rowspan <= At(w, p).rowspan && (At(w, p).nottitle ==> c.nottitle)
    ensures Frozen(w, Put(w, p, c)) && Monotone(w, Put(w, p, c))
  {
  }

  /** The sweep changes only `rowspan` (downwards) and `nottitle` (to True) of the records. */
  lemma {:induction false} CarryRowEffects(w: Grid, prev: seq<Pos>, i: nat, next: seq<Pos>, j: nat, k: nat, s: int, d: Dialect)
    requires i < |w| && AllValid(w, prev) && AllValid(w, next) && j <= |w[i]| && k <= |prev|
    ensures var r := CarryRow(w, prev, i, next, j, k, s, d); Frozen(w, r.w) && Monotone(w, r.w)
    decreases |prev| - k + |w[i]| - j, 1
  {
    if k < |prev| {
      var o := At(w, prev[k]);
      if o.rowspan > 1 {
        var w' := Put(w, prev[k], o.(rowspan := o.rowspan - 1));
        PutKeepsValid(w, w', prev);
        PutKeepsValid(w, w', next + [prev[k]]);
        CarryRowEffects(w', prev, i, next + [prev[k]], j, k + 1, s, d);
        PutEffects(w, prev[k], o.(rowspan := o.rowspan - 1));
        Chain(w, w', CarryRow(w', prev, i, next + [prev[k]], j, k + 1, s, d).w);
      } else if j < |w[i]| {
        FitEffects(w, prev, i, next, j, k, s, d);
      }
    }
  }

  /** The fitting branch of `CarryRowEffects`. */
  lemma {:induction false} FitEffects(w: Grid, prev: seq<Pos>, i: nat, next: seq<Pos>, j: nat, k: nat, s: int, d: Dialect)
    requires i < |w| && AllValid(w, prev) && AllValid(w, next) && j < |w[i]| && k < |prev|
    requires At(w, prev[k]).rowspan <= 1
    ensures var r := CarryRow(w, prev, i, next, j, k, s, d); Frozen(w, r.w) && Monotone(w, r.w)
    decreases |prev| - k + |w[i]| - j, 0
  {
    var o := At(w, prev[k]);
    var n := w[i][j];
    if s + n.colspan < o.colspan {
      CarryRowEffects(w, prev, i, next + [(i, j)], j + 1, k, s + n.colspan, d);
    } else if s + n.colspan == o.colspan {
      if s == 0 {
        var w' := Put(w, (i, j), n.(nottitle := true));
        PutKeepsValid(w, w', prev);
        PutKeepsValid(w, w', next + [(i, j)]);
        PutEffects(w, (i, j), n.(nottitle := true));
        if !(At(w', prev[k]).nottitle && TagStructure(At(w', prev[k]).value, d) != TagStructure(n.value, d)) {
          CarryRowEffects(w', prev, i, next + [(i, j)], j + 1, k + 1, 0, d);
          Chain(w, w', CarryRow(w', prev, i, next + [(i, j)], j + 1, k + 1, 0, d).w);
        }
      } else {
        CarryRowEffects(w, prev, i, next + [(i, j)], j + 1, k + 1, 0, d);
      }
    }
  }

  lemma {:induction false} CarryFromEffects(w: Grid, prev: seq<Pos>, i: nat, d: Dialect)
    requires 1 <= i <= |w| && AllValid(w, prev)
    ensures var r := CarryFrom(w, prev, i, d); Frozen(w, r.w) && Monotone(w, r.w)
    decreases |w| - i
  {
    if i < |w| {
      CarryRowEffects(w, prev, i, [], 0, 0, 0, d);
      match CarryRow(w, prev, i, [], 0, 0, 0, d)
      case Stop(_) =>
      case Go(w', next) =>
        CarryFromEffects(w', next, i + 1, d);
        Chain(w, w', CarryFrom(w', next, i + 1, d).w);
    }
  }

  /**
   * Whatever it answers, the sweep leaves every record's payload and colspan as
   * they were, and only lowers rowspans and sets `nottitle`.
   */
  lemma CarryEffects(g: Grid, d: Dialect)
    ensures Frozen(g, Carry(g, d).w) && Monotone(g, Carry(g, d).w)
  {
    if |g| >= 2 {
      CarryFromEffects(g, RowPositions(0, |g[0]|), 1, d);
    }
  }
}
