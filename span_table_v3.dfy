/**
 * The `SpanTable` class of version 3.0 (betta/convert_html_to_excel_v_3.0.py):
 * a table as rows of span-annotated cell records, its copy, mirror and transpose,
 * the top-to-bottom span reconciliation sweep `vertical_check`, and the
 * orientation classifier `get_type_of_genuine`.
 *
 * The source's cell records are mutable dictionaries that the sweep updates in
 * place while the frontier lists `prev` and `new` hold references to them. Here a
 * cell is a value, the working copy is a grid value, and the frontier holds the
 * (row, index) positions of the cells it refers to; an in-place update is a `Put`
 * at that position, so a flag written into a cell is seen later through any
 * frontier entry that refers to the same position.
 */
module SpanTableV3 {
  import opened Wrappers
  import opened Markup
  import opened Grids
  import Layout

  /** One cell record: `value`, `rowspan`, `colspan`, `rowspan_original`, `colspan_original`, `similarity`. */
  datatype Cell = Cell(value: Node, rowspan: int, colspan: int,
                       rowspanOriginal: int, colspanOriginal: int, similarity: bool)

  type Grid = seq<seq<Cell>>

  predicate ValidPos(w: Grid, p: Pos) {
    p.0 < |w| && p.1 < |w[p.0]|
  }

  predicate AllValid(w: Grid, ps: seq<Pos>) {
    forall t :: 0 <= t < |ps| ==> ValidPos(w, ps[t])
  }

  function At(w: Grid, p: Pos): Cell
    requires ValidPos(w, p)
  {
    w[p.0][p.1]
  }

  predicate SameShape(w: Grid, w': Grid) {
    |w'| == |w| && forall r :: 0 <= r < |w| ==> |w'[r]| == |w[r]|
  }

  /** An in-place write to the record at position p. */
  function Put(w: Grid, p: Pos, c: Cell): (w': Grid)
    requires ValidPos(w, p)
    ensures SameShape(w, w') && At(w', p) == c
    ensures forall q :: ValidPos(w, q) && q != p ==> At(w', q) == At(w, q)
  {
    w[p.0 := w[p.0][p.1 := c]]
  }

  /** Every rowspan and colspan is a positive integer. */
  predicate WellSpanned(g: Grid) {
    forall i, j :: 0 <= i < |g| && 0 <= j < |g[i]| ==> g[i][j].rowspan >= 1 && g[i][j].colspan >= 1
  }

  /** `sum(cell['colspan'] for cell in row)` */
  function RowWidth(row: seq<Cell>): int {
    if row == [] then 0 else RowWidth(row[..|row| - 1]) + row[|row| - 1].colspan
  }

  // ---------------------------------------------------------------------------
  // make_table
  // ---------------------------------------------------------------------------

  /** The record `make_table` builds for one cell; None when `int()` raises on a span. */
  function NewCell(rc: RawCell): (r: Option<Cell>)
    ensures r.Some? <==> SpanValue(rc.rowspan).Some? && SpanValue(rc.colspan).Some?
    ensures r.Some? ==> r.value == Cell(rc.value, SpanValue(rc.rowspan).value, SpanValue(rc.colspan).value,
                                        SpanValue(rc.rowspan).value, SpanValue(rc.colspan).value, false)
  {
    match (SpanValue(rc.rowspan), SpanValue(rc.colspan))
    case (Some(r), Some(c)) => Some(Cell(rc.value, r, c, r, c, false))
    case _ => None
  }

  /** The inner loop of `make_table` over the cells of one row. */
  function NewRow(cells: seq<RawCell>): (r: Option<seq<Cell>>)
    ensures r.Some? <==> forall j :: 0 <= j < |cells| ==> NewCell(cells[j]).Some?
    ensures r.Some? ==> |r.value| == |cells| && forall j :: 0 <= j < |cells| ==> NewCell(cells[j]) == Some(r.value[j])
  {
    if cells == [] then Some([])
    else
      match (NewRow(cells[..|cells| - 1]), NewCell(cells[|cells| - 1]))
      case (Some(front), Some(c)) => Some(front + [c])
      case _ => None
  }

  /** The rows `make_table` keeps: those whose inner markup is not exactly ''. */
  function KeptRows(rows: seq<RawRow>): (k: seq<RawRow>)
    ensures |k| <= |rows|
  {
    if rows == [] then []
    else
      var front := KeptRows(rows[..|rows| - 1]);
      if rows[|rows| - 1].inner == "" then front else front + [rows[|rows| - 1]]
  }

  /** The kept rows are rows of the input, none of them empty, and every non-empty row is kept. */
  lemma {:induction false} KeptRowsFacts(rows: seq<RawRow>)
    ensures var k := KeptRows(rows);
      && (forall i :: 0 <= i < |k| ==> k[i] in rows && k[i].inner != "")
      && (forall i :: 0 <= i < |rows| && rows[i].inner != "" ==> rows[i] in k)
  {
    if rows != [] {
      var init := rows[..|rows| - 1];
      KeptRowsFacts(init);
      assert forall i :: 0 <= i < |rows| - 1 ==> rows[i] == init[i];
      assert rows == init + [rows[|rows| - 1]];
    }
  }

  /** `make_table`: None when some kept cell has a span `int()` rejects (the source raises). */
  function Build(rows: seq<RawRow>): Option<Grid> {
    BuildRows(KeptRows(rows))
  }

  /** One table row per kept row, in order; None as soon as one of them fails. */
  function BuildRows(kept: seq<RawRow>): (r: Option<Grid>)
    ensures r.Some? <==> forall i :: 0 <= i < |kept| ==> NewRow(kept[i].cells).Some?
    ensures r.Some? ==> |r.value| == |kept| && forall i :: 0 <= i < |kept| ==> NewRow(kept[i].cells) == Some(r.value[i])
  {
    if kept == [] then Some([])
    else
      match (BuildRows(kept[..|kept| - 1]), NewRow(kept[|kept| - 1].cells))
      case (Some(f), Some(row)) => Some(f + [row])
      case _ => None
  }

  /** Building one more raw row: skipped when empty, otherwise appended or failing. */
  lemma BuildSnoc(rows: seq<RawRow>, i: nat)
    requires i < |rows|
    ensures Build(rows[..i + 1]) ==
      if rows[i].inner == "" then Build(rows[..i])
      else match (Build(rows[..i]), NewRow(rows[i].cells))
        case (Some(f), Some(row)) => Some(f + [row])
        case _ => None
  {
    assert rows[..i + 1][..i] == rows[..i];
    var k := KeptRows(rows[..i]);
    if rows[i].inner != "" {
      assert KeptRows(rows[..i + 1]) == k + [rows[i]];
      assert (k + [rows[i]])[..|k|] == k;
    }
  }

  /** The inner loop of `make_table` over the cells of one row. */
  method NewRowLoop(cells: seq<RawCell>) returns (r: Option<seq<Cell>>)
    ensures r == NewRow(cells)
  {
    var rowCells: seq<Cell> := [];
    var j := 0;
    while j < |cells|
      invariant j <= |cells| && NewRow(cells[..j]) == Some(rowCells)
    {
      assert cells[..j + 1][..j] == cells[..j];
      var cell := cells[j];
      var rowspan := SpanValue(cell.rowspan);
      var colspan := SpanValue(cell.colspan);
      if rowspan.None? || colspan.None? {
        NewRowFails(cells, j);
        return None;
      }
      rowCells := rowCells + [Cell(cell.value, rowspan.value, colspan.value, rowspan.value, colspan.value, false)];
      j := j + 1;
    }
    assert cells[..j] == cells;
    return Some(rowCells);
  }

  lemma NewRowFails(cells: seq<RawCell>, j: nat)
    requires j < |cells| && NewCell(cells[j]).None?
    ensures NewRow(cells).None?
  {
  }

  // ---------------------------------------------------------------------------
  // get_flip and get_transpose
  // ---------------------------------------------------------------------------

  /** `get_flip`: every row reversed, every record unchanged. */
  function Flip(g: Grid): (f: Grid)
    ensures SameShape(g, f)
    ensures forall i, j :: 0 <= i < |g| && 0 <= j < |g[i]| ==> f[i][j] == g[i][|g[i]| - 1 - j]
  {
    seq(|g|, i requires 0 <= i < |g| => Reverse(g[i]))
  }

  /** The record `get_transpose` builds from a covering cell: spans and original spans swapped. */
  function SwapCell(c: Cell): Cell {
    Cell(c.value, c.colspan, c.rowspan, c.colspanOriginal, c.rowspanOriginal, c.similarity)
  }

  function Spans(g: Grid): (sg: Layout.SpanGrid)
    ensures |sg| == |g|
    ensures forall i :: 0 <= i < |g| ==> |sg[i]| == |g[i]|
    ensures forall i, j :: 0 <= i < |g| && 0 <= j < |g[i]| ==> sg[i][j] == Layout.Span(g[i][j].rowspan, g[i][j].colspan)
  {
    seq(|g|, i requires 0 <= i < |g| => seq(|g[i]|, j requires 0 <= j < |g[i]| => Layout.Span(g[i][j].rowspan, g[i][j].colspan)))
  }

  lemma {:induction false} RowWidthIsLayoutWidth(row: seq<Cell>, sr: seq<Layout.Span>)
    requires |sr| == |row| && forall j :: 0 <= j < |row| ==> sr[j].cs == row[j].colspan
    ensures RowWidth(row) == Layout.Width(sr)
  {
    if row != [] {
      RowWidthIsLayoutWidth(row[1..] , sr[1..]);
      RowWidthFront(row);
    }
  }

  lemma {:induction false} RowWidthFront(row: seq<Cell>)
    requires row != []
    ensures RowWidth(row) == row[0].colspan + RowWidth(row[1..])
    decreases |row|
  {
    if |row| > 1 {
      RowWidthFront(row[..|row| - 1]);
      assert row[..|row| - 1][1..] == row[1..][..|row[1..]| - 1];
    }
  }

  /** The records of a transposed layout. */
  function Place(g: Grid, L: seq<seq<Pos>>): (t: Grid)
    requires forall r, k :: 0 <= r < |L| && 0 <= k < |L[r]| ==> ValidPos(g, L[r][k])
    ensures |t| == |L|
    ensures forall r :: 0 <= r < |L| ==> |t[r]| == |L[r]|
    ensures forall r, k :: 0 <= r < |L| && 0 <= k < |L[r]| ==> t[r][k] == SwapCell(At(g, L[r][k]))
  {
    seq(|L|, r requires 0 <= r < |L| => seq(|L[r]|, k requires 0 <= k < |L[r]| => SwapCell(At(g, L[r][k]))))
  }

  /**
   * `get_transpose`. None stands for the bare `[]` the source returns for an
   * empty table or an empty first row.
   */
  function Transpose(g: Grid): (r: Option<Grid>)
    requires WellSpanned(g)
    ensures r.None? <==> g == [] || g[0] == []
    ensures r.Some? ==> 0 < |r.value| <= RowWidth(g[0])
    ensures r.Some? ==> forall i :: 0 <= i < |r.value| ==> 0 < |r.value[i]| <= |g|
    ensures r.Some? ==> WellSpanned(r.value)
  {
    if g == [] || g[0] == [] then None
    else
      var sg := Spans(g);
      var L := Layout.Transposed(sg);
      RowWidthIsLayoutWidth(g[0], sg[0]);
      Layout.TransposedNonEmpty(sg);
      Some(Place(g, L))
  }

  // ---------------------------------------------------------------------------
  // vertical_check
  // ---------------------------------------------------------------------------

  /** The rowspan test at :209-212: a frontier cell that is still spanning and has
      already spanned a row blocks a new cell that would reach below it. */
  predicate Blocks(o: Cell, n: Cell) {
    o.rowspan > 0 && o.rowspanOriginal - o.rowspan > 0 && n.rowspan - o.rowspan > 0
  }

  predicate AnyBlocks(w: Grid, prev: seq<Pos>, n: Cell)
    requires AllValid(w, prev)
  {
    exists t :: 0 <= t < |prev| && Blocks(At(w, prev[t]), n)
  }

  /** Only `rowspan` and `similarity` of a record ever change during the sweep. */
  predicate Frozen(w: Grid, w': Grid) {
    SameShape(w, w') &&
    forall r, c :: 0 <= r < |w| && 0 <= c < |w[r]| ==>
      w'[r][c].value == w[r][c].value && w'[r][c].colspan == w[r][c].colspan &&
      w'[r][c].rowspanOriginal == w[r][c].rowspanOriginal && w'[r][c].colspanOriginal == w[r][c].colspanOriginal
  }

  /** No record's `rowspan` differs between w and w'. */
  predicate KeepsRowspans(w: Grid, w': Grid)
    requires SameShape(w, w')
  {
    forall r, c :: 0 <= r < |w| && 0 <= c < |w[r]| ==> w'[r][c].rowspan == w[r][c].rowspan
  }

  /** `for k in range(len(old)): old[k]["rowspan"] -= 1`, from entry k on. */
  function DecFrom(w: Grid, prev: seq<Pos>, k: nat): (w': Grid)
    requires AllValid(w, prev) && k <= |prev|
    ensures SameShape(w, w')
    decreases |prev| - k
  {
    if k == |prev| then w
    else
      var c := At(w, prev[k]);
      DecFrom(Put(w, prev[k], c.(rowspan := c.rowspan - 1)), prev, k + 1)
  }

  /** The decrement changes nothing but rowspans. */
  lemma {:induction false} DecFromFrozen(w: Grid, prev: seq<Pos>, k: nat)
    requires AllValid(w, prev) && k <= |prev|
    ensures Frozen(w, DecFrom(w, prev, k))
    decreases |prev| - k
  {
    if k < |prev| {
      var c := At(w, prev[k]);
      var w' := Put(w, prev[k], c.(rowspan := c.rowspan - 1));
      DecFromFrozen(w', prev, k + 1);
      FrozenTrans(w, w', DecFrom(w', prev, k + 1));
    }
  }

  lemma FrozenTrans(a: Grid, b: Grid, c: Grid)
    requires Frozen(a, b) && Frozen(b, c)
    ensures Frozen(a, c)
  {
  }

  /** The outcome of one row of the sweep: rejected, or the updated records and the next frontier. */
  datatype Outcome = Reject | Accept(w: Grid, next: seq<Pos>)

  /**
   * The `while k < len(old)` loop for row i and the end-of-row cursor test, from
   * cursor state (j, k, s) with `next` accumulated so far.
   */
  function SweepRow(w: Grid, prev: seq<Pos>, i: nat, next: seq<Pos>, j: nat, k: nat, s: int): (r: Outcome)
    requires i < |w| && AllValid(w, prev) && AllValid(w, next) && j <= |w[i]| && k <= |prev|
    ensures r.Accept? ==> Frozen(w, r.w) && KeepsRowspans(w, r.w) && AllValid(r.w, r.next)
    decreases |prev| - k + |w[i]| - j
  {
    if k == |prev| then
      if j == |w[i]| then Accept(w, next) else Reject
    else
      var o := At(w, prev[k]);
      if o.rowspan > 0 then
        SweepRow(w, prev, i, next + [prev[k]], j, k + 1, s)
      else if j < |w[i]| then
        var n := w[i][j];
        if AnyBlocks(w, prev, n) then Reject
        else if s + n.colspan < o.colspan then
          SweepRow(w, prev, i, next + [(i, j)], j + 1, k, s + n.colspan)
        else if s + n.colspan == o.colspan then
          if s == 0 then
            var w' := Put(w, (i, j), n.(similarity := true));
            var o' := At(w', prev[k]);
            if o'.similarity && TagStructure(o'.value, SpanTransparent) != TagStructure(n.value, SpanTransparent) then Reject
            else SweepRow(w', prev, i, next + [(i, j)], j + 1, k + 1, 0)
          else
            SweepRow(w, prev, i, next + [(i, j)], j + 1, k + 1, 0)
        else Reject
      else Reject
  }

  /** `all(cell['rowspan'] == 1 for cell in old)` */
  predicate AllOne(w: Grid, prev: seq<Pos>)
    requires AllValid(w, prev)
  {
    forall t :: 0 <= t < |prev| ==> At(w, prev[t]).rowspan == 1
  }

  /** The `for i in range(1, len(table_spans))` loop from row i on, then the final test. */
  function SweepFrom(w: Grid, prev: seq<Pos>, i: nat): bool
    requires 1 <= i <= |w| && AllValid(w, prev)
    decreases |w| - i
  {
    if i == |w| then AllOne(w, prev)
    else
      var w1 := DecFrom(w, prev, 0);
      match SweepRow(w1, prev, i, [], 0, 0, 0)
      case Reject => false
      case Accept(w2, next) => SweepFrom(w2, next, i + 1)
  }

  /** `vertical_check` on a table: the sweep of its copy. */
  function Vertical(g: Grid): bool {
    |g| >= 2 && SweepFrom(g, RowPositions(0, |g[0]|), 1)
  }

  // ---------------------------------------------------------------------------
  // The orientation classifier
  // ---------------------------------------------------------------------------

  /** `is_top` */
  function TopCheck(g: Grid): bool {
    Vertical(g)
  }

  /** `is_left`; None when the transpose is the bare `[]`, on which the source raises. */
  function LeftCheck(g: Grid): Option<bool>
    requires WellSpanned(g)
  {
    match Transpose(g)
    case None => None
    case Some(t) => Some(Vertical(t))
  }

  /** `is_right`: flip, then transpose. */
  function RightCheck(g: Grid): Option<bool>
    requires WellSpanned(g)
  {
    match Transpose(Flip(g))
    case None => None
    case Some(t) => Some(Vertical(t))
  }

  /** `is_bottom`: transpose, flip, transpose. */
  function BottomCheck(g: Grid): Option<bool>
    requires WellSpanned(g)
  {
    match Transpose(g)
    case None => None
    case Some(t) =>
      match Transpose(Flip(t))
      case None => None
      case Some(u) => Some(Vertical(u))
  }

  /** `get_type_of_genuine`; None when the source raises. */
  function Classify(g: Grid): (r: Option<Genuine>)
    requires WellSpanned(g)
  {
    Decide(TopCheck(g), LeftCheck(g), RightCheck(g), BottomCheck(g))
  }

  // ---------------------------------------------------------------------------
  // The loops of vertical_check, each proved against the function above
  // ---------------------------------------------------------------------------

  /** `for k in range(len(old)): old[k]["rowspan"] -= 1` */
  method DecrementFrontier(w0: Grid, prev: seq<Pos>) returns (w: Grid)
    requires AllValid(w0, prev)
    ensures w == DecFrom(w0, prev, 0)
  {
    w := w0;
    var k := 0;
    while k < |prev|
      invariant k <= |prev| && SameShape(w0, w) && AllValid(w, prev)
      invariant DecFrom(w, prev, k) == DecFrom(w0, prev, 0)
    {
      var c := At(w, prev[k]);
      var w' := Put(w, prev[k], c.(rowspan := c.rowspan - 1));
      DecStep(w0, w, prev, k);
      w, k := w', k + 1;
    }
  }

  /** One decrement keeps the shape and the frontier valid and advances `DecFrom` by one entry. */
  lemma DecStep(w0: Grid, w: Grid, prev: seq<Pos>, k: nat)
    requires k < |prev| && SameShape(w0, w) && AllValid(w, prev)
    ensures var c := At(w, prev[k]);
      var w' := Put(w, prev[k], c.(rowspan := c.rowspan - 1));
      SameShape(w0, w') && AllValid(w', prev) && DecFrom(w, prev, k) == DecFrom(w', prev, k + 1)
  {
  }

  /** `for old_cell in old: if <rowspan test>: return False` */
  method FindBlocking(w: Grid, prev: seq<Pos>, n: Cell) returns (b: bool)
    requires AllValid(w, prev)
    ensures b == AnyBlocks(w, prev, n)
  {
    var t := 0;
    while t < |prev|
      invariant t <= |prev| && forall u :: 0 <= u < t ==> !Blocks(At(w, prev[u]), n)
    {
      if Blocks(At(w, prev[t]), n) {
        return true;
      }
      t := t + 1;
    }
    return false;
  }

  /** One iteration of `for i in range(1, len(table_spans))` after the decrement:
      the cursor loop over the frontier and row i, and the end-of-row test. */
  method SweepRowLoop(w0: Grid, prev: seq<Pos>, i: nat) returns (ok: bool, w: Grid, next: seq<Pos>)
    requires i < |w0| && AllValid(w0, prev)
    ensures ok <==> SweepRow(w0, prev, i, [], 0, 0, 0).Accept?
    ensures ok ==> SweepRow(w0, prev, i, [], 0, 0, 0) == Accept(w, next)
  {
    w, next := w0, [];
    var j, k, s := 0, 0, 0;
    while k < |prev|
      invariant SameShape(w0, w) && AllValid(w, prev) && AllValid(w, next)
      invariant j <= |w[i]| && k <= |prev|
      invariant SweepRow(w, prev, i, next, j, k, s) == SweepRow(w0, prev, i, [], 0, 0, 0)
      decreases |prev| - k + |w0[i]| - j
    {
      if At(w, prev[k]).rowspan > 0 {
        next := next + [prev[k]];
        k := k + 1;
        continue;
      }
      if j < |w[i]| {
        var blocked := FindBlocking(w, prev, w[i][j]);
        if blocked {
          return false, w, next;
        }
        if s + w[i][j].colspan < At(w, prev[k]).colspan {
          s := s + w[i][j].colspan;
          next := next + [(i, j)];
          j := j + 1;
          continue;
        }
        if s + w[i][j].colspan == At(w, prev[k]).colspan {
          if s == 0 {
            w := Put(w, (i, j), w[i][j].(similarity := true));
            if At(w, prev[k]).similarity {
              var oldShape := TagStructure(At(w, prev[k]).value, SpanTransparent);
              var newShape := TagStructure(w[i][j].value, SpanTransparent);
              if oldShape != newShape {
                return false, w, next;
              }
            }
          }
          s := 0;
          next := next + [(i, j)];
          j := j + 1;
          k := k + 1;
          continue;
        }
      }
      return false, w, next;
    }
    ok := j == |w[i]| && k == |prev|;
  }

  // ---------------------------------------------------------------------------
  // The class
  // ---------------------------------------------------------------------------

  /** A table of span records. The source starts with `None`; here the empty table. */
  class SpanTable {
    var table: Grid

    constructor ()
      ensures table == []
    {
      table := [];
    }

    /** `make_table`: on failure (a span `int()` rejects) the table is left as it was. */
    method MakeTable(rows: seq<RawRow>) returns (ok: bool)
      modifies this
      ensures ok == Build(rows).Some?
      ensures ok ==> table == Build(rows).value
      ensures !ok ==> table == old(table)
    {
      var spans: Grid := [];
      var i := 0;
      while i < |rows|
        invariant i <= |rows| && Build(rows[..i]) == Some(spans)
        invariant table == old(table)
      {
        BuildSnoc(rows, i);
        if rows[i].inner == "" {
          i := i + 1;
          continue;
        }
        var rowCells := NewRowLoop(rows[i].cells);
        if rowCells.None? {
          FailurePersists(rows, i);
          return false;
        }
        spans := spans + [rowCells.value];
        i := i + 1;
      }
      assert rows[..i] == rows;
      table := spans;
      return true;
    }

    /** `set_table` */
    method SetTable(t: Grid)
      modifies this
      ensures table == t
    {
      table := t;
    }

    /** `get_copy`: a fresh table with records equal to this one's. */
    method GetCopy() returns (c: SpanTable)
      ensures fresh(c) && c.table == table
    {
      var copy: Grid := [];
      var i := 0;
      while i < |table|
        invariant i <= |table| && copy == table[..i]
      {
        copy := copy + [[]];
        var j := 0;
        while j < |table[i]|
          invariant j <= |table[i]| && |copy| == i + 1 && copy[..i] == table[..i] && copy[i] == table[i][..j]
        {
          var cell := table[i][j];
          copy := copy[i := copy[i] + [Cell(cell.value, cell.rowspan, cell.colspan,
                                            cell.rowspanOriginal, cell.colspanOriginal, cell.similarity)]];
          j := j + 1;
        }
        assert table[i][..j] == table[i];
        assert copy == table[..i + 1];
        i := i + 1;
      }
      assert table[..i] == table;
      c := new SpanTable();
      c.SetTable(copy);
    }

    /** `get_flip` */
    method GetFlip() returns (f: SpanTable)
      ensures fresh(f) && f.table == Flip(table)
    {
      var c := GetCopy();
      var flip := c.table;
      var i := 0;
      while i < |flip|
        invariant i <= |flip| == |table|
        invariant forall r :: 0 <= r < i ==> flip[r] == Reverse(table[r])
        invariant forall r :: i <= r < |flip| ==> flip[r] == table[r]
      {
        flip := flip[i := Reverse(flip[i])];
        i := i + 1;
      }
      f := new SpanTable();
      f.SetTable(flip);
    }

    /** `get_transpose`; null for the bare `[]` the source returns on an empty table or first row. */
    method GetTranspose() returns (t: SpanTable?)
      requires WellSpanned(table)
      ensures Transpose(table).None? ==> t == null
      ensures Transpose(table).Some? ==> t != null && fresh(t) && t.table == Transpose(table).value
    {
      if table == [] || table[0] == [] {
        return null;
      }
      var sg := Spans(table);
      var layout := Layout.TransposeLayout(sg);
      t := new SpanTable();
      t.SetTable(Place(table, layout));
    }

    /** `vertical_check` */
    method VerticalCheck() returns (ok: bool)
      ensures ok == Vertical(table)
    {
      var c := GetCopy();
      var w := c.table;
      if |w| < 2 {
        return false;
      }
      var prev := RowPositions(0, |w[0]|);
      var i := 1;
      while i < |w|
        invariant 1 <= i <= |w| && AllValid(w, prev)
        invariant SweepFrom(w, prev, i) == Vertical(table)
      {
        var w1 := DecrementFrontier(w, prev);
        var rowOk, w2, next := SweepRowLoop(w1, prev, i);
        if !rowOk {
          return false;
        }
        w, prev := w2, next;
        i := i + 1;
      }
      ok := AllOneLoop(w, prev);
    }

    /** `is_top` */
    method IsTop() returns (r: bool)
      ensures r == TopCheck(table)
    {
      r := VerticalCheck();
    }

    /** `is_left`; None where the source calls `vertical_check` on `[]` and raises. */
    method IsLeft() returns (r: Option<bool>)
      requires WellSpanned(table)
      ensures r == LeftCheck(table)
    {
      var t := GetTranspose();
      if t == null {
        return None;
      }
      var v := t.VerticalCheck();
      r := Some(v);
    }

    /** `is_right` */
    method IsRight() returns (r: Option<bool>)
      requires WellSpanned(table)
      ensures r == RightCheck(table)
    {
      var f := GetFlip();
      var t := f.GetTranspose();
      if t == null {
        return None;
      }
      var v := t.VerticalCheck();
      r := Some(v);
    }

    /** `is_bottom` */
    method IsBottom() returns (r: Option<bool>)
      requires WellSpanned(table)
      ensures r == BottomCheck(table)
    {
      var t := GetTranspose();
      if t == null {
        return None;
      }
      var f := t.GetFlip();
      var u := f.GetTranspose();
      if u == null {
        return None;
      }
      var v := u.VerticalCheck();
      r := Some(v);
    }

    /** `get_type_of_genuine` */
    method GetTypeOfGenuine() returns (r: Option<Genuine>)
      requires WellSpanned(table)
      ensures r == Classify(table)
    {
      var top := IsTop();
      if top {
        return Some(Top);
      }
      var left := IsLeft();
      if left != Some(false) {
        return if left == Some(true) then Some(Left) else None;
      }
      var right := IsRight();
      if right != Some(false) {
        return if right == Some(true) then Some(Right) else None;
      }
      var bottom := IsBottom();
      if bottom != Some(false) {
        return if bottom == Some(true) then Some(Bottom) else None;
      }
      return Some(Not);
    }
  }

  /** `all(cell['rowspan'] == 1 for cell in old)` */
  method AllOneLoop(w: Grid, prev: seq<Pos>) returns (b: bool)
    requires AllValid(w, prev)
    ensures b == AllOne(w, prev)
  {
    var t := 0;
    while t < |prev|
      invariant t <= |prev| && forall u :: 0 <= u < t ==> At(w, prev[u]).rowspan == 1
    {
      if At(w, prev[t]).rowspan != 1 {
        return false;
      }
      t := t + 1;
    }
    return true;
  }

  /** Once a kept row has a cell that fails, every longer prefix of the rows fails. */
  lemma FailurePersists(rows: seq<RawRow>, i: nat)
    requires i < |rows| && rows[i].inner != "" && NewRow(rows[i].cells).None?
    ensures Build(rows).None?
  {
    KeptRowsFacts(rows);
    assert rows[i] in KeptRows(rows);
  }
}
