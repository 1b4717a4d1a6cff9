/**
 * The three tables embedded in betta/convert_html_to_excel_v_0.4.py, as raw
 * rows: a multi-level table (one header over four columns, two over two
 * columns each, then four plain cells), a table whose one-cell first row is
 * followed by a two-cell row, and a plain table of two columns. Version 0.4
 * calls the first and third relational and the second not; the multi-level
 * table also passes the vertical sweep of version 3.0.
 */
module Samples {
  import opened Wrappers
  import opened Markup
  import opened Grids
  import RelatableV04
  import V3 = SpanTableV3
  import V3Facts = SpanTableV3Facts

  /** A header cell `<th>` holding one text node, with the given colspan attribute. */
  function Th(text: string, colspan: Attr): RawCell {
    RawCell(Elem("th", [Text(text)]), Absent, colspan)
  }

  /** A data cell `<td>` holding one text node, without span attributes. */
  function Td(text: string): RawCell {
    RawCell(Elem("td", [Text(text)]), Absent, Absent)
  }

  /** A `tr` whose decoded inner markup is `inner`. */
  function Row(inner: string, cells: seq<RawCell>): RawRow {
    RawRow(inner, cells)
  }

  function Hierarchical(): seq<RawRow> {
    [ Row("<th colspan=\"4\">University</th>", [Th("University", Num(4))]),
      Row("<th colspan=\"2\">Year 1</th><th colspan=\"2\">Year 2</th>", [Th("Year 1", Num(2)), Th("Year 2", Num(2))]),
      Row("<td>Group 1</td><td>Group 2</td><td>Group 1</td><td>Group 2</td>",
          [Td("Group 1"), Td("Group 2"), Td("Group 1"), Td("Group 2")]) ]
  }

  function Uneven(): seq<RawRow> {
    [ Row("<td>Only 1 column</td>", [Td("Only 1 column")]),
      Row("<td>Wrong</td><td>Structure</td>", [Td("Wrong"), Td("Structure")]) ]
  }

  function TwoColumns(): seq<RawRow> {
    [ Row("<th>Column 1</th><th>Column 2</th>", [Th("Column 1", Absent), Th("Column 2", Absent)]),
      Row("<td>Value 1</td><td>Value 2</td>", [Td("Value 1"), Td("Value 2")]),
      Row("<td>Value 3</td><td>Value 4</td>", [Td("Value 3"), Td("Value 4")]) ]
  }

  // ---------------------------------------------------------------------------
  // Version 0.4
  // ---------------------------------------------------------------------------

  /** The multi-level table is four columns wide in every row. */
  lemma HierarchicalRelatable()
    ensures RelatableV04.Relatable(Hierarchical())
  {
    var rows := Hierarchical();
    RelatableV04.PlainRowWidth(rows[2].cells);
    var mid := rows[1].cells;
    assert mid[..1][..0] == [];
    assert RelatableV04.CountCols(mid[..1]) == 2;
    assert mid[..2] == mid;
    var top := rows[0].cells;
    assert top[..0] == [];
  }

  /** The uneven table is refused: its first row is one column wide. */
  lemma UnevenNotRelatable()
    ensures !RelatableV04.Relatable(Uneven())
  {
    RelatableV04.PlainRowWidth(Uneven()[0].cells);
  }

  /** The plain table is two columns wide in every row. */
  lemma TwoColumnsRelatable()
    ensures RelatableV04.Relatable(TwoColumns())
  {
    var rows := TwoColumns();
    RelatableV04.PlainRowWidth(rows[0].cells);
    RelatableV04.PlainRowWidth(rows[1].cells);
    RelatableV04.PlainRowWidth(rows[2].cells);
  }

  // ---------------------------------------------------------------------------
  // Version 3.0 on the multi-level table
  // ---------------------------------------------------------------------------

  /** A row without rowspan attributes and with no malformed colspan builds to records of rowspan 1. */
  lemma RowBuilds(cells: seq<RawCell>)
    requires forall j :: 0 <= j < |cells| ==> cells[j].rowspan.Absent? && !cells[j].colspan.Malformed?
    ensures V3.NewRow(cells).Some?
    ensures forall j :: 0 <= j < |cells| ==>
      V3.NewRow(cells).value[j].rowspan == 1 && V3.NewRow(cells).value[j].colspan == SpanValue(cells[j].colspan).value
  {
  }

  /** `make_table` keeps every row whose inner markup is not empty. */
  lemma {:induction false} KeptAll(rows: seq<RawRow>)
    requires forall i :: 0 <= i < |rows| ==> rows[i].inner != ""
    ensures V3.KeptRows(rows) == rows
  {
    if rows != [] {
      KeptAll(rows[..|rows| - 1]);
      assert rows[..|rows| - 1] + [rows[|rows| - 1]] == rows;
    }
  }

  /** The span attributes of the multi-level sample: 4 / 2 + 2 / four cells without attributes. */
  predicate SampleShape(rows: seq<RawRow>) {
    |rows| == 3 && |rows[0].cells| == 1 && |rows[1].cells| == 2 && |rows[2].cells| == 4 &&
    (forall i :: 0 <= i < 3 ==> rows[i].inner != "") &&
    (forall i, j :: 0 <= i < 3 && 0 <= j < |rows[i].cells| ==> rows[i].cells[j].rowspan.Absent?) &&
    rows[0].cells[0].colspan == Num(4) && rows[1].cells[0].colspan == Num(2) && rows[1].cells[1].colspan == Num(2) &&
    forall j :: 0 <= j < 4 ==> rows[2].cells[j].colspan.Absent?
  }

  /** `make_table` builds one table row per row of such input. */
  lemma BuiltRows(rows: seq<RawRow>) returns (g: V3.Grid)
    requires SampleShape(rows)
    ensures V3.Build(rows) == Some(g) && |g| == 3
    ensures forall i :: 0 <= i < 3 ==> V3.NewRow(rows[i].cells) == Some(g[i])
  {
    KeptAll(rows);
    RowBuilds(rows[0].cells);
    RowBuilds(rows[1].cells);
    RowBuilds(rows[2].cells);
    assert V3.BuildRows(rows).Some?;
    g := V3.BuildRows(rows).value;
  }

  /** The records built for such input have the multi-level shape. */
  lemma BuiltThreeLevels(rows: seq<RawRow>)
    requires SampleShape(rows)
    ensures V3.Build(rows).Some? && ThreeLevels(V3.Build(rows).value)
  {
    var g := BuiltRows(rows);
    RowBuilds(rows[0].cells);
    RowBuilds(rows[1].cells);
    RowBuilds(rows[2].cells);
    assert V3.NewRow(rows[0].cells) == Some(g[0]) && V3.NewRow(rows[1].cells) == Some(g[1]);
    assert V3.NewRow(rows[2].cells) == Some(g[2]);
  }

  /** Row 1 of the sweep: the two headers narrow, then close, the spent top header. */
  lemma HierarchicalRow1(w1: V3.Grid)
    requires |w1| == 3 && |w1[0]| == 1 && |w1[1]| == 2
    requires w1[0][0].rowspan == 0 && w1[0][0].colspan == 4
    requires w1[1][0].colspan == 2 && w1[1][1].colspan == 2
    ensures V3.SweepRow(w1, RowPositions(0, 1), 1, [], 0, 0, 0) == V3.Accept(w1, RowPositions(1, 2))
  {
    var prev := RowPositions(0, 1);
    assert prev[0] == (0, 0);
    assert !V3.AnyBlocks(w1, prev, w1[1][0]) && !V3.AnyBlocks(w1, prev, w1[1][1]);
    var none: seq<Pos> := [];
    assert none + [(1, 0)] == [(1, 0)] && [(1, 0)] + [(1, 1)] == RowPositions(1, 2);
    assert V3.SweepRow(w1, prev, 1, RowPositions(1, 2), 2, 1, 0) == V3.Accept(w1, RowPositions(1, 2));
    assert V3.SweepRow(w1, prev, 1, [(1, 0)], 1, 0, 2) == V3.Accept(w1, RowPositions(1, 2));
  }

  /** Two plain cells from index j close the spent header at frontier entry k. */
  lemma HierarchicalPair(w2: V3.Grid, next: seq<Pos>, j: nat, k: nat)
    requires |w2| == 3 && |w2[1]| == 2 && |w2[2]| == 4 && j + 1 < 4 && k < 2
    requires w2[1][0].rowspan == 0 && w2[1][1].rowspan == 0
    requires w2[1][0].colspan == 2 && w2[1][1].colspan == 2
    requires forall q :: 0 <= q < 4 ==> w2[2][q].colspan == 1
    requires V3.AllValid(w2, next)
    ensures V3.SweepRow(w2, RowPositions(1, 2), 2, next, j, k, 0) ==
      V3.SweepRow(w2, RowPositions(1, 2), 2, next + [(2, j), (2, j + 1)], j + 2, k + 1, 0)
  {
    var prev := RowPositions(1, 2);
    assert prev[0] == (1, 0) && prev[1] == (1, 1);
    assert !V3.AnyBlocks(w2, prev, w2[2][j]) && !V3.AnyBlocks(w2, prev, w2[2][j + 1]);
    assert next + [(2, j)] + [(2, j + 1)] == next + [(2, j), (2, j + 1)];
  }

  /** Row 2 of the sweep: the four plain cells close the two spent headers, two each. */
  lemma HierarchicalRow2(w2: V3.Grid)
    requires |w2| == 3 && |w2[1]| == 2 && |w2[2]| == 4
    requires w2[1][0].rowspan == 0 && w2[1][1].rowspan == 0
    requires w2[1][0].colspan == 2 && w2[1][1].colspan == 2
    requires forall q :: 0 <= q < 4 ==> w2[2][q].colspan == 1
    ensures V3.SweepRow(w2, RowPositions(1, 2), 2, [], 0, 0, 0) == V3.Accept(w2, RowPositions(2, 4))
  {
    HierarchicalPair(w2, [], 0, 0);
    HierarchicalPair(w2, [(2, 0), (2, 1)], 2, 1);
    assert [(2, 0), (2, 1)] + [(2, 2), (2, 3)] == RowPositions(2, 4);
    var none: seq<Pos> := [];
    assert none + [(2, 0), (2, 1)] == [(2, 0), (2, 1)];
  }

  /** One row of the sweep, accepted, moves it on to the next row. */
  lemma SweepStep(w: V3.Grid, prev: seq<Pos>, i: nat, w': V3.Grid, next: seq<Pos>)
    requires 1 <= i < |w| && V3.AllValid(w, prev)
    requires V3.SweepRow(V3.DecFrom(w, prev, 0), prev, i, [], 0, 0, 0) == V3.Accept(w', next)
    ensures |w'| == |w| && V3.AllValid(w', next)
    ensures V3.SweepFrom(w, prev, i) == V3.SweepFrom(w', next, i + 1)
  {
  }

  /** One header over four columns, two over two columns each, four single cells; every rowspan 1. */
  predicate ThreeLevels(g: V3.Grid) {
    |g| == 3 && |g[0]| == 1 && |g[1]| == 2 && |g[2]| == 4 &&
    g[0][0].colspan == 4 && g[1][0].colspan == 2 && g[1][1].colspan == 2 &&
    (forall q :: 0 <= q < 4 ==> g[2][q].colspan == 1) &&
    forall r, q :: 0 <= r < 3 && 0 <= q < |g[r]| ==> g[r][q].rowspan == 1
  }

  /** The records after the decrement of row 0: the top header is spent. */
  lemma AfterRow0(g: V3.Grid) returns (w1: V3.Grid)
    requires ThreeLevels(g)
    ensures w1 == V3.DecFrom(g, RowPositions(0, 1), 0)
    ensures |w1| == 3 && |w1[0]| == 1 && w1[1] == g[1] && w1[2] == g[2]
    ensures w1[0][0].rowspan == 0 && w1[0][0].colspan == 4
  {
    V3Facts.DecRow(g, 0, 1, 0);
    w1 := V3.DecFrom(g, RowPositions(0, 1), 0);
    assert w1[1][0] == g[1][0] && w1[1][1] == g[1][1];
    assert forall q :: 0 <= q < 4 ==> w1[2][q] == g[2][q];
  }

  /** The records after the decrement of row 1: both two-column headers are spent. */
  lemma AfterRow1(g: V3.Grid, w1: V3.Grid) returns (w2: V3.Grid)
    requires ThreeLevels(g)
    requires |w1| == 3 && |w1[0]| == 1 && w1[1] == g[1] && w1[2] == g[2]
    ensures w2 == V3.DecFrom(w1, RowPositions(1, 2), 0)
    ensures |w2| == 3 && |w2[1]| == 2 && w2[2] == g[2]
    ensures w2[1][0].rowspan == 0 && w2[1][1].rowspan == 0
    ensures w2[1][0].colspan == 2 && w2[1][1].colspan == 2
  {
    V3Facts.DecRow(w1, 1, 2, 0);
    w2 := V3.DecFrom(w1, RowPositions(1, 2), 0);
    assert forall q :: 0 <= q < 4 ==> w2[2][q] == w1[2][q];
  }

  /** Every table of that shape passes `vertical_check` of version 3.0, whatever its cells hold. */
  lemma ThreeLevelsVertical(g: V3.Grid)
    requires ThreeLevels(g)
    ensures V3.Vertical(g)
  {
    var w1 := AfterRow0(g);
    HierarchicalRow1(w1);
    SweepStep(g, RowPositions(0, 1), 1, w1, RowPositions(1, 2));
    var w2 := AfterRow1(g, w1);
    HierarchicalRow2(w2);
    SweepStep(w1, RowPositions(1, 2), 2, w2, RowPositions(2, 4));
    assert V3.AllOne(w2, RowPositions(2, 4));
  }

  /** The multi-level sample passes `vertical_check` of version 3.0. */
  lemma HierarchicalVertical()
    ensures V3.Build(Hierarchical()).Some? && V3.Vertical(V3.Build(Hierarchical()).value)
  {
    assert SampleShape(Hierarchical());
    BuiltThreeLevels(Hierarchical());
    ThreeLevelsVertical(V3.Build(Hierarchical()).value);
  }
}
