/**
 * The `SpanTable` class of version 2.3 (betta/convert_html_to_excel_v_2.3.py)
 * over the shared record model, its classifier methods, and `check`.
 */
module SpanTableV23 {
  import opened Wrappers
  import opened Markup
  import opened Grids
  import opened SpanRecords

  /** `vertical_check`: the sweep, with the span-aware skeleton, run on a copy. */
  function Vertical(g: Grid): bool {
    Carry(g, SpanTransparent).ok
  }

  /** `is_left`; None where the source calls `vertical_check` on the bare `[]` and raises. */
  function LeftCheck(g: Grid): Option<bool>
    requires WellSpanned(g)
  {
    match Transpose(g)
    case None => None
    case Some(t) => Some(Vertical(t))
  }

  /** `is_right` in this version: transpose, then flip. */
  function RightCheck(g: Grid): Option<bool>
    requires WellSpanned(g)
  {
    match Transpose(g)
    case None => None
    case Some(t) => Some(Vertical(Flip(t)))
  }

  /** `is_bottom`: transpose, flip, transpose. */
  function BottomCheck(g: Grid): Option<bool>
    requires WellSpanned(g)
  {
    match Transpose(g)
    case None => None
    case Some(t) =>
      match Transpose(Flip(t))
      case None => None
      case Some(u) => Some(Vertical(u))
  }

  /** The label `check` prints, tried in the order top, left, right, bottom; None when it raises. */
  function Classify(g: Grid): Option<Genuine>
    requires WellSpanned(g)
  {
    Decide(Vertical(g), LeftCheck(g), RightCheck(g), BottomCheck(g))
  }

  /** `check`: build the table and classify it; None when building or classifying raises. */
  function CheckOf(rows: seq<RawRow>): (r: Option<bool>)
    requires PositiveSpans(rows)
  {
    match Build(rows, true)
    case None => None
    case Some(g) =>
      BuiltWellSpanned(rows, true);
      match Classify(g)
      case None => None
      case Some(kind) => Some(kind != Not)
  }

  /** A table of records; the source starts with `None`, here the empty table. */
  class SpanTable {
    var table: Grid

    constructor ()
      ensures table == []
    {
      table := [];
    }

    /** `make_table`: rows whose inner markup is '' are skipped; on failure the table is left as it was. */
    method MakeTable(rows: seq<RawRow>) returns (ok: bool)
      modifies this
      ensures ok == Build(rows, true).Some?
      ensures ok ==> table == Build(rows, true).value
      ensures !ok ==> table == old(table)
    {
      var built := BuildLoop(rows, true);
      if built.None? {
        return false;
      }
      table := built.value;
      return true;
    }

    /** `set_table` */
    method SetTable(t: Grid)
      modifies this
      ensures table == t
    {
      table := t;
    }

    /** `get_copy` */
    method GetCopy() returns (c: SpanTable)
      ensures fresh(c) && c.table == table
    {
      var copy: Grid := [];
      var i := 0;
      while i < |table|
        invariant i <= |table| && copy == table[..i]
      {
        copy := copy + [[]];
        var j := 0;
        while j < |table[i]|
          invariant j <= |table[i]| && |copy| == i + 1 && copy[..i] == table[..i] && copy[i] == table[i][..j]
        {
          var cell := table[i][j];
          copy := copy[i := copy[i] + [Rec(cell.value, cell.rowspan, cell.colspan, cell.nottitle)]];
          j := j + 1;
        }
        assert table[i][..j] == table[i];
        assert copy == table[..i + 1];
        i := i + 1;
      }
      assert table[..i] == table;
      c := new SpanTable();
      c.SetTable(copy);
    }

    /** `get_flip` */
    method GetFlip() returns (f: SpanTable)
      ensures fresh(f) && f.table == Flip(table)
    {
      var c := GetCopy();
      var flip := c.table;
      var i := 0;
      while i < |table|
        invariant i <= |flip| == |table|
        invariant forall r :: 0 <= r < i ==> flip[r] == Reverse(table[r])
        invariant forall r :: i <= r < |flip| ==> flip[r] == table[r]
      {
        flip := flip[i := Reverse(flip[i])];
        i := i + 1;
      }
      f := new SpanTable();
      f.SetTable(flip);
    }

    /** `get_transpose`; null for the bare `[]` returned on an empty table or first row. */
    method GetTranspose() returns (t: SpanTable?)
      requires WellSpanned(table)
      ensures Transpose(table).None? ==> t == null
      ensures Transpose(table).Some? ==> t != null && fresh(t) && t.table == Transpose(table).value
    {
      var r := TransposeLoop(table);
      if r.None? {
        return null;
      }
      t := new SpanTable();
      t.SetTable(r.value);
    }

    /** `vertical_check`: the sweep runs on a copy, so the records of this table are not touched. */
    method VerticalCheck() returns (ok: bool)
      ensures ok == Vertical(table)
    {
      var c := GetCopy();
      var swept;
      ok, swept := CarryLoop(c.table, SpanTransparent);
    }

    /** `is_top` */
    method IsTop() returns (r: bool)
      ensures r == Vertical(table)
    {
      r := VerticalCheck();
    }

    /** `is_left` */
    method IsLeft() returns (r: Option<bool>)
      requires WellSpanned(table)
      ensures r == LeftCheck(table)
    {
      var t := GetTranspose();
      if t == null {
        return None;
      }
      var v := t.VerticalCheck();
      r := Some(v);
    }

    /** `is_right`: transpose, then flip; `[].get_flip()` raises. */
    method IsRight() returns (r: Option<bool>)
      requires WellSpanned(table)
      ensures r == RightCheck(table)
    {
      var t := GetTranspose();
      if t == null {
        return None;
      }
      var f := t.GetFlip();
      var v := f.VerticalCheck();
      r := Some(v);
    }

    /** `is_bottom` */
    method IsBottom() returns (r: Option<bool>)
      requires WellSpanned(table)
      ensures r == BottomCheck(table)
    {
      var t := GetTranspose();
      if t == null {
        return None;
      }
      var f := t.GetFlip();
      var u := f.GetTranspose();
      if u == null {
        return None;
      }
      var v := u.VerticalCheck();
      r := Some(v);
    }
  }

  /** The chain of tries in `check`: top, left, right, bottom, else 'not'; None when one of them raises. */
  method Label(t: SpanTable) returns (r: Option<Genuine>)
    requires WellSpanned(t.table)
    ensures r == Classify(t.table)
  {
    var top := t.IsTop();
    if top {
      return Some(Top);
    }
    var left := t.IsLeft();
    if left.None? {
      return None;
    } else if left.value {
      return Some(Left);
    }
    var right := t.IsRight();
    if right.None? {
      return None;
    } else if right.value {
      return Some(Right);
    }
    var bottom := t.IsBottom();
    if bottom.None? {
      return None;
    }
    r := Some(if bottom.value then Bottom else Not);
  }

  /** `check`: a fresh table, built, then labelled; the printed label is left out. */
  method Check(rows: seq<RawRow>) returns (r: Option<bool>)
    requires PositiveSpans(rows)
    ensures r == CheckOf(rows)
  {
    var t := new SpanTable();
    var built := t.MakeTable(rows);
    if !built {
      return None;
    }
    BuiltWellSpanned(rows, true);
    var kind := Label(t);
    r := if kind.None? then None else Some(kind.value != Not);
  }
}
