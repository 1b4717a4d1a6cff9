/**
 * What the version 1.4 sweep guarantees: an accepted row splits the frontier
 * slots left after the carried records exactly, the sweep only lowers
 * rowspans (never below 1) and touches nothing else, on 1x1 cells it accepts
 * exactly the tables of two or more rows of one length, and a rowspan that
 * runs past the last row is refused.
 */
module SweepV14Facts {
  import opened Wrappers
  import opened Markup
  import opened Grids
  import opened SpanRecords
  import opened SpanRecordsFacts
  import opened SweepV14

  // ---------------------------------------------------------------------------
  // Exact fit of an accepted row
  // ---------------------------------------------------------------------------

  /** The summed colspans of a row from cell j on. */
  function CellsWidth(row: seq<Rec>, j: nat): int
    decreases |row| - j
  {
    if j >= |row| then 0 else row[j].colspan + CellsWidth(row, j + 1)
  }

  /** The summed colspans of the records at positions `ps`, from entry k on. */
  function SlotsWidth(w: Grid, ps: seq<Pos>, k: nat): int
    requires AllValid(w, ps)
    decreases |ps| - k
  {
    if k >= |ps| then 0 else At(w, ps[k]).colspan + SlotsWidth(w, ps, k + 1)
  }

  lemma {:induction false} CellsWidthKept(a: seq<Rec>, b: seq<Rec>, j: nat)
    requires |a| == |b| && forall c :: 0 <= c < |a| ==> a[c].colspan == b[c].colspan
    ensures CellsWidth(a, j) == CellsWidth(b, j)
    decreases |a| - j
  {
    if j < |a| {
      CellsWidthKept(a, b, j + 1);
    }
  }

  lemma {:induction false} SlotsWidthKept(w: Grid, w': Grid, ps: seq<Pos>, k: nat)
    requires Frozen(w, w') && AllValid(w, ps) && AllValid(w', ps)
    ensures SlotsWidth(w, ps, k) == SlotsWidth(w', ps, k)
    decreases |ps| - k
  {
    if k < |ps| {
      SlotsWidthKept(w, w', ps, k + 1);
    }
  }

  /**
   * When the second loop of a row ends with both cursors at their ends, the
   * cells from j on together with the partial sum s are exactly as wide as
   * the frontier slots from k on.
   */
  lemma {:induction false} FillRowPartition(w: Grid, prev: seq<Pos>, i: nat, next: seq<Pos>, j: nat, k: nat, s: int)
    requires i < |w| && AllValid(w, prev) && AllValid(w, next) && j <= |w[i]| && k <= |prev|
    requires s == 0 || k < |prev|
    ensures var r := FillRow(w, prev, i, next, j, k, s);
      r.Reached? && r.j >= |w[i]| && r.k >= |prev| ==> CellsWidth(w[i], j) + s == SlotsWidth(w, prev, k)
    decreases |w[i]| - j
  {
    if j < |w[i]| && k < |prev| {
      var c := w[i][j];
      var o := At(w, prev[k]);
      if s + c.colspan < o.colspan {
        FillRowPartition(w, prev, i, next + [(i, j)], j + 1, k, s + c.colspan);
      } else if s + c.colspan == o.colspan {
        if o.rowspan > 1 {
          var w' := Put(w, prev[k], o.(rowspan := o.rowspan - 1));
          PutKeepsValid(w, w', prev);
          PutKeepsValid(w, w', next + [prev[k]] + [(i, j)]);
          FillRowPartition(w', prev, i, next + [prev[k]] + [(i, j)], j + 1, k + 1, 0);
          PutEffects(w, prev[k], o.(rowspan := o.rowspan - 1));
          CellsWidthKept(w[i], w'[i], j + 1);
          SlotsWidthKept(w, w', prev, k + 1);
        } else {
          FillRowPartition(w, prev, i, next + [(i, j)], j + 1, k + 1, 0);
        }
      }
    }
  }

  function Min(a: nat, b: nat): nat {
    if a < b then a else b
  }

  /**
   * An accepted row: the carried records have the colspans of the leading
   * frontier records, and the cells of the row exactly cover the frontier
   * slots after them.
   */
  lemma RowPartition(w: Grid, prev: seq<Pos>, carried: seq<Pos>, i: nat)
    requires i < |w| && AllValid(w, prev) && AllValid(w, carried)
    ensures SweepRow(w, prev, carried, i).Next? ==>
      (forall u :: 0 <= u < |carried| && u < |prev| ==> At(w, carried[u]).colspan == At(w, prev[u]).colspan) &&
      CellsWidth(w[i], 0) == SlotsWidth(w, prev, Min(|carried|, |prev|))
  {
    var l := Leading(w, carried, prev, 0);
    if l.Some? {
      FillRowPartition(w, prev, i, carried, 0, l.value, 0);
    }
  }

  // ---------------------------------------------------------------------------
  // Effects on the records
  // ---------------------------------------------------------------------------

  /**
   * w' is w with some rowspans lowered, none of them below 1: values,
   * colspans and `nottitle` stay as they are.
   */
  predicate Lowered(w: Grid, w': Grid) {
    Frozen(w, w') &&
    forall r, c :: 0 <= r < |w| && 0 <= c < |w[r]| ==>
      w'[r][c].nottitle == w[r][c].nottitle && w'[r][c].rowspan <= w[r][c].rowspan &&
      (w'[r][c].rowspan < w[r][c].rowspan ==> w'[r][c].rowspan >= 1)
  }

  lemma LoweredChain(a: Grid, b: Grid, c: Grid)
    requires Lowered(a, b) && Lowered(b, c)
    ensures Lowered(a, c)
  {
  }

  /** The one write the sweep makes: a rowspan above 1 goes down by one. */
  lemma PutLowers(w: Grid, p: Pos)
    requires ValidPos(w, p) && At(w, p).rowspan > 1
    ensures Lowered(w, Put(w, p, At(w, p).(rowspan := At(w, p).rowspan - 1)))
  {
  }

  lemma {:induction false} DecrementEffects(w: Grid, ps: seq<Pos>, t: nat, acc: seq<Pos>)
    requires AllValid(w, ps) && AllValid(w, acc) && t <= |ps|
    ensures Lowered(w, Decrement(w, ps, t, acc).0)
    decreases |ps| - t
  {
    if t < |ps| {
      var c := At(w, ps[t]);
      if c.rowspan > 1 {
        var w' := Put(w, ps[t], c.(rowspan := c.rowspan - 1));
        PutKeepsValid(w, w', ps);
        PutKeepsValid(w, w', acc + [ps[t]]);
        PutLowers(w, ps[t]);
        DecrementEffects(w', ps, t + 1, acc + [ps[t]]);
        LoweredChain(w, w', Decrement(w', ps, t + 1, acc + [ps[t]]).0);
      } else {
        DecrementEffects(w, ps, t + 1, acc);
      }
    }
  }

  lemma {:induction false} FillRowEffects(w: Grid, prev: seq<Pos>, i: nat, next: seq<Pos>, j: nat, k: nat, s: int)
    requires i < |w| && AllValid(w, prev) && AllValid(w, next) && j <= |w[i]| && k <= |prev|
    ensures Lowered(w, FillRow(w, prev, i, next, j, k, s).w)
    decreases |w[i]| - j
  {
    if j < |w[i]| && k < |prev| {
      var c := w[i][j];
      var o := At(w, prev[k]);
      if s + c.colspan < o.colspan {
        FillRowEffects(w, prev, i, next + [(i, j)], j + 1, k, s + c.colspan);
      } else if s + c.colspan == o.colspan {
        if o.rowspan > 1 {
          var w' := Put(w, prev[k], o.(rowspan := o.rowspan - 1));
          PutKeepsValid(w, w', prev);
          PutKeepsValid(w, w', next + [prev[k]] + [(i, j)]);
          PutLowers(w, prev[k]);
          FillRowEffects(w', prev, i, next + [prev[k]] + [(i, j)], j + 1, k + 1, 0);
          LoweredChain(w, w', FillRow(w', prev, i, next + [prev[k]] + [(i, j)], j + 1, k + 1, 0).w);
        } else {
          FillRowEffects(w, prev, i, next + [(i, j)], j + 1, k + 1, 0);
        }
      }
    }
  }

  lemma SweepRowEffects(w: Grid, prev: seq<Pos>, carried: seq<Pos>, i: nat)
    requires i < |w| && AllValid(w, prev) && AllValid(w, carried)
    ensures Lowered(w, SweepRow(w, prev, carried, i).w)
  {
    var l := Leading(w, carried, prev, 0);
    if l.Some? {
      var f := FillRow(w, prev, i, carried, 0, l.value, 0);
      FillRowEffects(w, prev, i, carried, 0, l.value, 0);
      if f.Reached? {
        DecrementEffects(f.w, f.next, 0, []);
        LoweredChain(w, f.w, Decrement(f.w, f.next, 0, []).0);
      }
    }
  }

  lemma {:induction false} SweepFromEffects(w: Grid, prev: seq<Pos>, carried: seq<Pos>, i: nat)
    requires 1 <= i <= |w| && AllValid(w, prev) && AllValid(w, carried)
    ensures Lowered(w, SweepFrom(w, prev, carried, i).w)
    decreases |w| - i
  {
    if i < |w| {
      SweepRowEffects(w, prev, carried, i);
      var row := SweepRow(w, prev, carried, i);
      if row.Next? {
        SweepFromEffects(row.w, row.prev, row.carried, i + 1);
        LoweredChain(w, row.w, SweepFrom(row.w, row.prev, row.carried, i + 1).w);
      }
    }
  }

  /** `_chek` lowers rowspans, none below 1, and changes nothing else in the records. */
  lemma SweepEffects(g: Grid)
    ensures Lowered(g, Sweep(g).w)
  {
    if |g| >= 2 {
      var ps := RowPositions(0, |g[0]|);
      var d := Decrement(g, ps, 0, []);
      DecrementEffects(g, ps, 0, []);
      PutKeepsValid(g, d.0, ps);
      SweepFromEffects(d.0, ps, d.1, 1);
      LoweredChain(g, d.0, SweepFrom(d.0, ps, d.1, 1).w);
    }
  }

  // ---------------------------------------------------------------------------
  // Tables of 1x1 cells
  // ---------------------------------------------------------------------------

  predicate OneByOne(g: Grid) {
    forall r, c :: 0 <= r < |g| && 0 <= c < |g[r]| ==> g[r][c].rowspan == 1 && g[r][c].colspan == 1
  }

  lemma {:induction false} UnitDecrement(g: Grid, ps: seq<Pos>, t: nat, acc: seq<Pos>)
    requires OneByOne(g) && AllValid(g, ps) && AllValid(g, acc) && t <= |ps|
    ensures Decrement(g, ps, t, acc) == (g, acc)
    decreases |ps| - t
  {
    if t < |ps| {
      UnitDecrement(g, ps, t + 1, acc);
    }
  }

  lemma {:induction false} UnitFillRow(g: Grid, i: nat, n: nat, j: nat)
    requires OneByOne(g) && 1 <= i < |g| && n == |g[i - 1]| && j <= n && j <= |g[i]|
    ensures FillRow(g, RowPositions(i - 1, n), i, RowPositions(i, j), j, j, 0) ==
      Reached(g, RowPositions(i, Min(|g[i]|, n)), Min(|g[i]|, n), Min(|g[i]|, n))
    decreases |g[i]| - j
  {
    if j < |g[i]| && j < n {
      assert RowPositions(i, j) + [(i, j)] == RowPositions(i, j + 1);
      UnitFillRow(g, i, n, j + 1);
    }
  }

  lemma {:induction false} UnitSweepFrom(g: Grid, i: nat, n: nat)
    requires OneByOne(g) && 1 <= i <= |g| && n == |g[i - 1]|
    ensures SweepFrom(g, RowPositions(i - 1, n), [], i) == Run(RowsFrom(g, i, n), g)
    decreases |g| - i
  {
    if i < |g| {
      var prev := RowPositions(i - 1, n);
      assert Leading(g, [], prev, 0) == Some(0);
      assert RowPositions(i, 0) == [];
      UnitFillRow(g, i, n, 0);
      if |g[i]| == n {
        UnitDecrement(g, RowPositions(i, n), 0, []);
        assert SweepRow(g, prev, [], i) == Next(g, RowPositions(i, n), []);
        UnitSweepFrom(g, i + 1, n);
      } else {
        assert SweepRow(g, prev, [], i).Reject?;
      }
    }
  }

  /** On 1x1 cells `_chek` accepts exactly the tables of two or more rows all as long as the first, and changes nothing. */
  lemma UnitSweep(g: Grid)
    requires OneByOne(g)
    ensures Sweep(g) == Run(|g| >= 2 && RowsFrom(g, 0, |g[0]|), g)
  {
    if |g| >= 2 {
      UnitDecrement(g, RowPositions(0, |g[0]|), 0, []);
      UnitSweepFrom(g, 1, |g[0]|);
    }
  }

  // ---------------------------------------------------------------------------
  // Two tables with a tall cell
  // ---------------------------------------------------------------------------

  /** A cell over two rows beside one of a single row, and the cell under the latter. */
  lemma StaircaseAccepted(a: Node, b: Node, c: Node)
    ensures Sweep([[Rec(a, 2, 1, false), Rec(b, 1, 1, false)], [Rec(c, 1, 1, false)]]).ok
  {
    var g := [[Rec(a, 2, 1, false), Rec(b, 1, 1, false)], [Rec(c, 1, 1, false)]];
    var ps := RowPositions(0, 2);
    var w := g[0 := g[0][0 := Rec(a, 1, 1, false)]];
    assert ps[0] == (0, 0) && ps[1] == (0, 1);
    assert Put(g, (0, 0), Rec(a, 1, 1, false)) == w;
    assert Decrement(w, ps, 2, [(0, 0)]) == (w, [(0, 0)]);
    assert Decrement(w, ps, 1, [(0, 0)]) == (w, [(0, 0)]);
    var none: seq<Pos> := [];
    assert none + [ps[0]] == [(0, 0)];
    assert Decrement(g, ps, 0, []) == (w, [(0, 0)]);
    assert Leading(w, [(0, 0)], ps, 0) == Some(1);
    assert FillRow(w, ps, 1, [(0, 0)], 0, 1, 0) == Reached(w, [(0, 0), (1, 0)], 1, 2);
    assert Decrement(w, [(0, 0), (1, 0)], 0, []) == (w, []);
    assert SweepRow(w, ps, [(0, 0)], 1) == Next(w, [(0, 0), (1, 0)], []);
    assert SweepFrom(w, [(0, 0), (1, 0)], [], 2).ok;
    assert SweepFrom(w, ps, [(0, 0)], 1).ok;
  }

  /** The same table with the tall cell over three rows: its rowspan runs past the last row. */
  lemma OverhangRejected(a: Node, b: Node, c: Node)
    ensures !Sweep([[Rec(a, 3, 1, false), Rec(b, 1, 1, false)], [Rec(c, 1, 1, false)]]).ok
  {
    var g := [[Rec(a, 3, 1, false), Rec(b, 1, 1, false)], [Rec(c, 1, 1, false)]];
    var ps := RowPositions(0, 2);
    var w := g[0 := g[0][0 := Rec(a, 2, 1, false)]];
    assert ps[0] == (0, 0) && ps[1] == (0, 1);
    assert Put(g, (0, 0), Rec(a, 2, 1, false)) == w;
    assert Decrement(w, ps, 2, [(0, 0)]) == (w, [(0, 0)]);
    assert Decrement(w, ps, 1, [(0, 0)]) == (w, [(0, 0)]);
    var none: seq<Pos> := [];
    assert none + [ps[0]] == [(0, 0)];
    assert Decrement(g, ps, 0, []) == (w, [(0, 0)]);
    assert Leading(w, [(0, 0)], ps, 0) == Some(1);
    assert FillRow(w, ps, 1, [(0, 0)], 0, 1, 0) == Reached(w, [(0, 0), (1, 0)], 1, 2);
    var w2 := w[0 := w[0][0 := Rec(a, 1, 1, false)]];
    assert Decrement(w, [(0, 0), (1, 0)], 0, []) == (w2, [(0, 0)]);
    assert SweepRow(w, ps, [(0, 0)], 1) == Next(w2, [(0, 0), (1, 0)], [(0, 0)]);
    assert !SweepFrom(w2, [(0, 0), (1, 0)], [(0, 0)], 2).ok;
    assert !SweepFrom(w, ps, [(0, 0)], 1).ok;
  }

  /** Two rows three columns wide: C (colspan 2) overshoots the slot of A (colspan 1). */
  lemma MisalignedRejected(a: Node, b: Node, c: Node, e: Node)
    ensures !Sweep([[Rec(a, 1, 1, false), Rec(b, 1, 2, false)], [Rec(c, 1, 2, false), Rec(e, 1, 1, false)]]).ok
  {
    var g := [[Rec(a, 1, 1, false), Rec(b, 1, 2, false)], [Rec(c, 1, 2, false), Rec(e, 1, 1, false)]];
    var ps := RowPositions(0, 2);
    assert ps[0] == (0, 0) && ps[1] == (0, 1);
    assert Decrement(g, ps, 1, []) == (g, []);
    assert Decrement(g, ps, 0, []) == (g, []);
    assert Leading(g, [], ps, 0) == Some(0);
    assert FillRow(g, ps, 1, [], 0, 0, 0) == Overshoot(g);
    assert SweepRow(g, ps, [], 1) == Reject(g);
  }
}
