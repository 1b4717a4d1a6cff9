/**
 * Version 1.4 (betta/convert_html_to_excel_v_1.4.py): the older sweep `_chek`.
 * Each row is read in two cursor loops: the records still spanning from above
 * (the list `new`) must have the colspans of the leading frontier records one
 * for one, and then the cells of the row must fill the remaining frontier
 * slots exactly. After each row every frontier record whose rowspan is above 1
 * is decremented in place and carried again; the table passes when nothing is
 * carried after the last row. No skeletons are compared.
 *
 * The records of this version hold `cell`, `rowspan` and `colspan`; they are
 * modelled by the shared record type, whose `nottitle` field this sweep never
 * reads or writes. As in the other in-place sweeps, records are values in a
 * grid and the lists `old` and `new` hold positions into it, so a record that
 * appears twice in `old` is decremented twice.
 */
module SweepV14 {
  import opened Wrappers
  import opened Markup
  import opened Grids
  import opened SpanRecords

  // ---------------------------------------------------------------------------
  // The sweep as functions
  // ---------------------------------------------------------------------------

  /**
   * `for cell in old: if cell["rowspan"] > 1: cell["rowspan"] -= 1; new += [cell]`
   * from entry t of `ps` on, with `acc` the list built so far.
   */
  function Decrement(w: Grid, ps: seq<Pos>, t: nat, acc: seq<Pos>): (r: (Grid, seq<Pos>))
    requires AllValid(w, ps) && AllValid(w, acc) && t <= |ps|
    ensures SameShape(w, r.0) && AllValid(r.0, r.1)
    decreases |ps| - t
  {
    if t == |ps| then (w, acc)
    else
      var c := At(w, ps[t]);
      if c.rowspan > 1 then
        var w' := Put(w, ps[t], c.(rowspan := c.rowspan - 1));
        PutKeepsValid(w, w', ps);
        PutKeepsValid(w, w', acc + [ps[t]]);
        Decrement(w', ps, t + 1, acc + [ps[t]])
      else
        Decrement(w, ps, t + 1, acc)
  }

  /**
   * The first `while` of a row: `j` and `k` advance together over `new` and
   * `old`, so one index `t` stands for both. The result is the common value
   * they stop at, or None when `_chek` returns False.
   */
  function Leading(w: Grid, carried: seq<Pos>, prev: seq<Pos>, t: nat): (r: Option<nat>)
    requires AllValid(w, carried) && AllValid(w, prev) && t <= |carried| && t <= |prev|
    ensures r.Some? <==>
      forall u :: t <= u < |carried| && u < |prev| ==> At(w, carried[u]).colspan == At(w, prev[u]).colspan
    ensures r.Some? ==> r.value == if |carried| < |prev| then |carried| else |prev|
    decreases |prev| - t
  {
    if t < |carried| && t < |prev| then
      if At(w, carried[t]).colspan == At(w, prev[t]).colspan then Leading(w, carried, prev, t + 1) else None
    else Some(t)
  }

  /** Where the second `while` of a row ends: an overshooting cell, or the cursors with the list `new`. */
  datatype Fit = Overshoot(w: Grid) | Reached(w: Grid, next: seq<Pos>, j: nat, k: nat)

  /** The second `while` of row i, from cursor state (j, k, s), `next` being the list `new`. */
  function FillRow(w: Grid, prev: seq<Pos>, i: nat, next: seq<Pos>, j: nat, k: nat, s: int): (r: Fit)
    requires i < |w| && AllValid(w, prev) && AllValid(w, next) && j <= |w[i]| && k <= |prev|
    ensures SameShape(w, r.w)
    ensures r.Reached? ==> AllValid(r.w, r.next) && j <= r.j <= |w[i]| && k <= r.k <= |prev|
    ensures r.Reached? ==> r.j == |w[i]| || r.k == |prev|
    decreases |w[i]| - j
  {
    if j < |w[i]| && k < |prev| then
      var c := w[i][j];
      var o := At(w, prev[k]);
      if s + c.colspan < o.colspan then
        FillRow(w, prev, i, next + [(i, j)], j + 1, k, s + c.colspan)
      else if s + c.colspan == o.colspan then
        if o.rowspan > 1 then
          var w' := Put(w, prev[k], o.(rowspan := o.rowspan - 1));
          PutKeepsValid(w, w', prev);
          PutKeepsValid(w, w', next + [prev[k]] + [(i, j)]);
          FillRow(w', prev, i, next + [prev[k]] + [(i, j)], j + 1, k + 1, 0)
        else
          FillRow(w, prev, i, next + [(i, j)], j + 1, k + 1, 0)
      else Overshoot(w)
    else Reached(w, next, j, k)
  }

  /** The outcome of one row: `_chek` returns False, or the next `old` and `new`. */
  datatype RowResult = Reject(w: Grid) | Next(w: Grid, prev: seq<Pos>, carried: seq<Pos>)

  /** Row i: both loops, the test that both cursors reached their ends, and the decrement of the new frontier. */
  function SweepRow(w: Grid, prev: seq<Pos>, carried: seq<Pos>, i: nat): (r: RowResult)
    requires i < |w| && AllValid(w, prev) && AllValid(w, carried)
    ensures SameShape(w, r.w)
    ensures r.Next? ==> AllValid(r.w, r.prev) && AllValid(r.w, r.carried)
  {
    match Leading(w, carried, prev, 0)
    case None => Reject(w)
    case Some(k) =>
      match FillRow(w, prev, i, carried, 0, k, 0)
      case Overshoot(w1) => Reject(w1)
      case Reached(w1, next, j, k1) =>
        if j >= |w[i]| && k1 >= |prev| then
          var (w2, carried2) := Decrement(w1, next, 0, []);
          PutKeepsValid(w1, w2, next);
          Next(w2, next, carried2)
        else Reject(w1)
  }

  /** The loop over rows i, i + 1, ... and the final `len(new) != 0` test. */
  function SweepFrom(w: Grid, prev: seq<Pos>, carried: seq<Pos>, i: nat): (r: Run)
    requires 1 <= i <= |w| && AllValid(w, prev) && AllValid(w, carried)
    ensures SameShape(w, r.w)
    decreases |w| - i
  {
    if i == |w| then Run(carried == [], w)
    else
      match SweepRow(w, prev, carried, i)
      case Reject(w') => Run(false, w')
      case Next(w', next, carried') => SweepFrom(w', next, carried', i + 1)
  }

  /** `_chek`: what it returns, and the records as it leaves them. */
  function Sweep(g: Grid): (r: Run)
    ensures r.ok ==> |g| >= 2
    ensures SameShape(g, r.w)
  {
    if |g| < 2 then Run(false, g)
    else
      var ps := RowPositions(0, |g[0]|);
      var (w, carried) := Decrement(g, ps, 0, []);
      PutKeepsValid(g, w, ps);
      SweepFrom(w, ps, carried, 1)
  }

  /** `chek`: the sweep of the freshly built records; None when building raises. */
  function ChekOf(rows: seq<RawRow>): (r: Option<bool>)
    ensures r.None? <==> Build(rows, false).None?
    ensures r == Some(true) ==> |Build(rows, false).value| >= 2
  {
    match Build(rows, false)
    case None => None
    case Some(g) => Some(Sweep(g).ok)
  }

  // ---------------------------------------------------------------------------
  // The loops of the source, proved against the functions
  // ---------------------------------------------------------------------------

  method DecrementLoop(w0: Grid, ps: seq<Pos>) returns (w: Grid, carried: seq<Pos>)
    requires AllValid(w0, ps)
    ensures (w, carried) == Decrement(w0, ps, 0, [])
  {
    w, carried := w0, [];
    var t := 0;
    while t < |ps|
      invariant t <= |ps| && AllValid(w, ps) && AllValid(w, carried)
      invariant Decrement(w, ps, t, carried) == Decrement(w0, ps, 0, [])
    {
      var c := At(w, ps[t]);
      if c.rowspan > 1 {
        var w' := Put(w, ps[t], c.(rowspan := c.rowspan - 1));
        PutKeepsValid(w, w', ps);
        PutKeepsValid(w, w', carried + [ps[t]]);
        w, carried := w', carried + [ps[t]];
      }
      t := t + 1;
    }
  }

  method LeadingLoop(w: Grid, carried: seq<Pos>, prev: seq<Pos>) returns (ok: bool, k: nat)
    requires AllValid(w, carried) && AllValid(w, prev)
    ensures ok <==> Leading(w, carried, prev, 0).Some?
    ensures ok ==> k == Leading(w, carried, prev, 0).value
  {
    var j := 0;
    k := 0;
    while j < |carried| && k < |prev|
      invariant j == k && j <= |carried| && k <= |prev|
      invariant Leading(w, carried, prev, j) == Leading(w, carried, prev, 0)
    {
      if At(w, carried[j]).colspan == At(w, prev[k]).colspan {
        k := k + 1;
        j := j + 1;
      } else {
        return false, k;
      }
    }
    ok := true;
  }

  method FillRowLoop(w0: Grid, prev: seq<Pos>, i: nat, carried: seq<Pos>, k0: nat) returns (r: Fit)
    requires i < |w0| && AllValid(w0, prev) && AllValid(w0, carried) && k0 <= |prev|
    ensures r == FillRow(w0, prev, i, carried, 0, k0, 0)
  {
    var w, next := w0, carried;
    var j: nat, k: nat, s: int := 0, k0, 0;
    while j < |w[i]| && k < |prev|
      invariant SameShape(w0, w) && AllValid(w, prev) && AllValid(w, next)
      invariant j <= |w[i]| && k <= |prev|
      invariant FillRow(w, prev, i, next, j, k, s) == FillRow(w0, prev, i, carried, 0, k0, 0)
      decreases |w[i]| - j
    {
      var c := w[i][j];
      var o := At(w, prev[k]);
      if s + c.colspan < o.colspan {
        s := s + c.colspan;
        next := next + [(i, j)];
        j := j + 1;
      } else if s + c.colspan == o.colspan {
        s := 0;
        if o.rowspan > 1 {
          var w' := Put(w, prev[k], o.(rowspan := o.rowspan - 1));
          PutKeepsValid(w, w', prev);
          PutKeepsValid(w, w', next + [prev[k]]);
          w, next := w', next + [prev[k]];
        }
        next := next + [(i, j)];
        j := j + 1;
        k := k + 1;
      } else {
        return Overshoot(w);
      }
    }
    return Reached(w, next, j, k);
  }

  method SweepRowLoop(w: Grid, prev: seq<Pos>, carried: seq<Pos>, i: nat) returns (r: RowResult)
    requires i < |w| && AllValid(w, prev) && AllValid(w, carried)
    ensures r == SweepRow(w, prev, carried, i)
  {
    var ok, k := LeadingLoop(w, carried, prev);
    if !ok {
      return Reject(w);
    }
    var fit := FillRowLoop(w, prev, i, carried, k);
    if fit.Overshoot? {
      return Reject(fit.w);
    }
    if !(fit.j >= |w[i]| && fit.k >= |prev|) {
      return Reject(fit.w);
    }
    var w2, carried2 := DecrementLoop(fit.w, fit.next);
    PutKeepsValid(fit.w, w2, fit.next);
    return Next(w2, fit.next, carried2);
  }

  /** The whole of `_chek` on the records `g`. */
  method SweepLoop(g: Grid) returns (ok: bool, w: Grid)
    ensures Run(ok, w) == Sweep(g)
  {
    if |g| < 2 {
      return false, g;
    }
    var prev := RowPositions(0, |g[0]|);
    var carried;
    w, carried := DecrementLoop(g, prev);
    PutKeepsValid(g, w, prev);
    var i := 1;
    while i < |w|
      invariant 1 <= i <= |w| && AllValid(w, prev) && AllValid(w, carried)
      invariant SweepFrom(w, prev, carried, i) == Sweep(g)
    {
      var row := SweepRowLoop(w, prev, carried, i);
      if row.Reject? {
        return false, row.w;
      }
      w, prev, carried := row.w, row.prev, row.carried;
      i := i + 1;
    }
    ok := |carried| == 0;
  }

  /** `_chek` updates the records of the table it is given. */
  method ChekInPlace(t: Table) returns (ok: bool)
    modifies t
    ensures Run(ok, t.rows) == Sweep(old(t.rows))
  {
    var w;
    ok, w := SweepLoop(t.rows);
    t.rows := w;
  }

  method Chek(rows: seq<RawRow>) returns (r: Option<bool>)
    ensures r == ChekOf(rows)
  {
    var built := BuildLoop(rows, false);
    if built.None? {
      return None;
    }
    var table := new Table(built.value);
    var ok := ChekInPlace(table);
    return Some(ok);
  }
}
