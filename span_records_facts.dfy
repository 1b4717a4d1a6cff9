/** Properties of the shared record sweep: its answer on tables of 1x1 cells. */
module SpanRecordsFacts {
  import opened Wrappers
  import opened Markup
  import opened Grids
  import opened SpanRecords

  /** A fresh 1x1 record, as the builders make it for a cell without span attributes. */
  predicate UnitRec(c: Rec) {
    c.rowspan == 1 && c.colspan == 1 && !c.nottitle
  }

  predicate UnitGrid(g: Grid) {
    forall i, j :: 0 <= i < |g| && 0 <= j < |g[i]| ==> UnitRec(g[i][j])
  }

  predicate SameTags(a: Rec, b: Rec, d: Dialect) {
    TagStructure(a.value, d) == TagStructure(b.value, d)
  }

  predicate RowsFrom(g: Grid, i: nat, n: nat) {
    forall r :: i <= r < |g| ==> |g[r]| == n
  }

  predicate TagsAgree(up: seq<Rec>, down: seq<Rec>, d: Dialect) {
    forall q :: 0 <= q < |down| && q < |up| ==> SameTags(up[q], down[q], d)
  }

  predicate TagsFrom(g: Grid, i: nat, d: Dialect) {
    forall r :: i <= r < |g| && 2 <= r ==> TagsAgree(g[r - 1], g[r], d)
  }

  /** The state of the records when the sweep of a 1x1 table reaches row i. */
  predicate Entering(g: Grid, w: Grid, i: nat, n: nat)
    requires 1 <= i <= |g|
  {
    SameShape(g, w) && |g[i - 1]| == n &&
    (forall r, q :: r + 1 == i && 0 <= q < n ==> w[r][q] == g[r][q].(nottitle := i >= 2)) &&
    (forall r, q :: i <= r < |g| && 0 <= q < |g[r]| ==> w[r][q] == g[r][q])
  }

  /** The hypotheses of `RowUnit`: the records when the cursors of row i are both at j. */
  predicate AtColumn(g: Grid, w: Grid, i: nat, n: nat, j: nat)
    requires UnitGrid(g) && 1 <= i < |g| && SameShape(g, w)
  {
    |g[i - 1]| == n && j <= n && j <= |g[i]| &&
    (forall r, q :: r + 1 == i && 0 <= q < n ==> w[r][q] == g[r][q].(nottitle := i >= 2)) &&
    (forall q :: 0 <= q < j ==> w[i][q] == g[i][q].(nottitle := true)) &&
    (forall q :: j <= q < |g[i]| ==> w[i][q] == g[i][q]) &&
    (forall r, q :: i < r < |g| && 0 <= q < |g[r]| ==> w[r][q] == g[r][q])
  }

  /** One exact fit: the cell under frontier slot j is marked and, from row 2 on, compared. */
  lemma StepUnit(g: Grid, w: Grid, i: nat, n: nat, j: nat, d: Dialect)
    requires UnitGrid(g) && 1 <= i < |g| && SameShape(g, w) && AtColumn(g, w, i, n, j)
    requires j < n && j < |g[i]|
    ensures AllValid(w, RowPositions(i - 1, n)) && AllValid(w, RowPositions(i, j))
    ensures var w' := Put(w, (i, j), w[i][j].(nottitle := true));
      SameShape(g, w') && AtColumn(g, w', i, n, j + 1) &&
      AllValid(w', RowPositions(i - 1, n)) && AllValid(w', RowPositions(i, j + 1)) &&
      var r := CarryRow(w, RowPositions(i - 1, n), i, RowPositions(i, j), j, j, 0, d);
      if i >= 2 && !SameTags(g[i - 1][j], g[i][j], d) then r.Stop?
      else r == CarryRow(w', RowPositions(i - 1, n), i, RowPositions(i, j + 1), j + 1, j + 1, 0, d)
  {
    var prev := RowPositions(i - 1, n);
    var w' := Put(w, (i, j), w[i][j].(nottitle := true));
    assert At(w, prev[j]) == w[i - 1][j];
    assert At(w', prev[j]) == w[i - 1][j];
    assert RowPositions(i, j) + [(i, j)] == RowPositions(i, j + 1);
  }

  lemma TagsAgreeCons(up: seq<Rec>, down: seq<Rec>, j: nat, d: Dialect)
    requires j < |up| && j < |down|
    ensures TagsAgree(up[j..], down[j..], d) <==> SameTags(up[j], down[j], d) && TagsAgree(up[j + 1..], down[j + 1..], d)
  {
    assert up[j..] == [up[j]] + up[j + 1..] && down[j..] == [down[j]] + down[j + 1..];
  }

  /** The end of the cursor loop: row i is used up or the frontier is. */
  lemma RowUnitEnd(g: Grid, w: Grid, i: nat, n: nat, j: nat, d: Dialect)
    requires UnitGrid(g) && 1 <= i < |g| && SameShape(g, w) && AtColumn(g, w, i, n, j) && (j == n || j == |g[i]|)
    ensures AllValid(w, RowPositions(i - 1, n)) && AllValid(w, RowPositions(i, j))
    ensures var res := CarryRow(w, RowPositions(i - 1, n), i, RowPositions(i, j), j, j, 0, d);
      (res.Go? <==> |g[i]| == n) &&
      (res.Go? ==> res.next == RowPositions(i, n) && Entering(g, res.w, i + 1, n))
  {
    var prev := RowPositions(i - 1, n);
    if j < n {
      assert At(w, prev[j]) == w[i - 1][j];
    }
  }

  /** The cursor loop on row i of a 1x1 table, from index j with the frontier being row i - 1. */
  lemma {:induction false} RowUnit(g: Grid, w: Grid, i: nat, n: nat, j: nat, d: Dialect)
    requires UnitGrid(g) && 1 <= i < |g| && SameShape(g, w) && AtColumn(g, w, i, n, j)
    ensures AllValid(w, RowPositions(i - 1, n)) && AllValid(w, RowPositions(i, j))
    ensures var res := CarryRow(w, RowPositions(i - 1, n), i, RowPositions(i, j), j, j, 0, d);
      (res.Go? <==> |g[i]| == n && (i >= 2 ==> TagsAgree(g[i - 1][j..], g[i][j..], d))) &&
      (res.Go? ==> res.next == RowPositions(i, n) && Entering(g, res.w, i + 1, n))
    decreases n - j
  {
    if j < n && j < |g[i]| {
      StepUnit(g, w, i, n, j, d);
      TagsAgreeCons(g[i - 1], g[i], j, d);
      if i < 2 || SameTags(g[i - 1][j], g[i][j], d) {
        RowUnit(g, Put(w, (i, j), w[i][j].(nottitle := true)), i, n, j + 1, d);
      }
    } else {
      RowUnitEnd(g, w, i, n, j, d);
    }
  }

  lemma {:induction false} CarryFromUnit(g: Grid, w: Grid, i: nat, n: nat, d: Dialect)
    requires UnitGrid(g) && 1 <= i <= |g| && Entering(g, w, i, n)
    ensures AllValid(w, RowPositions(i - 1, n))
    ensures CarryFrom(w, RowPositions(i - 1, n), i, d).ok <==> RowsFrom(g, i, n) && TagsFrom(g, i, d)
    decreases |g| - i
  {
    var prev := RowPositions(i - 1, n);
    if i < |g| {
      assert RowPositions(i, 0) == [];
      assert AtColumn(g, w, i, n, 0);
      RowUnit(g, w, i, n, 0, d);
      match CarryRow(w, prev, i, [], 0, 0, 0, d)
      case Stop(_) =>
      case Go(w2, next) =>
        CarryFromUnit(g, w2, i + 1, n, d);
    }
  }

  /**
   * On a table of 1x1 cells the sweep accepts exactly when there are at least
   * two rows, every row has as many cells as row 0, and from row 2 on each cell
   * has the skeleton of the cell above it.
   */
  lemma UnitCarry(g: Grid, d: Dialect)
    requires UnitGrid(g)
    ensures Carry(g, d).ok <==> |g| >= 2 && RowsFrom(g, 0, |g[0]|) && TagsFrom(g, 2, d)
  {
    if |g| >= 2 {
      CarryFromUnit(g, g, 1, |g[0]|, d);
    }
  }

  // ---------------------------------------------------------------------------
  // Frontier width
  // ---------------------------------------------------------------------------

  /** The summed colspans of the records at positions ps. */
  function FrontierWidth(w: Grid, ps: seq<Pos>): int
    requires AllValid(w, ps)
  {
    if ps == [] then 0 else FrontierWidth(w, ps[..|ps| - 1]) + At(w, ps[|ps| - 1]).colspan
  }

  lemma {:induction false} FrontierWidthFront(w: Grid, ps: seq<Pos>)
    requires AllValid(w, ps) && ps != []
    ensures FrontierWidth(w, ps) == At(w, ps[0]).colspan + FrontierWidth(w, ps[1..])
    decreases |ps|
  {
    if |ps| > 1 {
      FrontierWidthFront(w, ps[..|ps| - 1]);
      assert ps[..|ps| - 1][1..] == ps[1..][..|ps| - 2];
    }
  }

  lemma {:induction false} FrontierWidthFrozen(w: Grid, w': Grid, ps: seq<Pos>)
    requires Frozen(w, w') && AllValid(w, ps)
    ensures AllValid(w', ps) && FrontierWidth(w', ps) == FrontierWidth(w, ps)
    decreases |ps|
  {
    if ps != [] {
      FrontierWidthFrozen(w, w', ps[..|ps| - 1]);
    }
  }

  lemma {:induction false} RowFrontierWidth(w: Grid, r: nat, n: nat)
    requires r < |w| && n <= |w[r]|
    ensures AllValid(w, RowPositions(r, n)) && FrontierWidth(w, RowPositions(r, n)) == RowWidth(w[r][..n])
  {
    if n > 0 {
      RowFrontierWidth(w, r, n - 1);
      assert RowPositions(r, n)[..n - 1] == RowPositions(r, n - 1);
      assert w[r][..n][..n - 1] == w[r][..n - 1];
    }
  }

  /**
   * A row the carry loop accepts keeps the frontier width: the colspans of the
   * next frontier add up to those of the current one. From a cursor state, what
   * is still to come is the rest of the frontier minus the part `s` of slot k
   * already filled.
   */
  lemma {:induction false} CarryRowWidth(w: Grid, prev: seq<Pos>, i: nat, next: seq<Pos>, j: nat, k: nat, s: int, d: Dialect)
    requires i < |w| && AllValid(w, prev) && AllValid(w, next) && j <= |w[i]| && k <= |prev|
    requires s == 0 || (k < |prev| && At(w, prev[k]).rowspan <= 1)
    ensures var r := CarryRow(w, prev, i, next, j, k, s, d);
      r.Go? ==> FrontierWidth(r.w, r.next) == FrontierWidth(w, next) + FrontierWidth(w, prev[k..]) - s
    decreases |prev| - k + |w[i]| - j
  {
    if k < |prev| && CarryRow(w, prev, i, next, j, k, s, d).Go? {
      var w', next', j', k', s' := CarryStepCase(w, prev, i, next, j, k, s, d);
      CarryRowWidth(w', prev, i, next', j', k', s', d);
    }
  }

  /** One step of the cursor loop of an accepted row, with the width still to come unchanged. */
  lemma CarryStepCase(w: Grid, prev: seq<Pos>, i: nat, next: seq<Pos>, j: nat, k: nat, s: int, d: Dialect)
    returns (w': Grid, next': seq<Pos>, j': nat, k': nat, s': int)
    requires i < |w| && AllValid(w, prev) && AllValid(w, next) && j <= |w[i]| && k < |prev|
    requires s == 0 || At(w, prev[k]).rowspan <= 1
    requires CarryRow(w, prev, i, next, j, k, s, d).Go?
    ensures i < |w'| && |w'[i]| == |w[i]| && AllValid(w', prev) && AllValid(w', next') && j' <= |w'[i]| && k' <= |prev|
    ensures s' == 0 || (k' < |prev| && At(w', prev[k']).rowspan <= 1)
    ensures |prev| - k' + |w[i]| - j' < |prev| - k + |w[i]| - j
    ensures CarryRow(w', prev, i, next', j', k', s', d) == CarryRow(w, prev, i, next, j, k, s, d)
    ensures FrontierWidth(w', next') + FrontierWidth(w', prev[k'..]) - s' ==
      FrontierWidth(w, next) + FrontierWidth(w, prev[k..]) - s
  {
    if At(w, prev[k]).rowspan > 1 {
      FrontierWidthFront(w, prev[k..]);
      assert prev[k..][1..] == prev[k + 1..];
      w' := CarryStepCarried(w, prev, next, k);
      next', j', k', s' := next + [prev[k]], j, k + 1, s;
    } else {
      w', next', j', k', s' := CarryStepFit(w, prev, i, next, j, k, s, d);
    }
  }

  /** The step of `CarryStepCase` when frontier record k is no longer carried. */
  lemma CarryStepFit(w: Grid, prev: seq<Pos>, i: nat, next: seq<Pos>, j: nat, k: nat, s: int, d: Dialect)
    returns (w': Grid, next': seq<Pos>, j': nat, k': nat, s': int)
    requires i < |w| && AllValid(w, prev) && AllValid(w, next) && j <= |w[i]| && k < |prev|
    requires At(w, prev[k]).rowspan <= 1
    requires CarryRow(w, prev, i, next, j, k, s, d).Go?
    ensures i < |w'| && |w'[i]| == |w[i]| && AllValid(w', prev) && AllValid(w', next') && j' <= |w'[i]| && k' <= |prev|
    ensures s' == 0 || (k' < |prev| && At(w', prev[k']).rowspan <= 1)
    ensures |prev| - k' + |w[i]| - j' < |prev| - k + |w[i]| - j
    ensures CarryRow(w', prev, i, next', j', k', s', d) == CarryRow(w, prev, i, next, j, k, s, d)
    ensures FrontierWidth(w', next') + FrontierWidth(w', prev[k'..]) - s' ==
      FrontierWidth(w, next) + FrontierWidth(w, prev[k..]) - s
  {
    FrontierWidthFront(w, prev[k..]);
    assert prev[k..][1..] == prev[k + 1..];
    assert (next + [(i, j)])[..|next|] == next;
    w' := CarryStepCell(w, prev, i, next, j, k, s, d);
    next', j' := next + [(i, j)], j + 1;
    if s + w[i][j].colspan < At(w, prev[k]).colspan {
      k', s' := k, s + w[i][j].colspan;
    } else {
      k', s' := k + 1, 0;
    }
  }

  /** The step that carries frontier record k one row lower. */
  lemma CarryStepCarried(w: Grid, prev: seq<Pos>, next: seq<Pos>, k: nat) returns (w': Grid)
    requires AllValid(w, prev) && AllValid(w, next) && k < |prev|
    ensures w' == Put(w, prev[k], At(w, prev[k]).(rowspan := At(w, prev[k]).rowspan - 1))
    ensures Frozen(w, w') && AllValid(w', prev) && AllValid(w', next + [prev[k]])
    ensures FrontierWidth(w', next + [prev[k]]) == FrontierWidth(w, next) + At(w, prev[k]).colspan
    ensures FrontierWidth(w', prev[k + 1..]) == FrontierWidth(w, prev[k + 1..])
  {
    var o := At(w, prev[k]);
    w' := Put(w, prev[k], o.(rowspan := o.rowspan - 1));
    assert Frozen(w, w');
    assert (next + [prev[k]])[..|next|] == next;
    FrontierWidthFrozen(w, w', next + [prev[k]]);
    FrontierWidthFrozen(w, w', prev[k + 1..]);
  }

  /** The step that reads cell j of row i under frontier record k, no longer carried. */
  lemma CarryStepCell(w: Grid, prev: seq<Pos>, i: nat, next: seq<Pos>, j: nat, k: nat, s: int, d: Dialect) returns (w': Grid)
    requires i < |w| && AllValid(w, prev) && AllValid(w, next) && j <= |w[i]| && k < |prev|
    requires At(w, prev[k]).rowspan <= 1
    requires CarryRow(w, prev, i, next, j, k, s, d).Go?
    ensures j < |w[i]| && SameShape(w, w') && AllValid(w', prev) && AllValid(w', next + [(i, j)])
    ensures var n := w[i][j]; var o := At(w, prev[k]);
      if s + n.colspan < o.colspan then
        w' == w && CarryRow(w, prev, i, next + [(i, j)], j + 1, k, s + n.colspan, d) == CarryRow(w, prev, i, next, j, k, s, d)
      else
        s + n.colspan == o.colspan &&
        CarryRow(w', prev, i, next + [(i, j)], j + 1, k + 1, 0, d) == CarryRow(w, prev, i, next, j, k, s, d)
    ensures FrontierWidth(w', next + [(i, j)]) == FrontierWidth(w, next + [(i, j)])
    ensures FrontierWidth(w', prev[k + 1..]) == FrontierWidth(w, prev[k + 1..])
  {
    var n := w[i][j];
    var o := At(w, prev[k]);
    if s + n.colspan < o.colspan || s != 0 {
      w' := w;
    } else {
      w' := Put(w, (i, j), n.(nottitle := true));
      assert Frozen(w, w');
      FrontierWidthFrozen(w, w', next + [(i, j)]);
      FrontierWidthFrozen(w, w', prev[k + 1..]);
    }
  }

  /**
   * The frontiers the carry sweep passes through from row i on: the current
   * one, then the one each accepted row leaves for the next.
   */
  function CarryFrontiers(w: Grid, prev: seq<Pos>, i: nat, d: Dialect): (fs: seq<seq<Pos>>)
    requires 1 <= i <= |w| && AllValid(w, prev)
    ensures fs != [] && fs[0] == prev
    decreases |w| - i
  {
    if i == |w| then [prev]
    else
      match CarryRow(w, prev, i, [], 0, 0, 0, d)
      case Stop(_) => [prev]
      case Go(w', next) => [prev] + CarryFrontiers(w', next, i + 1, d)
  }

  /** Every frontier in fs lies in g and has width `width`. */
  predicate AllWidth(g: Grid, fs: seq<seq<Pos>>, width: int) {
    forall t :: 0 <= t < |fs| ==> AllValid(g, fs[t]) && FrontierWidth(g, fs[t]) == width
  }

  lemma AllWidthCons(g: Grid, p: seq<Pos>, fs: seq<seq<Pos>>, width: int)
    requires AllValid(g, p) && FrontierWidth(g, p) == width && AllWidth(g, fs, width)
    ensures AllWidth(g, [p] + fs, width)
  {
    forall t | 1 <= t < |[p] + fs|
      ensures AllValid(g, ([p] + fs)[t]) && FrontierWidth(g, ([p] + fs)[t]) == width
    {
      assert ([p] + fs)[t] == fs[t - 1];
    }
  }

  /** One accepted row of `CarryFromKeepsWidth`: the next frontier has the width of the current one. */
  lemma CarryWidthStep(g: Grid, w: Grid, prev: seq<Pos>, i: nat, d: Dialect) returns (w2: Grid, next: seq<Pos>)
    requires 1 <= i < |w| && Frozen(g, w) && AllValid(w, prev)
    requires CarryRow(w, prev, i, [], 0, 0, 0, d).Go?
    ensures |w2| == |w| && Frozen(g, w2) && AllValid(w2, next) && AllValid(g, prev) && AllValid(g, next)
    ensures CarryFrontiers(w, prev, i, d) == [prev] + CarryFrontiers(w2, next, i + 1, d)
    ensures FrontierWidth(g, next) == FrontierWidth(g, prev)
  {
    w2, next := CarryRow(w, prev, i, [], 0, 0, 0, d).w, CarryRow(w, prev, i, [], 0, 0, 0, d).next;
    CarryRowEffects(w, prev, i, [], 0, 0, 0, d);
    assert Frozen(g, w2);
    assert prev[0..] == prev;
    CarryRowWidth(w, prev, i, [], 0, 0, 0, d);
    FrontierWidthFrozen(g, w, prev);
    assert AllValid(g, next);
    FrontierWidthFrozen(g, w2, next);
  }

  /**
   * From row i on, every frontier the carry sweep passes, up to where it stops
   * or ends, has the width of the current one (colspans read in g, which the
   * sweep never changes).
   */
  lemma {:induction false} CarryFromKeepsWidth(g: Grid, w: Grid, prev: seq<Pos>, i: nat, d: Dialect)
    requires 1 <= i <= |w| && Frozen(g, w) && AllValid(w, prev)
    ensures AllValid(g, prev) && AllWidth(g, CarryFrontiers(w, prev, i, d), FrontierWidth(g, prev))
    decreases |w| - i
  {
    assert AllValid(g, prev);
    if i < |w| && CarryRow(w, prev, i, [], 0, 0, 0, d).Go? {
      var w2, next := CarryWidthStep(g, w, prev, i, d);
      CarryFromKeepsWidth(g, w2, next, i + 1, d);
      AllWidthCons(g, prev, CarryFrontiers(w2, next, i + 1, d), FrontierWidth(g, prev));
    } else {
      assert CarryFrontiers(w, prev, i, d) == [prev];
      assert AllWidth(g, [prev], FrontierWidth(g, prev));
    }
  }

  /** An accepting carry sweep from row i passes one frontier per remaining row. */
  lemma {:induction false} CarryFrontiersLength(w: Grid, prev: seq<Pos>, i: nat, d: Dialect)
    requires 1 <= i <= |w| && AllValid(w, prev)
    ensures CarryFrom(w, prev, i, d).ok ==> |CarryFrontiers(w, prev, i, d)| == |w| - i + 1
    decreases |w| - i
  {
    if i < |w| {
      match CarryRow(w, prev, i, [], 0, 0, 0, d)
      case Stop(_) =>
      case Go(w2, next) => CarryFrontiersLength(w2, next, i + 1, d);
    }
  }

  /**
   * Row spans included, every frontier of a table the shared sweep accepts, from
   * the first row's down to the one its end test reads, has the width of the
   * first row: each accepted row fills the cells it closes exactly and carries
   * the others.
   */
  lemma CarryKeepsWidth(g: Grid, d: Dialect)
    ensures Carry(g, d).ok ==>
      AllValid(g, RowPositions(0, |g[0]|)) &&
      var fs := CarryFrontiers(g, RowPositions(0, |g[0]|), 1, d);
      |fs| == |g| && forall t :: 0 <= t < |fs| ==> AllValid(g, fs[t]) && FrontierWidth(g, fs[t]) == RowWidth(g[0])
  {
    if Carry(g, d).ok {
      RowFrontierWidth(g, 0, |g[0]|);
      assert g[0][..|g[0]|] == g[0];
      CarryFromKeepsWidth(g, g, RowPositions(0, |g[0]|), 1, d);
      CarryFrontiersLength(g, RowPositions(0, |g[0]|), 1, d);
      assert AllWidth(g, CarryFrontiers(g, RowPositions(0, |g[0]|), 1, d), RowWidth(g[0]));
    }
  }

  // ---------------------------------------------------------------------------
  // A record over two rows, and over three
  // ---------------------------------------------------------------------------

  /** A record over two rows beside one of a single row, and the record under the latter: accepted, with rows of widths 2 and 1. */
  lemma CarryStaircase(a: Node, b: Node, c: Node, d: Dialect)
    ensures Carry([[Rec(a, 2, 1, false), Rec(b, 1, 1, false)], [Rec(c, 1, 1, false)]], d).ok
  {
    var g := [[Rec(a, 2, 1, false), Rec(b, 1, 1, false)], [Rec(c, 1, 1, false)]];
    var ps := RowPositions(0, 2);
    var w2 := CarryStaircaseRow(a, b, c, 2, d);
    var last := [(0, 0), (1, 0)];
    assert AllOne(w2, last);
    assert CarryFrom(w2, last, 2, d).ok;
    assert CarryFrom(g, ps, 1, d).ok;
  }

  /** The same table with the tall record over three rows: its rowspan runs past the last row and the end test refuses it. */
  lemma CarryOverhang(a: Node, b: Node, c: Node, d: Dialect)
    ensures !Carry([[Rec(a, 3, 1, false), Rec(b, 1, 1, false)], [Rec(c, 1, 1, false)]], d).ok
  {
    var g := [[Rec(a, 3, 1, false), Rec(b, 1, 1, false)], [Rec(c, 1, 1, false)]];
    var ps := RowPositions(0, 2);
    var w2 := CarryStaircaseRow(a, b, c, 3, d);
    var last := [(0, 0), (1, 0)];
    assert !AllOne(w2, last) by {
      assert At(w2, last[0]).rowspan == 2;
    }
    assert !CarryFrom(w2, last, 2, d).ok;
    assert !CarryFrom(g, ps, 1, d).ok;
  }

  /** The one row pass of the two tables above: the tall record is carried, one row lower. */
  lemma CarryStaircaseRow(a: Node, b: Node, c: Node, h: int, d: Dialect) returns (w2: Grid)
    requires h >= 2
    ensures var g := [[Rec(a, h, 1, false), Rec(b, 1, 1, false)], [Rec(c, 1, 1, false)]];
      CarryRow(g, RowPositions(0, 2), 1, [], 0, 0, 0, d) == Go(w2, [(0, 0), (1, 0)]) &&
      |w2| == 2 && ValidPos(w2, (0, 0)) && ValidPos(w2, (1, 0)) &&
      At(w2, (0, 0)).rowspan == h - 1 && At(w2, (1, 0)).rowspan == 1
  {
    var g := [[Rec(a, h, 1, false), Rec(b, 1, 1, false)], [Rec(c, 1, 1, false)]];
    var ps := RowPositions(0, 2);
    assert ps == [(0, 0), (0, 1)];
    var w1 := Put(g, (0, 0), Rec(a, h - 1, 1, false));
    assert At(w1, (0, 1)) == Rec(b, 1, 1, false) && At(w1, (1, 0)) == Rec(c, 1, 1, false) && |w1[1]| == 1;
    w2 := Put(w1, (1, 0), Rec(c, 1, 1, true));
    assert At(w2, (0, 0)) == Rec(a, h - 1, 1, false) && At(w2, (0, 1)) == Rec(b, 1, 1, false);
    assert [(0, 0)] + [(1, 0)] == [(0, 0), (1, 0)];
    assert CarryRow(w1, ps, 1, [(0, 0)], 0, 1, 0, d) == Go(w2, [(0, 0), (1, 0)]);
    assert [] + [ps[0]] == [(0, 0)];
  }

  /**
   * Two rows three columns wide whose column boundaries do not line up: C
   * (colspan 2) overshoots the slot of A (colspan 1), in either dialect.
   */
  lemma CarryMisaligned(a: Node, b: Node, c: Node, e: Node, d: Dialect)
    ensures !Carry([[Rec(a, 1, 1, false), Rec(b, 1, 2, false)], [Rec(c, 1, 2, false), Rec(e, 1, 1, false)]], d).ok
  {
    var g := [[Rec(a, 1, 1, false), Rec(b, 1, 2, false)], [Rec(c, 1, 2, false), Rec(e, 1, 1, false)]];
    var ps := RowPositions(0, 2);
    assert ps[0] == (0, 0);
    assert CarryRow(g, ps, 1, [], 0, 0, 0, d).Stop?;
    assert !CarryFrom(g, ps, 1, d).ok;
  }
}
