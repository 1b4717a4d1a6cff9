/** Properties of the version 2.3 classifier. */
module SpanTableV23Facts {
  import opened Wrappers
  import opened Markup
  import opened Grids
  import opened SpanRecords
  import opened SpanRecordsFacts
  import opened SpanTableV23

  /** `check` raises exactly when the table has no first cell and is not a top table. */
  lemma ClassifyFails(g: Grid)
    requires WellSpanned(g)
    ensures Classify(g).None? <==> (g == [] || g[0] == []) && !Vertical(g)
  {
    if g != [] && g[0] != [] {
      ChecksDefined(g);
    }
  }

  /** With a first cell, the three transposed checks all reach `vertical_check`. */
  lemma ChecksDefined(g: Grid)
    requires WellSpanned(g) && g != [] && g[0] != []
    ensures LeftCheck(g).Some? && RightCheck(g).Some? && BottomCheck(g).Some?
  {
    var t := Transpose(g).value;
    var f := Flip(t);
    assert f[0] != [];
    assert Transpose(f).Some?;
  }

  /** Mirroring two rows of one length keeps them agreeing column by column. */
  lemma TagsAgreeReversed(up: seq<Rec>, down: seq<Rec>, d: Dialect)
    requires |up| == |down|
    ensures TagsAgree(Reverse(up), Reverse(down), d) <==> TagsAgree(up, down, d)
  {
    var n := |up|;
    if TagsAgree(Reverse(up), Reverse(down), d) {
      forall q | 0 <= q < n ensures SameTags(up[q], down[q], d) {
        assert Reverse(up)[n - 1 - q] == up[q] && Reverse(down)[n - 1 - q] == down[q];
      }
    }
    if TagsAgree(up, down, d) {
      forall q | 0 <= q < n ensures SameTags(Reverse(up)[q], Reverse(down)[q], d) {
        assert Reverse(up)[q] == up[n - 1 - q];
      }
    }
  }

  /** On 1x1 records the sweep does not see a mirror image. */
  lemma UnitFlipVertical(t: Grid)
    requires UnitGrid(t)
    ensures Vertical(Flip(t)) == Vertical(t)
  {
    var f := Flip(t);
    assert UnitGrid(f);
    UnitCarry(t, SpanTransparent);
    UnitCarry(f, SpanTransparent);
    if |t| >= 2 && RowsFrom(t, 0, |t[0]|) {
      assert RowsFrom(f, 0, |f[0]|);
      forall r | 2 <= r < |t| ensures TagsAgree(f[r - 1], f[r], SpanTransparent) <==> TagsAgree(t[r - 1], t[r], SpanTransparent) {
        assert f[r - 1] == Reverse(t[r - 1]) && f[r] == Reverse(t[r]);
        TagsAgreeReversed(t[r - 1], t[r], SpanTransparent);
      }
      assert TagsFrom(f, 2, SpanTransparent) <==> TagsFrom(t, 2, SpanTransparent);
    } else if |t| >= 2 {
      var r :| 0 <= r < |t| && |t[r]| != |t[0]|;
      assert |f[r]| != |f[0]|;
    }
  }

  /** The transpose of a table of 1x1 records is again made of 1x1 records. */
  lemma UnitTranspose(g: Grid)
    requires WellSpanned(g) && UnitGrid(g) && Transpose(g).Some?
    ensures UnitGrid(Transpose(g).value)
  {
    TransposeCellsAreSwaps(g);
  }

  /**
   * In this version `is_right` reads the transpose mirrored, so on 1x1
   * records it answers exactly as `is_left` does.
   */
  lemma UnitRightIsLeft(g: Grid)
    requires WellSpanned(g) && UnitGrid(g)
    ensures RightCheck(g) == LeftCheck(g)
  {
    if Transpose(g).Some? {
      UnitTranspose(g);
      UnitFlipVertical(Transpose(g).value);
    }
  }

  /** Hence a table of 1x1 records is never labelled 'right' by `check`. */
  lemma UnitNeverRight(g: Grid)
    requires WellSpanned(g) && UnitGrid(g)
    ensures Classify(g) != Some(Right)
  {
    UnitRightIsLeft(g);
  }
}
