/** Small sequence helpers shared by the table versions. */
module Grids {
  import opened Wrappers

  /** `[cell for cell in rows[i]]` as positions: (i, 0), ..., (i, n - 1). */
  function RowPositions(i: nat, n: nat): (ps: seq<Pos>)
    ensures |ps| == n && forall j :: 0 <= j < n ==> ps[j] == (i, j)
  {
    seq(n, j => (i, j))
  }

  /** `row[::-1]` */
  function Reverse<T>(s: seq<T>): (r: seq<T>)
    ensures |r| == |s| && forall j :: 0 <= j < |s| ==> r[j] == s[|s| - 1 - j]
  {
    seq(|s|, j requires 0 <= j < |s| => s[|s| - 1 - j])
  }

  /** Reversing twice gives the row back, and a reversed row holds the same elements. */
  lemma {:induction false} ReverseTwice<T>(s: seq<T>)
    ensures Reverse(Reverse(s)) == s && multiset(Reverse(s)) == multiset(s)
    decreases |s|
  {
    if s != [] {
      var n := |s|;
      ReverseTwice(s[..n - 1]);
      assert Reverse(s) == [s[n - 1]] + Reverse(s[..n - 1]);
      assert s == s[..n - 1] + [s[n - 1]];
    }
  }
}
