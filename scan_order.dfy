/** Row-major order: the rows of a grid laid end to end, the order in which
    the nested `for row` / `for col` loops visit the cells. */
module ScanOrder {
  import opened Arith

  function Flatten<T>(g: seq<seq<T>>): seq<T>
    decreases |g|
  {
    if g == [] then [] else Flatten(g[..|g| - 1]) + g[|g| - 1]
  }

  lemma {:induction false} FlattenConcat<T>(a: seq<seq<T>>, b: seq<seq<T>>)
    ensures Flatten(a + b) == Flatten(a) + Flatten(b)
    decreases |b|
  {
    if b == [] {
      assert a + b == a;
    } else {
      var init := b[..|b| - 1];
      assert (a + b)[..|a + b| - 1] == a + init;
      assert (a + b)[|a + b| - 1] == b[|b| - 1];
      FlattenConcat(a, init);
    }
  }

  lemma {:induction false} FlattenLength<T>(g: seq<seq<T>>, w: int)
    requires forall r :: 0 <= r < |g| ==> |g[r]| == w
    ensures |Flatten(g)| == |g| * w
    decreases |g|
  {
    if g != [] {
      var init := g[..|g| - 1];
      assert forall r :: 0 <= r < |init| ==> |init[r]| == w;
      FlattenLength(init, w);
      assert |Flatten(g)| == |init| * w + w;
      MulSucc(|init|, w);
    }
  }

  /** In rows of width `w`, position `row * w + col` of the scan order is
      cell (row, col). */
  lemma FlattenAt<T>(g: seq<seq<T>>, w: int, row: int, col: int)
    requires forall r :: 0 <= r < |g| ==> |g[r]| == w
    requires 0 <= row < |g| && 0 <= col < w
    ensures |Flatten(g)| == |g| * w
    ensures row * w + col < |g| * w
    ensures Flatten(g)[row * w + col] == g[row][col]
  {
    FlattenLength(g, w);
    RowMajorBound(row, |g|, w, col);
    FlattenLength(g[..row], w);
    FlattenSplit(g, row);
  }

  /** The scan is the rows before `row`, then row `row`, then the rest. */
  lemma FlattenSplit<T>(g: seq<seq<T>>, row: int)
    requires 0 <= row < |g|
    ensures Flatten(g) == Flatten(g[..row]) + (g[row] + Flatten(g[row + 1..]))
  {
    var before, single, rest := g[..row], [g[row]], g[row + 1..];
    SplitAt(g, row);
    FlattenConcat(before, single + rest);
    FlattenConcat(single, rest);
    FlattenSingle(g[row]);
  }

  lemma FlattenSingle<T>(x: seq<T>)
    ensures Flatten([x]) == x
  {
    assert [x][..0] == [];
  }

  lemma SplitAt<T>(g: seq<T>, i: int)
    requires 0 <= i < |g|
    ensures g == g[..i] + ([g[i]] + g[i + 1..])
  {
    var h := g[..i] + ([g[i]] + g[i + 1..]);
    assert |h| == |g|;
    forall k | 0 <= k < |g|
      ensures h[k] == g[k]
    {
      if k > i {
        assert h[k] == g[i + 1..][k - i - 1];
      }
    }
  }

  /** The scan visits exactly the values of the cells. */
  lemma {:induction false} FlattenMembers<T>(g: seq<seq<T>>, x: T)
    ensures x in Flatten(g) <==> exists row, col :: 0 <= row < |g| && 0 <= col < |g[row]| && g[row][col] == x
    decreases |g|
  {
    if g != [] {
      var init := g[..|g| - 1];
      FlattenMembers(init, x);
      if x in g[|g| - 1] {
        var col :| 0 <= col < |g[|g| - 1]| && g[|g| - 1][col] == x;
        assert g[|g| - 1][col] == x;
      }
      if exists row, col :: 0 <= row < |g| && 0 <= col < |g[row]| && g[row][col] == x {
        var row, col :| 0 <= row < |g| && 0 <= col < |g[row]| && g[row][col] == x;
        if row < |g| - 1 {
          assert init[row][col] == x;
        } else {
          assert g[|g| - 1][col] == x;
        }
      }
      if exists row, col :: 0 <= row < |init| && 0 <= col < |init[row]| && init[row][col] == x {
        var row, col :| 0 <= row < |init| && 0 <= col < |init[row]| && init[row][col] == x;
        assert g[row][col] == x;
      }
    }
  }

  /** The scan visits every cell, and nothing else. */
  lemma FlattenCells<T>(g: seq<seq<T>>, w: int)
    requires forall r :: 0 <= r < |g| ==> |g[r]| == w
    ensures forall row, col :: 0 <= row < |g| && 0 <= col < w ==> g[row][col] in Flatten(g)
    ensures forall x :: x in Flatten(g) ==> exists row, col :: 0 <= row < |g| && 0 <= col < w && g[row][col] == x
  {
    forall row, col | 0 <= row < |g| && 0 <= col < w
      ensures g[row][col] in Flatten(g)
    {
      FlattenAt(g, w, row, col);
    }
    forall x | x in Flatten(g)
      ensures exists row, col :: 0 <= row < |g| && 0 <= col < w && g[row][col] == x
    {
      FlattenMembers(g, x);
    }
  }
}
