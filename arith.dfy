/** Small facts of real and integer arithmetic that the solver does not
    find by itself. */
module Arith {

  /** `d * f` lies between 0 and `d` when `f` is in [0, 1]. */
  lemma ScaledBetween(d: real, f: real)
    ensures 0.0 <= f <= 1.0 && 0.0 <= d ==> 0.0 <= d * f <= d
    ensures 0.0 <= f <= 1.0 && d <= 0.0 ==> d <= d * f <= 0.0
  {
    if !(0.0 <= f <= 1.0) {
    } else if 0.0 <= d {
      assert d * f <= d * 1.0;
    } else {
      assert d * 1.0 <= d * f;
    }
  }

  lemma MulMono(a: int, b: int, m: nat)
    requires a <= b
    ensures a * m <= b * m
  {
  }

  lemma MulLess(a: real, b: real, c: real, s: real)
    ensures a <= b < c && 0.0 < s ==> a * s <= b * s < c * s
  {
  }

  lemma RowMajorBound(row: int, n: int, w: int, col: int)
    requires 0 <= row < n && 0 <= col < w
    ensures 0 <= row * w + col < n * w
  {
    calc {
      row * w + col;
    <
      row * w + w;
    ==
      (row + 1) * w;
    <=
      { MulMono(row + 1, n, w); }
      n * w;
    }
  }

  lemma MulSucc(a: int, w: int)
    ensures (a + 1) * w == a * w + w
  {
  }

  /** Dividing by `s` is multiplying by `d` when `s * d == 1`. */
  lemma DivByReciprocal(f: real, s: real, d: real)
    requires 0.0 < s && s * d == 1.0
    ensures f / s == f * d
  {
    calc {
      f / s;
    ==
      (f / s) * (s * d);
    ==
      ((f / s) * s) * d;
    ==
      f * d;
    }
  }

  /** For `d > 0`, `d * f` reaches `d` only at `f == 1`. */
  lemma ScaledIsWhole(d: real, f: real)
    ensures 0.0 < d ==> (f * d == d <==> f == 1.0)
  {
    if 0.0 < d && f * d == d {
      assert (f - 1.0) * d == 0.0;
    }
  }
}
