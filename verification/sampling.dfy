/**
 * What `random.choices(faces, weights=weights, k=1)[0]` does with one
 * variate `u = random()`: it accumulates the weights, scales `u` by their
 * total and bisects the cumulative list for the drawn position.  The
 * process-wide generator is not modelled as state: an operation that rolls
 * takes the variates `random()` would hand out next and returns the ones it
 * leaves unused.
 */
module Sampling {

  /** A value `random()` can return. */
  predicate Unit(u: real) {
    0.0 <= u < 1.0
  }

  /** Sum of the first `k` weights; `Sum(ws[..k])`. */
  function Sum(ws: seq<real>): (s: real) {
    if ws == [] then 0.0 else Sum(ws[..|ws| - 1]) + ws[|ws| - 1]
  }

  /** `list(itertools.accumulate(weights))`: entry `i` is the sum of weights `0..i`. */
  function Cumulative(ws: seq<real>): (cum: seq<real>)
    ensures |cum| == |ws| && forall i :: 0 <= i < |ws| ==> cum[i] == Sum(ws[..i + 1])
  {
    seq(|ws|, i requires 0 <= i < |ws| => Sum(ws[..i + 1]))
  }

  /** `bisect.bisect_right(a, x, lo, hi)`, step for step. */
  function BisectRight(a: seq<real>, x: real, lo: nat, hi: nat): (r: nat)
    requires lo <= hi <= |a|
    ensures lo <= r <= hi
    decreases hi - lo
  {
    if lo < hi then
      var mid := (lo + hi) / 2;
      if x < a[mid] then BisectRight(a, x, lo, mid) else BisectRight(a, x, mid + 1, hi)
    else lo
  }

  /**
   * The position `random.choices` draws with variate `u`:
   * `bisect(cum_weights, u * total, 0, n - 1)`.  Whatever the weights, it is
   * a position of the table.
   */
  function Choose(ws: seq<real>, u: real): (i: nat)
    requires |ws| > 0
    ensures i < |ws|
  {
    BisectRight(Cumulative(ws), Scale(u, Sum(ws)), 0, |ws| - 1)
  }

  /** `random() * total`. */
  function Scale(u: real, total: real): (x: real) {
    u * total
  }

  predicate NonNegative(ws: seq<real>) {
    forall i :: 0 <= i < |ws| ==> ws[i] >= 0.0
  }

  lemma SumStep(ws: seq<real>, i: nat)
    requires i < |ws|
    ensures Sum(ws[..i + 1]) == Sum(ws[..i]) + ws[i]
  {
    assert ws[..i + 1][..i] == ws[..i];
  }

  lemma {:induction false} SumMonotone(ws: seq<real>, i: nat, j: nat)
    requires NonNegative(ws) && i <= j <= |ws|
    ensures Sum(ws[..i]) <= Sum(ws[..j])
    decreases j - i
  {
    if i < j {
      SumStep(ws, i);
      SumMonotone(ws, i + 1, j);
    }
  }

  /**
   * Whatever the order of the list, `bisect_right` stops just after an entry
   * not above `x` (or at `lo`) and at an entry above `x` (or at `hi`).
   */
  lemma {:induction false} BisectRightBrackets(a: seq<real>, x: real, lo: nat, hi: nat)
    requires lo <= hi <= |a|
    ensures lo < BisectRight(a, x, lo, hi) ==> a[BisectRight(a, x, lo, hi) - 1] <= x
    ensures BisectRight(a, x, lo, hi) < hi ==> x < a[BisectRight(a, x, lo, hi)]
    decreases hi - lo
  {
    if lo < hi {
      var mid := (lo + hi) / 2;
      assert lo <= mid < hi;
      var r := BisectRight(a, x, lo, hi);
      if x < a[mid] {
        assert r == BisectRight(a, x, lo, mid);
        BisectRightBrackets(a, x, lo, mid);
        assert lo < r ==> a[r - 1] <= x;
        assert r < hi ==> x < a[r] by {
          if r < mid {
            assert x < a[r];
          }
        }
      } else {
        assert r == BisectRight(a, x, mid + 1, hi);
        BisectRightBrackets(a, x, mid + 1, hi);
        assert lo < r ==> a[r - 1] <= x by {
          if mid + 1 < r {
            assert a[r - 1] <= x;
          }
        }
        assert r < hi ==> x < a[r];
      }
    }
  }

  lemma ScaledBelow(u: real, t: real)
    requires Unit(u) && t > 0.0
    ensures 0.0 <= Scale(u, t) < t
  {
    var d := 1.0 - u;
    assert d > 0.0;
    assert d * t > 0.0;
    assert t - u * t == d * t;
  }

  /**
   * Bisecting the cumulative weights for `x` between 0 and the total lands
   * on an interval holding `x`, whatever the signs of the weights.
   */
  lemma BisectInterval(ws: seq<real>, x: real)
    requires |ws| > 0 && 0.0 <= x < Sum(ws)
    ensures var r := BisectRight(Cumulative(ws), x, 0, |ws| - 1);
      Sum(ws[..r]) <= x < Sum(ws[..r + 1])
  {
    var cum, n := Cumulative(ws), |ws|;
    BisectRightBrackets(cum, x, 0, n - 1);
    var r := BisectRight(cum, x, 0, n - 1);
    assert Sum(ws[..r]) <= x by {
      if r > 0 {
        assert cum[r - 1] <= x;
      } else {
        assert ws[..r] == [];
      }
    }
    assert x < Sum(ws[..r + 1]) by {
      if r == n - 1 {
        assert ws[..r + 1] == ws;
      } else {
        assert x < cum[r];
      }
    }
  }

  /** The drawn position's cumulative interval holds the scaled variate. */
  lemma ChosenInterval(ws: seq<real>, u: real)
    requires Sum(ws) > 0.0 && Unit(u)
    ensures Sum(ws[..Choose(ws, u)]) <= Scale(u, Sum(ws)) < Sum(ws[..Choose(ws, u) + 1])
  {
    ScaledBelow(u, Sum(ws));
    BisectInterval(ws, Scale(u, Sum(ws)));
  }

  /**
   * With non-negative weights of positive total, position `i` is drawn
   * exactly when `u * total` falls in `[Sum(ws[..i]), Sum(ws[..i + 1]))`, an
   * interval of length `ws[i]`: face `i` is drawn with probability
   * `ws[i] / total` when `u` is uniform on [0, 1).
   */
  lemma ChooseInterval(ws: seq<real>, u: real, i: nat)
    requires NonNegative(ws) && Sum(ws) > 0.0 && Unit(u) && i < |ws|
    ensures Choose(ws, u) == i <==> Sum(ws[..i]) <= Scale(u, Sum(ws)) < Sum(ws[..i + 1])
  {
    ChosenInterval(ws, u);
    if Choose(ws, u) != i {
      IntervalsDisjoint(ws, Scale(u, Sum(ws)), Choose(ws, u), i);
    }
  }

  /** With non-negative weights, a value lies in at most one row's cumulative interval. */
  lemma IntervalsDisjoint(ws: seq<real>, x: real, r: nat, i: nat)
    requires NonNegative(ws) && r < |ws| && i < |ws| && r != i
    requires Sum(ws[..r]) <= x < Sum(ws[..r + 1])
    ensures !(Sum(ws[..i]) <= x < Sum(ws[..i + 1]))
  {
    if i < r {
      SumMonotone(ws, i + 1, r);
    } else {
      SumMonotone(ws, r + 1, i);
    }
  }

  /**
   * The drawn position's weight is positive, even when other weights are
   * negative: a face whose weight is zero (or negative) is never drawn.
   */
  lemma ChosenWeightPositive(ws: seq<real>, u: real)
    requires Sum(ws) > 0.0 && Unit(u)
    ensures ws[Choose(ws, u)] > 0.0
  {
    var r := Choose(ws, u);
    ChosenInterval(ws, u);
    SumStep(ws, r);
  }
}
