/** The arithmetic needed by the averaging tiers: `np.average` of a
    non-empty array of scores (exact reals, no floating point), and the
    smallest and largest score. */
module Stats {

  function Sum(s: seq<real>): real {
    if |s| == 0 then 0.0 else s[0] + Sum(s[1..])
  }

  /** The smallest element: below all of them (and one of them, by
      `MinMaxAttained`). */
  function Min(s: seq<real>): (m: real)
    requires |s| > 0
    ensures forall i :: 0 <= i < |s| ==> m <= s[i]
  {
    if |s| == 1 then s[0]
    else
      var rest := Min(s[1..]);
      assert forall i :: 1 <= i < |s| ==> s[i] == s[1..][i - 1];
      if s[0] <= rest then s[0] else rest
  }

  /** The largest element: above all of them (and one of them, by
      `MinMaxAttained`). */
  function Max(s: seq<real>): (m: real)
    requires |s| > 0
    ensures forall i :: 0 <= i < |s| ==> s[i] <= m
  {
    if |s| == 1 then s[0]
    else
      var rest := Max(s[1..]);
      assert forall i :: 1 <= i < |s| ==> s[i] == s[1..][i - 1];
      if s[0] >= rest then s[0] else rest
  }

  /** The smallest and the largest element are elements. */
  lemma {:induction false} MinMaxAttained(s: seq<real>)
    requires |s| > 0
    ensures exists i :: 0 <= i < |s| && s[i] == Min(s)
    ensures exists i :: 0 <= i < |s| && s[i] == Max(s)
  {
    if |s| == 1 {
      assert s[0] == Min(s) && s[0] == Max(s);
    } else {
      MinMaxAttained(s[1..]);
      var i :| 0 <= i < |s[1..]| && s[1..][i] == Min(s[1..]);
      var j :| 0 <= j < |s[1..]| && s[1..][j] == Max(s[1..]);
      assert s[i + 1] == Min(s[1..]) && s[j + 1] == Max(s[1..]);
      assert Min(s) == s[0] || Min(s) == s[i + 1];
      assert Max(s) == s[0] || Max(s) == s[j + 1];
    }
  }

  /** Bounds on every element bound the sum by `|s|` times the bound. */
  lemma {:induction false} SumBetween(s: seq<real>, lo: real, hi: real)
    requires forall i :: 0 <= i < |s| ==> lo <= s[i] <= hi
    ensures (|s| as real) * lo <= Sum(s) <= (|s| as real) * hi
  {
    if |s| > 0 {
      var n := |s| as real;
      var m := |s[1..]| as real;
      assert forall i :: 0 <= i < |s[1..]| ==> s[1..][i] == s[i + 1];
      SumBetween(s[1..], lo, hi);
      assert n == m + 1.0;
      assert n * lo == m * lo + lo;
      assert n * hi == m * hi + hi;
    }
  }

  /** The arithmetic mean (`np.average` without weights). */
  function Mean(s: seq<real>): real
    requires |s| > 0
  {
    Sum(s) / (|s| as real)
  }

  /** The mean times the number of elements is their sum. */
  lemma MeanTimesLength(s: seq<real>)
    requires |s| > 0
    ensures Mean(s) * (|s| as real) == Sum(s)
  {
  }

  lemma MeanBetween(total: real, n: real, lo: real, hi: real)
    requires n > 0.0
    requires n * lo <= total <= n * hi
    ensures lo <= total / n <= hi
  {
    assert total / n * n == total;
  }

  /** Bounds on every element bound the mean. */
  lemma MeanBounded(s: seq<real>, lo: real, hi: real)
    requires |s| > 0
    requires forall i :: 0 <= i < |s| ==> lo <= s[i] <= hi
    ensures lo <= Mean(s) <= hi
  {
    SumBetween(s, lo, hi);
    MeanOfSumBounds(s, lo, hi);
  }

  lemma MeanOfSumBounds(s: seq<real>, lo: real, hi: real)
    requires |s| > 0
    requires (|s| as real) * lo <= Sum(s) <= (|s| as real) * hi
    ensures lo <= Mean(s) <= hi
  {
    MeanBetween(Sum(s), |s| as real, lo, hi);
  }

  /** The mean lies between the smallest and the largest element. */
  lemma MeanWithinRange(s: seq<real>)
    requires |s| > 0
    ensures Min(s) <= Mean(s) <= Max(s)
  {
    MeanBounded(s, Min(s), Max(s));
  }
}
