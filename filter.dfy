// The moving-average filter: a deque of the `windowSize` most recent samples and
// the arithmetic mean of whatever it currently holds.
module MovingAverage {
  import opened BoundedDeque

  /** `sum(s)`, accumulated left to right. */
  function Sum(s: seq<real>): real
  {
    if s == [] then 0.0 else Sum(s[..|s| - 1]) + s[|s| - 1]
  }

  function Mean(s: seq<real>): real
    requires |s| > 0
  {
    Sum(s) / (|s| as real)
  }

  /** A sum of samples all in `[lo, hi]` lies between `|s|*lo` and `|s|*hi`. */
  lemma {:induction false} SumBounds(s: seq<real>, lo: real, hi: real)
    requires forall i :: 0 <= i < |s| ==> lo <= s[i] <= hi
    ensures (|s| as real) * lo <= Sum(s) <= (|s| as real) * hi
  {
    if s != [] {
      SumBounds(s[..|s| - 1], lo, hi);
    }
  }

  /** The mean of samples all in `[lo, hi]` lies in `[lo, hi]`. */
  lemma MeanBounds(s: seq<real>, lo: real, hi: real)
    requires |s| > 0
    requires forall i :: 0 <= i < |s| ==> lo <= s[i] <= hi
    ensures lo <= Mean(s) <= hi
  {
    SumBounds(s, lo, hi);
    var n := |s| as real;
    assert Sum(s) / n >= lo by {
      assert n * lo <= Sum(s);
    }
    assert Sum(s) / n <= hi by {
      assert Sum(s) <= n * hi;
    }
  }

  /** A window holding only the value `c` averages to exactly `c`. */
  lemma MeanConstant(s: seq<real>, c: real)
    requires |s| > 0
    requires forall i :: 0 <= i < |s| ==> s[i] == c
    ensures Mean(s) == c
  {
    MeanBounds(s, c, c);
  }

  class MovingAverageFilter {
    const windowSize: nat
    var window: seq<real>
    /** Every value ever passed to `Filter`, oldest first. */
    ghost var pushed: seq<real>

    ghost predicate Valid()
      reads this
    {
      windowSize >= 1 && window == Recent(pushed, windowSize)
    }

    constructor (windowSize: nat)
      requires windowSize >= 1
      ensures Valid() && this.windowSize == windowSize && pushed == [] && window == []
    {
      this.windowSize := windowSize;
      window := [];
      pushed := [];
    }

    /** Pushes `value` (evicting the oldest sample when the window is full) and
        returns the mean of the samples now held. */
    method Filter(value: real) returns (average: real)
      requires Valid()
      modifies this
      ensures Valid()
      ensures pushed == old(pushed) + [value]
      ensures window == BoundedAppend(old(window), value, windowSize)
      ensures 1 <= |window| <= windowSize && window[|window| - 1] == value
      ensures average == Mean(window)
    {
      RecentAppend(pushed, value, windowSize);
      window := BoundedAppend(window, value, windowSize);
      pushed := pushed + [value];
      average := Sum(window) / (|window| as real);
    }
  }

  /** During warm-up (no more pushes than the window holds) the filter averages
      every value pushed so far. */
  lemma WarmUpMean(pushed: seq<real>, windowSize: nat)
    requires 1 <= |pushed| <= windowSize
    ensures Mean(Recent(pushed, windowSize)) == Mean(pushed)
  {
  }

  /** Once the last `windowSize` values pushed all equal `c`, the output is `c`. */
  lemma SteadyConstant(pushed: seq<real>, windowSize: nat, c: real)
    requires 1 <= windowSize <= |pushed|
    requires forall i :: |pushed| - windowSize <= i < |pushed| ==> pushed[i] == c
    ensures Mean(Recent(pushed, windowSize)) == c
  {
    var w := Recent(pushed, windowSize);
    forall i | 0 <= i < |w|
      ensures w[i] == c
    {
      RecentAt(pushed, windowSize, i);
    }
    MeanConstant(w, c);
  }
}
