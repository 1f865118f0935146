/** The selection loop every count-vector bot uses:

      best = 0; target = default
      for i in range(n):
          if eligible(i) and value(i) > best: best, target = value(i), i

    Because the comparison is strict and `best` starts at 0, the loop returns
    the lowest eligible index with the greatest positive value, and `default`
    when no eligible value is positive. */
module Selection {

  /** No eligible entry is positive. */
  predicate NonePositive(values: seq<int>, eligible: seq<bool>)
    requires |eligible| == |values|
  {
    forall i :: 0 <= i < |values| && eligible[i] ==> values[i] <= 0
  }

  /** `r` is the lowest eligible index holding the greatest eligible value,
      and that value is positive. */
  predicate IsFirstMax(values: seq<int>, eligible: seq<bool>, r: int)
    requires |eligible| == |values|
  {
    && 0 <= r < |values| && eligible[r] && values[r] > 0
    && (forall i :: 0 <= i < |values| && eligible[i] ==> values[i] <= values[r])
    && (forall i :: 0 <= i < r && eligible[i] ==> values[i] < values[r])
  }

  /** The loop state `(best, target)` after the first n iterations. */
  function Scan(values: seq<int>, eligible: seq<bool>, default: int, n: nat): (r: (int, int))
    requires |eligible| == |values| && n <= |values|
    ensures NonePositive(values[..n], eligible[..n]) ==> r == (0, default)
    ensures !NonePositive(values[..n], eligible[..n]) ==>
              IsFirstMax(values[..n], eligible[..n], r.1) && r.0 == values[r.1]
  {
    if n == 0 then (0, default)
    else
      var prev := Scan(values, eligible, default, n - 1);
      assert values[..n - 1] == values[..n][..n - 1];
      assert eligible[..n - 1] == eligible[..n][..n - 1];
      if eligible[n - 1] && values[n - 1] > prev.0 then (values[n - 1], n - 1) else prev
  }

  /** The index the selection loop returns. */
  function FirstMax(values: seq<int>, eligible: seq<bool>, default: int): (r: int)
    requires |eligible| == |values|
    ensures NonePositive(values, eligible) ==> r == default
    ensures !NonePositive(values, eligible) ==> IsFirstMax(values, eligible, r)
  {
    assert values[..|values|] == values && eligible[..|eligible|] == eligible;
    Scan(values, eligible, default, |values|).1
  }
}
