/** Random draws passed in as data.

    `random.sample(pool, k)` is modelled by k picks: pick number j is an
    index into the pool that remains after the first j picks were taken out,
    so it lies below `|pool| - j`. Any such pick sequence is a possible outcome
    of the generator, and every outcome is reachable (`SampleReachesEvery`). */
module Sampling {
  import opened Sequences

  /** The colour indices `range(1, 8)`. */
  const ColourIndices: seq<int> := [1, 2, 3, 4, 5, 6, 7]

  /** The number of possible colours printed on a card. */
  const PossibleCount := 3

  function RemoveAt<T(==)>(xs: seq<T>, i: nat): (r: seq<T>)
    requires i < |xs|
    ensures |r| == |xs| - 1
    ensures forall x :: x in r ==> x in xs
    ensures forall x :: x in xs && x != xs[i] ==> x in r
    ensures Distinct(xs) ==> xs[i] !in r
  {
    assert xs == xs[..i] + [xs[i]] + xs[i + 1..];
    var r := xs[..i] + xs[i + 1..];
    assert Distinct(xs) ==> forall k :: 0 <= k < |r| ==> r[k] != xs[i] by {
      if Distinct(xs) {
        forall k | 0 <= k < |r|
          ensures r[k] != xs[i]
        {
          if k < i {
            assert r[k] == xs[k];
          } else {
            assert r[k] == xs[k + 1];
          }
        }
      }
    }
    r
  }

  /** Each pick indexes the pool left after the earlier picks. */
  predicate ValidPicks(picks: seq<nat>, poolSize: nat)
  {
    |picks| <= poolSize && forall j :: 0 <= j < |picks| ==> picks[j] < poolSize - j
  }

  /** Drawing without replacement. */
  function Sample<T(==)>(pool: seq<T>, picks: seq<nat>): (r: seq<T>)
    requires ValidPicks(picks, |pool|)
    ensures |r| == |picks|
    ensures forall x :: x in r ==> x in pool
    ensures Distinct(pool) ==> Distinct(r)
    decreases |picks|
  {
    if |picks| == 0 then []
    else
      var rest := RemoveAt(pool, picks[0]);
      assert ValidPicks(picks[1..], |rest|) by {
        forall j | 0 <= j < |picks[1..]|
          ensures picks[1..][j] < |rest| - j
        {
          assert picks[1..][j] == picks[j + 1];
        }
      }
      var tail := Sample(rest, picks[1..]);
      [pool[picks[0]]] + tail
  }

  /** Every ordered choice of distinct pool elements is some outcome of `Sample`. */
  lemma {:induction false} SampleReachesEvery<T>(pool: seq<T>, target: seq<T>)
    requires Distinct(target)
    requires forall x :: x in target ==> x in pool
    ensures exists picks :: ValidPicks(picks, |pool|) && Sample(pool, picks) == target
    decreases |target|
  {
    if |target| == 0 {
      assert ValidPicks([], |pool|) && Sample(pool, []) == target;
    } else {
      assert target[0] in target;
      var i :| 0 <= i < |pool| && pool[i] == target[0];
      var rest := RemoveAt(pool, i);
      forall x | x in target[1..]
        ensures x in rest
      {
        var k :| 0 <= k < |target[1..]| && target[1..][k] == x;
        assert target[k + 1] == x;
      }
      SampleReachesEvery(rest, target[1..]);
      var tailPicks :| ValidPicks(tailPicks, |rest|) && Sample(rest, tailPicks) == target[1..];
      var picks := [i] + tailPicks;
      assert picks[1..] == tailPicks;
      assert ValidPicks(picks, |pool|) by {
        forall j | 0 <= j < |picks|
          ensures picks[j] < |pool| - j
        {
          if j > 0 {
            assert picks[j] == tailPicks[j - 1];
          }
        }
      }
      assert Sample(pool, picks) == [target[0]] + target[1..];
      assert target == [target[0]] + target[1..];
    }
  }

  /** The random choices behind one card: `random.sample(range(1, 8), 3)`
      for the possible colours, then an index below 3 for the actual colour
      (`random.sample(possibilities, 1)` or `randint(1, 3) - 1`). */
  datatype CardDraw = CardDraw(picks: seq<nat>, actual: nat)

  predicate ValidCardDraw(d: CardDraw)
  {
    |d.picks| == PossibleCount && ValidPicks(d.picks, |ColourIndices|) && d.actual < PossibleCount
  }

  /** The three possible colour indices a draw selects. */
  function PossibleIndices(d: CardDraw): (r: seq<int>)
    requires ValidCardDraw(d)
    ensures |r| == PossibleCount && Distinct(r)
    ensures forall k :: 0 <= k < |r| ==> 1 <= r[k] <= 7
  {
    assert Distinct(ColourIndices);
    var r := Sample(ColourIndices, d.picks);
    assert forall k :: 0 <= k < |r| ==> r[k] in ColourIndices;
    r
  }
}
