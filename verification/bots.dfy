/** The strategies of src/bots.py over the count vector. Each `turn` reads the
    state and its own index and returns a target index; `RandomBot` (one
    `randint(0, 3)`) is not modelled. */
module Bots {
  import opened GameLogic
  import opened Selection

  /** Whether player p holds a card of the k-th possible colour of the next card. */
  predicate HoldsPossible(s: seq<int>, p: nat, k: nat)
    requires CardSlotsValid(s) && p < PlayerCount && k < 3
  {
    s[TankSlot(p, s[FirstCardSlot + k])] != 0
  }

  /** How many of the next card's three possible colours p holds. */
  function MatchCount(s: seq<int>, p: nat): nat
    requires CardSlotsValid(s) && p < PlayerCount
  {
    (if HoldsPossible(s, p, 0) then 1 else 0)
    + (if HoldsPossible(s, p, 1) then 1 else 0)
    + (if HoldsPossible(s, p, 2) then 1 else 0)
  }

  /** Holding as many matches as there are possible colours means holding all three. */
  lemma MatchCountFull(s: seq<int>, p: nat)
    requires CardSlotsValid(s) && p < PlayerCount
    ensures MatchCount(s, p) <= 3
    ensures MatchCount(s, p) == 3 <==> forall k :: 0 <= k < 3 ==> HoldsPossible(s, p, k)
    ensures MatchCount(s, p) > 0 <==> exists k :: 0 <= k < 3 && HoldsPossible(s, p, k)
  {
  }

  function MatchCounts(s: seq<int>): seq<int>
    requires CardSlotsValid(s)
  {
    [MatchCount(s, 0), MatchCount(s, 1), MatchCount(s, 2), MatchCount(s, 3)]
  }

  const Everyone: seq<bool> := [true, true, true, true]

  /** `MatchPlayer`: the lowest index holding the most possible colours, or
      the caller's own index when nobody holds any. */
  function MatchPlayer(s: seq<int>, self: int): (r: int)
    requires CardSlotsValid(s)
    ensures (forall p :: 0 <= p < PlayerCount ==> MatchCount(s, p) == 0) ==> r == self
    ensures (exists p :: 0 <= p < PlayerCount && MatchCount(s, p) > 0) ==>
              && 0 <= r < PlayerCount && MatchCount(s, r) > 0
              && (forall p :: 0 <= p < PlayerCount ==> MatchCount(s, p) <= MatchCount(s, r))
              && (forall p :: 0 <= p < r ==> MatchCount(s, p) < MatchCount(s, r))
  {
    var r := FirstMax(MatchCounts(s), Everyone, self);
    MatchPlayerMeaning(s, self, r);
    r
  }

  /** What the selection over `MatchCounts` means in terms of the players. */
  lemma MatchPlayerMeaning(s: seq<int>, self: int, r: int)
    requires CardSlotsValid(s)
    requires NonePositive(MatchCounts(s), Everyone) ==> r == self
    requires !NonePositive(MatchCounts(s), Everyone) ==> IsFirstMax(MatchCounts(s), Everyone, r)
    ensures (forall p :: 0 <= p < PlayerCount ==> MatchCount(s, p) == 0) ==> r == self
    ensures (exists p :: 0 <= p < PlayerCount && MatchCount(s, p) > 0) ==>
              && 0 <= r < PlayerCount && MatchCount(s, r) > 0
              && (forall p :: 0 <= p < PlayerCount ==> MatchCount(s, p) <= MatchCount(s, r))
              && (forall p :: 0 <= p < r ==> MatchCount(s, p) < MatchCount(s, r))
  {
    var counts := MatchCounts(s);
    assert forall p :: 0 <= p < PlayerCount ==> counts[p] == MatchCount(s, p) && Everyone[p];
    if NonePositive(counts, Everyone) {
      assert forall p :: 0 <= p < PlayerCount ==> MatchCount(s, p) == 0;
    } else {
      assert 0 <= r < PlayerCount && counts[r] == MatchCount(s, r);
      forall p | 0 <= p < PlayerCount
        ensures MatchCount(s, p) <= MatchCount(s, r)
      {
        assert counts[p] <= counts[r];
      }
      forall p | 0 <= p < r
        ensures MatchCount(s, p) < MatchCount(s, r)
      {
        assert counts[p] < counts[r];
      }
    }
  }

  /** `MatcherBot.turn`: the `MatchPlayer` choice. */
  function MatcherBot(s: seq<int>, self: int): (r: int)
    requires CardSlotsValid(s)
    ensures r == MatchPlayer(s, self)
    ensures 0 <= self < PlayerCount ==> 0 <= r < PlayerCount
  {
    MatchPlayer(s, self)
  }

  /** `ScorerBot.turn`: always scores. */
  function ScorerBot(s: seq<int>, self: int): (r: int)
    ensures r == self
  {
    self
  }

  /** `CertaintyBot.turn`: scores when holding any possible colour, else the
      `MatchPlayer` choice. */
  function CertaintyBot(s: seq<int>, self: nat): (r: int)
    requires CardSlotsValid(s) && self < PlayerCount
    ensures (exists k :: 0 <= k < 3 && HoldsPossible(s, self, k)) ==> r == self
    ensures (forall k :: 0 <= k < 3 ==> !HoldsPossible(s, self, k)) ==> r == MatchPlayer(s, self)
    ensures 0 <= r < PlayerCount
  {
    MatchCountFull(s, self);
    if MatchCount(s, self) > 0 then self else MatchPlayer(s, self)
  }

  /** `ThiefBot.turn`: scores exactly when holding all three possible colours,
      else the `MatchPlayer` choice. */
  function ThiefBot(s: seq<int>, self: nat): (r: int)
    requires CardSlotsValid(s) && self < PlayerCount
    ensures (forall k :: 0 <= k < 3 ==> HoldsPossible(s, self, k)) ==> r == self
    ensures !(forall k :: 0 <= k < 3 ==> HoldsPossible(s, self, k)) ==> r == MatchPlayer(s, self)
    ensures 0 <= r < PlayerCount
  {
    MatchCountFull(s, self);
    if MatchCount(s, self) == 3 then self else MatchPlayer(s, self)
  }

  function Scores(s: seq<int>): seq<int>
    requires |s| == StateSize
  {
    [s[ScoreSlot(0)], s[ScoreSlot(1)], s[ScoreSlot(2)], s[ScoreSlot(3)]]
  }

  function HoldsAny(s: seq<int>): seq<bool>
    requires CardSlotsValid(s)
  {
    [MatchCount(s, 0) > 0, MatchCount(s, 1) > 0, MatchCount(s, 2) > 0, MatchCount(s, 3) > 0]
  }

  /** `DefenderBot.turn`: among players holding a possible colour, the first
      with the strictly highest positive score; otherwise the `MatchPlayer`
      choice. */
  function DefenderBot(s: seq<int>, self: nat): (r: int)
    requires CardSlotsValid(s) && self < PlayerCount
    ensures (exists p :: 0 <= p < PlayerCount && MatchCount(s, p) > 0 && s[ScoreSlot(p)] > 0) ==>
              && 0 <= r < PlayerCount && MatchCount(s, r) > 0 && s[ScoreSlot(r)] > 0
              && (forall p :: 0 <= p < PlayerCount && MatchCount(s, p) > 0 ==> s[ScoreSlot(p)] <= s[ScoreSlot(r)])
              && (forall p :: 0 <= p < r && MatchCount(s, p) > 0 ==> s[ScoreSlot(p)] < s[ScoreSlot(r)])
    ensures !(exists p :: 0 <= p < PlayerCount && MatchCount(s, p) > 0 && s[ScoreSlot(p)] > 0) ==>
              r == MatchPlayer(s, self)
    ensures 0 <= r < PlayerCount
  {
    var r := FirstMax(Scores(s), HoldsAny(s), MatchPlayer(s, self));
    DefenderMeaning(s, self, r);
    r
  }

  /** What the selection over the holders' scores means. */
  lemma DefenderMeaning(s: seq<int>, self: nat, r: int)
    requires CardSlotsValid(s) && self < PlayerCount
    requires NonePositive(Scores(s), HoldsAny(s)) ==> r == MatchPlayer(s, self)
    requires !NonePositive(Scores(s), HoldsAny(s)) ==> IsFirstMax(Scores(s), HoldsAny(s), r)
    ensures (exists p :: 0 <= p < PlayerCount && MatchCount(s, p) > 0 && s[ScoreSlot(p)] > 0) ==>
              && 0 <= r < PlayerCount && MatchCount(s, r) > 0 && s[ScoreSlot(r)] > 0
              && (forall p :: 0 <= p < PlayerCount && MatchCount(s, p) > 0 ==> s[ScoreSlot(p)] <= s[ScoreSlot(r)])
              && (forall p :: 0 <= p < r && MatchCount(s, p) > 0 ==> s[ScoreSlot(p)] < s[ScoreSlot(r)])
    ensures !(exists p :: 0 <= p < PlayerCount && MatchCount(s, p) > 0 && s[ScoreSlot(p)] > 0) ==>
              r == MatchPlayer(s, self)
  {
    var scores, holds := Scores(s), HoldsAny(s);
    assert forall p :: 0 <= p < PlayerCount ==> scores[p] == s[ScoreSlot(p)] && (holds[p] <==> MatchCount(s, p) > 0);
    if !NonePositive(scores, holds) {
      assert 0 <= r < PlayerCount && holds[r] && scores[r] == s[ScoreSlot(r)];
      forall p | 0 <= p < PlayerCount && MatchCount(s, p) > 0
        ensures s[ScoreSlot(p)] <= s[ScoreSlot(r)]
      {
        assert holds[p] && scores[p] <= scores[r];
      }
      forall p | 0 <= p < r && MatchCount(s, p) > 0
        ensures s[ScoreSlot(p)] < s[ScoreSlot(r)]
      {
        assert holds[p] && scores[p] < scores[r];
      }
    }
  }
}
