/** The strategies of src/game/bots.py. Unlike src/bots.py they weigh players
    by the total QUANTITY of cards in the three possible colours, not by how
    many of the colours are present. `RandomBot` is not modelled. */
module GameBots {
  import opened GameLogic
  import opened Selection

  /** `sum(state[p*8 + colour - 1] for colour in card_possibilities)`. */
  function Quantity(s: seq<int>, p: nat): int
    requires CardSlotsValid(s) && p < PlayerCount
  {
    s[TankSlot(p, s[FirstCardSlot])] + s[TankSlot(p, s[FirstCardSlot + 1])] + s[TankSlot(p, s[FirstCardSlot + 2])]
  }

  function Quantities(s: seq<int>): seq<int>
    requires CardSlotsValid(s)
  {
    [Quantity(s, 0), Quantity(s, 1), Quantity(s, 2), Quantity(s, 3)]
  }

  /** `MatcherBot.turn`: the lowest index with the greatest quantity, or the
      caller's own index when every quantity is 0. */
  function MatcherBot(s: seq<int>, self: int): (r: int)
    requires CardSlotsValid(s)
    ensures (forall p :: 0 <= p < PlayerCount ==> Quantity(s, p) <= 0) ==> r == self
    ensures (exists p :: 0 <= p < PlayerCount && Quantity(s, p) > 0) ==>
              && 0 <= r < PlayerCount && Quantity(s, r) > 0
              && (forall p :: 0 <= p < PlayerCount ==> Quantity(s, p) <= Quantity(s, r))
              && (forall p :: 0 <= p < r ==> Quantity(s, p) < Quantity(s, r))
  {
    var r := FirstMax(Quantities(s), Everyone, self);
    MatcherMeaning(s, self, r);
    r
  }

  const Everyone: seq<bool> := [true, true, true, true]

  /** What the selection over `Quantities` means in terms of the players. */
  lemma MatcherMeaning(s: seq<int>, self: int, r: int)
    requires CardSlotsValid(s)
    requires NonePositive(Quantities(s), Everyone) ==> r == self
    requires !NonePositive(Quantities(s), Everyone) ==> IsFirstMax(Quantities(s), Everyone, r)
    ensures (forall p :: 0 <= p < PlayerCount ==> Quantity(s, p) <= 0) ==> r == self
    ensures (exists p :: 0 <= p < PlayerCount && Quantity(s, p) > 0) ==>
              && 0 <= r < PlayerCount && Quantity(s, r) > 0
              && (forall p :: 0 <= p < PlayerCount ==> Quantity(s, p) <= Quantity(s, r))
              && (forall p :: 0 <= p < r ==> Quantity(s, p) < Quantity(s, r))
  {
    var qs := Quantities(s);
    assert forall p :: 0 <= p < PlayerCount ==> qs[p] == Quantity(s, p) && Everyone[p];
    if NonePositive(qs, Everyone) {
      assert forall p :: 0 <= p < PlayerCount ==> Quantity(s, p) <= 0;
    } else {
      assert 0 <= r < PlayerCount && qs[r] == Quantity(s, r);
      forall p | 0 <= p < PlayerCount
        ensures Quantity(s, p) <= Quantity(s, r)
      {
        assert qs[p] <= qs[r];
      }
      forall p | 0 <= p < r
        ensures Quantity(s, p) < Quantity(s, r)
      {
        assert qs[p] < qs[r];
      }
    }
  }

  /** The steal choice shared by `ScorerBot` and `ThiefBot`: the lowest other
      player with the greatest positive quantity, or the caller itself. */
  function StealTarget(s: seq<int>, self: nat): (r: int)
    requires CardSlotsValid(s) && self < PlayerCount
    ensures (forall p :: 0 <= p < PlayerCount && p != self ==> Quantity(s, p) <= 0) ==> r == self
    ensures (exists p :: 0 <= p < PlayerCount && p != self && Quantity(s, p) > 0) ==>
              && 0 <= r < PlayerCount && r != self && Quantity(s, r) > 0
              && (forall p :: 0 <= p < PlayerCount && p != self ==> Quantity(s, p) <= Quantity(s, r))
              && (forall p :: 0 <= p < r && p != self ==> Quantity(s, p) < Quantity(s, r))
    ensures 0 <= r < PlayerCount
  {
    var others := [self != 0, self != 1, self != 2, self != 3];
    var r := FirstMax(Quantities(s), others, self);
    StealMeaning(s, self, others, r);
    r
  }

  /** What the selection over the other players' quantities means. */
  lemma StealMeaning(s: seq<int>, self: nat, others: seq<bool>, r: int)
    requires CardSlotsValid(s) && self < PlayerCount
    requires others == [self != 0, self != 1, self != 2, self != 3]
    requires NonePositive(Quantities(s), others) ==> r == self
    requires !NonePositive(Quantities(s), others) ==> IsFirstMax(Quantities(s), others, r)
    ensures (forall p :: 0 <= p < PlayerCount && p != self ==> Quantity(s, p) <= 0) ==> r == self
    ensures (exists p :: 0 <= p < PlayerCount && p != self && Quantity(s, p) > 0) ==>
              && 0 <= r < PlayerCount && r != self && Quantity(s, r) > 0
              && (forall p :: 0 <= p < PlayerCount && p != self ==> Quantity(s, p) <= Quantity(s, r))
              && (forall p :: 0 <= p < r && p != self ==> Quantity(s, p) < Quantity(s, r))
    ensures 0 <= r < PlayerCount
  {
    var qs := Quantities(s);
    assert forall p :: 0 <= p < PlayerCount ==> qs[p] == Quantity(s, p) && (others[p] <==> p != self);
    if NonePositive(qs, others) {
      assert forall p :: 0 <= p < PlayerCount && p != self ==> Quantity(s, p) <= 0;
    } else {
      assert 0 <= r < PlayerCount && qs[r] == Quantity(s, r) && others[r];
      forall p | 0 <= p < PlayerCount && p != self
        ensures Quantity(s, p) <= Quantity(s, r)
      {
        assert qs[p] <= qs[r];
      }
      forall p | 0 <= p < r && p != self
        ensures Quantity(s, p) < Quantity(s, r)
      {
        assert qs[p] < qs[r];
      }
    }
  }

  /** `ScorerBot.turn`: scores whenever it holds any card of a possible
      colour; otherwise steals, and never from a player holding none. */
  function ScorerBot(s: seq<int>, self: nat): (r: int)
    requires CardSlotsValid(s) && self < PlayerCount
    ensures Quantity(s, self) > 0 ==> r == self
    ensures Quantity(s, self) <= 0 ==> r == StealTarget(s, self)
    ensures r != self ==> Quantity(s, r) > 0
    ensures 0 <= r < PlayerCount
  {
    if Quantity(s, self) > 0 then self else StealTarget(s, self)
  }

  /** `ThiefBot.turn`: scores exactly when its quantity is 3 (a count of
      cards, not of distinct colours); otherwise the same steal choice. */
  function ThiefBot(s: seq<int>, self: nat): (r: int)
    requires CardSlotsValid(s) && self < PlayerCount
    ensures Quantity(s, self) == 3 ==> r == self
    ensures Quantity(s, self) != 3 ==> r == StealTarget(s, self)
    ensures 0 <= r < PlayerCount
  {
    if Quantity(s, self) == 3 then self else StealTarget(s, self)
  }

  /** With nothing of the possible colours in its own tank, the thief makes
      the scorer's choice. */
  lemma ThiefAgreesWithScorerWhenEmpty(s: seq<int>, self: nat)
    requires CardSlotsValid(s) && self < PlayerCount
    requires Quantity(s, self) <= 0
    ensures ThiefBot(s, self) == ScorerBot(s, self)
  {
  }

  /** Player 0 holds three red cards, player 1 one orange card; the next
      card may be red, orange or yellow and is red. */
  const ThiefExample: seq<int> :=
    seq(StateSize, k => 0)[0 := 3][9 := 1][32 := 1][33 := 2][34 := 3][35 := 1]

  /** The state's cards as in `ThiefExample`; other slots are free. */
  predicate ThiefCase(s: seq<int>)
  {
    && CardSlotsValid(s)
    && s[32] == 1 && s[33] == 2 && s[34] == 3 && s[35] == 1
    && s[0] == 3 && s[1] == 0 && s[2] == 0
    && s[8] == 0 && s[9] == 1 && s[10] == 0
    && s[16] == 0 && s[17] == 0 && s[18] == 0
    && s[24] == 0 && s[25] == 0 && s[26] == 0
  }

  /** Three cards of one possible colour already make the thief score, though
      it lacks the other two colours; the thief as described steals from
      player 1 instead. */
  lemma ThiefCountsQuantityNotColours(s: seq<int>)
    requires ThiefCase(s)
    ensures ThiefBot(s, 0) == 0
    ensures !HoldsAllPossible(s, 0) && ThiefBotIntended(s, 0) == 1
  {
    RedOrangeYellow(s, 0);
    RedOrangeYellow(s, 1);
    RedOrangeYellow(s, 2);
    RedOrangeYellow(s, 3);
    StealFromSoleHolder(s, 0, 1);
  }

  /** With red, orange and yellow possible, a player's quantity is the sum of
      the first three tank slots. */
  lemma RedOrangeYellow(s: seq<int>, p: nat)
    requires CardSlotsValid(s) && p < PlayerCount
    requires s[32] == 1 && s[33] == 2 && s[34] == 3
    ensures ColourQuantity(s, p, 0) == s[p * 8] && ColourQuantity(s, p, 1) == s[p * 8 + 1]
    ensures ColourQuantity(s, p, 2) == s[p * 8 + 2]
    ensures Quantity(s, p) == s[p * 8] + s[p * 8 + 1] + s[p * 8 + 2]
  {
  }

  /** When one other player alone holds cards of the possible colours, the
      steal goes to that player. */
  lemma StealFromSoleHolder(s: seq<int>, self: nat, q: nat)
    requires CardSlotsValid(s) && self < PlayerCount && q < PlayerCount && q != self
    requires Quantity(s, q) > 0
    requires forall p :: 0 <= p < PlayerCount && p != self && p != q ==> Quantity(s, p) <= 0
    ensures StealTarget(s, self) == q
  {
  }

  /** `ThiefExample` is such a state. */
  lemma ThiefExampleIsCase()
    ensures ThiefCase(ThiefExample)
  {
    ThiefExampleValid();
    ThiefExampleTanks();
  }

  /** The example's next-card slots. */
  lemma ThiefExampleValid()
    ensures CardSlotsValid(ThiefExample)
    ensures ThiefExample[32] == 1 && ThiefExample[33] == 2 && ThiefExample[34] == 3
    ensures ThiefExample[35] == 1
  {
    var s := ThiefExample;
    assert s[32] == 1 && s[33] == 2 && s[34] == 3 && s[35] == 1;
    forall k | FirstCardSlot <= k < StateSize
      ensures 1 <= s[k] <= 7
    {
      assert k == 32 || k == 33 || k == 34 || k == 35;
    }
  }

  /** The example's red, orange and yellow tank slots. */
  lemma ThiefExampleTanks()
    ensures |ThiefExample| == StateSize
    ensures ThiefExample[0] == 3 && ThiefExample[1] == 0 && ThiefExample[2] == 0
    ensures ThiefExample[8] == 0 && ThiefExample[9] == 1 && ThiefExample[10] == 0
    ensures ThiefExample[16] == 0 && ThiefExample[17] == 0 && ThiefExample[18] == 0
    ensures ThiefExample[24] == 0 && ThiefExample[25] == 0 && ThiefExample[26] == 0
  {
  }

  /** How many cards of the k-th possible colour player p holds. */
  function ColourQuantity(s: seq<int>, p: nat, k: nat): int
    requires CardSlotsValid(s) && p < PlayerCount && k < 3
  {
    s[TankSlot(p, s[FirstCardSlot + k])]
  }

  /** Holds at least one card of each of the next card's three possible
      colours. */
  predicate HoldsAllPossible(s: seq<int>, p: nat)
    requires CardSlotsValid(s) && p < PlayerCount
  {
    ColourQuantity(s, p, 0) > 0 && ColourQuantity(s, p, 1) > 0 && ColourQuantity(s, p, 2) > 0
  }

  /** The thief as its description puts it: score when holding every
      possible colour, otherwise the same steal choice, which never robs a
      player holding none of the possible colours. */
  function ThiefBotIntended(s: seq<int>, self: nat): (r: int)
    requires CardSlotsValid(s) && self < PlayerCount
    ensures 0 <= r < PlayerCount
    ensures HoldsAllPossible(s, self) ==> r == self
    ensures !HoldsAllPossible(s, self) ==> r == StealTarget(s, self)
    ensures r != self ==> Quantity(s, r) > 0
  {
    if HoldsAllPossible(s, self) then self else StealTarget(s, self)
  }

  /** The quantity test and the colour test agree as long as the thief holds
      at most one card of each possible colour. */
  lemma ThiefAgreesWhenSingles(s: seq<int>, self: nat)
    requires CardSlotsValid(s) && self < PlayerCount
    requires forall k :: 0 <= k < 3 ==> 0 <= ColourQuantity(s, self, k) <= 1
    ensures ThiefBot(s, self) == ThiefBotIntended(s, self)
  {
    assert 0 <= ColourQuantity(s, self, 0) <= 1;
    assert 0 <= ColourQuantity(s, self, 1) <= 1;
    assert 0 <= ColourQuantity(s, self, 2) <= 1;
  }
}
