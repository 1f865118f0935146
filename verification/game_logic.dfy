/** The count-vector engine of src/game/game_logic.py.

    The whole game is a list of 36 integers. For player p in 0..3 and colour c
    in 1..7, slot `p*8 + c - 1` counts the cards of colour c in p's tank and
    slot `p*8 + 7` is p's score. Slots 32..34 hold the next card's three
    possible colours and slot 35 its actual colour. Random draws are inputs. */
module GameLogic {
  import opened Results
  import opened Sequences
  import opened Sampling
  import Colours

  const StateSize := 36
  const PlayerCount := 4
  const SlotsPerPlayer := 8
  const DealtCards := 4
  /** `self.goal` after construction. */
  const DefaultGoal := 10
  const FirstCardSlot := 32
  const ActualSlot := 35

  /** Slot `offset` (0..7) of player p; offset 7 is the score. */
  function Slot(p: int, offset: int): int { p * 8 + offset }

  function TankSlot(p: int, c: int): int { Slot(p, c - 1) }

  function ScoreSlot(p: int): int { Slot(p, 7) }

  /** The next card's slots hold colours the tank slots can be indexed by. */
  predicate CardSlotsValid(s: seq<int>)
  {
    |s| == StateSize && forall k :: FirstCardSlot <= k < StateSize ==> 1 <= s[k] <= 7
  }

  /** Every tank and score slot is a count. */
  predicate Counts(s: seq<int>)
  {
    |s| == StateSize && forall k :: 0 <= k < FirstCardSlot ==> s[k] >= 0
  }

  /** All cards held in tanks and score piles. */
  function CardCount(s: seq<int>): int
    requires |s| == StateSize
  {
    Sum(s[..FirstCardSlot])
  }

  /** The number of cards in player p's tank. */
  function TankTotal(s: seq<int>, p: nat): int
    requires |s| == StateSize && p < PlayerCount
  {
    Sum(s[Slot(p, 0)..Slot(p, 7)])
  }

  // ---------------------------------------------------------------------------
  // Cards

  /** `generate_card`: three distinct possible colours, then the actual colour
      drawn from among them. */
  function GenerateCard(d: CardDraw): (card: seq<int>)
    requires ValidCardDraw(d)
    ensures |card| == 4
    ensures Distinct(card[..3])
    ensures forall k :: 0 <= k < 3 ==> 1 <= card[k] <= 7
    ensures card[3] in card[..3]
  {
    var possible := PossibleIndices(d);
    var card := possible + [possible[d.actual]];
    assert card[..3] == possible;
    card
  }

  /** Every card of the promised shape is one `generate_card` can return. */
  lemma {:induction false} GenerateCardReachesEvery(card: seq<int>)
    requires |card| == 4 && Distinct(card[..3])
    requires forall k :: 0 <= k < 3 ==> 1 <= card[k] <= 7
    requires card[3] in card[..3]
    ensures exists d :: ValidCardDraw(d) && GenerateCard(d) == card
  {
    var possible := card[..3];
    forall x | x in possible
      ensures x in ColourIndices
    {
      var k :| 0 <= k < 3 && possible[k] == x;
    }
    SampleReachesEvery(ColourIndices, possible);
    var picks :| ValidPicks(picks, |ColourIndices|) && Sample(ColourIndices, picks) == possible;
    var a :| 0 <= a < 3 && possible[a] == card[3];
    var d := CardDraw(picks, a);
    assert ValidCardDraw(d);
    assert GenerateCard(d) == possible + [card[3]];
    assert card == possible + [card[3]];
  }

  /** `new_card`: the last four slots take a fresh card; nothing else changes. */
  function NewCard(s: seq<int>, d: CardDraw): (r: seq<int>)
    requires |s| == StateSize && ValidCardDraw(d)
    ensures |r| == StateSize
    ensures r[..FirstCardSlot] == s[..FirstCardSlot]
    ensures CardSlotsValid(r)
    ensures Distinct(r[FirstCardSlot..ActualSlot])
    ensures r[ActualSlot] in r[FirstCardSlot..ActualSlot]
  {
    var card := GenerateCard(d);
    var r := s[..FirstCardSlot] + card;
    assert r[FirstCardSlot..ActualSlot] == card[..3];
    assert r[ActualSlot] == card[3];
    assert forall k :: FirstCardSlot <= k < StateSize ==> r[k] == card[k - FirstCardSlot];
    r
  }

  // ---------------------------------------------------------------------------
  // Reset

  /** The four `randint(0, 7)` offsets dealt to player p. */
  function Hand(deals: seq<int>, p: nat): seq<int>
    requires |deals| == PlayerCount * DealtCards && p < PlayerCount
  {
    deals[p * 4..p * 4 + 4]
  }

  /** `reset_state`: zero the vector; for each player add one to slot
      `randint(0, 7) + p*8` four times, then zero the score; then draw the next
      card. Offset 7 is the score slot, so a draw of 7 is dealt into the score
      and then wiped: each tank holds four cards minus the sevens drawn. */
  method ResetState(deals: seq<int>, d: CardDraw) returns (s: seq<int>)
    requires |deals| == PlayerCount * DealtCards
    requires forall k :: 0 <= k < |deals| ==> 0 <= deals[k] <= 7
    requires ValidCardDraw(d)
    ensures Counts(s) && CardSlotsValid(s)
    ensures Distinct(s[FirstCardSlot..ActualSlot]) && s[ActualSlot] in s[FirstCardSlot..ActualSlot]
    ensures forall p :: 0 <= p < PlayerCount ==> s[ScoreSlot(p)] == 0
    ensures forall p, c :: 0 <= p < PlayerCount && 1 <= c <= 7 ==>
              s[TankSlot(p, c)] == multiset(Hand(deals, p))[c - 1]
    ensures forall p :: 0 <= p < PlayerCount ==>
              TankTotal(s, p) == DealtCards - multiset(Hand(deals, p))[7] <= DealtCards
  {
    var dealt := DealAll(deals);
    s := NewCard(dealt, d);
    forall k | 0 <= k < FirstCardSlot
      ensures s[k] == dealt[k]
    {
      assert s[k] == s[..FirstCardSlot][k];
    }
    forall p | 0 <= p < PlayerCount
      ensures TankTotal(s, p) == DealtCards - multiset(Hand(deals, p))[7]
    {
      var hand := Hand(deals, p);
      assert forall k :: 0 <= k < |hand| ==> hand[k] == deals[p * 4 + k];
      TankTotalFromCounts(s, p, hand);
    }
  }

  /** The dealing loops of `reset_state`, before the next card is drawn. */
  method DealAll(deals: seq<int>) returns (s: seq<int>)
    requires |deals| == PlayerCount * DealtCards
    requires forall k :: 0 <= k < |deals| ==> 0 <= deals[k] <= 7
    ensures |s| == StateSize
    ensures forall k :: 0 <= k < StateSize ==> s[k] >= 0
    ensures forall q, o :: 0 <= q < PlayerCount && 0 <= o < 7 ==> s[Slot(q, o)] == multiset(Hand(deals, q))[o]
    ensures forall q :: 0 <= q < PlayerCount ==> s[Slot(q, 7)] == 0
  {
    s := seq(StateSize, _ => 0);
    var player := 0;
    while player < PlayerCount
      invariant 0 <= player <= PlayerCount && |s| == StateSize
      invariant forall k :: 0 <= k < StateSize ==> s[k] >= 0
      invariant forall q, o :: 0 <= q < player && 0 <= o < 7 ==> s[Slot(q, o)] == multiset(Hand(deals, q))[o]
      invariant forall q :: 0 <= q < player ==> s[Slot(q, 7)] == 0
      invariant forall k :: Slot(player, 0) <= k < StateSize ==> s[k] == 0
    {
      var hand := Hand(deals, player);
      assert forall k :: 0 <= k < |hand| ==> hand[k] == deals[player * 4 + k];
      var dealt := DealHand(s, player, hand);
      DealAllStep(deals, s, dealt, player);
      s := dealt[Slot(player, 7) := 0];
      player := player + 1;
    }
  }

  /** One iteration of the outer dealing loop keeps its invariant. */
  lemma DealAllStep(deals: seq<int>, before: seq<int>, dealt: seq<int>, player: nat)
    requires |deals| == PlayerCount * DealtCards && player < PlayerCount
    requires |before| == StateSize && |dealt| == StateSize
    requires forall q, o :: 0 <= q < player && 0 <= o < 7 ==> before[Slot(q, o)] == multiset(Hand(deals, q))[o]
    requires forall q :: 0 <= q < player ==> before[Slot(q, 7)] == 0
    requires forall k :: Slot(player, 0) <= k < StateSize ==> before[k] == 0
    requires forall k :: 0 <= k < StateSize ==> dealt[k] >= 0
    requires forall o :: 0 <= o < 8 ==> dealt[Slot(player, o)] == multiset(Hand(deals, player))[o]
    requires forall k :: 0 <= k < StateSize && !(Slot(player, 0) <= k < Slot(player, 8)) ==> dealt[k] == before[k]
    ensures var s := dealt[Slot(player, 7) := 0];
            && (forall k :: 0 <= k < StateSize ==> s[k] >= 0)
            && (forall q, o :: 0 <= q < player + 1 && 0 <= o < 7 ==> s[Slot(q, o)] == multiset(Hand(deals, q))[o])
            && (forall q :: 0 <= q < player + 1 ==> s[Slot(q, 7)] == 0)
            && (forall k :: Slot(player + 1, 0) <= k < StateSize ==> s[k] == 0)
  {
    var s := dealt[Slot(player, 7) := 0];
    forall q, o | 0 <= q <= player && 0 <= o < 7
      ensures s[Slot(q, o)] == multiset(Hand(deals, q))[o]
    {
      if q < player {
        assert Slot(q, o) < Slot(player, 0);
        assert s[Slot(q, o)] == dealt[Slot(q, o)] == before[Slot(q, o)];
      } else {
        assert s[Slot(q, o)] == dealt[Slot(player, o)];
      }
    }
    forall q | 0 <= q <= player
      ensures s[Slot(q, 7)] == 0
    {
      if q < player {
        assert s[Slot(q, 7)] == dealt[Slot(q, 7)] == before[Slot(q, 7)];
      }
    }
  }

  /** The inner loop of `reset_state`: each dealt offset adds one card to
      that slot of player p, so afterwards every slot of p counts the offsets
      dealt to it; no other player's slot changes. */
  method DealHand(s0: seq<int>, p: nat, hand: seq<int>) returns (s: seq<int>)
    requires |s0| == StateSize && p < PlayerCount
    requires forall k :: 0 <= k < |hand| ==> 0 <= hand[k] <= 7
    requires forall o :: 0 <= o < 8 ==> s0[Slot(p, o)] == 0
    requires forall k :: 0 <= k < StateSize ==> s0[k] >= 0
    ensures |s| == StateSize
    ensures forall k :: 0 <= k < StateSize ==> s[k] >= 0
    ensures forall o :: 0 <= o < 8 ==> s[Slot(p, o)] == multiset(hand)[o]
    ensures forall k :: 0 <= k < StateSize && !(Slot(p, 0) <= k < Slot(p, 8)) ==> s[k] == s0[k]
  {
    s := s0;
    var i := 0;
    while i < |hand|
      invariant 0 <= i <= |hand| && |s| == StateSize
      invariant forall k :: 0 <= k < StateSize ==> s[k] >= 0
      invariant forall o :: 0 <= o < 8 ==> s[Slot(p, o)] == multiset(hand[..i])[o]
      invariant forall k :: 0 <= k < StateSize && !(Slot(p, 0) <= k < Slot(p, 8)) ==> s[k] == s0[k]
    {
      var offset := hand[i];
      assert hand[..i + 1] == hand[..i] + [offset];
      var index := offset + p * 8;
      assert index == Slot(p, offset);
      s := s[index := s[index] + 1];
      i := i + 1;
    }
    assert hand[..i] == hand;
  }

  /** Sum of the counts of the values 0..n-1 in xs. */
  function CountBelow(xs: seq<int>, n: nat): nat
  {
    if n == 0 then 0 else CountBelow(xs, n - 1) + multiset(xs)[n - 1]
  }

  lemma {:induction false} CountBelowSnoc(xs: seq<int>, x: int, n: nat)
    ensures CountBelow(xs + [x], n) == CountBelow(xs, n) + (if 0 <= x < n then 1 else 0)
  {
    if n > 0 {
      CountBelowSnoc(xs, x, n - 1);
      assert multiset(xs + [x]) == multiset(xs) + multiset{x};
    }
  }

  /** Counting every value in range counts every element. */
  lemma {:induction false} CountBelowAll(xs: seq<int>, n: nat)
    requires forall k :: 0 <= k < |xs| ==> 0 <= xs[k] < n
    ensures CountBelow(xs, n) == |xs|
    decreases |xs|
  {
    if |xs| > 0 {
      var init := xs[..|xs| - 1];
      assert xs == init + [xs[|xs| - 1]];
      CountBelowAll(init, n);
      CountBelowSnoc(init, xs[|xs| - 1], n);
    } else {
      CountBelowZero(n);
    }
  }

  lemma {:induction false} CountBelowZero(n: nat)
    ensures CountBelow([], n) == 0
  {
    if n > 0 {
      CountBelowZero(n - 1);
    }
  }

  /** If each tank slot of p counts one colour offset of `hand`, the tank
      holds the hand minus its sevens. */
  lemma TankTotalFromCounts(s: seq<int>, p: nat, hand: seq<int>)
    requires |s| == StateSize && p < PlayerCount
    requires forall o :: 0 <= o < 7 ==> s[Slot(p, o)] == multiset(hand)[o]
    requires forall k :: 0 <= k < |hand| ==> 0 <= hand[k] <= 7
    ensures TankTotal(s, p) == |hand| - multiset(hand)[7]
  {
    var n := 0;
    while n < 7
      invariant 0 <= n <= 7
      invariant Sum(s[Slot(p, 0)..Slot(p, n)]) == CountBelow(hand, n)
    {
      assert s[Slot(p, 0)..Slot(p, n + 1)] == s[Slot(p, 0)..Slot(p, n)] + [s[Slot(p, n)]];
      n := n + 1;
    }
    CountBelowAll(hand, 8);
  }

  /** The as-written deal can leave tanks short: sixteen sevens leave every
      tank empty, although the test expects every tank to total 4. */
  method ResetCanLeaveTankEmpty(d: CardDraw) returns (s: seq<int>)
    requires ValidCardDraw(d)
    ensures |s| == StateSize
    ensures forall p :: 0 <= p < PlayerCount ==> TankTotal(s, p) == 0
  {
    var deals := seq(PlayerCount * DealtCards, _ => 7);
    s := ResetState(deals, d);
    forall p | 0 <= p < PlayerCount
      ensures multiset(Hand(deals, p))[7] == DealtCards
    {
      assert Hand(deals, p) == [7, 7, 7, 7];
    }
  }

  /** The evidently intended deal, `randint(0, 6)`: every tank totals 4 and
      no score is touched. */
  method ResetStateIntended(deals: seq<int>, d: CardDraw) returns (s: seq<int>)
    requires |deals| == PlayerCount * DealtCards
    requires forall k :: 0 <= k < |deals| ==> 0 <= deals[k] <= 6
    requires ValidCardDraw(d)
    ensures Counts(s) && CardSlotsValid(s)
    ensures Distinct(s[FirstCardSlot..ActualSlot]) && s[ActualSlot] in s[FirstCardSlot..ActualSlot]
    ensures forall p :: 0 <= p < PlayerCount ==> s[ScoreSlot(p)] == 0
    ensures forall p :: 0 <= p < PlayerCount ==> TankTotal(s, p) == DealtCards
    ensures CardCount(s) == PlayerCount * DealtCards
  {
    s := ResetState(deals, d);
    forall p | 0 <= p < PlayerCount
      ensures multiset(Hand(deals, p))[7] == 0
    {
      assert forall k :: 0 <= k < DealtCards ==> Hand(deals, p)[k] == deals[p * DealtCards + k];
    }
    CardCountByPlayer(s);
  }

  /** The card count is the four tanks plus the four scores. */
  lemma CardCountByPlayer(s: seq<int>)
    requires |s| == StateSize
    ensures CardCount(s) == TankTotal(s, 0) + s[ScoreSlot(0)] + TankTotal(s, 1) + s[ScoreSlot(1)]
                          + TankTotal(s, 2) + s[ScoreSlot(2)] + TankTotal(s, 3) + s[ScoreSlot(3)]
  {
    forall p | 0 <= p < PlayerCount
      ensures Sum(s[Slot(p, 0)..Slot(p, 8)]) == TankTotal(s, p) + s[ScoreSlot(p)]
    {
      assert s[Slot(p, 0)..Slot(p, 8)] == s[Slot(p, 0)..Slot(p, 7)] + [s[ScoreSlot(p)]];
      SumConcat(s[Slot(p, 0)..Slot(p, 7)], [s[ScoreSlot(p)]]);
      assert Sum([s[ScoreSlot(p)]]) == s[ScoreSlot(p)];
    }
    assert s[..16] == s[0..8] + s[8..16];
    SumConcat(s[0..8], s[8..16]);
    assert s[..24] == s[..16] + s[16..24];
    SumConcat(s[..16], s[16..24]);
    assert s[..32] == s[..24] + s[24..32];
    SumConcat(s[..24], s[24..32]);
  }

  // ---------------------------------------------------------------------------
  // Display names

  /** `convert_color(i, "plain")`: capitalised colour name, or "Unknown". */
  function ConvertColor(i: int): (r: string)
    ensures r == "Unknown" <==> !(1 <= i <= 7)
    ensures 1 <= i <= 7 ==> r == Colours.Capitalised(Colours.Names[i - 1])
    ensures 1 <= i <= 7 ==> Colours.Lower(r) == Colours.Names[i - 1]
  {
    DisplaySpellings();
    if i == 1 then "Red"
    else if i == 2 then "Orange"
    else if i == 3 then "Yellow"
    else if i == 4 then "Green"
    else if i == 5 then "Blue"
    else if i == 6 then "Purple"
    else if i == 7 then "Pink"
    else "Unknown"
  }

  /** The seven display names are the registry names with the first letter
      raised, and lower back to them. */
  lemma DisplaySpellings()
    ensures Colours.Capitalised(Colours.Names[0]) == "Red" && Colours.Lower("Red") == Colours.Names[0]
    ensures Colours.Capitalised(Colours.Names[1]) == "Orange" && Colours.Lower("Orange") == Colours.Names[1]
    ensures Colours.Capitalised(Colours.Names[2]) == "Yellow" && Colours.Lower("Yellow") == Colours.Names[2]
    ensures Colours.Capitalised(Colours.Names[3]) == "Green" && Colours.Lower("Green") == Colours.Names[3]
    ensures Colours.Capitalised(Colours.Names[4]) == "Blue" && Colours.Lower("Blue") == Colours.Names[4]
    ensures Colours.Capitalised(Colours.Names[5]) == "Purple" && Colours.Lower("Purple") == Colours.Names[5]
    ensures Colours.Capitalised(Colours.Names[6]) == "Pink" && Colours.Lower("Pink") == Colours.Names[6]
  {
    DisplaySpelling("red", "Red");
    DisplaySpelling("orange", "Orange");
    DisplaySpelling("yellow", "Yellow");
    DisplaySpelling("green", "Green");
    DisplaySpelling("blue", "Blue");
    DisplaySpelling("purple", "Purple");
    DisplaySpelling("pink", "Pink");
  }

  /** A lower-case ASCII word and its capitalised display form. */
  lemma DisplaySpelling(name: string, display: string)
    requires |name| > 0 && |display| == |name|
    requires 'a' <= name[0] <= 'z' && display[0] as int == name[0] as int - 32
    requires forall k :: 1 <= k < |name| ==> display[k] == name[k] && 'a' <= name[k] <= 'z'
    ensures Colours.Capitalised(name) == display
    ensures Colours.Lower(display) == name
  {
    assert Colours.Capitalised(name) == [display[0]] + name[1..];
    assert forall k :: 0 <= k < |name| ==> Colours.Lower(display)[k] == name[k];
  }

  // ---------------------------------------------------------------------------
  // Game over

  /** `check_gameover`: the first player whose score reaches the goal. */
  function CheckGameover(s: seq<int>, goal: int): (r: Option<nat>)
    requires |s| == StateSize
    ensures r.None? <==> forall p :: 0 <= p < PlayerCount ==> s[ScoreSlot(p)] < goal
    ensures r.Some? ==> r.value < PlayerCount && s[ScoreSlot(r.value)] >= goal
    ensures r.Some? ==> forall p :: 0 <= p < r.value ==> s[ScoreSlot(p)] < goal
  {
    FirstWinnerFrom(s, goal, 0)
  }

  function FirstWinnerFrom(s: seq<int>, goal: int, p: nat): (r: Option<nat>)
    requires |s| == StateSize && p <= PlayerCount
    requires forall q :: 0 <= q < p ==> s[ScoreSlot(q)] < goal
    ensures r.None? <==> forall q :: p <= q < PlayerCount ==> s[ScoreSlot(q)] < goal
    ensures r.Some? ==> p <= r.value < PlayerCount && s[ScoreSlot(r.value)] >= goal
    ensures r.Some? ==> forall q :: 0 <= q < r.value ==> s[ScoreSlot(q)] < goal
    decreases PlayerCount - p
  {
    if p == PlayerCount then None
    else if s[ScoreSlot(p)] >= goal then Some(p)
    else FirstWinnerFrom(s, goal, p + 1)
  }

  // ---------------------------------------------------------------------------
  // Actions

  /** `score_action`: a match empties the tank slot into the score together
      with the drawn card; no match leaves the drawn card as the only card of
      its colour. */
  function ScoreAction(s: seq<int>, p: nat, c: int): (r: seq<int>)
    requires |s| == StateSize && p < PlayerCount && 1 <= c <= 7
    ensures |r| == StateSize
    ensures forall k :: 0 <= k < StateSize && k != TankSlot(p, c) && k != ScoreSlot(p) ==> r[k] == s[k]
    ensures s[TankSlot(p, c)] > 0 ==> r[TankSlot(p, c)] == 0 && r[ScoreSlot(p)] == s[ScoreSlot(p)] + s[TankSlot(p, c)] + 1
    ensures s[TankSlot(p, c)] <= 0 ==> r[TankSlot(p, c)] == 1 && r[ScoreSlot(p)] == s[ScoreSlot(p)]
  {
    var t := TankSlot(p, c);
    var quantity := s[t];
    if quantity > 0 then
      var emptied := s[t := 0];
      emptied[ScoreSlot(p) := emptied[ScoreSlot(p)] + quantity + 1]
    else
      s[t := 1]
  }

  /** `steal_action`: a match empties the target's slot into the thief's slot
      of the same colour together with the drawn card; no match leaves the
      drawn card as the target's only card of its colour. */
  function StealAction(s: seq<int>, p: nat, t: nat, c: int): (r: seq<int>)
    requires |s| == StateSize && p < PlayerCount && t < PlayerCount && 1 <= c <= 7
    ensures |r| == StateSize
    ensures forall k :: 0 <= k < StateSize && k != TankSlot(t, c) && k != TankSlot(p, c) ==> r[k] == s[k]
    ensures p != t && s[TankSlot(t, c)] > 0 ==>
              r[TankSlot(t, c)] == 0 && r[TankSlot(p, c)] == s[TankSlot(p, c)] + s[TankSlot(t, c)] + 1
    ensures p == t && s[TankSlot(t, c)] > 0 ==> r[TankSlot(t, c)] == s[TankSlot(t, c)] + 1
    ensures s[TankSlot(t, c)] <= 0 ==> r[TankSlot(t, c)] == 1 && r[TankSlot(p, c)] == (if p == t then 1 else s[TankSlot(p, c)])
  {
    var from := TankSlot(t, c);
    var quantity := s[from];
    if quantity > 0 then
      var emptied := s[from := 0];
      emptied[TankSlot(p, c) := emptied[TankSlot(p, c)] + quantity + 1]
    else
      s[from := 1]
  }

  /** Scoring adds exactly the drawn card to the cards in play and keeps counts non-negative. */
  lemma ScoreAddsOneCard(s: seq<int>, p: nat, c: int)
    requires Counts(s) && p < PlayerCount && 1 <= c <= 7
    ensures Counts(ScoreAction(s, p, c))
    ensures CardCount(ScoreAction(s, p, c)) == CardCount(s) + 1
  {
    var t := TankSlot(p, c);
    var r := ScoreAction(s, p, c);
    var pre := s[..FirstCardSlot];
    if s[t] > 0 {
      var mid := pre[t := 0];
      SumUpdate(pre, t, 0);
      SumUpdate(mid, ScoreSlot(p), s[ScoreSlot(p)] + s[t] + 1);
      assert r[..FirstCardSlot] == mid[ScoreSlot(p) := s[ScoreSlot(p)] + s[t] + 1];
    } else {
      SumUpdate(pre, t, 1);
      assert r[..FirstCardSlot] == pre[t := 1];
    }
  }

  /** Stealing adds exactly the drawn card to the cards in play, keeps counts
      non-negative and changes no score. */
  lemma StealAddsOneCard(s: seq<int>, p: nat, t: nat, c: int)
    requires Counts(s) && p < PlayerCount && t < PlayerCount && 1 <= c <= 7
    ensures Counts(StealAction(s, p, t, c))
    ensures CardCount(StealAction(s, p, t, c)) == CardCount(s) + 1
    ensures forall q :: 0 <= q < PlayerCount ==> StealAction(s, p, t, c)[ScoreSlot(q)] == s[ScoreSlot(q)]
  {
    var from := TankSlot(t, c);
    var to := TankSlot(p, c);
    var r := StealAction(s, p, t, c);
    var pre := s[..FirstCardSlot];
    if s[from] > 0 {
      var mid := pre[from := 0];
      SumUpdate(pre, from, 0);
      SumUpdate(mid, to, mid[to] + s[from] + 1);
      assert r[..FirstCardSlot] == mid[to := mid[to] + s[from] + 1];
    } else {
      SumUpdate(pre, from, 1);
      assert r[..FirstCardSlot] == pre[from := 1];
    }
  }

  /** `action`: a missing target or one outside 0..3 fails the assertion;
      otherwise the player scores exactly when targeting themself, and steals
      from the target otherwise, using the actual colour of the next card. */
  function Action(s: seq<int>, p: nat, target: Option<nat>): (r: Result<seq<int>>)
    requires |s| == StateSize && p < PlayerCount && 1 <= s[ActualSlot] <= 7
    ensures r.Err? <==> target.None? || target.value >= PlayerCount
    ensures r.Err? ==> r.error == AssertionError
    ensures r.Ok? && target.value == p ==> r.value == ScoreAction(s, p, s[ActualSlot])
    ensures r.Ok? && target.value != p ==> r.value == StealAction(s, p, target.value, s[ActualSlot])
  {
    if target.None? || target.value >= PlayerCount then Err(AssertionError)
    else if target.value == p then Ok(ScoreAction(s, p, s[ActualSlot]))
    else Ok(StealAction(s, p, target.value, s[ActualSlot]))
  }

  /** A valid action adds one card to play, and a score slot can change only
      when the player targets themself. */
  lemma ActionEffects(s: seq<int>, p: nat, target: Option<nat>)
    requires Counts(s) && p < PlayerCount && 1 <= s[ActualSlot] <= 7
    requires Action(s, p, target).Ok?
    ensures Counts(Action(s, p, target).value)
    ensures CardCount(Action(s, p, target).value) == CardCount(s) + 1
    ensures target.value != p ==>
              forall q :: 0 <= q < PlayerCount ==> Action(s, p, target).value[ScoreSlot(q)] == s[ScoreSlot(q)]
    ensures forall q :: 0 <= q < PlayerCount && q != p ==> Action(s, p, target).value[ScoreSlot(q)] == s[ScoreSlot(q)]
  {
    if target.value == p {
      ScoreAddsOneCard(s, p, s[ActualSlot]);
    } else {
      StealAddsOneCard(s, p, target.value, s[ActualSlot]);
    }
  }

  /** `simulate_turn` for a manually controlled player: the target must be
      given; the action is resolved and the next card is generated. */
  function SimulateTurn(s: seq<int>, p: nat, target: Option<nat>, d: CardDraw): (r: Result<seq<int>>)
    requires |s| == StateSize && p < PlayerCount && 1 <= s[ActualSlot] <= 7 && ValidCardDraw(d)
    ensures r.Err? <==> target.None? || target.value >= PlayerCount
    ensures r.Ok? ==> CardSlotsValid(r.value) && r.value[FirstCardSlot..] == GenerateCard(d)
    ensures r.Ok? ==> r.value[..FirstCardSlot] == Action(s, p, target).value[..FirstCardSlot]
  {
    if target.None? then Err(AssertionError)
    else
      match Action(s, p, target)
      case Err(e) => Err(e)
      case Ok(acted) =>
        var r := NewCard(acted, d);
        assert r[FirstCardSlot..] == GenerateCard(d);
        Ok(r)
  }

  /** A turn with a target in range succeeds; the cards in play grow by
      exactly one and counts stay non-negative. */
  lemma SimulateTurnAddsOneCard(s: seq<int>, p: nat, target: Option<nat>, d: CardDraw)
    requires Counts(s) && p < PlayerCount && 1 <= s[ActualSlot] <= 7 && ValidCardDraw(d)
    requires target.Some? && target.value < PlayerCount
    ensures SimulateTurn(s, p, target, d).Ok?
    ensures Counts(SimulateTurn(s, p, target, d).value)
    ensures CardCount(SimulateTurn(s, p, target, d).value) == CardCount(s) + 1
  {
    ActionEffects(s, p, target);
    var r := SimulateTurn(s, p, target, d).value;
    assert r[..FirstCardSlot] == Action(s, p, target).value[..FirstCardSlot];
  }
}
