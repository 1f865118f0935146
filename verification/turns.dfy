/** What a turn of the object engine (`Player.action` with `scoreColour` and
    `stealColour`, mantis_logic.py) does to the cards, and the turn the
    rules intend, in which every card of the drawn colour moves. */
module Turns {
  import opened Results
  import opened Sequences
  import opened Colours
  import opened Cards
  import opened MantisLogic

  // ---------------------------------------------------------------------
  // Multiset bookkeeping

  /** Replacing player i by p, where p holds what player i held plus `gain`
      minus `loss`, changes the holdings by the same amounts. */
  lemma ReplaceHolder(players: seq<Player>, i: nat, p: Player, gain: multiset<Card>, loss: multiset<Card>)
    requires i < |players|
    requires Held(p) + loss == Held(players[i]) + gain
    ensures Holdings(players[i := p]) + loss == Holdings(players) + gain
  {
    var after, before := Holdings(players[i := p]), Holdings(players);
    HoldingsUpdate(players, i, p);
    forall x
      ensures (after + loss)[x] == (before + gain)[x]
    {
      assert (after + Held(players[i]))[x] == (before + Held(p))[x];
      assert (Held(p) + loss)[x] == (Held(players[i]) + gain)[x];
    }
    assert after + loss == before + gain;
  }

  lemma DrawnCard(g: Game)
    requires |g.deck| > 0
    ensures multiset(g.deck) == multiset(g.deck[..|g.deck| - 1]) + multiset{Top(g)}
  {
    assert g.deck == g.deck[..|g.deck| - 1] + [Top(g)];
  }

  /** A split of `tank + [top]` into kept and moved cards that loses nothing. */
  predicate SplitsWithTop(tank: seq<Card>, top: Card, kept: seq<Card>, moved: seq<Card>)
  {
    multiset(kept) + multiset(moved) == multiset(tank) + multiset{top}
  }

  lemma WalkSplits(tank: seq<Card>, top: Card, colour: string)
    ensures SplitsWithTop(tank, top, Walk(tank + [top], colour).0, Walk(tank + [top], colour).1)
  {
    WalkConserves(tank + [top], colour);
  }

  lemma FilterSplits(tank: seq<Card>, top: Card, colour: string)
    ensures SplitsWithTop(tank, top, NotMatching(tank + [top], colour), Matching(tank + [top], colour))
  {
    PartitionByColour(tank + [top], colour);
  }

  /** A scoring player keeps and scores what the split says: the cards held
      grow by the drawn card. */
  lemma ScoreHolds(me: Player, top: Card, kept: seq<Card>, moved: seq<Card>)
    requires SplitsWithTop(me.tank, top, kept, moved)
    ensures Held(me.(tank := kept, score := me.score + moved)) + multiset{} == Held(me) + multiset{top}
  {
    var lhs := Held(me.(tank := kept, score := me.score + moved)) + multiset{};
    var rhs := Held(me) + multiset{top};
    forall x
      ensures lhs[x] == rhs[x]
    {
      assert (multiset(kept) + multiset(moved))[x] == (multiset(me.tank) + multiset{top})[x];
    }
    assert lhs == rhs;
  }

  /** The robbed player loses the moved cards and gains the drawn one. */
  lemma RobbedHolds(them: Player, top: Card, kept: seq<Card>, moved: seq<Card>)
    requires SplitsWithTop(them.tank, top, kept, moved)
    ensures Held(them.(tank := kept)) + multiset(moved) == Held(them) + multiset{top}
  {
    var lhs := Held(them.(tank := kept)) + multiset(moved);
    var rhs := Held(them) + multiset{top};
    forall x
      ensures lhs[x] == rhs[x]
    {
      assert (multiset(kept) + multiset(moved))[x] == (multiset(them.tank) + multiset{top})[x];
    }
    assert lhs == rhs;
  }

  /** The thief gains exactly the moved cards. */
  lemma ThiefHolds(me: Player, moved: seq<Card>)
    ensures Held(me.(tank := me.tank + moved)) + multiset{} == Held(me) + multiset(moved)
  {
    var lhs := Held(me.(tank := me.tank + moved)) + multiset{};
    var rhs := Held(me) + multiset(moved);
    forall x
      ensures lhs[x] == rhs[x]
    {
    }
    assert lhs == rhs;
  }

  /** A turn whose drawn card lands in player `land` and whose scoring or
      stealing splits `tank + [top]` into kept and moved cards. The turn as
      written and the intended turn differ only in that split. */
  function Settle(g: Game, a: nat, t: nat, deck: seq<Card>, top: Card, kept: seq<Card>, moved: seq<Card>): Game
    requires a < |g.players| && t < |g.players|
  {
    var me := g.players[a];
    if me.name == g.players[t].name then
      Game(g.players[a := me.(tank := kept, score := me.score + moved)], deck)
    else
      Game(g.players[t := g.players[t].(tank := kept)][a := me.(tank := me.tank + moved)], deck)
  }

  lemma SettleConserves(g: Game, a: nat, t: nat, kept: seq<Card>, moved: seq<Card>)
    requires a < |g.players| && t < |g.players| && |g.deck| > 0
    requires SplitsWithTop(g.players[Lands(g, a, t)].tank, Top(g), kept, moved)
    ensures AllCards(Settle(g, a, t, g.deck[..|g.deck| - 1], Top(g), kept, moved)) == AllCards(g)
  {
    var top, deck := Top(g), g.deck[..|g.deck| - 1];
    var after := Settle(g, a, t, deck, top, kept, moved);
    assert Holdings(after.players) == Holdings(g.players) + multiset{top} by {
      if g.players[a].name == g.players[t].name {
        ScoreSettle(g.players, a, top, kept, moved);
      } else {
        StealSettle(g.players, a, t, top, kept, moved);
      }
    }
    DrawnCard(g);
    var lhs, rhs := AllCards(after), AllCards(g);
    forall x
      ensures lhs[x] == rhs[x]
    {
      assert multiset(g.deck)[x] == (multiset(deck) + multiset{top})[x];
    }
    assert lhs == rhs;
  }

  lemma ScoreSettle(players: seq<Player>, a: nat, top: Card, kept: seq<Card>, moved: seq<Card>)
    requires a < |players|
    requires SplitsWithTop(players[a].tank, top, kept, moved)
    ensures Holdings(players[a := players[a].(tank := kept, score := players[a].score + moved)])
            == Holdings(players) + multiset{top}
  {
    var me := players[a];
    ScoreHolds(me, top, kept, moved);
    ReplaceHolder(players, a, me.(tank := kept, score := me.score + moved), multiset{top}, multiset{});
  }

  lemma StealSettle(players: seq<Player>, a: nat, t: nat, top: Card, kept: seq<Card>, moved: seq<Card>)
    requires a < |players| && t < |players| && a != t
    requires SplitsWithTop(players[t].tank, top, kept, moved)
    ensures Holdings(players[t := players[t].(tank := kept)][a := players[a].(tank := players[a].tank + moved)])
            == Holdings(players) + multiset{top}
  {
    var me, them := players[a], players[t];
    var p1 := players[t := them.(tank := kept)];
    var p2 := p1[a := me.(tank := me.tank + moved)];
    RobbedHolds(them, top, kept, moved);
    ReplaceHolder(players, t, them.(tank := kept), multiset{top}, multiset(moved));
    assert p1[a] == me;
    ThiefHolds(me, moved);
    ReplaceHolder(p1, a, me.(tank := me.tank + moved), multiset(moved), multiset{});
    var h0, h1, h2 := Holdings(players), Holdings(p1), Holdings(p2);
    forall x
      ensures h2[x] == (h0 + multiset{top})[x]
    {
      assert (h1 + multiset(moved))[x] == (h0 + multiset{top})[x];
      assert (h2 + multiset{})[x] == (h1 + multiset(moved))[x];
    }
    assert h2 == h0 + multiset{top};
  }

  /** The turn as written is a `Settle` with the split its loops make. */
  lemma WrittenIsSettle(g: Game, a: nat, t: nat)
    requires a < |g.players| && t < |g.players| && |g.deck| > 0
    ensures var land := g.players[Lands(g, a, t)].tank;
            var top := Top(g);
            && (!HasColour(land, top.colour) ==>
                  PlayerAction(g, a, t) == Ok(Settle(g, a, t, g.deck[..|g.deck| - 1], top, land + [top], [])))
            && (HasColour(land, top.colour) && ValidateColour(top.colour) ==>
                  var w := Walk(land + [top], top.colour);
                  PlayerAction(g, a, t) == Ok(Settle(g, a, t, g.deck[..|g.deck| - 1], top, w.0, w.1)))
  {
    var me := g.players[a];
    assert me.score + [] == me.score && me.tank + [] == me.tank;
    if me.name != g.players[t].name {
      var p1 := g.players[t := g.players[t].(tank := g.players[t].tank + [Top(g)])];
      assert p1[a] == me;
      assert p1[a := me.(tank := me.tank + [])] == p1;
    }
  }

  // ---------------------------------------------------------------------
  // The turn as written

  /** A turn loses and invents no card: the drawn card and everything the
      loops move stay among the players. */
  lemma ActionConserves(g: Game, a: nat, t: nat, g': Game)
    requires a < |g.players| && t < |g.players|
    requires PlayerAction(g, a, t) == Ok(g')
    ensures AllCards(g') == AllCards(g)
    ensures |g'.deck| + 1 == |g.deck|
  {
    var top := Top(g);
    var land := g.players[Lands(g, a, t)];
    WrittenIsSettle(g, a, t);
    if !HasColour(land.tank, top.colour) {
      assert SplitsWithTop(land.tank, top, land.tank + [top], []);
      SettleConserves(g, a, t, land.tank + [top], []);
    } else {
      WalkSplits(land.tank, top, top.colour);
      var w := Walk(land.tank + [top], top.colour);
      SettleConserves(g, a, t, w.0, w.1);
    }
  }

  /** Without a card of the drawn colour in the tank it lands in, the drawn
      card is appended there and nothing else changes. */
  lemma ActionNoMatch(g: Game, a: nat, t: nat, g': Game)
    requires a < |g.players| && t < |g.players|
    requires PlayerAction(g, a, t) == Ok(g')
    requires !HasColour(g.players[Lands(g, a, t)].tank, Top(g).colour)
    ensures g'.players[Lands(g, a, t)] == g.players[Lands(g, a, t)].(tank := g.players[Lands(g, a, t)].tank + [Top(g)])
    ensures forall i :: 0 <= i < |g.players| && i != Lands(g, a, t) ==> g'.players[i] == g.players[i]
  {
  }

  /** With a match, the first card of the drawn colour in the landing tank
      always reaches its destination: the actor's score pile when scoring,
      the actor's tank when stealing. At least half of the matching cards
      (drawn card included) move. */
  lemma ActionMovesFirstMatch(g: Game, a: nat, t: nat, g': Game)
    requires a < |g.players| && t < |g.players|
    requires PlayerAction(g, a, t) == Ok(g')
    requires HasColour(g.players[Lands(g, a, t)].tank, Top(g).colour)
    ensures |Matching(g.players[Lands(g, a, t)].tank, Top(g).colour)| > 0
    ensures var first := Matching(g.players[Lands(g, a, t)].tank, Top(g).colour)[0];
            if Lands(g, a, t) == a then first in g'.players[a].score
            else first in g'.players[a].tank
    ensures var moved := Walk(g.players[Lands(g, a, t)].tank + [Top(g)], Top(g).colour).1;
            |Matching(g.players[Lands(g, a, t)].tank + [Top(g)], Top(g).colour)| <= 2 * |moved|
  {
    var top, land := Top(g), g.players[Lands(g, a, t)];
    var s := land.tank + [top];
    var w := Walk(s, top.colour);
    assert HasColour(s, top.colour) by {
      var i :| 0 <= i < |land.tank| && land.tank[i].colour == top.colour;
      assert s[i] == land.tank[i];
    }
    WalkMovesFirstMatch(s, top.colour);
    WalkMovesHalf(s, top.colour);
    MatchingNonEmpty(land.tank, top.colour);
    FilterConcatFirst(land.tank, [top], top.colour);
    var first := Matching(land.tank, top.colour)[0];
    assert w.1[0] == first;
    if Lands(g, a, t) == a {
      assert g'.players[a].score == land.score + w.1;
      assert first == g'.players[a].score[|land.score|];
    } else {
      var me := g.players[a];
      assert g'.players[a].tank == me.tank + w.1;
      assert first == g'.players[a].tank[|me.tank|];
    }
  }

  /** The first match of `a + b` is the first match of `a` when `a` has one. */
  lemma {:induction false} FilterConcatFirst(a: seq<Card>, b: seq<Card>, colour: string)
    requires |Matching(a, colour)| > 0
    ensures |Matching(a + b, colour)| > 0
    ensures Matching(a + b, colour)[0] == Matching(a, colour)[0]
    decreases |a|
  {
    assert (a + b)[0] == a[0];
    if a[0].colour != colour {
      assert (a + b)[1..] == a[1..] + b;
      FilterConcatFirst(a[1..], b, colour);
    }
  }

  /** The loops of `scoreColour` and `stealColour` remove from the list they
      iterate over, so the card after each removed one is never examined:
      a player whose tank holds one card of the drawn colour, and who
      scores, scores that card and keeps the drawn one. */
  lemma WrittenScoreSkipsDrawn(g: Game, a: nat)
    requires a < |g.players| && |g.deck| > 0
    requires |g.players[a].tank| == 1 && g.players[a].tank[0].colour == Top(g).colour
    requires ValidateColour(Top(g).colour)
    ensures PlayerAction(g, a, a).Ok?
    ensures PlayerAction(g, a, a).value.players[a].tank == [Top(g)]
    ensures PlayerAction(g, a, a).value.players[a].score == g.players[a].score + g.players[a].tank
  {
    var me, top := g.players[a], Top(g);
    assert HasColour(me.tank, top.colour);
    WrittenIsSettle(g, a, a);
    var s := me.tank + [top];
    assert s[0] == me.tank[0] && s[1] == top && |s| == 2;
    assert s[2..] == [] && Walk(s[2..], top.colour) == ([], []);
    assert me.tank == [s[0]];
    assert [s[1]] + [] == [top] && [s[0]] + [] == me.tank;
    assert Walk(s, top.colour) == ([top], me.tank);
  }

  /** A concrete instance: one red card in the tank, another red card drawn. */
  lemma WrittenActionLeavesMatch()
    ensures var red1, red2 := Card(1, ["red", "blue", "green"], "red"), Card(2, ["red", "blue", "green"], "red");
            var r := PlayerAction(Game([Player("A", [red1], [])], [red2]), 0, 0);
            && r.Ok? && r.value.players[0].tank == [red2] && r.value.players[0].score == [red1]
            && HasColour(r.value.players[0].tank, "red")
  {
    var red1, red2 := Card(1, ["red", "blue", "green"], "red"), Card(2, ["red", "blue", "green"], "red");
    var g := Game([Player("A", [red1], [])], [red2]);
    assert ValidateColour("red") by {
      ValidateColourExamples();
    }
    WrittenScoreSkipsDrawn(g, 0);
    assert [] + [red1] == [red1];
    assert [red2][0].colour == "red";
  }

  /** Where no two cards of the colour are adjacent, the written loop and the
      intended filter agree. */
  lemma {:induction false} WalkIsFilterWhenSpread(s: seq<Card>, colour: string)
    requires forall i :: 0 <= i < |s| - 1 && s[i].colour == colour ==> s[i + 1].colour != colour
    ensures Walk(s, colour) == (NotMatching(s, colour), Matching(s, colour))
    decreases |s|
  {
    if |s| >= 2 && s[0].colour == colour {
      assert s[1].colour != colour;
      var rest := s[2..];
      assert s[1..][1..] == rest;
      forall i | 0 <= i < |rest| - 1 && rest[i].colour == colour
        ensures rest[i + 1].colour != colour
      {
        assert rest[i] == s[i + 2] && rest[i + 1] == s[i + 3];
      }
      WalkIsFilterWhenSpread(rest, colour);
    } else if |s| > 0 && s[0].colour != colour {
      var rest := s[1..];
      forall i | 0 <= i < |rest| - 1 && rest[i].colour == colour
        ensures rest[i + 1].colour != colour
      {
        assert rest[i] == s[i + 1] && rest[i + 1] == s[i + 2];
      }
      WalkIsFilterWhenSpread(rest, colour);
      assert Walk(s, colour) == ([s[0]] + Walk(rest, colour).0, Walk(rest, colour).1);
      assert NotMatching(s, colour) == [s[0]] + NotMatching(rest, colour);
      assert Matching(s, colour) == Matching(rest, colour);
    } else if |s| == 1 {
      assert Matching(s[1..], colour) == [] && NotMatching(s[1..], colour) == [];
      assert [s[0]] + [] == [s[0]];
    }
  }

  // ---------------------------------------------------------------------
  // The intended turn

  /** The turn with scoring and stealing moving every card of the drawn
      colour, the behaviour the rules describe. */
  function ActionIntended(g: Game, a: nat, t: nat): (r: Result<Game>)
    requires a < |g.players| && t < |g.players|
    ensures r.Err? <==> (|g.deck| == 0
              || (HasColour(g.players[Lands(g, a, t)].tank, Top(g).colour) && !ValidateColour(Top(g).colour)))
    ensures r.Err? ==> r.error == (if |g.deck| == 0 then IndexError else AssertionError)
    ensures r.Ok? ==> r.value.deck == g.deck[..|g.deck| - 1] && |r.value.players| == |g.players|
    ensures r.Ok? ==> forall i :: 0 <= i < |g.players| ==> r.value.players[i].name == g.players[i].name
    ensures r.Ok? ==> forall i :: 0 <= i < |g.players| && i != a && i != t ==> r.value.players[i] == g.players[i]
  {
    if |g.deck| == 0 then Err(IndexError)
    else
      var top, deck := Top(g), g.deck[..|g.deck| - 1];
      var land := g.players[Lands(g, a, t)].tank;
      if !HasColour(land, top.colour) then Ok(Settle(g, a, t, deck, top, land + [top], []))
      else if !ValidateColour(top.colour) then Err(AssertionError)
      else
        var s := land + [top];
        Ok(Settle(g, a, t, deck, top, NotMatching(s, top.colour), Matching(s, top.colour)))
  }

  /** After an intended turn that found a match, no card of the drawn colour
      is left in the tank it landed in, and every such card (the drawn one
      included) has reached the destination, in tank order. */
  lemma IntendedMovesAll(g: Game, a: nat, t: nat, g': Game)
    requires a < |g.players| && t < |g.players|
    requires ActionIntended(g, a, t) == Ok(g')
    requires HasColour(g.players[Lands(g, a, t)].tank, Top(g).colour)
    ensures !HasColour(g'.players[Lands(g, a, t)].tank, Top(g).colour)
    ensures var moved := Matching(g.players[Lands(g, a, t)].tank + [Top(g)], Top(g).colour);
            if Lands(g, a, t) == a then g'.players[a].score == g.players[a].score + moved
            else g'.players[a].tank == g.players[a].tank + moved
  {
    var top, land := Top(g), g.players[Lands(g, a, t)];
    var kept := NotMatching(land.tank + [top], top.colour);
    assert g'.players[Lands(g, a, t)].tank == kept;
  }

  /** The intended turn loses and invents no card either. */
  lemma IntendedConserves(g: Game, a: nat, t: nat, g': Game)
    requires a < |g.players| && t < |g.players|
    requires ActionIntended(g, a, t) == Ok(g')
    ensures AllCards(g') == AllCards(g)
  {
    var top, deck := Top(g), g.deck[..|g.deck| - 1];
    var land := g.players[Lands(g, a, t)];
    if !HasColour(land.tank, top.colour) {
      assert SplitsWithTop(land.tank, top, land.tank + [top], []);
      SettleConserves(g, a, t, land.tank + [top], []);
    } else {
      FilterSplits(land.tank, top, top.colour);
      SettleConserves(g, a, t, NotMatching(land.tank + [top], top.colour), Matching(land.tank + [top], top.colour));
    }
  }

  /** Both turns agree whenever the cards of the drawn colour in the landing
      tank, drawn card included, are never adjacent; in particular whenever
      there is no match. */
  lemma WrittenAgreesWhenSpread(g: Game, a: nat, t: nat)
    requires a < |g.players| && t < |g.players| && |g.deck| > 0
    requires var s := g.players[Lands(g, a, t)].tank + [Top(g)];
             forall i :: 0 <= i < |s| - 1 && s[i].colour == Top(g).colour ==> s[i + 1].colour != Top(g).colour
    ensures PlayerAction(g, a, t) == ActionIntended(g, a, t)
  {
    var top, land := Top(g), g.players[Lands(g, a, t)];
    WrittenIsSettle(g, a, t);
    if HasColour(land.tank, top.colour) {
      WalkIsFilterWhenSpread(land.tank + [top], top.colour);
    }
  }
}
