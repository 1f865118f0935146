/** The data model of the object engine (mantis_logic.py, utils.py).

    A Python `Card` is an object: lists hold references and `list.remove`
    finds a card by identity. The model gives every card a unique `id`, so two
    cards are equal exactly when they are the same object. Colours are the
    strings the program stores: validation ignores case, but every colour
    comparison in the engine is exact string equality. */
module Cards {
  import opened Sequences

  datatype Card = Card(id: nat, possible: seq<string>, colour: string)

  datatype Player = Player(name: string, tank: seq<Card>, score: seq<Card>)

  /** A game: the players in registration order and the deck, whose top
      (next card to draw) is its last element. */
  datatype Game = Game(players: seq<Player>, deck: seq<Card>)

  /** Whether some card of `cards` has exactly this colour. */
  predicate HasColour(cards: seq<Card>, colour: string)
  {
    exists i :: 0 <= i < |cards| && cards[i].colour == colour
  }

  /** The cards of this colour, in their order: the result of
      `get_matching_colours_in_list` once the colour has been validated. */
  function Matching(cards: seq<Card>, colour: string): (r: seq<Card>)
    ensures forall i :: 0 <= i < |r| ==> r[i].colour == colour
    ensures |r| <= |cards|
    decreases |cards|
  {
    if |cards| == 0 then []
    else
      var rest := Matching(cards[1..], colour);
      if cards[0].colour == colour then [cards[0]] + rest else rest
  }

  /** Some card matches exactly when the selection is non-empty. */
  lemma {:induction false} MatchingNonEmpty(cards: seq<Card>, colour: string)
    ensures |Matching(cards, colour)| > 0 <==> HasColour(cards, colour)
    decreases |cards|
  {
    if |cards| > 0 {
      MatchingNonEmpty(cards[1..], colour);
      if HasColour(cards[1..], colour) {
        var i :| 0 <= i < |cards[1..]| && cards[1..][i].colour == colour;
        assert cards[i + 1].colour == colour;
      }
      if HasColour(cards, colour) && cards[0].colour != colour {
        var i :| 0 <= i < |cards| && cards[i].colour == colour;
        assert cards[1..][i - 1].colour == colour;
      }
    }
  }

  /** The cards of any other colour, in their order. */
  function NotMatching(cards: seq<Card>, colour: string): (r: seq<Card>)
    ensures forall i :: 0 <= i < |r| ==> r[i].colour != colour
    ensures |r| <= |cards|
    decreases |cards|
  {
    if |cards| == 0 then []
    else
      var rest := NotMatching(cards[1..], colour);
      if cards[0].colour != colour then [cards[0]] + rest else rest
  }

  /** How often each card occurs in the two parts: as often as in the input
      in the part its colour selects, never in the other. Together with the
      order kept (`PartitionByColour`) this determines both parts. */
  lemma {:induction false} FilterCounts(cards: seq<Card>, colour: string, c: Card)
    ensures multiset(Matching(cards, colour))[c] == if c.colour == colour then multiset(cards)[c] else 0
    ensures multiset(NotMatching(cards, colour))[c] == if c.colour != colour then multiset(cards)[c] else 0
    decreases |cards|
  {
    if |cards| > 0 {
      var rest := cards[1..];
      FilterCounts(rest, colour, c);
      assert cards == [cards[0]] + rest;
      ConsCount(cards[0], rest, c);
      if cards[0].colour == colour {
        ConsCount(cards[0], Matching(rest, colour), c);
      } else {
        ConsCount(cards[0], NotMatching(rest, colour), c);
      }
    }
  }

  /** A card is among the matching cards exactly when it is in the input
      with that colour, and among the others exactly when it is in the input
      with another colour. */
  lemma FilterMembers(cards: seq<Card>, colour: string, c: Card)
    ensures c in Matching(cards, colour) <==> c in cards && c.colour == colour
    ensures c in NotMatching(cards, colour) <==> c in cards && c.colour != colour
  {
    FilterCounts(cards, colour, c);
  }

  /** Splitting by colour loses and invents nothing, and both parts keep the
      original order. */
  lemma PartitionByColour(cards: seq<Card>, colour: string)
    ensures multiset(Matching(cards, colour)) + multiset(NotMatching(cards, colour)) == multiset(cards)
    ensures |Matching(cards, colour)| + |NotMatching(cards, colour)| == |cards|
    ensures IsSubseq(Matching(cards, colour), cards)
    ensures IsSubseq(NotMatching(cards, colour), cards)
  {
    var m := multiset(Matching(cards, colour)) + multiset(NotMatching(cards, colour));
    forall c {
      FilterCounts(cards, colour, c);
    }
    assert m == multiset(cards);
    assert |m| == |multiset(cards)|;
    FiltersKeepOrder(cards, colour);
  }

  lemma {:induction false} FiltersKeepOrder(cards: seq<Card>, colour: string)
    ensures IsSubseq(Matching(cards, colour), cards)
    ensures IsSubseq(NotMatching(cards, colour), cards)
    decreases |cards|
  {
    if |cards| > 0 {
      FiltersKeepOrder(cards[1..], colour);
      assert cards == [cards[0]] + cards[1..];
      var m := Matching(cards[1..], colour);
      var n := NotMatching(cards[1..], colour);
      if cards[0].colour == colour {
        SubseqOfCons(m, cards[0], cards[1..]);
        SubseqOfConsSkip(n, cards[0], cards[1..]);
      } else {
        SubseqOfCons(n, cards[0], cards[1..]);
        SubseqOfConsSkip(m, cards[0], cards[1..]);
      }
    }
  }

  lemma SubseqOfConsSkip(a: seq<Card>, x: Card, b: seq<Card>)
    requires IsSubseq(a, b)
    ensures IsSubseq(a, [x] + b)
  {
    SubseqSkip(a, [x] + b);
  }

  /** A subsequence of the tail is a subsequence of the whole. */
  lemma {:induction false} SubseqSkip<T>(a: seq<T>, b: seq<T>)
    requires |b| > 0 && IsSubseq(a, b[1..])
    ensures IsSubseq(a, b)
    decreases |b|, 1
  {
    if |a| > 0 && a[0] == b[0] {
      // IsSubseq(a, b) reduces to IsSubseq(a[1..], b[1..]).
      SubseqDropHead(a, b[1..]);
    }
  }

  /** Dropping the first element of a subsequence keeps it a subsequence. */
  lemma {:induction false} SubseqDropHead<T>(a: seq<T>, b: seq<T>)
    requires |a| > 0 && IsSubseq(a, b)
    ensures IsSubseq(a[1..], b)
    decreases |b|, 2
  {
    if a[0] == b[0] {
      assert IsSubseq(a[1..], b[1..]);
      if |b[1..]| > 0 {
        SubseqSkip(a[1..], b);
      } else {
        assert |a[1..]| == 0;
      }
    } else {
      SubseqDropHead(a, b[1..]);
      SubseqSkip(a[1..], b);
    }
  }

  /** The cards one player holds. */
  function Held(p: Player): multiset<Card>
  {
    multiset(p.tank) + multiset(p.score)
  }

  /** All the cards a collection of players holds. */
  function Holdings(players: seq<Player>): multiset<Card>
    decreases |players|
  {
    if |players| == 0 then multiset{}
    else Held(players[0]) + Holdings(players[1..])
  }

  /** Every card in play: the deck and all holdings. */
  function AllCards(g: Game): multiset<Card>
  {
    multiset(g.deck) + Holdings(g.players)
  }

  lemma HoldingsCons(players: seq<Player>)
    requires |players| > 0
    ensures Holdings(players) == Held(players[0]) + Holdings(players[1..])
  {
  }

  lemma AddBoth(a: multiset<Card>, b: multiset<Card>, b': multiset<Card>, x: multiset<Card>, y: multiset<Card>)
    requires b' + x == b + y
    ensures (a + b') + x == (a + b) + y
  {
    assert (a + b') + x == a + (b' + x);
  }

  /** Replacing one player changes the holdings by exactly that player's cards. */
  lemma {:induction false} HoldingsUpdate(players: seq<Player>, i: nat, p: Player)
    requires i < |players|
    ensures Holdings(players[i := p]) + Held(players[i]) == Holdings(players) + Held(p)
    decreases |players|
  {
    var updated := players[i := p];
    HoldingsCons(players);
    HoldingsCons(updated);
    if i == 0 {
      assert updated[1..] == players[1..];
    } else {
      var tail := players[1..];
      assert updated[1..] == tail[i - 1 := p];
      assert updated[0] == players[0];
      HoldingsUpdate(tail, i - 1, p);
      AddBoth(Held(players[0]), Holdings(tail), Holdings(updated[1..]), Held(players[i]), Held(p));
    }
  }
}
