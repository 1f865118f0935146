/** The object engine of mantis_logic.py: the deck drawn from its tail,
    dealing, card construction with random colours, player names, and the
    score and steal turns over card records. */
module MantisLogic {
  import opened Results
  import opened Sequences
  import opened Sampling
  import opened Colours
  import opened Cards
  import opened Utils

  const DeckSize := 105
  const StartingTankSize := 4

  // ---------------------------------------------------------------------
  // The deck

  /** `drawCard`: the top (last) card and the deck without it; an empty deck
      raises IndexError on `deck[-1]`. */
  function DrawCard(deck: seq<Card>): (r: Result<(Card, seq<Card>)>)
    ensures r.Err? <==> |deck| == 0
    ensures r.Err? ==> r.error == IndexError
    ensures r.Ok? ==> r.value.1 + [r.value.0] == deck
  {
    if |deck| == 0 then Err(IndexError)
    else
      assert deck == deck[..|deck| - 1] + [deck[|deck| - 1]];
      Ok((deck[|deck| - 1], deck[..|deck| - 1]))
  }

  /** k successive draws: the cards in the order drawn, and the rest. */
  function DrawCards(deck: seq<Card>, k: nat): (r: Result<(seq<Card>, seq<Card>)>)
    ensures r.Ok? <==> k <= |deck|
    ensures r.Err? ==> r.error == IndexError
    ensures r.Ok? ==> |r.value.0| == k && r.value.1 == deck[..|deck| - k]
    ensures r.Ok? ==> forall j :: 0 <= j < k ==> r.value.0[j] == deck[|deck| - 1 - j]
    decreases k
  {
    if k == 0 then
      assert deck[..|deck|] == deck;
      Ok(([], deck))
    else
      match DrawCard(deck)
      case Err(e) => Err(e)
      case Ok((top, rest)) =>
        assert rest == deck[..|deck| - 1];
        match DrawCards(rest, k - 1)
        case Err(e) => Err(e)
        case Ok((drawn, left)) =>
          assert left == deck[..|deck| - k];
          Ok(([top] + drawn, left))
  }

  /** The cards drawn are exactly the top k cards. */
  lemma DrawCardsConserves(deck: seq<Card>, k: nat)
    requires k <= |deck|
    ensures multiset(DrawCards(deck, k).value.0) + multiset(DrawCards(deck, k).value.1) == multiset(deck)
  {
    var r := DrawCards(deck, k).value;
    var top := deck[|deck| - k..];
    assert deck == r.1 + top;
    assert multiset(r.0) == multiset(top) by {
      ReversedSameCards(r.0, top);
    }
  }

  /** A sequence and its reverse hold the same cards. */
  lemma {:induction false} ReversedSameCards(a: seq<Card>, b: seq<Card>)
    requires |a| == |b|
    requires forall j :: 0 <= j < |a| ==> a[j] == b[|b| - 1 - j]
    ensures multiset(a) == multiset(b)
    decreases |a|
  {
    if |a| > 0 {
      var n := |b| - 1;
      ReversedSameCards(a[1..], b[..n]);
      assert a == [a[0]] + a[1..];
      assert b == b[..n] + [b[n]];
    }
  }

  /** One iteration of `dealCards`: four draws become the player's new tank. */
  function DealOne(p: Player, deck: seq<Card>): (r: Result<(Player, seq<Card>)>)
    ensures r.Ok? <==> StartingTankSize <= |deck|
    ensures r.Err? ==> r.error == IndexError
    ensures r.Ok? ==> r.value.1 == deck[..|deck| - 4]
    ensures r.Ok? ==> r.value.0 == p.(tank := r.value.0.tank) && |r.value.0.tank| == StartingTankSize
    ensures r.Ok? ==> forall k :: 0 <= k < StartingTankSize ==> r.value.0.tank[k] == deck[|deck| - 1 - k]
  {
    match DrawCards(deck, StartingTankSize)
    case Err(e) => Err(e)
    case Ok((tank, rest)) => Ok((p.(tank := tank), rest))
  }

  lemma DealOneConserves(p: Player, deck: seq<Card>, p': Player, rest: seq<Card>)
    requires DealOne(p, deck) == Ok((p', rest))
    ensures multiset(p'.tank) + multiset(rest) == multiset(deck)
  {
    DrawCardsConserves(deck, StartingTankSize);
  }

  /** `dealCards`: each player in turn receives the next four cards drawn as
      a fresh tank (any previous tank is replaced). Running out of cards
      raises IndexError. */
  function DealCards(players: seq<Player>, deck: seq<Card>): (r: Result<(seq<Player>, seq<Card>)>)
    ensures r.Ok? <==> 4 * |players| <= |deck|
    ensures r.Err? ==> r.error == IndexError
    ensures r.Ok? ==> |r.value.0| == |players| && r.value.1 == deck[..|deck| - 4 * |players|]
    ensures r.Ok? ==> forall i :: 0 <= i < |players| ==>
              && r.value.0[i].name == players[i].name
              && r.value.0[i].score == players[i].score
              && |r.value.0[i].tank| == StartingTankSize
    decreases |players|
  {
    if |players| == 0 then
      assert deck[..|deck|] == deck;
      Ok(([], deck))
    else
      match DealOne(players[0], deck)
      case Err(e) => Err(e)
      case Ok((first, rest)) =>
        match DealCards(players[1..], rest)
        case Err(e) => Err(e)
        case Ok((dealt, left)) =>
          var ps := [first] + dealt;
          PrefixOfPrefix(deck, 4, 4 * (|players| - 1));
          assert forall i :: 1 <= i < |players| ==> ps[i] == dealt[i - 1];
          Ok((ps, left))
  }

  /** Player i's tank holds the cards 4i .. 4i+3 from the top, in the order
      drawn. */
  lemma {:induction false} DealtTank(players: seq<Player>, deck: seq<Card>, dealt: seq<Player>, left: seq<Card>, i: nat)
    requires DealCards(players, deck) == Ok((dealt, left)) && i < |players|
    ensures forall k :: 0 <= k < StartingTankSize ==> dealt[i].tank[k] == deck[|deck| - 1 - (4 * i + k)]
    decreases i
  {
    var Ok((first, rest)) := DealOne(players[0], deck);
    var Ok((dealt', left')) := DealCards(players[1..], rest);
    DealCardsUnfold(players, deck, dealt, left, first, rest, dealt', left');
    if i > 0 {
      DealtTank(players[1..], rest, dealt', left', i - 1);
      assert dealt[i] == dealt'[i - 1];
      ShiftedTank(deck, rest, dealt'[i - 1].tank, i);
    }
  }

  /** Positions counted from the top of the deck move down by four once the
      first player's four cards are gone. */
  lemma ShiftedTank(deck: seq<Card>, rest: seq<Card>, tank: seq<Card>, i: nat)
    requires 0 < i && 4 * (i + 1) <= |deck| && rest == deck[..|deck| - 4] && |tank| >= StartingTankSize
    requires forall k :: 0 <= k < StartingTankSize ==> tank[k] == rest[|rest| - 1 - (4 * (i - 1) + k)]
    ensures forall k :: 0 <= k < StartingTankSize ==> tank[k] == deck[|deck| - 1 - (4 * i + k)]
  {
    forall k | 0 <= k < StartingTankSize
      ensures tank[k] == deck[|deck| - 1 - (4 * i + k)]
    {
      assert |rest| - 1 - (4 * (i - 1) + k) == |deck| - 1 - (4 * i + k);
    }
  }

  /** Dealing to empty-handed players moves cards from the deck to the tanks
      and loses none. */
  lemma {:induction false} DealCardsConserves(players: seq<Player>, deck: seq<Card>, dealt: seq<Player>, left: seq<Card>)
    requires DealCards(players, deck) == Ok((dealt, left))
    requires forall i :: 0 <= i < |players| ==> players[i].tank == []
    ensures multiset(left) + Holdings(dealt) == multiset(deck) + Holdings(players)
    decreases |players|
  {
    if |players| > 0 {
      var Ok((first, rest)) := DealOne(players[0], deck);
      var Ok((dealt', left')) := DealCards(players[1..], rest);
      DealCardsConserves(players[1..], rest, dealt', left');
      DealCardsUnfold(players, deck, dealt, left, first, rest, dealt', left');
      DealOneConserves(players[0], deck, first, rest);
      DealStep(players, deck, dealt, left, first, rest, dealt', left');
    }
  }

  /** The first iteration of the dealing loop, in multiset terms. */
  lemma DealStep(players: seq<Player>, deck: seq<Card>, dealt: seq<Player>, left: seq<Card>,
                 first: Player, rest: seq<Card>, dealt': seq<Player>, left': seq<Card>)
    requires |players| > 0 && players[0].tank == [] && first.score == players[0].score
    requires dealt == [first] + dealt' && left == left'
    requires multiset(first.tank) + multiset(rest) == multiset(deck)
    requires multiset(left') + Holdings(dealt') == multiset(rest) + Holdings(players[1..])
    ensures multiset(left) + Holdings(dealt) == multiset(deck) + Holdings(players)
  {
    var t, p := multiset(first.tank), multiset(players[0].score);
    var r, q := multiset(rest), Holdings(players[1..]);
    var h := Holdings(dealt');
    assert Holdings(dealt) == (t + p) + h by {
      assert dealt[0] == first && dealt[1..] == dealt';
      HoldingsCons(dealt);
    }
    assert Holdings(players) == p + q by {
      HoldingsCons(players);
    }
    Regroup(multiset(left), Holdings(dealt), multiset(deck), Holdings(players), multiset(left'), h, t, p, r, q);
  }

  lemma DealCardsUnfold(players: seq<Player>, deck: seq<Card>, dealt: seq<Player>, left: seq<Card>,
                        first: Player, rest: seq<Card>, dealt': seq<Player>, left': seq<Card>)
    requires |players| > 0
    requires DealOne(players[0], deck) == Ok((first, rest))
    requires DealCards(players[1..], rest) == Ok((dealt', left'))
    requires DealCards(players, deck) == Ok((dealt, left))
    ensures dealt == [first] + dealt' && left == left'
    ensures dealt[0] == first && dealt[1..] == dealt'
  {
  }

  lemma Regroup(all: multiset<Card>, held: multiset<Card>, deck: multiset<Card>, before: multiset<Card>,
                l: multiset<Card>, h: multiset<Card>, t: multiset<Card>, p: multiset<Card>,
                r: multiset<Card>, q: multiset<Card>)
    requires all == l && held == (t + p) + h && deck == t + r && before == p + q
    requires l + h == r + q
    ensures all + held == deck + before
  {
    var lhs := l + ((t + p) + h);
    var rhs := (t + r) + (p + q);
    forall x
      ensures lhs[x] == rhs[x]
    {
      assert (l + h)[x] == (r + q)[x];
    }
    assert lhs == rhs;
  }

  // ---------------------------------------------------------------------
  // Cards

  /** Every entry is a registry colour (the assertion loop of `Card.__init__`). */
  predicate AllValid(colours: seq<string>)
  {
    forall k :: 0 <= k < |colours| ==> ValidateColour(colours[k])
  }

  /** Distinct registry indices name distinct valid colours. */
  lemma NamesOfDistinctIndices(indices: seq<int>, names: seq<string>)
    requires |names| == |indices| && Distinct(indices)
    requires forall k :: 0 <= k < |indices| ==> 1 <= indices[k] <= ColourCount
    requires forall k :: 0 <= k < |indices| ==> names[k] == Names[indices[k] - 1]
    ensures Distinct(names) && AllValid(names)
  {
    NamesValidAndDistinct();
    forall k, l | 0 <= k < l < |names|
      ensures names[k] != names[l]
    {
      var a, b := indices[k] - 1, indices[l] - 1;
      if a < b {
        assert Names[a] != Names[b];
      } else {
        assert Names[b] != Names[a];
      }
    }
  }

  /** `assignRandomPossibleColours`: three distinct registry names. */
  function RandomPossible(d: CardDraw): (r: seq<string>)
    requires ValidCardDraw(d)
    ensures |r| == PossibleCount && Distinct(r) && AllValid(r)
  {
    var indices := PossibleIndices(d);
    var names := IndexListToNames(indices).value;
    NamesOfDistinctIndices(indices, names);
    names
  }

  /** Overwriting the first possible colour with one not yet present keeps the
      three colours distinct. */
  lemma OverwriteKeepsDistinct(possible: seq<string>, colour: string)
    requires |possible| > 0 && Distinct(possible) && colour !in possible
    ensures Distinct(possible[0 := colour])
  {
  }

  /** `Card.__init__`, with an empty string / empty list meaning "not
      supplied". Supplied possible colours are validated and kept as given;
      otherwise three random ones are drawn and, when a colour is supplied
      that is not among them, it replaces the first. A supplied colour is
      validated and kept; otherwise one of the possible colours is picked,
      which fails when fewer possible colours were supplied than the pick. */
  function NewCard(id: nat, colour: string, possible: seq<string>, d: CardDraw): (r: Result<Card>)
    requires ValidCardDraw(d)
    ensures r.Err? <==>
              || (|possible| > 0 && !AllValid(possible))
              || (colour != "" && !ValidateColour(colour))
              || (colour == "" && 0 < |possible| <= d.actual)
    ensures r.Err? ==> r.error == (if colour == "" && (|possible| == 0 || AllValid(possible)) then IndexError else AssertionError)
    ensures r.Ok? ==> r.value.id == id
    ensures r.Ok? && |possible| > 0 ==> r.value.possible == possible
    ensures r.Ok? && colour != "" ==> r.value.colour == colour
    ensures r.Ok? && colour == "" ==> r.value.colour in r.value.possible
    ensures r.Ok? && |possible| == 0 ==>
              && |r.value.possible| == PossibleCount && Distinct(r.value.possible)
              && r.value.colour in r.value.possible
              && forall k :: 1 <= k < PossibleCount ==> r.value.possible[k] == RandomPossible(d)[k]
    ensures r.Ok? ==> AllValid(r.value.possible)
    ensures r.Ok? && |possible| == 0 && (colour == "" || colour in RandomPossible(d)) ==>
              r.value.possible == RandomPossible(d)
    ensures r.Ok? && |possible| == 0 && colour != "" && colour !in RandomPossible(d) ==>
              r.value.possible[0] == colour
  {
    if |possible| > 0 && !AllValid(possible) then Err(AssertionError)
    else
      var chosen :=
        if |possible| > 0 then possible
        else if colour != "" && colour !in RandomPossible(d) then RandomPossible(d)[0 := colour]
        else RandomPossible(d);
      if colour != "" then
        if !ValidateColour(colour) then Err(AssertionError)
        else
          assert |possible| == 0 ==> Distinct(chosen) && colour in chosen && AllValid(chosen) by {
            if |possible| == 0 && colour !in RandomPossible(d) {
              OverwriteKeepsDistinct(RandomPossible(d), colour);
              assert chosen[0] == colour;
            }
          }
          Ok(Card(id, chosen, colour))
      else if d.actual >= |chosen| then Err(IndexError)
      else Ok(Card(id, chosen, chosen[d.actual]))
  }

  /** When both colours and possible colours are supplied only their validity
      is checked: a card can show a colour that is not among its possible
      colours. */
  lemma CardContainmentNotChecked()
    ensures ValidCardDraw(CardDraw([0, 0, 0], 0))
    ensures NewCard(0, "red", ["blue"], CardDraw([0, 0, 0], 0)) == Ok(Card(0, ["blue"], "red"))
  {
    var d := CardDraw([0, 0, 0], 0);
    ValidateColourExamples();
    assert Lower("blue") == "blue";
    assert AllValid(["blue"]);
  }

  /** `shuffleDeck`: 105 freshly built random cards, numbered from `firstId`. */
  function ShuffleDeck(draws: seq<CardDraw>, firstId: nat): (r: seq<Card>)
    requires |draws| == DeckSize && forall i :: 0 <= i < |draws| ==> ValidCardDraw(draws[i])
    ensures |r| == DeckSize
    ensures forall i :: 0 <= i < |r| ==> r[i].id == firstId + i
    ensures forall i :: 0 <= i < |r| ==>
              |r[i].possible| == PossibleCount && Distinct(r[i].possible) && AllValid(r[i].possible)
              && r[i].colour in r[i].possible
    ensures Distinct(r)
  {
    seq(DeckSize, i requires 0 <= i < DeckSize =>
      var c := NewCard(firstId + i, "", [], draws[i]);
      assert c.Ok?;
      c.value)
  }

  /** `startGame`: shuffle, then deal. */
  function StartGame(players: seq<Player>, draws: seq<CardDraw>, firstId: nat): (r: Result<Game>)
    requires |draws| == DeckSize && forall i :: 0 <= i < |draws| ==> ValidCardDraw(draws[i])
    ensures r.Ok? <==> |players| <= 26
    ensures r.Ok? ==> |r.value.deck| == DeckSize - StartingTankSize * |players|
    ensures r.Ok? ==> |r.value.players| == |players|
    ensures r.Ok? ==> forall i :: 0 <= i < |players| ==> |r.value.players[i].tank| == StartingTankSize
  {
    match DealCards(players, ShuffleDeck(draws, firstId))
    case Err(e) => Err(e)
    case Ok((ps, deck)) => Ok(Game(ps, deck))
  }

  /** With four players the deck keeps 89 cards. */
  lemma FourPlayerDeck(players: seq<Player>, draws: seq<CardDraw>, firstId: nat)
    requires |draws| == DeckSize && forall i :: 0 <= i < |draws| ==> ValidCardDraw(draws[i])
    requires |players| == 4
    ensures StartGame(players, draws, firstId).Ok?
    ensures |StartGame(players, draws, firstId).value.deck| == 89
  {
  }

  // ---------------------------------------------------------------------
  // Players

  /** `isValidName`: no registered player has exactly this name
      (case-sensitive, no reserved words). */
  function IsValidName(players: seq<Player>, name: string): (r: bool)
    ensures r <==> forall i :: 0 <= i < |players| ==> players[i].name != name
    decreases |players|
  {
    if |players| == 0 then true
    else if players[0].name == name then false
    else
      assert forall i :: 1 <= i < |players| ==> players[i] == players[1..][i - 1];
      IsValidName(players[1..], name)
  }

  /** The name check of `Player.__init__`: a duplicate raises ValueError,
      otherwise a player with empty tank and score pile. */
  function NewPlayer(players: seq<Player>, name: string): (r: Result<Player>)
    ensures r.Err? <==> exists i :: 0 <= i < |players| && players[i].name == name
    ensures r.Err? ==> r.error == ValueError
    ensures r.Ok? ==> r.value.name == name && r.value.tank == [] && r.value.score == []
  {
    if IsValidName(players, name) then Ok(Player(name, [], [])) else Err(ValueError)
  }

  // ---------------------------------------------------------------------
  // The score and steal loops

  /** The effect of `scoreColour` / `stealColour` on the tank `s`: the loop
      walks the tank by position while removing from it, so after a card is
      moved the card that slides into its place is passed over and stays.
      The result is the cards kept and the cards moved, in order. */
  function Walk(s: seq<Card>, colour: string): (r: (seq<Card>, seq<Card>))
    ensures |r.0| + |r.1| == |s|
    ensures forall k :: 0 <= k < |r.1| ==> r.1[k].colour == colour
    decreases |s|
  {
    if |s| == 0 then ([], [])
    else if s[0].colour == colour then
      if |s| == 1 then ([], [s[0]])
      else
        var w := Walk(s[2..], colour);
        ([s[1]] + w.0, [s[0]] + w.1)
    else
      var w := Walk(s[1..], colour);
      ([s[0]] + w.0, w.1)
  }

  /** The walk loses and invents no card. */
  lemma {:induction false} WalkConserves(s: seq<Card>, colour: string)
    ensures multiset(Walk(s, colour).0) + multiset(Walk(s, colour).1) == multiset(s)
    decreases |s|
  {
    if |s| >= 2 && s[0].colour == colour {
      var w := Walk(s[2..], colour);
      WalkConserves(s[2..], colour);
      assert Walk(s, colour) == ([s[1]] + w.0, [s[0]] + w.1);
      ConservePair(s, w.0, w.1);
    } else if |s| > 0 && s[0].colour != colour {
      var w := Walk(s[1..], colour);
      WalkConserves(s[1..], colour);
      assert Walk(s, colour) == ([s[0]] + w.0, w.1);
      ConserveOne(s, w.0, w.1);
    }
  }

  /** Both the kept and the moved cards keep their relative order. */
  lemma {:induction false} WalkKeepsOrder(s: seq<Card>, colour: string)
    ensures IsSubseq(Walk(s, colour).0, s)
    ensures IsSubseq(Walk(s, colour).1, s)
    decreases |s|
  {
    if |s| == 1 {
      SubseqRefl(s);
    } else if |s| >= 2 && s[0].colour == colour {
      var w := Walk(s[2..], colour);
      WalkKeepsOrder(s[2..], colour);
      assert s[1..] == [s[1]] + s[2..] && s == [s[0]] + s[1..];
      SubseqOfCons(w.0, s[1], s[2..]);
      SubseqOfConsSkip([s[1]] + w.0, s[0], s[1..]);
      SubseqOfConsSkip(w.1, s[1], s[2..]);
      SubseqOfCons(w.1, s[0], s[1..]);
    } else if |s| > 0 {
      var w := Walk(s[1..], colour);
      WalkKeepsOrder(s[1..], colour);
      assert s == [s[0]] + s[1..];
      SubseqOfCons(w.0, s[0], s[1..]);
      SubseqOfConsSkip(w.1, s[0], s[1..]);
    }
  }

  /** The first card of the colour is always moved. */
  lemma {:induction false} WalkMovesFirstMatch(s: seq<Card>, colour: string)
    requires HasColour(s, colour)
    ensures |Matching(s, colour)| > 0 && |Walk(s, colour).1| > 0
    ensures Walk(s, colour).1[0] == Matching(s, colour)[0]
    decreases |s|
  {
    MatchingNonEmpty(s, colour);
    if s[0].colour != colour {
      MatchingNonEmpty(s[1..], colour);
      WalkMovesFirstMatch(s[1..], colour);
    }
  }

  /** Each moved card lets at most one further card of the colour escape, so
      at least half of the matching cards move. */
  lemma {:induction false} WalkMovesHalf(s: seq<Card>, colour: string)
    ensures |Matching(s, colour)| <= 2 * |Walk(s, colour).1|
    decreases |s|
  {
    if |s| >= 2 && s[0].colour == colour {
      WalkMovesHalf(s[2..], colour);
      assert s[1..][1..] == s[2..];
    } else if |s| > 0 && s[0].colour != colour {
      WalkMovesHalf(s[1..], colour);
    }
  }

  /** Without a card of the colour the walk moves nothing. */
  lemma {:induction false} WalkNoMatch(s: seq<Card>, colour: string)
    requires !HasColour(s, colour)
    ensures Walk(s, colour) == (s, [])
    decreases |s|
  {
    if |s| > 0 {
      assert s[0].colour != colour;
      forall i | 0 <= i < |s[1..]|
        ensures s[1..][i].colour != colour
      {
        assert s[1..][i] == s[i + 1];
      }
      WalkNoMatch(s[1..], colour);
      assert s == [s[0]] + s[1..];
    }
  }

  /** The loop itself: position `i` reads the next card and a match is
      removed with `list.remove`, which finds it at its own position because
      the cards of a tank are distinct objects. It computes `Walk`. */
  method IndexWalk(s: seq<Card>, colour: string) returns (kept: seq<Card>, moved: seq<Card>)
    requires Distinct(s)
    ensures (kept, moved) == Walk(s, colour)
  {
    var t, i := s, 0;
    moved := [];
    ghost var done, rest := [], s;
    WalkFromStart(s, colour);
    while i < |t|
      invariant t == done + rest && Distinct(t)
      invariant i == |done| || (i == |done| + 1 && rest == [])
      invariant WalkFrom(s, colour, done, moved, rest)
      decreases |t| - i + 1
    {
      var card := t[i];
      ShiftOne(done, rest);
      i := i + 1;
      if card.colour == colour {
        DistinctSplit(done, card, rest[1..]);
        RemoveFirstAfter(done, card, rest[1..]);
        t := RemoveFirst(t, card);
        if |rest| == 1 {
          WalkFromMoveLast(s, colour, done, moved, rest);
          assert rest[1..] == [];
          rest := [];
        } else {
          WalkFromMove(s, colour, done, moved, rest);
          ShiftOne(done, rest[1..]);
          assert rest[1..][0] == rest[1] && rest[1..][1..] == rest[2..];
          done, rest := done + [rest[1]], rest[2..];
        }
        moved := moved + [card];
      } else {
        WalkFromKeep(s, colour, done, moved, rest);
        done, rest := done + [card], rest[1..];
      }
    }
    kept := t;
    WalkFromEnd(s, colour, done, moved);
  }

  /** Loop state of `IndexWalk`: the walk of the whole tank is what has been
      kept and moved so far followed by the walk of the rest. */
  ghost predicate WalkFrom(s: seq<Card>, colour: string, done: seq<Card>, moved: seq<Card>, rest: seq<Card>)
  {
    Walk(s, colour) == (done + Walk(rest, colour).0, moved + Walk(rest, colour).1)
  }

  lemma WalkFromStart(s: seq<Card>, colour: string)
    ensures WalkFrom(s, colour, [], [], s)
  {
    assert [] + Walk(s, colour).0 == Walk(s, colour).0;
    assert [] + Walk(s, colour).1 == Walk(s, colour).1;
  }

  lemma WalkFromKeep(s: seq<Card>, colour: string, done: seq<Card>, moved: seq<Card>, rest: seq<Card>)
    requires WalkFrom(s, colour, done, moved, rest)
    requires |rest| > 0 && rest[0].colour != colour
    ensures WalkFrom(s, colour, done + [rest[0]], moved, rest[1..])
  {
    var w := Walk(rest[1..], colour);
    assert done + Walk(rest, colour).0 == (done + [rest[0]]) + w.0;
  }

  lemma WalkFromMove(s: seq<Card>, colour: string, done: seq<Card>, moved: seq<Card>, rest: seq<Card>)
    requires WalkFrom(s, colour, done, moved, rest)
    requires |rest| > 1 && rest[0].colour == colour
    ensures WalkFrom(s, colour, done + [rest[1]], moved + [rest[0]], rest[2..])
  {
    var w := Walk(rest[2..], colour);
    assert done + Walk(rest, colour).0 == (done + [rest[1]]) + w.0;
    assert moved + Walk(rest, colour).1 == (moved + [rest[0]]) + w.1;
  }

  lemma WalkFromMoveLast(s: seq<Card>, colour: string, done: seq<Card>, moved: seq<Card>, rest: seq<Card>)
    requires WalkFrom(s, colour, done, moved, rest)
    requires |rest| == 1 && rest[0].colour == colour
    ensures WalkFrom(s, colour, done, moved + [rest[0]], [])
  {
    assert done + [] == done;
    assert moved + [rest[0]] + [] == moved + [rest[0]];
  }

  lemma WalkFromEnd(s: seq<Card>, colour: string, done: seq<Card>, moved: seq<Card>)
    requires WalkFrom(s, colour, done, moved, [])
    ensures Walk(s, colour) == (done, moved)
  {
    assert done + [] == done && moved + [] == moved;
  }

  /** `scoreColour`: asserts the colour is valid, then walks the tank moving
      matches to the score pile. */
  method ScoreColour(p: Player, colour: string) returns (r: Result<Player>)
    requires Distinct(p.tank)
    ensures r.Err? <==> !ValidateColour(colour)
    ensures r.Err? ==> r.error == AssertionError
    ensures r.Ok? ==> r.value == p.(tank := Walk(p.tank, colour).0, score := p.score + Walk(p.tank, colour).1)
  {
    if !ValidateColour(colour) {
      return Err(AssertionError);
    }
    var kept, moved := IndexWalk(p.tank, colour);
    return Ok(p.(tank := kept, score := p.score + moved));
  }

  /** `stealColour`: asserts the colour is valid, then walks the target's
      tank moving matches to the thief's tank. */
  method StealColour(thief: Player, target: Player, colour: string) returns (r: Result<(Player, Player)>)
    requires Distinct(target.tank)
    ensures r.Err? <==> !ValidateColour(colour)
    ensures r.Err? ==> r.error == AssertionError
    ensures r.Ok? ==> r.value.0 == thief.(tank := thief.tank + Walk(target.tank, colour).1)
    ensures r.Ok? ==> r.value.1 == target.(tank := Walk(target.tank, colour).0)
  {
    if !ValidateColour(colour) {
      return Err(AssertionError);
    }
    var kept, moved := IndexWalk(target.tank, colour);
    return Ok((thief.(tank := thief.tank + moved), target.(tank := kept)));
  }

  // ---------------------------------------------------------------------
  // A turn

  /** The top card of a non-empty deck. */
  function Top(g: Game): Card
    requires |g.deck| > 0
  {
    g.deck[|g.deck| - 1]
  }

  /** Whose tank the drawn card is flipped into: the actor's own when the
      target has the actor's name (a score), the target's otherwise. */
  function Lands(g: Game, a: nat, t: nat): (x: nat)
    requires a < |g.players| && t < |g.players|
    ensures x == a || x == t
    ensures x < |g.players|
  {
    if g.players[a].name == g.players[t].name then a else t
  }

  /** The turn `Player.action`: draw; look for the drawn colour in the tank
      it lands in BEFORE appending; append; and, on a match, run the score or
      steal loop with the drawn card's colour. Players are given by position
      in the game. */
  function PlayerAction(g: Game, a: nat, t: nat): (r: Result<Game>)
    requires a < |g.players| && t < |g.players|
    ensures r.Err? <==> (|g.deck| == 0
              || (HasColour(g.players[Lands(g, a, t)].tank, Top(g).colour) && !ValidateColour(Top(g).colour)))
    ensures r.Err? ==> r.error == (if |g.deck| == 0 then IndexError else AssertionError)
    ensures r.Ok? ==> r.value.deck == g.deck[..|g.deck| - 1] && |r.value.players| == |g.players|
    ensures r.Ok? ==> forall i :: 0 <= i < |g.players| ==> r.value.players[i].name == g.players[i].name
    ensures r.Ok? ==> forall i :: 0 <= i < |g.players| && i != a && i != t ==> r.value.players[i] == g.players[i]
  {
    match DrawCard(g.deck)
    case Err(e) => Err(e)
    case Ok((top, deck)) =>
      var me := g.players[a];
      if me.name == g.players[t].name then
        if !HasColour(me.tank, top.colour) then
          Ok(Game(g.players[a := me.(tank := me.tank + [top])], deck))
        else if !ValidateColour(top.colour) then Err(AssertionError)
        else
          var w := Walk(me.tank + [top], top.colour);
          Ok(Game(g.players[a := me.(tank := w.0, score := me.score + w.1)], deck))
      else
        var them := g.players[t];
        if !HasColour(them.tank, top.colour) then
          Ok(Game(g.players[t := them.(tank := them.tank + [top])], deck))
        else if !ValidateColour(top.colour) then Err(AssertionError)
        else
          var w := Walk(them.tank + [top], top.colour);
          Ok(Game(g.players[t := them.(tank := w.0)][a := me.(tank := me.tank + w.1)], deck))
  }
}
