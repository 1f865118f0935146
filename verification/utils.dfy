/** The list helpers of utils.py over card records: reading a tank's
    colours, selecting the cards of one colour, moving them between lists,
    and joining words with spaces. The colour table and its lookups, which
    utils.py duplicates from mantis_logic.py, live in module Colours. */
module Utils {
  import opened Results
  import opened Sequences
  import opened Colours
  import opened Cards

  /** `get_tank_colours`: the colour of each tank card, in tank order. */
  function TankColours(p: Player): (r: seq<string>)
    ensures |r| == |p.tank|
    ensures forall i :: 0 <= i < |r| ==> r[i] == p.tank[i].colour
    ensures forall colour :: colour in r <==> HasColour(p.tank, colour)
    decreases |p.tank|
  {
    if |p.tank| == 0 then []
    else
      var rest := TankColours(p.(tank := p.tank[1..]));
      assert forall colour :: HasColour(p.tank, colour) <==>
               p.tank[0].colour == colour || HasColour(p.tank[1..], colour) by {
        forall colour | HasColour(p.tank, colour)
          ensures p.tank[0].colour == colour || HasColour(p.tank[1..], colour)
        {
          var i :| 0 <= i < |p.tank| && p.tank[i].colour == colour;
          if i > 0 {
            assert p.tank[1..][i - 1].colour == colour;
          }
        }
        forall colour | HasColour(p.tank[1..], colour)
          ensures HasColour(p.tank, colour)
        {
          var i :| 0 <= i < |p.tank[1..]| && p.tank[1..][i].colour == colour;
          assert p.tank[i + 1].colour == colour;
        }
      }
      [p.tank[0].colour] + rest
  }

  /** `get_matching_colours_in_list`: asserts the colour is valid, then
      selects the cards of exactly that colour (compared case-sensitively). */
  function MatchingCards(cards: seq<Card>, colour: string): (r: Result<seq<Card>>)
    ensures r.Err? <==> !ValidateColour(colour)
    ensures r.Err? ==> r.error == AssertionError
    ensures r.Ok? ==> forall c :: c in r.value <==> c in cards && c.colour == colour
    ensures r.Ok? ==> forall i :: 0 <= i < |r.value| ==> r.value[i].colour == colour
    ensures r.Ok? ==> IsSubseq(r.value, cards)
  {
    if !ValidateColour(colour) then Err(AssertionError)
    else
      PartitionByColour(cards, colour);
      forall c {
        FilterMembers(cards, colour, c);
      }
      Ok(Matching(cards, colour))
  }

  /** `get_matching_colours_of_player`: the same selection over the tank. */
  function MatchingOfPlayer(p: Player, colour: string): (r: Result<seq<Card>>)
    ensures r.Err? <==> !ValidateColour(colour)
    ensures r.Err? ==> r.error == AssertionError
    ensures r.Ok? ==> forall c :: c in r.value <==> c in p.tank && c.colour == colour
    ensures r.Ok? ==> forall i :: 0 <= i < |r.value| ==> r.value[i].colour == colour
    ensures r.Ok? ==> IsSubseq(r.value, p.tank)
  {
    MatchingCards(p.tank, colour)
  }

  /** `list.remove`: drops the first occurrence. */
  function RemoveFirst(s: seq<Card>, x: Card): (r: seq<Card>)
    requires x in s
    ensures |r| == |s| - 1
    decreases |s|
  {
    if s[0] == x then s[1..] else [s[0]] + RemoveFirst(s[1..], x)
  }

  lemma AppendAssoc(a: seq<Card>, b: seq<Card>, c: seq<Card>)
    ensures a + (b + c) == (a + b) + c
  {
  }

  /** Removing a card that occurs only after a prefix leaves the prefix alone. */
  lemma {:induction false} RemoveFirstAfter(pre: seq<Card>, x: Card, post: seq<Card>)
    requires forall k :: 0 <= k < |pre| ==> pre[k] != x
    ensures x in pre + [x] + post
    ensures RemoveFirst(pre + [x] + post, x) == pre + post
    decreases |pre|
  {
    var s := pre + [x] + post;
    assert s[|pre|] == x;
    if |pre| > 0 {
      assert s[1..] == pre[1..] + [x] + post;
      RemoveFirstAfter(pre[1..], x, post);
    }
  }

  /** Filtering distributes over concatenation. */
  lemma {:induction false} FilterConcat(a: seq<Card>, b: seq<Card>, colour: string)
    ensures Matching(a + b, colour) == Matching(a, colour) + Matching(b, colour)
    ensures NotMatching(a + b, colour) == NotMatching(a, colour) + NotMatching(b, colour)
    decreases |a|
  {
    if |a| > 0 {
      assert (a + b)[1..] == a[1..] + b;
      FilterConcat(a[1..], b, colour);
    } else {
      assert a + b == b;
    }
  }

  /** A list without a card of the colour passes the filters unchanged. */
  lemma {:induction false} FilterNoMatch(s: seq<Card>, colour: string)
    requires forall k :: 0 <= k < |s| ==> s[k].colour != colour
    ensures Matching(s, colour) == []
    ensures NotMatching(s, colour) == s
    decreases |s|
  {
    if |s| > 0 {
      FilterNoMatch(s[1..], colour);
      assert s == [s[0]] + s[1..];
    }
  }

  /** The position of the first card of the colour. */
  function FirstMatch(s: seq<Card>, colour: string): (i: nat)
    requires HasColour(s, colour)
    ensures i < |s| && s[i].colour == colour
    ensures forall k :: 0 <= k < i ==> s[k].colour != colour
    decreases |s|
  {
    if s[0].colour == colour then 0
    else
      var j :| 0 <= j < |s| && s[j].colour == colour;
      assert s[1..][j - 1].colour == colour;
      1 + FirstMatch(s[1..], colour)
  }

  /** Splits a list at its first card of the colour: everything before it has
      another colour. */
  lemma SplitAtFirstMatch(s: seq<Card>, colour: string) returns (pre: seq<Card>, x: Card, post: seq<Card>)
    requires HasColour(s, colour)
    ensures s == pre + [x] + post
    ensures x.colour == colour
    ensures forall k :: 0 <= k < |pre| ==> pre[k].colour != colour
    ensures Matching(s, colour) == [x] + Matching(post, colour)
    ensures NotMatching(s, colour) == pre + NotMatching(post, colour)
  {
    var i := FirstMatch(s, colour);
    pre, x, post := s[..i], s[i], s[i + 1..];
    var tail := [x] + post;
    assert s == pre + tail;
    assert tail[0] == x && tail[1..] == post;
    assert Matching(tail, colour) == [x] + Matching(post, colour);
    assert NotMatching(tail, colour) == NotMatching(post, colour);
    assert forall k :: 0 <= k < |pre| ==> pre[k].colour != colour by {
      forall k | 0 <= k < |pre| ensures pre[k].colour != colour {
        assert pre[k] == s[k];
      }
    }
    FilterNoMatch(pre, colour);
    FilterConcat(pre, tail, colour);
  }

  /** Removing a card of the colour from `done + (pre + [x] + post)`, where
      no card before it has the colour, leaves `(done + pre) + post`. */
  lemma RemoveAfterClean(done: seq<Card>, pre: seq<Card>, x: Card, post: seq<Card>, colour: string)
    requires forall k :: 0 <= k < |done| ==> done[k].colour != colour
    requires forall k :: 0 <= k < |pre| ==> pre[k].colour != colour
    requires x.colour == colour
    ensures x in done + (pre + [x] + post)
    ensures RemoveFirst(done + (pre + [x] + post), x) == (done + pre) + post
    ensures forall k :: 0 <= k < |done + pre| ==> (done + pre)[k].colour != colour
  {
    var d := done + pre;
    assert forall k :: 0 <= k < |d| ==> d[k].colour != colour by {
      forall k | 0 <= k < |d| ensures d[k].colour != colour {
        if k >= |done| {
          assert d[k] == pre[k - |done|];
        }
      }
    }
    assert done + (pre + [x] + post) == d + [x] + post;
    RemoveFirstAfter(d, x, post);
  }

  /** One iteration of the move: removing the first remaining match from
      `done + rest`, where `done` holds no card of the colour. */
  lemma RemoveStep(done: seq<Card>, rest: seq<Card>, colour: string) returns (done': seq<Card>, post: seq<Card>)
    requires |Matching(rest, colour)| > 0
    requires forall k :: 0 <= k < |done| ==> done[k].colour != colour
    ensures Matching(rest, colour)[0] in done + rest
    ensures RemoveFirst(done + rest, Matching(rest, colour)[0]) == done' + post
    ensures forall k :: 0 <= k < |done'| ==> done'[k].colour != colour
    ensures Matching(rest, colour)[1..] == Matching(post, colour)
    ensures done + NotMatching(rest, colour) == done' + NotMatching(post, colour)
  {
    MatchingNonEmpty(rest, colour);
    var pre, x, post' := SplitAtFirstMatch(rest, colour);
    RemoveAfterClean(done, pre, x, post', colour);
    AppendAssoc(done, pre, NotMatching(post', colour));
    done', post := done + pre, post';
  }

  /** `move_colours_from_list`: asserts the colour is valid, then removes each
      matching card from the source and appends it to the target. The loop
      runs over a separate list of the matches, so no card is skipped. The
      result holds the new source, the new target and the number moved. */
  method MoveColours(source: seq<Card>, colour: string, target: seq<Card>)
    returns (r: Result<(seq<Card>, seq<Card>, nat)>)
    ensures r.Err? <==> !ValidateColour(colour)
    ensures r.Err? ==> r.error == AssertionError
    ensures r.Ok? ==> r.value.0 == NotMatching(source, colour)
    ensures r.Ok? ==> r.value.1 == target + Matching(source, colour)
    ensures r.Ok? ==> r.value.2 == |Matching(source, colour)|
  {
    if !ValidateColour(colour) {
      return Err(AssertionError);
    }
    var matches := Matching(source, colour);
    var src, tgt, moved := source, target, 0;
    ghost var done: seq<Card> := [];
    ghost var rest := source;
    while moved < |matches|
      invariant moved <= |matches|
      invariant src == done + rest
      invariant forall k :: 0 <= k < |done| ==> done[k].colour != colour
      invariant Matching(rest, colour) == matches[moved..]
      invariant NotMatching(source, colour) == done + NotMatching(rest, colour)
      invariant tgt == target + matches[..moved]
    {
      var card := matches[moved];
      ghost var done', post := RemoveStep(done, rest, colour);
      src := RemoveFirst(src, card);
      tgt := tgt + [card];
      assert matches[..moved + 1] == matches[..moved] + [card];
      done, rest := done', post;
      moved := moved + 1;
    }
    MatchingNonEmpty(rest, colour);
    FilterNoMatch(rest, colour);
    assert matches[..moved] == matches;
    return Ok((src, tgt, moved));
  }

  /** A move neither loses nor invents cards: the two lists together hold
      the same cards afterwards, and the source keeps none of the colour. */
  lemma MoveColoursConserves(source: seq<Card>, colour: string, target: seq<Card>)
    ensures multiset(NotMatching(source, colour)) + multiset(target + Matching(source, colour))
            == multiset(source) + multiset(target)
    ensures |NotMatching(source, colour)| + |target + Matching(source, colour)| == |source| + |target|
    ensures !HasColour(NotMatching(source, colour), colour)
    ensures IsSubseq(NotMatching(source, colour), source)
  {
    PartitionByColour(source, colour);
  }

  /** `move_colours_from_tank`: the move with the player's tank as source. */
  method MoveColoursFromTank(p: Player, colour: string, target: seq<Card>)
    returns (r: Result<(Player, seq<Card>, nat)>)
    ensures r.Err? <==> !ValidateColour(colour)
    ensures r.Ok? ==> r.value.0 == p.(tank := NotMatching(p.tank, colour))
    ensures r.Ok? ==> r.value.1 == target + Matching(p.tank, colour)
    ensures r.Ok? ==> r.value.2 == |Matching(p.tank, colour)|
  {
    if !ValidateColour(colour) {
      return Err(AssertionError);
    }
    var moved := MoveColours(p.tank, colour, target);
    return Ok((p.(tank := moved.value.0), moved.value.1, moved.value.2));
  }

  /** The characters `str.isspace` accepts, which `str.strip()` removes. */
  predicate IsSpace(c: char)
  {
    || '\t' <= c <= '\r' || '\U{1C}' <= c <= ' '
    || c == '\U{85}' || c == '\U{A0}' || c == '\U{1680}'
    || '\U{2000}' <= c <= '\U{200A}' || c == '\U{2028}' || c == '\U{2029}'
    || c == '\U{202F}' || c == '\U{205F}' || c == '\U{3000}'
  }

  /** The first position from `i` on that is not whitespace. */
  function SkipSpaces(s: string, i: nat): (r: nat)
    requires i <= |s|
    ensures i <= r <= |s|
    ensures forall k :: i <= k < r ==> IsSpace(s[k])
    ensures r < |s| ==> !IsSpace(s[r])
    decreases |s| - i
  {
    if i < |s| && IsSpace(s[i]) then SkipSpaces(s, i + 1) else i
  }

  /** The end of `s[lo..j]` once trailing whitespace is dropped. */
  function SkipSpacesBack(s: string, lo: nat, j: nat): (r: nat)
    requires lo <= j <= |s|
    ensures lo <= r <= j
    ensures forall k :: r <= k < j ==> IsSpace(s[k])
    ensures r > lo ==> !IsSpace(s[r - 1])
    decreases j
  {
    if j > lo && IsSpace(s[j - 1]) then SkipSpacesBack(s, lo, j - 1) else j
  }

  /** `str.strip()`: drops the whitespace at both ends and nothing else. */
  function Strip(s: string): (r: string)
    ensures exists i, j :: 0 <= i <= j <= |s| && r == s[i..j]
                           && (forall k :: 0 <= k < i ==> IsSpace(s[k]))
                           && (forall k :: j <= k < |s| ==> IsSpace(s[k]))
    ensures |r| > 0 ==> !IsSpace(r[0]) && !IsSpace(r[|r| - 1])
  {
    var i := SkipSpaces(s, 0);
    var j := SkipSpacesBack(s, i, |s|);
    assert j < |s| ==> i < |s|;
    s[i..j]
  }

  /** Python's loop: each item followed by one space. */
  function Spaced(items: seq<string>): string
    decreases |items|
  {
    if |items| == 0 then "" else items[0] + " " + Spaced(items[1..])
  }

  /** `" ".join(items)`. */
  function Join(items: seq<string>): string
    decreases |items|
  {
    if |items| == 0 then ""
    else if |items| == 1 then items[0]
    else items[0] + " " + Join(items[1..])
  }

  /** `list_to_spaced_string`: every item plus a space, stripped; that is the
      items joined by single spaces, then stripped. */
  function ListToSpacedString(items: seq<string>): (r: string)
    ensures |r| > 0 ==> !IsSpace(r[0]) && !IsSpace(r[|r| - 1])
    ensures r == Strip(Join(items))
  {
    SpacedStripsLikeJoin(items);
    Strip(Spaced(items))
  }

  /** Python's loop and `" ".join` differ only by a trailing space, which the
      strip removes. */
  lemma SpacedStripsLikeJoin(items: seq<string>)
    ensures Strip(Spaced(items)) == Strip(Join(items))
  {
    if |items| > 0 {
      SpacedIsJoinPlusSpace(items);
      StripIgnoresTrailingSpace(Join(items));
    }
  }

  /** Skipping leading whitespace never looks past the first non-space. */
  lemma {:induction false} SkipSpacesExtend(s: string, x: string, i: nat)
    requires i <= |s| && SkipSpaces(s, i) < |s|
    ensures SkipSpaces(s + x, i) == SkipSpaces(s, i)
    decreases |s| - i
  {
    assert (s + x)[i] == s[i];
    if IsSpace(s[i]) {
      SkipSpacesExtend(s, x, i + 1);
    }
  }

  /** Skipping trailing whitespace below `j` only reads `s[..j]`. */
  lemma {:induction false} SkipSpacesBackExtend(s: string, x: string, lo: nat, j: nat)
    requires lo <= j <= |s|
    ensures SkipSpacesBack(s + x, lo, j) == SkipSpacesBack(s, lo, j)
    decreases j
  {
    if j > lo {
      assert (s + x)[j - 1] == s[j - 1];
      if IsSpace(s[j - 1]) {
        SkipSpacesBackExtend(s, x, lo, j - 1);
      }
    }
  }

  /** A trailing space does not change the strip. */
  lemma StripIgnoresTrailingSpace(s: string)
    ensures Strip(s + " ") == Strip(s)
  {
    var t := s + " ";
    var i := SkipSpaces(s, 0);
    StripBounds(s);
    StripBounds(t);
    if i < |s| {
      SkipSpacesExtend(s, " ", 0);
      assert IsSpace(t[|s|]);
      assert SkipSpacesBack(t, i, |t|) == SkipSpacesBack(t, i, |s|);
      SkipSpacesBackExtend(s, " ", i, |s|);
      var j := SkipSpacesBack(s, i, |s|);
      SliceOfAppend(s, " ", i, j);
    } else {
      forall k | 0 <= k < |t|
        ensures IsSpace(t[k])
      {
        if k < |s| {
          assert t[k] == s[k];
        }
      }
      assert SkipSpaces(t, 0) == |t|;
    }
  }

  /** `Strip` in terms of the two skips. */
  lemma StripBounds(s: string)
    ensures Strip(s) == s[SkipSpaces(s, 0)..SkipSpacesBack(s, SkipSpaces(s, 0), |s|)]
  {
  }

  lemma {:induction false} SpacedIsJoinPlusSpace(items: seq<string>)
    requires |items| > 0
    ensures Spaced(items) == Join(items) + " "
    decreases |items|
  {
    if |items| > 1 {
      SpacedIsJoinPlusSpace(items[1..]);
    }
  }

  /** A string with no whitespace at either end is its own strip. */
  lemma StripKeeps(s: string)
    requires |s| > 0 ==> !IsSpace(s[0]) && !IsSpace(s[|s| - 1])
    ensures Strip(s) == s
  {
  }

  /** Appending whitespace to such a string strips back to the string. */
  lemma StripTrailingSpace(s: string)
    requires |s| > 0 && !IsSpace(s[0]) && !IsSpace(s[|s| - 1])
    ensures Strip(s + " ") == s
  {
    assert (s + " ")[..|s + " "| - 1] == s;
    StripKeeps(s);
  }

  /** The join starts with the first item and ends with the last. */
  lemma {:induction false} JoinEnds(items: seq<string>)
    requires |items| > 0 && |items[0]| > 0 && |items[|items| - 1]| > 0
    ensures |Join(items)| > 0
    ensures Join(items)[0] == items[0][0]
    ensures Join(items)[|Join(items)| - 1] == items[|items| - 1][|items[|items| - 1]| - 1]
    decreases |items|
  {
    if |items| > 1 {
      var tail := items[1..];
      assert tail[|tail| - 1] == items[|items| - 1];
      if |tail[0]| > 0 {
        JoinEnds(tail);
      } else if |tail| > 1 {
        JoinEndsLast(tail);
      }
    }
  }

  /** The join ends with the last item when that item is non-empty. */
  lemma {:induction false} JoinEndsLast(items: seq<string>)
    requires |items| > 0 && |items[|items| - 1]| > 0
    ensures |Join(items)| > 0
    ensures Join(items)[|Join(items)| - 1] == items[|items| - 1][|items[|items| - 1]| - 1]
    decreases |items|
  {
    if |items| > 1 {
      var tail := items[1..];
      assert tail[|tail| - 1] == items[|items| - 1];
      JoinEndsLast(tail);
    }
  }

  /** The words joined by single spaces when the first does not start and the
      last does not end with whitespace; the empty list gives "". */
  lemma SpacedStringIsJoin(items: seq<string>)
    requires |items| > 0 ==> |items[0]| > 0 && !IsSpace(items[0][0])
    requires |items| > 0 ==> |items[|items| - 1]| > 0 && !IsSpace(items[|items| - 1][|items[|items| - 1]| - 1])
    ensures ListToSpacedString(items) == Join(items)
  {
    if |items| == 0 {
      assert Spaced(items) == "";
    } else {
      SpacedIsJoinPlusSpace(items);
      JoinEnds(items);
      StripTrailingSpace(Join(items));
    }
  }

  /** Examples: words are joined by one space; an empty list or a list of
      blanks gives the empty string. */
  lemma SpacedStringExamples()
    ensures ListToSpacedString(["red", "blue"]) == "red blue"
    ensures ListToSpacedString([]) == ""
    ensures ListToSpacedString([" ", ""]) == ""
  {
    SpacedStringIsJoin(["red", "blue"]);
    assert Join(["red", "blue"]) == "red blue";
    assert Join([" ", ""]) == "  ";
    assert Strip("  ") == "";
  }
}
