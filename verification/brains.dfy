/** The target-choosing brains of brains.py. A brain reads an `Info` snapshot
    and returns the name of the player to target; naming the active player
    means scoring. */
module Brains {
  import opened Results

  /** What a brain sees. `scores` is a list of pairs because the Python
      dictionary is iterated in insertion order; `tankColours` maps a name to
      the colours in that player's tank. */
  datatype Info = Info(playerNames: seq<string>, scores: seq<(string, nat)>,
                       tankColours: map<string, seq<string>>, activeName: string)

  /** `RandomBrain.run`: `randint(0, n - 1)` is the input `pick`; with no
      players the range is empty and `randint` raises ValueError. */
  function RandomBrain(info: Info, pick: int): (r: Result<string>)
    requires |info.playerNames| > 0 ==> 0 <= pick < |info.playerNames|
    ensures r.Err? <==> |info.playerNames| == 0
    ensures r.Err? ==> r.error == ValueError
    ensures r.Ok? ==> r.value in info.playerNames
  {
    if |info.playerNames| == 0 then Err(ValueError) else Ok(info.playerNames[pick])
  }

  /** Every player can be drawn by some pick. */
  lemma RandomBrainReachesEvery(info: Info, name: string)
    requires name in info.playerNames
    ensures exists pick :: 0 <= pick < |info.playerNames| && RandomBrain(info, pick) == Ok(name)
  {
    var i :| 0 <= i < |info.playerNames| && info.playerNames[i] == name;
    assert RandomBrain(info, i) == Ok(name);
  }

  /** `ScorerBrain.run`: always targets the active player, i.e. scores. */
  function ScorerBrain(info: Info): (r: string)
    ensures r == info.activeName
  {
    info.activeName
  }

  // ---------------------------------------------------------------------
  // BlueShellBrain

  /** Entry i has the greatest score and no later entry ties it. */
  predicate LastMaxAt(scores: seq<(string, nat)>, i: int)
  {
    && 0 <= i < |scores|
    && (forall j :: 0 <= j < |scores| ==> scores[j].1 <= scores[i].1)
    && (forall j :: i < j < |scores| ==> scores[j].1 < scores[i].1)
  }

  /** At most one entry is the last maximum, so the brain's choice is
      determined by the scores. */
  lemma LastMaxUnique(scores: seq<(string, nat)>, i: int, j: int)
    requires LastMaxAt(scores, i) && LastMaxAt(scores, j)
    ensures i == j
  {
    // Both are maxima, so they tie; a later entry never ties a last maximum.
    assert scores[i].1 == scores[j].1;
  }

  /** `BlueShellBrain.run`: the comparison is `>=` from -1, so a tie goes to
      the LAST entry with the top score, and no entries give None. */
  method BlueShellBrain(scores: seq<(string, nat)>) returns (r: Option<string>)
    ensures r.None? <==> |scores| == 0
    ensures r.Some? ==> exists i :: LastMaxAt(scores, i) && scores[i].0 == r.value
  {
    var highest: int := -1;
    r := None;
    ghost var best := -1;
    for k := 0 to |scores|
      invariant r.None? <==> k == 0
      invariant k == 0 ==> highest == -1
      invariant k > 0 ==> 0 <= best < k && r == Some(scores[best].0) && highest == scores[best].1
      invariant forall j :: 0 <= j < k ==> scores[j].1 <= highest
      invariant forall j :: best < j < k ==> scores[j].1 < highest
    {
      if scores[k].1 >= highest {
        highest := scores[k].1;
        r := Some(scores[k].0);
        best := k;
      }
    }
    if r.Some? {
      assert LastMaxAt(scores, best);
    }
  }

  /** With every score equal (the all-zero start of a game), the last entry
      is chosen. */
  lemma AllTiedPicksLast(scores: seq<(string, nat)>)
    requires |scores| > 0
    requires forall j :: 0 <= j < |scores| ==> scores[j].1 == scores[0].1
    ensures LastMaxAt(scores, |scores| - 1)
  {
  }

  // ---------------------------------------------------------------------
  // QuantityBrain

  /** Every listed player has a tank entry. */
  predicate AllListed(info: Info)
  {
    forall j :: 0 <= j < |info.playerNames| ==> info.playerNames[j] in info.tankColours
  }

  function TankSize(info: Info, j: nat): nat
    requires j < |info.playerNames| && info.playerNames[j] in info.tankColours
  {
    |info.tankColours[info.playerNames[j]]|
  }

  /** Player j has the most cards in tank, and every earlier player fewer. */
  predicate FirstMaxAt(info: Info, i: int)
    requires AllListed(info)
  {
    && 0 <= i < |info.playerNames|
    && (forall j :: 0 <= j < |info.playerNames| ==> TankSize(info, j) <= TankSize(info, i))
    && (forall j :: 0 <= j < i ==> TankSize(info, j) < TankSize(info, i))
  }

  lemma FirstMaxUnique(info: Info, i: int, j: int)
    requires AllListed(info) && FirstMaxAt(info, i) && FirstMaxAt(info, j)
    ensures i == j
  {
    assert TankSize(info, i) == TankSize(info, j);
  }

  /** `QuantityBrain.run`: a lookup of a player missing from `tankColours`
      raises KeyError; the list of tied leaders starts with the first player
      of the top tank size, which is returned; with no players
      `player_names[0]` raises IndexError. */
  method QuantityBrain(info: Info) returns (r: Result<string>)
    ensures r.Err? <==> !AllListed(info) || |info.playerNames| == 0
    ensures r.Err? ==> r.error == (if AllListed(info) then IndexError else KeyError)
    ensures r.Ok? ==> AllListed(info) && exists i :: FirstMaxAt(info, i) && info.playerNames[i] == r.value
  {
    var names := info.playerNames;
    var highest: int := -1;
    var leaders: seq<string> := [];
    ghost var first := -1;
    for k := 0 to |names|
      invariant forall j :: 0 <= j < k ==> names[j] in info.tankColours
      invariant |leaders| > 0 <==> k > 0
      invariant k == 0 ==> highest == -1
      invariant -1 <= first < k
      invariant k > 0 ==> 0 <= first && leaders[0] == names[first] && highest == TankSize(info, first)
      invariant forall j :: 0 <= j < k ==> TankSize(info, j) <= highest
      invariant forall j :: 0 <= j < first ==> TankSize(info, j) < highest
    {
      if names[k] !in info.tankColours {
        return Err(KeyError);
      }
      var quantity := |info.tankColours[names[k]]|;
      if quantity > highest {
        highest := quantity;
        leaders := [names[k]];
        first := k;
      } else if quantity == highest {
        leaders := leaders + [names[k]];
      }
    }
    if |leaders| == 0 {
      return Err(IndexError);
    }
    assert FirstMaxAt(info, first);
    return Ok(leaders[0]);
  }

  // ---------------------------------------------------------------------
  // KelptoBrain

  /** `KelptoBrain.run`: the first listed name other than the active
      player's; None (the implicit return) when there is none. */
  function KelptoBrain(names: seq<string>, activeName: string): (r: Option<string>)
    ensures r.None? <==> forall j :: 0 <= j < |names| ==> names[j] == activeName
    ensures r.Some? ==> exists i :: 0 <= i < |names| && names[i] == r.value && r.value != activeName
                                    && forall j :: 0 <= j < i ==> names[j] == activeName
    decreases |names|
  {
    if |names| == 0 then None
    else if names[0] != activeName then Some(names[0])
    else
      var rest := KelptoBrain(names[1..], activeName);
      assert forall j :: 1 <= j < |names| ==> names[j] == names[1..][j - 1];
      rest
  }

  /** The Kelpto brain never scores: its target is never the active player. */
  lemma KelptoNeverScores(info: Info)
    ensures KelptoBrain(info.playerNames, info.activeName) != Some(info.activeName)
  {
  }
}
