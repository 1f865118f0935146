/** The colour registry of the object engine.

    mantis_logic.py and utils.py each carry the same seven-entry table
    (`COLOURDICT` / `COLOUR_DICT`) keyed by lower-case name, each entry holding
    a 1-based index, and the same three lookups over it. The table and the
    lookups are defined once here; emoji fields are display-only. */
module Colours {
  import opened Results
  import opened Sequences

  /** A registry entry: 1-based index and lower-case name. */
  datatype Entry = Entry(index: int, name: string)

  /** The table in dictionary insertion order. */
  const Registry: seq<Entry> := [
    Entry(1, "red"), Entry(2, "orange"), Entry(3, "yellow"), Entry(4, "green"),
    Entry(5, "blue"), Entry(6, "purple"), Entry(7, "pink")
  ]

  /** The dictionary keys, which equal the `name` fields. */
  const Names: seq<string> := ["red", "orange", "yellow", "green", "blue", "purple", "pink"]

  const ColourCount := 7

  /** `str.lower` on one character. Python lowers every Unicode upper-case
      letter; the model lowers ASCII letters and KELVIN SIGN (U+212A, whose
      lower case is the ASCII `k`) and keeps every other character. No other
      character lowers to an ASCII letter, so membership in the all-ASCII
      registry is decided as Python decides it. */
  function LowerChar(c: char): char
  {
    if 'A' <= c <= 'Z' then (c as int + 32) as char
    else if c == '\U{212A}' then 'k'
    else c
  }

  function Lower(s: string): (r: string)
    ensures |r| == |s|
    ensures forall i :: 0 <= i < |s| ==> r[i] == LowerChar(s[i])
  {
    seq(|s|, i requires 0 <= i < |s| => LowerChar(s[i]))
  }

  /** ASCII upper case of one character. */
  function UpperChar(c: char): char
  {
    if 'a' <= c <= 'z' then (c as int - 32) as char else c
  }

  /** A name with its first letter in upper case, the display spelling of the
      count-vector engine. */
  function Capitalised(s: string): string
  {
    if |s| == 0 then s else [UpperChar(s[0])] + s[1..]
  }

  /** The search loop of `convertColourIndexToName` / `convert_colour_index_to_name`,
      from entry `k` on. */
  function FindIndex(i: int, k: nat): (r: Result<string>)
    requires k <= |Registry|
    ensures r.Ok? <==> exists j :: k <= j < |Registry| && Registry[j].index == i
    ensures r.Err? ==> r.error == LookupError
    ensures r.Ok? ==> exists j :: k <= j < |Registry| && Registry[j] == Entry(i, r.value)
    decreases |Registry| - k
  {
    if k == |Registry| then Err(LookupError)
    else if Registry[k].index == i then Ok(Registry[k].name)
    else FindIndex(i, k + 1)
  }

  /** `convertColourIndexToName`: 1..7 name red..pink, every other index raises
      LookupError. */
  function IndexToName(i: int): (r: Result<string>)
    ensures r.Ok? <==> 1 <= i <= ColourCount
    ensures r.Err? ==> r.error == LookupError
    ensures r.Ok? ==> r.value == Names[i - 1]
  {
    FindIndex(i, 0)
  }

  /** `convertColourListToNames`: element-wise, and the first bad index
      propagates its LookupError. */
  function IndexListToNames(l: seq<int>): (r: Result<seq<string>>)
    ensures r.Ok? <==> forall k :: 0 <= k < |l| ==> 1 <= l[k] <= ColourCount
    ensures r.Err? ==> r.error == LookupError
    ensures r.Ok? ==> |r.value| == |l|
    ensures r.Ok? ==> forall k :: 0 <= k < |l| ==> r.value[k] == Names[l[k] - 1]
    decreases |l|
  {
    if |l| == 0 then Ok([])
    else
      match IndexToName(l[0])
      case Err(e) => Err(e)
      case Ok(name) =>
        match IndexListToNames(l[1..])
        case Err(e) => Err(e)
        case Ok(names) =>
          assert forall k :: 1 <= k < |l| ==> l[k] == l[1..][k - 1];
          ConsNames(l, name, names);
          Ok([name] + names)
  }

  /** The names of a list are the name of its head followed by those of its tail. */
  lemma ConsNames(l: seq<int>, name: string, names: seq<string>)
    requires |l| > 0 && |names| == |l| - 1
    requires forall k :: 0 <= k < |l| ==> 1 <= l[k] <= ColourCount
    requires name == Names[l[0] - 1]
    requires forall k :: 0 <= k < |names| ==> names[k] == Names[l[1..][k] - 1]
    ensures forall k :: 0 <= k < |l| ==> ([name] + names)[k] == Names[l[k] - 1]
  {
    forall k | 0 <= k < |l|
      ensures ([name] + names)[k] == Names[l[k] - 1]
    {
      if k > 0 {
        assert l[k] == l[1..][k - 1];
      }
    }
  }

  /** `validateColour` / `validate_colour`: the lower-cased word is a key. */
  predicate ValidateColour(s: string)
  {
    Lower(s) in Names
  }

  /** Case-insensitive equality, as `str.lower` decides it. */
  predicate SameIgnoringCase(a: string, b: string)
  {
    Lower(a) == Lower(b)
  }

  lemma NamesAreLowerCase()
    ensures forall k :: 0 <= k < |Names| ==> Lower(Names[k]) == Names[k]
  {
    assert Lower("red") == "red";
    assert Lower("orange") == "orange";
    assert Lower("yellow") == "yellow";
    assert Lower("green") == "green";
    assert Lower("blue") == "blue";
    assert Lower("purple") == "purple";
    assert Lower("pink") == "pink";
  }

  /** A word validates exactly when it equals one of the seven names up to case. */
  lemma ValidateColourIgnoresCase(s: string)
    ensures ValidateColour(s) <==> exists k :: 0 <= k < ColourCount && SameIgnoringCase(s, Names[k])
  {
    NamesAreLowerCase();
  }

  /** Every name the index lookup produces validates, and distinct indices give
      distinct names, so the lookup is a bijection between 1..7 and the names. */
  lemma IndexToNameValidAndInjective(i: int, j: int)
    requires 1 <= i <= ColourCount && 1 <= j <= ColourCount
    ensures IndexToName(i).Ok? && ValidateColour(IndexToName(i).value)
    ensures IndexToName(i) == IndexToName(j) ==> i == j
  {
    NamesAreLowerCase();
    assert Names[i - 1] in Names;
  }

  /** Every registry name is a valid colour and no name occurs twice. */
  lemma NamesValidAndDistinct()
    ensures forall k :: 0 <= k < ColourCount ==> ValidateColour(Names[k])
    ensures forall a, b :: 0 <= a < b < ColourCount ==> Names[a] != Names[b]
  {
    forall k | 0 <= k < ColourCount
      ensures ValidateColour(Names[k])
    {
      IndexToNameValidAndInjective(k + 1, k + 1);
    }
    forall a, b | 0 <= a < b < ColourCount
      ensures Names[a] != Names[b]
    {
      IndexToNameValidAndInjective(a + 1, b + 1);
    }
  }

  /** Examples from the tests: lower-case and upper-case names pass, a digit does not. */
  lemma ValidateColourExamples()
    ensures ValidateColour("red") && ValidateColour("pink")
    ensures ValidateColour("Red") && ValidateColour("PURPLE")
    ensures !ValidateColour("1") && !ValidateColour("")
    ensures ValidateColour("pin\U{212A}")
  {
    assert Lower("red") == "red";
    assert Lower("pink") == "pink";
    assert Lower("Red") == "red";
    assert Lower("PURPLE") == "purple";
    assert Lower("pin\U{212A}") == "pink";
    assert Lower("1") == "1";
  }
}
