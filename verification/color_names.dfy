/** The colour-name table and the swatch rule shared by both pickers. The dual
    picker (components/common/DualSliderPicker.tsx) and the iOS picker
    (components/common/picker.ios.tsx) each declare a `COLOR_MAP` with the same 45
    entries in the same order and a `getColorForOption` with the same body; this
    module is that one definition. */
module ColorNames {
  import opened Wrappers
  import opened Seqs
  import opened Text
  import opened Keywords

  /** Swatch shown for an empty name or a name that matches no colour. */
  const DefaultColor: string := "#CCCCCC"

  /** No entry of `t` has the value `v`. */
  predicate Absent(t: Table, v: string) {
    forall i :: 0 <= i < |t| ==> t[i].1 != v
  }

  /** No keyword of `t` has the character `c`. */
  predicate KeysLack(t: Table, c: char) {
    forall i :: 0 <= i < |t| ==> c !in t[i].0
  }

  /** Basic colors. */
  function BasicColors(): (t: Table)
    ensures KeysLack(t, ' ') && Absent(t, DefaultColor)
  {
    [
      ("black", "#000000"),
      ("white", "#FFFFFF")
    ]
  }

  /** Blues. */
  function Blues(): (t: Table)
    ensures KeysLack(t, ' ') && Absent(t, DefaultColor)
  {
    [
      ("blue", "#1E88E5"),
      ("navy", "#0D47A1"),
      ("lightblue", "#64B5F6"),
      ("darkblue", "#0D47A1"),
      ("skyblue", "#4FC3F7"),
      ("teal", "#009688"),
      ("cyan", "#00BCD4"),
      ("turquoise", "#00BCD4")
    ]
  }

  /** Reds. */
  function Reds(): (t: Table)
    ensures KeysLack(t, ' ') && Absent(t, DefaultColor)
  {
    [
      ("red", "#E53935"),
      ("darkred", "#B71C1C"),
      ("lightred", "#EF5350"),
      ("maroon", "#B71C1C"),
      ("crimson", "#D32F2F")
    ]
  }

  /** Greens. */
  function Greens(): (t: Table)
    ensures KeysLack(t, ' ') && Absent(t, DefaultColor)
  {
    [
      ("green", "#43A047"),
      ("darkgreen", "#2E7D32"),
      ("lightgreen", "#81C784"),
      ("olive", "#827717"),
      ("lime", "#C0CA33")
    ]
  }

  /** Yellows/Oranges. */
  function YellowsOranges(): (t: Table)
    ensures KeysLack(t, ' ') && Absent(t, DefaultColor)
  {
    [
      ("yellow", "#FDD835"),
      ("gold", "#FFD600"),
      ("amber", "#FFB300"),
      ("orange", "#FB8C00"),
      ("darkorange", "#E65100")
    ]
  }

  /** Purples/Pinks. */
  function PurplesPinks(): (t: Table)
    ensures KeysLack(t, ' ') && Absent(t, DefaultColor)
  {
    [
      ("purple", "#8E24AA"),
      ("darkpurple", "#6A1B9A"),
      ("lightpurple", "#AB47BC"),
      ("violet", "#9575CD"),
      ("magenta", "#D500F9"),
      ("pink", "#EC407A"),
      ("lightpink", "#F48FB1")
    ]
  }

  /** Browns. */
  function Browns(): (t: Table)
    ensures KeysLack(t, ' ') && Absent(t, DefaultColor)
  {
    [
      ("brown", "#795548"),
      ("darkbrown", "#5D4037"),
      ("lightbrown", "#A1887F"),
      ("tan", "#D7CCC8"),
      ("beige", "#F5F5DC")
    ]
  }

  /** Grays. */
  function Grays(): (t: Table)
    ensures KeysLack(t, ' ') && Absent(t, DefaultColor)
  {
    [
      ("gray", "#757575"),
      ("grey", "#757575"),
      ("darkgray", "#424242"),
      ("darkgrey", "#424242"),
      ("lightgray", "#BDBDBD"),
      ("lightgrey", "#BDBDBD"),
      ("silver", "#9E9E9E"),
      ("charcoal", "#424242")
    ]
  }

  /** `COLOR_MAP`, in declaration order: the groups above, one after another. */
  function ColorMap(): (t: Table)
    ensures |t| == 45
  {
    BasicColors() + Blues() + Reds() + Greens() + YellowsOranges() + PurplesPinks() + Browns() + Grays()
  }

  /** A value absent from two tables is absent from their concatenation. */
  lemma AbsentConcat(a: Table, b: Table, v: string)
    requires Absent(a, v) && Absent(b, v)
    ensures Absent(a + b, v)
  {
  }

  /** A character no key of two tables holds is held by no key of their concatenation. */
  lemma KeysLackConcat(a: Table, b: Table, c: char)
    requires KeysLack(a, c) && KeysLack(b, c)
    ensures KeysLack(a + b, c)
  {
  }

  /** The default swatch is not one of the table's colours. */
  lemma DefaultIsNotAColor()
    ensures DefaultColor !in Values(ColorMap())
  {
    var d := DefaultColor;
    var acc := BasicColors();
    AbsentConcat(acc, Blues(), d);
    acc := acc + Blues();
    AbsentConcat(acc, Reds(), d);
    acc := acc + Reds();
    AbsentConcat(acc, Greens(), d);
    acc := acc + Greens();
    AbsentConcat(acc, YellowsOranges(), d);
    acc := acc + YellowsOranges();
    AbsentConcat(acc, PurplesPinks(), d);
    acc := acc + PurplesPinks();
    AbsentConcat(acc, Browns(), d);
    acc := acc + Browns();
    AbsentConcat(acc, Grays(), d);
    assert acc + Grays() == ColorMap();
  }

  /** Every colour keyword is a single word. */
  lemma KeywordsHaveNoSpace()
    ensures KeysLack(ColorMap(), ' ')
  {
    var c := ' ';
    var acc := BasicColors();
    KeysLackConcat(acc, Blues(), c);
    acc := acc + Blues();
    KeysLackConcat(acc, Reds(), c);
    acc := acc + Reds();
    KeysLackConcat(acc, Greens(), c);
    acc := acc + Greens();
    KeysLackConcat(acc, YellowsOranges(), c);
    acc := acc + YellowsOranges();
    KeysLackConcat(acc, PurplesPinks(), c);
    acc := acc + PurplesPinks();
    KeysLackConcat(acc, Browns(), c);
    acc := acc + Browns();
    KeysLackConcat(acc, Grays(), c);
    assert acc + Grays() == ColorMap();
  }

  /** The four two-word descriptions tried once every keyword has failed:
      dark/light blue and dark/light green. */
  function Describe(lower: string): (r: Option<string>)
    ensures r.Some? ==> r.value in Values(ColorMap())
    ensures r.Some? ==> Contains(lower, "blue") || Contains(lower, "green")
  {
    var t := ColorMap();
    assert t[5].1 == "#0D47A1" && t[4].1 == "#64B5F6" && t[16].1 == "#2E7D32" && t[17].1 == "#81C784";
    if Contains(lower, "dark") && Contains(lower, "blue") then Some("#0D47A1")
    else if Contains(lower, "light") && Contains(lower, "blue") then Some("#64B5F6")
    else if Contains(lower, "dark") && Contains(lower, "green") then Some("#2E7D32")
    else if Contains(lower, "light") && Contains(lower, "green") then Some("#81C784")
    else None
  }

  /** The swatch colour for an option name (`getColorForOption`). An empty name gives
      the default. Otherwise the lowered name is compared for equality with every
      keyword, then searched for every keyword as a substring, then checked against
      the two-word descriptions, and finally given the default. */
  function GetColorForOption(name: string): (r: string)
    ensures r in Values(ColorMap()) || r == DefaultColor
    ensures r == DefaultColor <==>
      name == "" || forall j :: 0 <= j < |ColorMap()| ==> !Contains(Lower(name), ColorMap()[j].0)
    ensures name != "" ==>
      forall i :: IsFirst(ColorMap(), KeyIs(Lower(name)), i) ==> r == ColorMap()[i].1
    ensures name != "" && (forall j :: 0 <= j < |ColorMap()| ==> ColorMap()[j].0 != Lower(name)) ==>
      forall i :: Decides(ColorMap(), Lower(name), i) ==> r == ColorMap()[i].1
  {
    DefaultIsNotAColor();
    if name == "" then DefaultColor
    else
      var lower := Lower(name);
      match FirstKeyIs(ColorMap(), lower)
      case Some(i) =>
        assert forall k :: IsFirst(ColorMap(), KeyIs(lower), k) ==> k == i by {
          forall k | IsFirst(ColorMap(), KeyIs(lower), k) {
            FindIndexReturnsFirst(ColorMap(), KeyIs(lower), k);
          }
        }
        ContainsAt(lower, ColorMap()[i].0, 0);
        ColorMap()[i].1
      case None =>
        match FirstKeyIn(ColorMap(), lower)
        case Some(i) =>
          assert forall k :: Decides(ColorMap(), lower, k) ==> k == i by {
            forall k | Decides(ColorMap(), lower, k) {
              FirstKeyInIsDecider(ColorMap(), lower, k);
            }
          }
          ColorMap()[i].1
        case None =>
          DescriptionsNeverDecide(lower);
          Describe(lower).GetOr(DefaultColor)
  }

  /** The two-word descriptions are dead code: any name they would apply to
      contains "blue" or "green", both of which are keywords, so the substring
      scan has already returned. */
  lemma DescriptionsNeverDecide(lower: string)
    ensures Describe(lower).Some? ==> FirstKeyIn(ColorMap(), lower).Some?
  {
    var t := ColorMap();
    assert t[2].0 == "blue" && t[15].0 == "green";
  }

  /** The swatch ignores case. */
  lemma ColorIgnoresCase(name: string)
    ensures GetColorForOption(Lower(name)) == GetColorForOption(name)
  {
    LowerIdempotent(name);
  }

  /** A name that is exactly a keyword takes that keyword's colour even when an
      earlier keyword occurs in it: "darkblue" gets navy "#0D47A1", not the
      "#1E88E5" of "blue", which comes first in the table. */
  lemma ExactMatchBeatsSubstring()
    ensures Contains("darkblue", ColorMap()[2].0)
    ensures GetColorForOption("darkblue") == "#0D47A1"
  {
    LowerDarkBlue();
    DarkBlueIsFirstExact();
    ContainsAt("darkblue", "blue", 4);
  }

  /** "darkblue" is already lower case. */
  lemma LowerDarkBlue()
    ensures Lower("darkblue") == "darkblue"
  {
  }

  /** The first six entries of the colour table, up to "darkblue". */
  function ColorsUpToDarkBlue(): (p: Table)
    ensures |p| == 6 && ColorMap()[..6] == p
  {
    [("black", "#000000"), ("white", "#FFFFFF"), ("blue", "#1E88E5"),
     ("navy", "#0D47A1"), ("lightblue", "#64B5F6"), ("darkblue", "#0D47A1")]
  }

  /** "darkblue" is the sixth key, no key before it is "darkblue", and the third is
      "blue". */
  lemma DarkBlueIsFirstExact()
    ensures IsFirst(ColorMap(), KeyIs("darkblue"), 5) && ColorMap()[5].1 == "#0D47A1"
    ensures ColorMap()[2].0 == "blue"
  {
    var p := ColorsUpToDarkBlue();
    assert forall j :: 0 <= j < 6 ==> ColorMap()[j] == p[j];
  }

  /** A name of several words never equals a keyword, so the first keyword it
      contains, in declaration order, decides its colour. */
  lemma MultiWordNameTakesFirstKeyword(name: string, i: int)
    requires ' ' in name
    requires Decides(ColorMap(), Lower(name), i)
    ensures GetColorForOption(name) == ColorMap()[i].1
  {
    KeywordsHaveNoSpace();
    var k :| 0 <= k < |name| && name[k] == ' ';
    assert Lower(name)[k] == ' ';
    assert forall j :: 0 <= j < |ColorMap()| ==> ColorMap()[j].0 != Lower(name);
  }

  /** "Dark Blue" gets the plain blue "#1E88E5": "blue" is found first, and the
      dark-blue description that would give "#0D47A1" is never consulted. */
  lemma DarkBlueInWordsIsPlainBlue()
    ensures GetColorForOption("Dark Blue") == "#1E88E5"
  {
    var name := "Dark Blue";
    assert Lower(name) == "dark blue";
    assert name[4] == ' ';
    BlueDecidesDarkBlue(Lower(name));
    MultiWordNameTakesFirstKeyword(name, 2);
  }

  /** "blue" is the first keyword found in "dark blue": "black" has a 'c' and
      "white" a 'w', which it lacks. */
  lemma BlueDecidesDarkBlue(l: string)
    requires l == "dark blue"
    ensures Decides(ColorMap(), l, 2) && ColorMap()[2].1 == "#1E88E5"
  {
    var p := ColorsUpToDarkBlue();
    DecidesByMissing(p, l, 2, [3, 0], 5);
    DecidesInPrefix(ColorMap(), p, l, 2);
  }
}
