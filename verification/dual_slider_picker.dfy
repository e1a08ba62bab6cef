/** The dual colour/outfit picker (components/common/DualSliderPicker.tsx): two
    side-by-side lists, an icon chosen by keyword for each outfit, a swatch for each
    colour, and a summary of the current pair. The selections themselves belong to
    the parent; the picker reports taps through `onColorChange` / `onOutfitChange`. */
module DualSliderPicker {
  import opened Wrappers
  import opened Seqs
  import opened Text
  import opened Keywords
  import opened ColorNames
  import opened PickerProps

  /** `OPTION_ICONS.default`: the icon for an empty name or a name matching no keyword. */
  const DefaultIcon: string := "tshirt-crew-outline"

  /** Text colour of an unselected outfit icon (`COLORS.text`). */
  const TextColor: string := "#FFFFFF"

  /** Default icon. */
  function DefaultEntry(): (t: Table)
    ensures KeysNonEmpty(t)
  {
    [
      ("default", "tshirt-crew-outline")
    ]
  }

  /** Formal wear. */
  function FormalWear(): (t: Table)
    ensures KeysNonEmpty(t)
  {
    [
      ("suit", "tie"),
      ("tuxedo", "bow-tie"),
      ("formal", "hanger"),
      ("business", "briefcase"),
      ("professional", "account-tie"),
      ("blazer", "hanger")
    ]
  }

  /** Casual wear. */
  function CasualWear(): (t: Table)
    ensures KeysNonEmpty(t)
  {
    [
      ("casual", "tshirt-crew"),
      ("shirt", "tshirt-v"),
      ("tshirt", "tshirt-crew"),
      ("polo", "tshirt-v-outline"),
      ("tank", "tshirt-crew-outline")
    ]
  }

  /** Outerwear. */
  function Outerwear(): (t: Table)
    ensures KeysNonEmpty(t)
  {
    [
      ("jacket", "hanger"),
      ("hoodie", "zip-box"),
      ("sweater", "hanger"),
      ("cardigan", "hanger"),
      ("coat", "weather-snowy"),
      ("raincoat", "weather-pouring")
    ]
  }

  /** Bottoms. */
  function Bottoms(): (t: Table)
    ensures KeysNonEmpty(t)
  {
    [
      ("pants", "archive"),
      ("jeans", "archive-outline"),
      ("shorts", "archive-arrow-down"),
      ("skirt", "triangle")
    ]
  }

  /** Dresses. */
  function Dresses(): (t: Table)
    ensures KeysNonEmpty(t)
  {
    [
      ("dress", "human-female"),
      ("gown", "human-female")
    ]
  }

  /** Sportswear. */
  function Sportswear(): (t: Table)
    ensures KeysNonEmpty(t)
  {
    [
      ("athletic", "run-fast"),
      ("gym", "weight-lifter"),
      ("yoga", "human-handsup"),
      ("swimwear", "swim")
    ]
  }

  /** Sleepwear. */
  function Sleepwear(): (t: Table)
    ensures KeysNonEmpty(t)
  {
    [
      ("pajamas", "sleep"),
      ("robe", "bathtub")
    ]
  }

  /** Accessories. */
  function Accessories(): (t: Table)
    ensures KeysNonEmpty(t)
  {
    [
      ("hat", "hat-fedora"),
      ("cap", "baseball"),
      ("scarf", "hanger"),
      ("gloves", "hand-front-right")
    ]
  }

  /** Footwear. */
  function Footwear(): (t: Table)
    ensures KeysNonEmpty(t)
  {
    [
      ("shoes", "shoe-formal"),
      ("boots", "shoe-heel"),
      ("sneakers", "shoe-sneaker"),
      ("sandals", "shoe-cleat")
    ]
  }

  /** Styles. */
  function Styles(): (t: Table)
    ensures KeysNonEmpty(t)
  {
    [
      ("vintage", "clock-time-eight-outline"),
      ("modern", "timeline"),
      ("classic", "crown"),
      ("trendy", "trending-up"),
      ("bohemian", "flower"),
      ("minimalist", "minus-box")
    ]
  }

  /** Colors. */
  function ColorIcons(): (t: Table)
    ensures KeysNonEmpty(t)
  {
    [
      ("black", "circle"),
      ("white", "circle-outline"),
      ("blue", "water"),
      ("lightblue", "water-outline"),
      ("navy", "shield"),
      ("red", "heart"),
      ("darkred", "heart-outline"),
      ("green", "leaf"),
      ("lightgreen", "leaf-maple"),
      ("gray", "circle-medium"),
      ("grey", "circle-medium"),
      ("darkgray", "circle-slice-8"),
      ("darkgrey", "circle-slice-8"),
      ("brown", "coffee"),
      ("tan", "coffee-outline"),
      ("beige", "checkbox-blank-circle-outline"),
      ("purple", "flower-tulip"),
      ("pink", "flower"),
      ("yellow", "star"),
      ("gold", "star-outline"),
      ("orange", "fire"),
      ("silver", "silverware-variant")
    ]
  }

  /** Gender. */
  function Gender(): (t: Table)
    ensures KeysNonEmpty(t)
  {
    [
      ("male", "gender-male"),
      ("female", "gender-female"),
      ("unisex", "gender-male-female")
    ]
  }

  /** Other common categories. */
  function Other(): (t: Table)
    ensures KeysNonEmpty(t)
  {
    [
      ("photo", "camera"),
      ("style", "palette"),
      ("setting", "cog")
    ]
  }

  /** `OPTION_ICONS` in declaration order. Its first entry is the `default` key
      itself, so `Object.entries` tries the keyword "default" before any other. */
  function OptionIcons(): (t: Table)
    ensures |t| == 72 && KeysNonEmpty(t)
    ensures t[0] == ("default", DefaultIcon)
  {
    DefaultEntry() + FormalWear() + CasualWear() + Outerwear() + Bottoms() + Dresses() + Sportswear()
      + Sleepwear() + Accessories() + Footwear() + Styles() + ColorIcons() + Gender() + Other()
  }

  /** The outfit icon for an option name (`getIconForOption`): the icon of the first
      keyword, in declaration order, that the lowered name includes; the default
      icon for an empty name or when no keyword occurs. */
  function GetIconForOption(name: string): (r: string)
    ensures r in Values(OptionIcons())
    ensures name == "" ==> r == DefaultIcon
    ensures (forall j :: 0 <= j < |OptionIcons()| ==> !Contains(Lower(name), OptionIcons()[j].0)) ==> r == DefaultIcon
    ensures forall i :: Decides(OptionIcons(), Lower(name), i) ==> r == OptionIcons()[i].1
  {
    assert OptionIcons()[0].1 == DefaultIcon;
    if name == "" then DefaultIcon
    else LookupIn(OptionIcons(), Lower(name), DefaultIcon)
  }

  /** The empty-name guard is redundant: without it the scan over the empty
      string finds no keyword and returns the same default. */
  lemma EmptyNameIconIsFallback()
    ensures GetIconForOption("") == LookupIn(OptionIcons(), "", DefaultIcon) == DefaultIcon
  {
    EmptyNameFallsBack(OptionIcons(), DefaultIcon);
  }

  /** The icon ignores case. */
  lemma IconIgnoresCase(name: string)
    ensures GetIconForOption(Lower(name)) == GetIconForOption(name)
  {
    LowerIdempotent(name);
  }

  /** "tshirt" (entry 9) can never decide an icon: every name containing it also
      contains "shirt" (entry 8), which is tried first. */
  lemma TshirtKeyNeverDecides(name: string)
    ensures OptionIcons()[8].0 == "shirt" && OptionIcons()[9].0 == "tshirt"
    ensures FirstKeyIn(OptionIcons(), Lower(name)) != Some(9)
  {
    var t := OptionIcons();
    assert t[8].0 == "shirt" && t[9].0 == "tshirt";
    ContainsAt(t[9].0, t[8].0, 1);
    ShadowedKeyNeverDecides(t, 8, 9, Lower(name));
  }

  /** A name that contains "shirt", and none of the eight keywords before it,
      gets "tshirt-v", the icon of "shirt". */
  lemma ShirtNamesGetShirtIcon(name: string)
    requires Contains(Lower(name), "shirt")
    requires forall j :: 0 <= j < 8 ==> !Contains(Lower(name), OptionIcons()[j].0)
    ensures GetIconForOption(name) == "tshirt-v"
  {
    assert OptionIcons()[8] == ("shirt", "tshirt-v");
    assert Decides(OptionIcons(), Lower(name), 8);
  }

  /** The keyword that decides the lowered name gives the icon. */
  lemma IconOfDecider(name: string, i: int)
    requires Decides(OptionIcons(), Lower(name), i)
    ensures GetIconForOption(name) == OptionIcons()[i].1
  {
  }

  /** The first nine keywords of the icon table. */
  function KeywordsUpToShirt(): (p: Table)
    ensures |p| == 9 && OptionIcons()[..9] == p
  {
    [("default", DefaultIcon), ("suit", "tie"), ("tuxedo", "bow-tie"),
     ("formal", "hanger"), ("business", "briefcase"), ("professional", "account-tie"),
     ("blazer", "hanger"), ("casual", "tshirt-crew"), ("shirt", "tshirt-v")]
  }

  /** "TShirt" gets "tshirt-v": the earlier "shirt" keyword wins over "tshirt",
      whose own icon is "tshirt-crew". (The name is a parameter fixed by the
      precondition, which keeps the verifier from unfolding the lookup on a
      literal.) */
  lemma TShirtGetsShirtIcon(name: string)
    requires name == "TShirt"
    ensures GetIconForOption(name) == "tshirt-v"
  {
    LowerTShirt();
    ShirtDecidesTShirt(Lower(name));
    IconOfDecider(name, 8);
  }

  /** The lowered name the lookup sees. */
  lemma LowerTShirt()
    ensures Lower("TShirt") == "tshirt"
  {
  }

  /** "shirt" decides "tshirt": each earlier keyword has a letter it lacks. */
  lemma ShirtDecidesTShirt(l: string)
    requires l == "tshirt"
    ensures Decides(OptionIcons(), l, 8) && OptionIcons()[8].1 == "tshirt-v"
  {
    ShirtDecides(l, [0, 1, 1, 0, 0, 0, 0, 0], 1);
  }

  /** "Polo Shirt" gets "tshirt-v" too: "shirt" comes before "polo". */
  lemma PoloShirtGetsShirtIcon(name: string)
    requires name == "Polo Shirt"
    ensures GetIconForOption(name) == "tshirt-v"
  {
    LowerPoloShirt();
    ShirtDecidesPoloShirt(Lower(name));
    IconOfDecider(name, 8);
  }

  /** The lowered name the lookup sees. */
  lemma LowerPoloShirt()
    ensures Lower("Polo Shirt") == "polo shirt"
  {
  }

  /** "shirt" decides "polo shirt", ahead of "polo" further down the table. */
  lemma ShirtDecidesPoloShirt(l: string)
    requires l == "polo shirt"
    ensures Decides(OptionIcons(), l, 8) && OptionIcons()[8].1 == "tshirt-v"
  {
    ShirtDecides(l, [0, 1, 1, 0, 0, 3, 0, 0], 5);
  }

  /** "shirt" is the first keyword found in `l`, given for each of the eight
      keywords before it the position of a letter that `l` lacks. */
  lemma ShirtDecides(l: string, missing: seq<nat>, at: int)
    requires |missing| == 8
    requires forall j :: 0 <= j < 8 ==> missing[j] < |KeywordsUpToShirt()[j].0| && KeywordsUpToShirt()[j].0[missing[j]] !in l
    requires OccursAt(l, "shirt", at)
    ensures Decides(OptionIcons(), l, 8) && OptionIcons()[8].1 == "tshirt-v"
  {
    var p := KeywordsUpToShirt();
    DecidesByMissing(p, l, 8, missing, at);
    DecidesInPrefix(OptionIcons(), p, l, 8);
  }

  /** What one row of the colour list shows. */
  datatype ColorRow = ColorRow(selected: bool, swatch: string, caption: string)

  /** What one row of the outfit list shows. */
  datatype OutfitRow = OutfitRow(selected: bool, icon: string, iconColor: string, caption: string)

  /** The summary strip under the two lists. */
  datatype Summary = Summary(swatch: string, icon: string, iconColor: string, text: string)

  /** The swatch of the selected colour: the colour of the first colour option whose
      value is the selection, or of the empty name when there is none. */
  function SelectedSwatch(colorOptions: seq<PickerProp>, selectedColor: string): string {
    GetColorForOption(NameOr(OptionWithValue(colorOptions, selectedColor), ""))
  }

  /** `renderColorItem` over the colour list. */
  function ColorColumn(colorOptions: seq<PickerProp>, selectedColor: string): (rows: seq<ColorRow>)
    ensures |rows| == |colorOptions|
    ensures forall i :: 0 <= i < |rows| ==> (rows[i].selected <==> colorOptions[i].value == selectedColor)
    ensures forall i :: 0 <= i < |rows| ==>
      rows[i].swatch == GetColorForOption(colorOptions[i].name) && rows[i].caption == colorOptions[i].name
  {
    seq(|colorOptions|, i requires 0 <= i < |colorOptions| =>
      var item := colorOptions[i];
      ColorRow(item.value == selectedColor, GetColorForOption(item.name), item.name))
  }

  /** `renderOutfitItem` over the outfit list: the selected outfit's icon is drawn
      in the selected colour's swatch, every other icon in the text colour. */
  function OutfitColumn(outfitOptions: seq<PickerProp>, selectedOutfit: string,
                        colorOptions: seq<PickerProp>, selectedColor: string): (rows: seq<OutfitRow>)
    ensures |rows| == |outfitOptions|
    ensures forall i :: 0 <= i < |rows| ==> (rows[i].selected <==> outfitOptions[i].value == selectedOutfit)
    ensures forall i :: 0 <= i < |rows| ==>
      rows[i].icon == GetIconForOption(outfitOptions[i].name) && rows[i].caption == outfitOptions[i].name
    ensures forall i :: 0 <= i < |rows| && !rows[i].selected ==> rows[i].iconColor == TextColor
    ensures forall i :: 0 <= i < |rows| && rows[i].selected ==>
      rows[i].iconColor == SelectedSwatch(colorOptions, selectedColor)
  {
    var swatch := SelectedSwatch(colorOptions, selectedColor);
    seq(|outfitOptions|, i requires 0 <= i < |outfitOptions| =>
      var item := outfitOptions[i];
      var selected := item.value == selectedOutfit;
      OutfitRow(selected, GetIconForOption(item.name), if selected then swatch else TextColor, item.name))
  }

  /** The summary: the selected colour's swatch, the selected outfit's icon drawn in
      that swatch, and the text "<colour name> <outfit name>". */
  function SummaryOf(colorOptions: seq<PickerProp>, outfitOptions: seq<PickerProp>,
                     selectedColor: string, selectedOutfit: string): (r: Summary)
    ensures r.iconColor == r.swatch
    ensures r.swatch in Values(ColorMap()) || r.swatch == DefaultColor
    ensures r.icon in Values(OptionIcons())
    ensures OptionWithValue(colorOptions, selectedColor).None? ==> r.swatch == DefaultColor
    ensures OptionWithValue(outfitOptions, selectedOutfit).None? ==> r.icon == DefaultIcon
    ensures forall i :: IsFirst(colorOptions, HasValue(selectedColor), i) ==>
      r.swatch == GetColorForOption(colorOptions[i].name)
    ensures forall k :: IsFirst(outfitOptions, HasValue(selectedOutfit), k) ==>
      r.icon == GetIconForOption(outfitOptions[k].name)
  {
    var colorOption := OptionWithValue(colorOptions, selectedColor);
    var outfitOption := OptionWithValue(outfitOptions, selectedOutfit);
    var swatch := GetColorForOption(NameOr(colorOption, ""));
    Summary(swatch, GetIconForOption(NameOr(outfitOption, "")), swatch,
            NameOr(colorOption, "") + " " + NameOr(outfitOption, ""))
  }

  /** A row is marked exactly when its value is the selection, so when values are
      distinct (they are the list keys) at most one colour row is marked, and one
      is marked exactly when the selection is among the options. */
  lemma AtMostOneColorRowSelected(colorOptions: seq<PickerProp>, selectedColor: string)
    requires DistinctValues(colorOptions)
    ensures forall i, j :: 0 <= i < j < |colorOptions| ==>
      !(ColorColumn(colorOptions, selectedColor)[i].selected && ColorColumn(colorOptions, selectedColor)[j].selected)
    ensures (exists i :: 0 <= i < |colorOptions| && ColorColumn(colorOptions, selectedColor)[i].selected)
      <==> OptionWithValue(colorOptions, selectedColor).Some?
  {
    var rows := ColorColumn(colorOptions, selectedColor);
    if OptionWithValue(colorOptions, selectedColor).Some? {
      var o := OptionWithValue(colorOptions, selectedColor).value;
      var i :| 0 <= i < |colorOptions| && colorOptions[i] == o;
      assert rows[i].selected;
    }
  }

  /** The marked outfit row agrees with the summary: same icon, and its icon colour
      is the summary's swatch. */
  lemma SelectedOutfitRowMatchesSummary(colorOptions: seq<PickerProp>, outfitOptions: seq<PickerProp>,
                                        selectedColor: string, selectedOutfit: string, i: int)
    requires DistinctValues(outfitOptions) && 0 <= i < |outfitOptions|
    requires OutfitColumn(outfitOptions, selectedOutfit, colorOptions, selectedColor)[i].selected
    ensures var row := OutfitColumn(outfitOptions, selectedOutfit, colorOptions, selectedColor)[i];
      var summary := SummaryOf(colorOptions, outfitOptions, selectedColor, selectedOutfit);
      row.icon == summary.icon && row.iconColor == summary.iconColor == summary.swatch
  {
    DistinctFindsSelf(outfitOptions, i);
    var name := outfitOptions[i].name;
    if name == "" {
      assert NameOr(Some(outfitOptions[i]), "") == "";
    }
  }

  /** The summary text is the selected colour's name, a space, and the selected
      outfit's name, each the empty string when no option carries the selection. */
  lemma SummaryTextNamesSelection(colorOptions: seq<PickerProp>, outfitOptions: seq<PickerProp>,
                                  selectedColor: string, selectedOutfit: string)
    ensures var text := SummaryOf(colorOptions, outfitOptions, selectedColor, selectedOutfit).text;
      forall i, k :: IsFirst(colorOptions, HasValue(selectedColor), i) && IsFirst(outfitOptions, HasValue(selectedOutfit), k) ==>
        text == colorOptions[i].name + " " + outfitOptions[k].name
    ensures var text := SummaryOf(colorOptions, outfitOptions, selectedColor, selectedOutfit).text;
      (OptionWithValue(colorOptions, selectedColor).None? && OptionWithValue(outfitOptions, selectedOutfit).None?) ==> text == " "
    ensures var text := SummaryOf(colorOptions, outfitOptions, selectedColor, selectedOutfit).text;
      forall i :: IsFirst(colorOptions, HasValue(selectedColor), i) && OptionWithValue(outfitOptions, selectedOutfit).None? ==>
        text == colorOptions[i].name + " "
    ensures var text := SummaryOf(colorOptions, outfitOptions, selectedColor, selectedOutfit).text;
      forall k :: OptionWithValue(colorOptions, selectedColor).None? && IsFirst(outfitOptions, HasValue(selectedOutfit), k) ==>
        text == " " + outfitOptions[k].name
  {
    var color := OptionWithValue(colorOptions, selectedColor);
    var outfit := OptionWithValue(outfitOptions, selectedOutfit);
    assert SummaryOf(colorOptions, outfitOptions, selectedColor, selectedOutfit).text
      == NameOr(color, "") + " " + NameOr(outfit, "");
    assert color.Some? ==> NameOr(color, "") == color.value.name;
    assert outfit.Some? ==> NameOr(outfit, "") == outfit.value.name;
  }

  /** A tap on a row of either list. */
  datatype Tap = ColorTap(value: string) | OutfitTap(value: string)

  /** The parent callback a tap reaches. */
  datatype Callback = OnColorChange(value: string) | OnOutfitChange(value: string)

  /** `handleColorSelect` / `handleOutfitSelect`: each tap reaches exactly one
      callback, the one of its own list, carrying the tapped value. */
  function HandleTap(tap: Tap): (calls: seq<Callback>)
    ensures |calls| == 1
    ensures calls[0].OnColorChange? <==> tap.ColorTap?
    ensures calls[0].value == tap.value
  {
    match tap
    case ColorTap(v) => [OnColorChange(v)]
    case OutfitTap(v) => [OnOutfitChange(v)]
  }

  /** Pressing row `i` of the colour list taps that option's value. */
  function PressColorRow(colorOptions: seq<PickerProp>, i: int): Tap
    requires 0 <= i < |colorOptions|
  {
    ColorTap(colorOptions[i].value)
  }

  /** Pressing row `i` of the outfit list taps that option's value. */
  function PressOutfitRow(outfitOptions: seq<PickerProp>, i: int): Tap
    requires 0 <= i < |outfitOptions|
  {
    OutfitTap(outfitOptions[i].value)
  }
}
