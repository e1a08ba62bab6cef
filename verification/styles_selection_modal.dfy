/** The modal that adds a style to a project
    (components/stylesSelection/stylesSelectionModal.tsx): it picks the "Outfit" and
    "Outfit Color" properties, offers their values in the dual picker, keeps the two
    selections, and adds the style with both ids when both are set. */
module StylesSelectionModal {
  import opened Wrappers
  import opened Seqs
  import opened PickerProps
  import opened Properties
  import DualSliderPicker

  const OutfitName: string := "Outfit"
  const ColorName: string := "Outfit Color"

  /** The style the modal is about. */
  datatype Style = Style(id: string, name: string)

  /** The modal's two selections: property-value ids, "" meaning none. */
  datatype Selections = Selections(outfit: string, color: string)

  /** What the open modal offers: both option lists, and `initial`, the selections
      seeded on the first render. Later renders keep `initial` as it was (see
      `Rerender`); presses change the current selections, kept apart from the view. */
  datatype View = View(outfitOptions: seq<PickerProp>, colorOptions: seq<PickerProp>, initial: Selections)

  /** The selection a property starts with: the id of its first value, or "" when
      the property is missing or has no values. */
  function InitialSelection(p: Option<Property>): (r: string)
    ensures p.None? || p.value.values == [] ==> r == ""
    ensures p.Some? && p.value.values != [] ==> r == p.value.values[0].id
  {
    if p.Some? && |p.value.values| > 0 then p.value.values[0].id else ""
  }

  /** A property's values as picker options, name to name and id to value, in order;
      no options when the property is missing. */
  function OptionsOf(p: Option<Property>): (r: seq<PickerProp>)
    ensures p.None? ==> r == []
    ensures p.Some? ==> |r| == |p.value.values|
    ensures p.Some? ==> forall i :: 0 <= i < |r| ==>
      r[i].name == p.value.values[i].name && r[i].value == p.value.values[i].id
  {
    match p
    case None => []
    case Some(q) => seq(|q.values|, i requires 0 <= i < |q.values| => PickerProp(q.values[i].name, q.values[i].id))
  }

  /** The initial selection is the value of the first option, or "" when there are
      no options, so whatever the picker marks first is what the modal starts with. */
  lemma InitialIsFirstOption(p: Option<Property>)
    ensures InitialSelection(p) == if OptionsOf(p) == [] then "" else OptionsOf(p)[0].value
  {
  }

  /** The modal for a style on its first render: nothing when there is no style;
      otherwise the options and initial selections of the first "Outfit" and
      "Outfit Color" properties. */
  function Open(style: Option<Style>, properties: seq<Property>): (r: Option<View>)
    ensures style.None? <==> r.None?
    ensures r.Some? ==>
      && r.value.outfitOptions == OptionsOf(FindProperty(properties, OutfitName))
      && r.value.colorOptions == OptionsOf(FindProperty(properties, ColorName))
    ensures r.Some? ==>
      r.value.initial == Selections(InitialSelection(FindProperty(properties, OutfitName)),
                                    InitialSelection(FindProperty(properties, ColorName)))
  {
    if style.None? then None
    else
      var outfit := FindProperty(properties, OutfitName);
      var color := FindProperty(properties, ColorName);
      Some(View(OptionsOf(outfit), OptionsOf(color), Selections(InitialSelection(outfit), InitialSelection(color))))
  }

  /** The picker's callbacks are the state setters: `onColorChange` sets the colour
      and `onOutfitChange` the outfit; the other selection stays. */
  function Apply(s: Selections, call: DualSliderPicker.Callback): (r: Selections)
    ensures call.OnColorChange? ==> r == s.(color := call.value)
    ensures call.OnOutfitChange? ==> r == s.(outfit := call.value)
  {
    match call
    case OnColorChange(v) => s.(color := v)
    case OnOutfitChange(v) => s.(outfit := v)
  }

  /** A tap in the dual picker, passed through its callbacks to the modal's state. */
  function AfterTap(s: Selections, tap: DualSliderPicker.Tap): Selections {
    var calls := DualSliderPicker.HandleTap(tap);
    Apply(s, calls[0])
  }

  /** A colour tap sets the colour to the tapped value and leaves the outfit alone;
      an outfit tap does the reverse. */
  lemma TapSetsOnlyItsColumn(s: Selections, tap: DualSliderPicker.Tap)
    ensures tap.ColorTap? ==> AfterTap(s, tap) == Selections(s.outfit, tap.value)
    ensures tap.OutfitTap? ==> AfterTap(s, tap) == Selections(tap.value, s.color)
  {
  }

  /** A press on a row of the open modal: the `index`-th colour or outfit option. */
  datatype Press = PressColor(index: nat) | PressOutfit(index: nat)

  /** The pressed row exists in the open modal. */
  predicate PressIn(v: View, p: Press) {
    match p
    case PressColor(i) => i < |v.colorOptions|
    case PressOutfit(i) => i < |v.outfitOptions|
  }

  /** The tap a press makes in the dual picker. */
  function TapOf(v: View, p: Press): (tap: DualSliderPicker.Tap)
    requires PressIn(v, p)
    ensures p.PressColor? ==> tap == DualSliderPicker.ColorTap(v.colorOptions[p.index].value)
    ensures p.PressOutfit? ==> tap == DualSliderPicker.OutfitTap(v.outfitOptions[p.index].value)
  {
    match p
    case PressColor(i) => DualSliderPicker.PressColorRow(v.colorOptions, i)
    case PressOutfit(i) => DualSliderPicker.PressOutfitRow(v.outfitOptions, i)
  }

  /** The selections after a sequence of row presses. */
  function AfterPresses(v: View, s: Selections, presses: seq<Press>): Selections
    requires forall k :: 0 <= k < |presses| ==> PressIn(v, presses[k])
    decreases |presses|
  {
    if presses == [] then s
    else AfterPresses(v, AfterTap(s, TapOf(v, presses[0])), presses[1..])
  }

  /** Each selection is one of its options' values, or "" when there are no options. */
  ghost predicate Valid(v: View, s: Selections) {
    (if v.outfitOptions == [] then s.outfit == "" else exists i :: 0 <= i < |v.outfitOptions| && v.outfitOptions[i].value == s.outfit)
    && (if v.colorOptions == [] then s.color == "" else exists i :: 0 <= i < |v.colorOptions| && v.colorOptions[i].value == s.color)
  }

  /** The modal opens in a valid state. */
  lemma OpenIsValid(style: Option<Style>, properties: seq<Property>)
    requires style.Some?
    ensures Valid(Open(style, properties).value, Open(style, properties).value.initial)
  {
    var v := Open(style, properties).value;
    if v.outfitOptions != [] {
      assert v.outfitOptions[0].value == v.initial.outfit;
    }
    if v.colorOptions != [] {
      assert v.colorOptions[0].value == v.initial.color;
    }
  }

  /** One row press keeps the selections valid. */
  lemma PressKeepsValid(v: View, s: Selections, p: Press)
    requires Valid(v, s) && PressIn(v, p)
    ensures Valid(v, AfterTap(s, TapOf(v, p)))
  {
    match p
    case PressColor(i) =>
      assert AfterTap(s, TapOf(v, p)) == s.(color := v.colorOptions[i].value);
    case PressOutfit(i) =>
      assert AfterTap(s, TapOf(v, p)) == s.(outfit := v.outfitOptions[i].value);
  }

  /** Row presses keep the selections valid. */
  lemma {:induction false} PressesKeepValid(v: View, s: Selections, presses: seq<Press>)
    requires Valid(v, s)
    requires forall k :: 0 <= k < |presses| ==> PressIn(v, presses[k])
    ensures Valid(v, AfterPresses(v, s, presses))
    decreases |presses|
  {
    if presses != [] {
      PressKeepsValid(v, s, presses[0]);
      PressesKeepValid(v, AfterTap(s, TapOf(v, presses[0])), presses[1..]);
    }
  }

  /** A later render of the same mounted modal with new properties: the option lists
      follow the new properties, but the selections are state, seeded only on the
      first render, so they stay whatever they were. */
  function Rerender(v: View, properties: seq<Property>): (r: View)
    ensures r.outfitOptions == OptionsOf(FindProperty(properties, OutfitName))
    ensures r.colorOptions == OptionsOf(FindProperty(properties, ColorName))
    ensures r.initial == v.initial
  {
    v.(outfitOptions := OptionsOf(FindProperty(properties, OutfitName)),
       colorOptions := OptionsOf(FindProperty(properties, ColorName)))
  }

  /** Properties that arrive after the first render leave both selections at "",
      although the lists now offer values: until rows are pressed the outfit
      selection is not among its options, and Add does nothing. */
  lemma LatePropertiesStayUnselected(projectId: string, style: Style, later: seq<Property>)
    requires forall k :: 0 <= k < |later| ==> |later[k].values| > 0
    requires forall k, j :: 0 <= k < |later| && 0 <= j < |later[k].values| ==> later[k].values[j].id != ""
    requires exists k :: 0 <= k < |later| && later[k].name == OutfitName
    ensures var v := Rerender(Open(Some(style), []).value, later);
      && v.initial == Selections("", "")
      && v.outfitOptions != []
      && !Valid(v, v.initial)
      && HandleAdd(projectId, style, v.initial) == []
  {
  }

  /** The side effects of Add: the `addProjectStyle` mutation and then `onClose`. */
  datatype Effect = AddProjectStyle(projectId: string, styleId: string, propertyValueIds: seq<string>) | CloseModal

  /** `handleAddProjectStyle`: nothing at all unless both selections are set; then
      the mutation with the project, the style and the ids [outfit, colour], in that
      order, followed by closing. */
  function HandleAdd(projectId: string, style: Style, s: Selections): (effects: seq<Effect>)
    ensures effects == [] <==> s.outfit == "" || s.color == ""
    ensures effects != [] ==> |effects| == 2 && effects[1] == CloseModal
    ensures effects != [] ==>
      && effects[0].AddProjectStyle? && effects[0].projectId == projectId
      && effects[0].styleId == style.id && effects[0].propertyValueIds == [s.outfit, s.color]
  {
    if s.outfit != "" && s.color != "" then
      [AddProjectStyle(projectId, style.id, [s.outfit, s.color]), CloseModal]
    else []
  }

  /** When both properties have values and every value has an id, Add goes through
      after any presses: the selections can never become empty. */
  lemma AddAlwaysFiresWithValues(projectId: string, style: Style, v: View, presses: seq<Press>)
    requires v.outfitOptions != [] && v.colorOptions != []
    requires forall i :: 0 <= i < |v.outfitOptions| ==> v.outfitOptions[i].value != ""
    requires forall i :: 0 <= i < |v.colorOptions| ==> v.colorOptions[i].value != ""
    requires Valid(v, v.initial)
    requires forall k :: 0 <= k < |presses| ==> PressIn(v, presses[k])
    ensures |HandleAdd(projectId, style, AfterPresses(v, v.initial, presses))| == 2
  {
    PressesKeepValid(v, v.initial, presses);
  }

  /** Without an "Outfit" property the outfit stays "" and Add never fires. */
  lemma NoOutfitPropertyNeverAdds(projectId: string, style: Style, properties: seq<Property>, presses: seq<Press>)
    requires forall j :: 0 <= j < |properties| ==> properties[j].name != OutfitName
    requires forall k :: 0 <= k < |presses| ==> PressIn(Open(Some(style), properties).value, presses[k])
    ensures var v := Open(Some(style), properties).value;
      HandleAdd(projectId, style, AfterPresses(v, v.initial, presses)) == []
  {
    var v := Open(Some(style), properties).value;
    OpenIsValid(Some(style), properties);
    PressesKeepValid(v, v.initial, presses);
  }
}
