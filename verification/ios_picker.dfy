/** The single-list picker used on iOS (components/common/picker.ios.tsx): a trigger
    button showing the committed option, and a modal list in which the user picks a
    draft value that reaches the parent only through Confirm. Its colour table and
    colour lookup are the same as the dual picker's and live in `ColorNames`; its
    icon table is its own. */
module IosPicker {
  import opened Wrappers
  import opened Seqs
  import opened Text
  import opened Keywords
  import opened ColorNames
  import opened PickerProps

  /** `OPTION_ICONS.default`: the icon when no keyword occurs in the name. */
  const DefaultIcon: string := "circle-outline"

  /** The trigger text when no option carries the committed value. */
  const Placeholder: string := "Select an option"

  /** Default icon. */
  function DefaultEntry(): (t: Table)
    ensures KeysNonEmpty(t)
  {
    [
      ("default", DefaultIcon)
    ]
  }

  /** Clothing/Outfit related. */
  function Clothing(): (t: Table)
    ensures KeysNonEmpty(t)
  {
    [
      ("suit", "tie"),
      ("casual", "tshirt-crew"),
      ("formal", "hanger"),
      ("business", "briefcase"),
      ("professional", "account-tie"),
      ("shirt", "tshirt-crew"),
      ("tshirt", "tshirt-crew"),
      ("jacket", "coat"),
      ("blazer", "coat-rack"),
      ("hoodie", "hanger"),
      ("sweater", "hanger"),
      ("dress", "tshirt-v")
    ]
  }

  /** Colors. */
  function ColorIcons(): (t: Table)
    ensures KeysNonEmpty(t)
  {
    [
      ("black", "circle"),
      ("white", "circle-outline"),
      ("blue", "circle"),
      ("red", "circle"),
      ("green", "circle"),
      ("navy", "circle"),
      ("gray", "circle"),
      ("grey", "circle"),
      ("brown", "circle"),
      ("purple", "circle"),
      ("pink", "circle"),
      ("yellow", "circle"),
      ("orange", "circle")
    ]
  }

  /** Gender. */
  function Gender(): (t: Table)
    ensures KeysNonEmpty(t)
  {
    [
      ("male", "gender-male"),
      ("female", "gender-female")
    ]
  }

  /** Other common categories. */
  function Other(): (t: Table)
    ensures KeysNonEmpty(t)
  {
    [
      ("photo", "camera"),
      ("style", "palette"),
      ("setting", "cog")
    ]
  }

  /** `OPTION_ICONS` in declaration order, starting with the `default` key itself. */
  function OptionIcons(): (t: Table)
    ensures |t| == 31 && KeysNonEmpty(t)
    ensures t[0] == ("default", DefaultIcon)
  {
    DefaultEntry() + Clothing() + ColorIcons() + Gender() + Other()
  }

  /** The icon for an option name (`getIconForOption`): the icon of the first keyword,
      in declaration order, that the lowered name includes, else the default icon.
      Unlike the dual picker there is no separate test for the empty name; the empty
      name includes no keyword and so falls through to the default. */
  function GetIconForOption(name: string): (r: string)
    ensures r in Values(OptionIcons())
    ensures (forall j :: 0 <= j < |OptionIcons()| ==> !Contains(Lower(name), OptionIcons()[j].0)) ==> r == DefaultIcon
    ensures forall i :: Decides(OptionIcons(), Lower(name), i) ==> r == OptionIcons()[i].1
  {
    assert OptionIcons()[0].1 == DefaultIcon;
    LookupIn(OptionIcons(), Lower(name), DefaultIcon)
  }

  /** The empty name gets the default icon, through the no-match path. */
  lemma EmptyNameGetsDefaultIcon()
    ensures GetIconForOption("") == DefaultIcon
  {
    EmptyNameFallsBack(OptionIcons(), DefaultIcon);
  }

  /** The icon lookup ignores case. */
  lemma IconIgnoresCase(name: string)
    ensures GetIconForOption(Lower(name)) == GetIconForOption(name)
  {
    LowerIdempotent(name);
  }

  /** "male" (index 26) is declared before "female" (index 27) and "female" includes
      it, so the "female" keyword never decides any name. */
  lemma FemaleKeyNeverDecides(name: string)
    ensures OptionIcons()[26].0 == "male" && OptionIcons()[27].0 == "female"
    ensures FirstKeyIn(OptionIcons(), Lower(name)) != Some(27)
  {
    var t := OptionIcons();
    assert t[26].0 == "male" && t[27].0 == "female";
    ContainsAt(t[27].0, t[26].0, 2);
    ShadowedKeyNeverDecides(t, 26, 27, Lower(name));
  }

  /** The first twenty-seven keywords of the icon table, up to "male". */
  function KeywordsUpToMale(): (p: Table)
    ensures |p| == 27 && OptionIcons()[..27] == p
  {
    DefaultEntry() + Clothing() + ColorIcons() + [("male", "gender-male")]
  }

  /** "male" is the first keyword found in "female": each of the twenty-six keywords
      before it has a letter that "female" lacks. */
  lemma MaleDecidesFemale(l: string)
    requires l == "female"
    ensures Decides(OptionIcons(), l, 26) && OptionIcons()[26].1 == "gender-male"
  {
    var p := KeywordsUpToMale();
    var missing: seq<nat> := [0, 0, 0, 1, 0, 0, 0, 0, 0, 0, 0, 0, 0, 0, 0, 0, 0, 0, 0, 0, 0, 0, 0, 0, 0, 0];
    DecidesByMissing(p, l, 26, missing, 2);
    DecidesInPrefix(OptionIcons(), p, l, 26);
  }

  /** "Female" gets the male icon, "gender-male", not "gender-female". */
  lemma FemaleGetsMaleIcon()
    ensures GetIconForOption("Female") == "gender-male"
  {
    assert Lower("Female") == "female";
    MaleDecidesFemale(Lower("Female"));
  }

  /** A mixed-case exact key beats the earlier substring key: "DarkBlue" lowers to
      the key "darkblue" and gets its colour, not the colour of "blue". */
  lemma MixedCaseExactColorWins()
    ensures GetColorForOption("DarkBlue") == "#0D47A1"
  {
    assert Lower("DarkBlue") == "darkblue";
    ColorIgnoresCase("DarkBlue");
    ExactMatchBeatsSubstring();
  }

  /** The trigger's caption (`selectedOption?.name || "Select an option"`): the name of
      the first option carrying the committed value, or the placeholder when there is
      none or its name is empty. */
  function TriggerLabel(options: seq<PickerProp>, selectedValue: string): (r: string)
    ensures forall i :: IsFirst(options, HasValue(selectedValue), i) && options[i].name != "" ==> r == options[i].name
    ensures forall i :: IsFirst(options, HasValue(selectedValue), i) && options[i].name == "" ==> r == Placeholder
    ensures (forall j :: 0 <= j < |options| ==> options[j].value != selectedValue) ==> r == Placeholder
    ensures r == Placeholder || exists i :: 0 <= i < |options| && options[i].value == selectedValue && r == options[i].name
  {
    NameOr(OptionWithValue(options, selectedValue), Placeholder)
  }

  /** The picker's own state: whether the modal is shown, and the draft value. */
  datatype Picker = Picker(modalVisible: bool, tempValue: string)

  /** What the user does: press the trigger, press a row, press Confirm, press the
      close button, or ask the system to dismiss the modal (back gesture). */
  datatype Event = Open | Select(value: string) | Confirm | Close | RequestClose

  /** The state on mount: hidden, with the draft initialised from the committed value. */
  function Mount(selectedValue: string): (p: Picker)
    ensures !p.modalVisible && p.tempValue == selectedValue
  {
    Picker(false, selectedValue)
  }

  /** One event handler. Returns the next state and the values passed to
      `onValueChange`. Closing is modelled as taking effect at once; the source hides
      the modal when its fade-out animation finishes. */
  function Step(p: Picker, selectedValue: string, e: Event): (r: (Picker, seq<string>))
    ensures e.Confirm? <==> |r.1| == 1
    ensures e.Confirm? ==> r.1 == [p.tempValue]
    ensures !e.Confirm? ==> r.1 == []
    ensures e.Open? ==> r.0 == Picker(true, selectedValue)
    ensures e.Select? ==> r.0 == p.(tempValue := e.value)
    ensures (e.Confirm? || e.Close? || e.RequestClose?) ==> r.0 == p.(modalVisible := false)
  {
    match e
    case Open => (Picker(true, selectedValue), [])
    case Select(v) => (p.(tempValue := v), [])
    case Confirm => (p.(modalVisible := false), [p.tempValue])
    case Close => (p.(modalVisible := false), [])
    case RequestClose => (p.(modalVisible := false), [])
  }

  /** The picker together with a parent that stores each value it is given as its
      committed `selectedValue`. */
  datatype Screen = Screen(committed: string, picker: Picker)

  /** The committed value after the parent has received `calls`: the parent keeps
      the last value it was given. */
  function Committed(committed: string, calls: seq<string>): (r: string)
    ensures calls == [] ==> r == committed
    ensures calls != [] ==> r == calls[|calls| - 1]
  {
    LastOr(committed, calls)
  }

  /** Run a sequence of events; returns the final screen and every value passed to
      `onValueChange`, in order. */
  function Run(s: Screen, events: seq<Event>): (r: (Screen, seq<string>))
    decreases |events|
  {
    if events == [] then (s, [])
    else
      var step := Step(s.picker, s.committed, events[0]);
      var next := Screen(Committed(s.committed, step.1), step.0);
      var rest := Run(next, events[1..]);
      (rest.0, step.1 + rest.1)
  }

  /** Number of Confirm events. */
  function Confirms(events: seq<Event>): nat
    decreases |events|
  {
    if events == [] then 0 else (if events[0].Confirm? then 1 else 0) + Confirms(events[1..])
  }

  /** `onValueChange` is called exactly once per Confirm, and never otherwise. */
  lemma {:induction false} CallsMatchConfirms(s: Screen, events: seq<Event>)
    ensures |Run(s, events).1| == Confirms(events)
    decreases |events|
  {
    if events != [] {
      var step := Step(s.picker, s.committed, events[0]);
      CallsMatchConfirms(Screen(Committed(s.committed, step.1), step.0), events[1..]);
    }
  }

  /** Without a Confirm nothing reaches the parent: no call, same committed value,
      whatever the user shown, selected or dismissed. */
  lemma {:induction false} NoConfirmKeepsCommitted(s: Screen, events: seq<Event>)
    requires Confirms(events) == 0
    ensures Run(s, events).1 == [] && Run(s, events).0.committed == s.committed
    decreases |events|
  {
    if events != [] {
      var step := Step(s.picker, s.committed, events[0]);
      NoConfirmKeepsCommitted(Screen(Committed(s.committed, step.1), step.0), events[1..]);
    }
  }

  /** Running `a + b` is running `a` and then `b` from where `a` left off. */
  lemma {:induction false} RunAppend(s: Screen, a: seq<Event>, b: seq<Event>)
    ensures Run(s, a + b).0 == Run(Run(s, a).0, b).0
    ensures Run(s, a + b).1 == Run(s, a).1 + Run(Run(s, a).0, b).1
    decreases |a|
  {
    if a == [] {
      assert a + b == b;
    } else {
      assert (a + b)[0] == a[0];
      assert (a + b)[1..] == a[1..] + b;
      var step := Step(s.picker, s.committed, a[0]);
      RunAppend(Screen(Committed(s.committed, step.1), step.0), a[1..], b);
    }
  }

  /** Running one event is taking one step and passing its calls to the parent. */
  lemma RunOne(s: Screen, e: Event)
    ensures var step := Step(s.picker, s.committed, e);
      Run(s, [e]) == (Screen(Committed(s.committed, step.1), step.0), step.1)
  {
    var step := Step(s.picker, s.committed, e);
    var next := Screen(Committed(s.committed, step.1), step.0);
    assert [e][0] == e && [e][1..] == [];
    assert Run(next, []) == (next, []);
    assert step.1 + [] == step.1;
  }

  /** The events of pressing the rows carrying `values`, in order. */
  function Selects(values: seq<string>): (r: seq<Event>)
    ensures |r| == |values| && forall i :: 0 <= i < |r| ==> r[i] == Select(values[i])
  {
    seq(|values|, i requires 0 <= i < |values| => Select(values[i]))
  }

  /** Selecting only moves the draft, to the last value selected. */
  lemma {:induction false} SelectsMoveOnlyDraft(s: Screen, values: seq<string>)
    ensures Run(s, Selects(values)).1 == []
    ensures Run(s, Selects(values)).0 ==
      Screen(s.committed, s.picker.(tempValue := LastOr(s.picker.tempValue, values)))
    decreases |values|
  {
    if values != [] {
      assert Selects(values)[0] == Select(values[0]);
      assert Selects(values)[1..] == Selects(values[1..]);
      SelectsMoveOnlyDraft(Screen(s.committed, s.picker.(tempValue := values[0])), values[1..]);
    }
  }

  /** From mount, the parent hears exactly one value per Confirm, and without a
      Confirm it keeps the value it mounted the picker with. */
  lemma MountedPickerCommitsOnConfirm(selectedValue: string, events: seq<Event>)
    ensures var r := Run(Screen(selectedValue, Mount(selectedValue)), events);
      && |r.1| == Confirms(events)
      && (Confirms(events) == 0 ==> r.0.committed == selectedValue)
  {
    var s := Screen(selectedValue, Mount(selectedValue));
    CallsMatchConfirms(s, events);
    if Confirms(events) == 0 {
      NoConfirmKeepsCommitted(s, events);
    }
  }

  /** Open, select some rows, Confirm: the parent receives one call, with the last
      row selected (or the value it already had, when no row was pressed), and the
      modal is hidden. */
  lemma OpenSelectConfirmCommitsLast(s: Screen, values: seq<string>)
    ensures var r := Run(s, [Open] + Selects(values) + [Confirm]);
      var chosen := LastOr(s.committed, values);
      r.1 == [chosen] && r.0.committed == chosen && !r.0.picker.modalVisible
  {
    var shown := Screen(s.committed, Picker(true, s.committed));
    RunOne(s, Open);
    RunAppend(s, [Open], Selects(values));
    SelectsMoveOnlyDraft(shown, values);
    RunAppend(s, [Open] + Selects(values), [Confirm]);
    RunOne(Run(s, [Open] + Selects(values)).0, Confirm);
  }

  /** Open, select some rows, then dismiss with the close button or the back gesture:
      nothing reaches the parent. */
  lemma OpenSelectDismissCommitsNothing(s: Screen, values: seq<string>, dismiss: Event)
    requires dismiss.Close? || dismiss.RequestClose?
    ensures var r := Run(s, [Open] + Selects(values) + [dismiss]);
      r.1 == [] && r.0.committed == s.committed && !r.0.picker.modalVisible
  {
    var shown := Screen(s.committed, Picker(true, s.committed));
    RunOne(s, Open);
    RunAppend(s, [Open], Selects(values));
    SelectsMoveOnlyDraft(shown, values);
    RunAppend(s, [Open] + Selects(values), [dismiss]);
    RunOne(Run(s, [Open] + Selects(values)).0, dismiss);
  }
}
