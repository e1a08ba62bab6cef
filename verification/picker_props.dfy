/** The `{ name, value }` option record both pickers take, and the lookup of the
    option carrying a given value (`options.find(o => o.value === v)`). */
module PickerProps {
  import opened Wrappers
  import opened Seqs

  datatype PickerProp = PickerProp(name: string, value: string)

  function HasValue(v: string): PickerProp -> bool {
    (o: PickerProp) => o.value == v
  }

  /** The first option whose value is `v`. */
  function OptionWithValue(options: seq<PickerProp>, v: string): (r: Option<PickerProp>)
    ensures r.None? <==> forall j :: 0 <= j < |options| ==> options[j].value != v
    ensures forall i :: IsFirst(options, HasValue(v), i) ==> r == Some(options[i])
    ensures r.Some? ==> r.value.value == v && r.value in options
  {
    Find(options, HasValue(v))
  }

  /** `option?.name || fallback`: the option's name, unless the option is missing
      or its name is the empty string. */
  function NameOr(o: Option<PickerProp>, fallback: string): (r: string)
    ensures o.Some? && o.value.name != "" ==> r == o.value.name
    ensures o.None? || o.value.name == "" ==> r == fallback
  {
    if o.Some? && o.value.name != "" then o.value.name else fallback
  }

  /** No two options share a value (each value is the list's React key). */
  ghost predicate DistinctValues(options: seq<PickerProp>) {
    forall i, j :: 0 <= i < j < |options| ==> options[i].value != options[j].value
  }

  /** With distinct values, the option found for `options[i].value` is `options[i]`. */
  lemma DistinctFindsSelf(options: seq<PickerProp>, i: int)
    requires DistinctValues(options) && 0 <= i < |options|
    ensures OptionWithValue(options, options[i].value) == Some(options[i])
  {
    assert IsFirst(options, HasValue(options[i].value), i);
  }
}
