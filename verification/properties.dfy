/** Style properties as the back end delivers them ("Outfit", "Outfit Color",
    "Gender"), each with its list of values, and the two lookups the screens make:
    the first property with a given name, and the first value with a given name. */
module Properties {
  import opened Wrappers
  import opened Seqs

  datatype PropertyValue = PropertyValue(id: string, name: string)

  datatype Property = Property(name: string, values: seq<PropertyValue>)

  function PropertyNamed(name: string): Property -> bool {
    (p: Property) => p.name == name
  }

  function ValueNamed(name: string): PropertyValue -> bool {
    (v: PropertyValue) => v.name == name
  }

  /** `properties.find(p => p.name === name)`: the first property called exactly `name`. */
  function FindProperty(properties: seq<Property>, name: string): (r: Option<Property>)
    ensures r.None? <==> forall j :: 0 <= j < |properties| ==> properties[j].name != name
    ensures forall i :: IsFirst(properties, PropertyNamed(name), i) ==> r == Some(properties[i])
  {
    Find(properties, PropertyNamed(name))
  }

  /** `values.find(v => v.name === name)`: the first value called exactly `name`. */
  function FindValue(values: seq<PropertyValue>, name: string): (r: Option<PropertyValue>)
    ensures r.None? <==> forall j :: 0 <= j < |values| ==> values[j].name != name
    ensures forall i :: IsFirst(values, ValueNamed(name), i) ==> r == Some(values[i])
  {
    Find(values, ValueNamed(name))
  }

  /** `value?.id ?? ""` (and `value?.id || ""`, which agrees on strings): the id, or
      the empty string when there is no value. */
  function IdOr(v: Option<PropertyValue>): (r: string)
    ensures v.Some? ==> r == v.value.id
    ensures v.None? ==> r == ""
  {
    match v
    case Some(x) => x.id
    case None => ""
  }
}
