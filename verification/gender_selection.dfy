/** The gender screen of project setup (app/genderSelection.tsx): once the available
    properties have arrived, pressing "Female" or "Male" stores the matching value
    of the "Gender" property on the project and moves on to the upload screen. */
module GenderSelection {
  import opened Wrappers
  import opened Seqs
  import opened Properties

  const GenderName: string := "Gender"
  const NextRoute: string := "/imagesUpload"

  /** The two buttons and the value name each one looks for. */
  datatype Gender = Female | Male

  /** A button's caption, which is also the value name it looks for. */
  function ButtonName(g: Gender): (r: string)
    ensures g.Female? <==> r == "Female"
    ensures g.Male? <==> r == "Male"
  {
    match g
    case Female => "Female"
    case Male => "Male"
  }

  /** The screen: the query still loading, or its list of available properties. */
  datatype Screen = Loading | Ready(properties: seq<Property>)

  /** What a press asks for: the mutation, then the navigation. */
  datatype Effect =
    | UpdatePropertyValue(projectId: string, propertyValueId: string)
    | Push(pathname: string, projectId: string)

  /** The id sent for a gender: the id of the first value named after the button in
      the first property named "Gender", or "" when either is missing. */
  function GenderValueId(properties: seq<Property>, g: Gender): (r: string)
    ensures FindProperty(properties, GenderName).None? ==> r == ""
    ensures FindProperty(properties, GenderName).Some? ==>
      var values := FindProperty(properties, GenderName).value.values;
      && (FindValue(values, ButtonName(g)).None? ==> r == "")
      && (FindValue(values, ButtonName(g)).Some? ==> r == FindValue(values, ButtonName(g)).value.id)
  {
    var property := FindProperty(properties, GenderName);
    if property.None? then "" else IdOr(FindValue(property.value.values, ButtonName(g)))
  }

  /** `selectGender`: nothing while loading (only the loading view is drawn, so there
      is no button to press); otherwise the update with the found id, or "", and
      then always the push to the upload screen for the same project. Both requests
      are modelled as succeeding. */
  function SelectGender(screen: Screen, projectId: string, g: Gender): (effects: seq<Effect>)
    ensures screen.Loading? <==> effects == []
    ensures screen.Ready? ==>
      && |effects| == 2
      && effects[0] == UpdatePropertyValue(projectId, GenderValueId(screen.properties, g))
      && effects[1] == Push(NextRoute, projectId)
  {
    match screen
    case Loading => []
    case Ready(properties) =>
      [UpdatePropertyValue(projectId, GenderValueId(properties, g)), Push(NextRoute, projectId)]
  }

  /** The id sent is the id of the first matching value of the first "Gender"
      property, when both exist. */
  lemma SendsFirstMatchingValue(properties: seq<Property>, g: Gender, i: int, k: int)
    requires IsFirst(properties, PropertyNamed(GenderName), i)
    requires IsFirst(properties[i].values, ValueNamed(ButtonName(g)), k)
    ensures GenderValueId(properties, g) == properties[i].values[k].id
  {
  }

  /** A later "Gender" property is never consulted, even when the first has no value
      with the button's name: the id is then "". */
  lemma FirstGenderPropertyOnly(properties: seq<Property>, g: Gender, i: int)
    requires IsFirst(properties, PropertyNamed(GenderName), i)
    requires forall k :: 0 <= k < |properties[i].values| ==> properties[i].values[k].name != ButtonName(g)
    ensures GenderValueId(properties, g) == ""
  {
  }

  /** The navigation happens whether or not the lookup found a value, and carries
      the project the update was for. */
  lemma AlwaysMovesOn(properties: seq<Property>, projectId: string, g: Gender)
    ensures var effects := SelectGender(Ready(properties), projectId, g);
      effects[|effects| - 1] == Push(NextRoute, projectId)
      && effects[0].UpdatePropertyValue? && effects[0].projectId == projectId
  {
  }
}
