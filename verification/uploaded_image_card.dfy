/** One uploaded photo on the upload screen
    (components/imagesUpload/uploadedImageCard.tsx): a warning overlay when face
    detection rejected the photo, a warning modal explaining why, and a delete
    button on the card and in the modal. */
module UploadedImageCard {
  /** The processing status of an upload. Only the two face-detection failures are
      told apart by the card; every other status is carried by name. */
  datatype Status = NoFacesDetected | MultipleFacesDetected | Other(name: string)

  const NoFacesMessage: string :=
    "No faces were detected in this image. Please upload a clear photo of a single person."
  const MultipleFacesMessage: string :=
    "Multiple faces were detected in this image. Please upload a photo with only one person."

  /** `hasError`: face detection found no face or more than one. */
  predicate HasError(status: Status): (b: bool)
    ensures b <==> !status.Other?
  {
    status == NoFacesDetected || status == MultipleFacesDetected
  }

  /** `getErrorMessage`: the no-faces text for that status, the multiple-faces text
      for every other status, including the ones that are not errors. */
  function ErrorMessage(status: Status): (r: string)
    ensures r == NoFacesMessage <==> status.NoFacesDetected?
    ensures r == MultipleFacesMessage <==> !status.NoFacesDetected?
  {
    if status == NoFacesDetected then NoFacesMessage else MultipleFacesMessage
  }

  /** What the user does on a card. */
  datatype Event = PressWarning | PressDelete | RequestClose

  /** What the card asks of the back end. */
  datatype Effect = RemoveImage(imageId: string)

  /** The card: which upload it shows, its status, and whether the modal is open. */
  datatype Card = Card(imageId: string, status: Status, modalVisible: bool)

  /** The warning overlay is drawn exactly for errors. */
  predicate OverlayShown(c: Card) {
    HasError(c.status)
  }

  /** One event. A press on the warning opens the modal, and is possible only while
      the overlay is drawn; delete (on the card or in the modal) removes the image
      and then closes the modal; a back request closes the modal. Removal is
      modelled as succeeding. */
  function Step(c: Card, e: Event): (r: (Card, seq<Effect>))
    ensures r.0.imageId == c.imageId && r.0.status == c.status
    ensures e.PressDelete? <==> r.1 == [RemoveImage(c.imageId)]
    ensures !e.PressDelete? ==> r.1 == []
    ensures e.PressWarning? ==> (r.0.modalVisible <==> c.modalVisible || OverlayShown(c))
    ensures !e.PressWarning? ==> !r.0.modalVisible
  {
    match e
    case PressWarning => (if OverlayShown(c) then c.(modalVisible := true) else c, [])
    case PressDelete => (c.(modalVisible := false), [RemoveImage(c.imageId)])
    case RequestClose => (c.(modalVisible := false), [])
  }

  /** The events in order, with the effects of each in order. */
  function Run(c: Card, events: seq<Event>): (r: (Card, seq<Effect>))
    decreases |events|
  {
    if events == [] then (c, [])
    else
      var step := Step(c, events[0]);
      var rest := Run(step.0, events[1..]);
      (rest.0, step.1 + rest.1)
  }

  /** A card starts with its modal closed. */
  function Mount(imageId: string, status: Status): (c: Card)
    ensures !c.modalVisible
  {
    Card(imageId, status, false)
  }

  /** Whatever happens, the modal is open only on a card whose photo was rejected,
      and the message it shows names the actual failure. */
  lemma {:induction false} ModalOnlyForErrors(c: Card, events: seq<Event>)
    requires c.modalVisible ==> HasError(c.status)
    ensures Run(c, events).0.imageId == c.imageId && Run(c, events).0.status == c.status
    ensures var r := Run(c, events).0;
      r.modalVisible ==> HasError(r.status)
    ensures var r := Run(c, events).0;
      r.modalVisible ==> (ErrorMessage(r.status) == MultipleFacesMessage <==> r.status == MultipleFacesDetected)
    decreases |events|
  {
    if events != [] {
      ModalOnlyForErrors(Step(c, events[0]).0, events[1..]);
    }
  }

  /** A freshly mounted card opens its modal, whatever happens, only when its own
      photo was rejected. */
  lemma MountedModalOnlyForErrors(imageId: string, status: Status, events: seq<Event>)
    ensures var c := Run(Mount(imageId, status), events).0;
      c.modalVisible ==> HasError(status)
  {
    ModalOnlyForErrors(Mount(imageId, status), events);
  }

  /** Number of delete presses. */
  function Deletes(events: seq<Event>): nat
    decreases |events|
  {
    if events == [] then 0 else (if events[0].PressDelete? then 1 else 0) + Deletes(events[1..])
  }

  /** One removal is asked for per delete press, each for this card's image. */
  lemma {:induction false} RemovalsMatchDeletes(c: Card, events: seq<Event>)
    ensures |Run(c, events).1| == Deletes(events)
    ensures forall k :: 0 <= k < |Run(c, events).1| ==> Run(c, events).1[k] == RemoveImage(c.imageId)
    decreases |events|
  {
    if events != [] {
      RemovalsMatchDeletes(Step(c, events[0]).0, events[1..]);
    }
  }
}
