/** The full-screen image viewer (components/imageViewer/imageViewer.tsx): a pager
    over the images with a "position / total" counter, a record of which images have
    finished loading, a controls overlay the user toggles by tapping, and an image
    that is shown (opacity 1) or hidden (opacity 0). */
module ImageViewer {
  /** An image of the gallery; only its id matters to the viewer's state. */
  datatype Image = Image(id: string, url: string)

  /** The pages: `images` when there are any, otherwise the single `image`. */
  function AllImages(image: Image, images: seq<Image>): (r: seq<Image>)
    ensures |r| > 0
    ensures images != [] ==> r == images
    ensures images == [] ==> r == [image]
  {
    if |images| > 0 then images else [image]
  }

  /** The viewer's state. `loaded` is the loaded-image record keyed by image id;
      `imageShown` stands for the image opacity, 1 or 0. */
  datatype Viewer = Viewer(loaded: map<string, bool>, currentIndex: int, controlsVisible: bool, imageShown: bool)

  /** `loadedImages[id] || false`. */
  predicate IsLoaded(v: Viewer, id: string) {
    id in v.loaded && v.loaded[id]
  }

  /** The record only ever holds `true`: an id is either loaded or absent. */
  ghost predicate OnlyTrue(v: Viewer) {
    forall id :: id in v.loaded ==> v.loaded[id]
  }

  /** The state on mount: nothing loaded, the initial page, controls shown, image hidden. */
  function Mount(initialIndex: int): (v: Viewer)
    ensures v.loaded == map[] && v.currentIndex == initialIndex
    ensures v.controlsVisible && !v.imageShown
  {
    Viewer(map[], initialIndex, true, false)
  }

  /** The effect run when the modal becomes visible: forget every load and hide the
      image; the page and the controls stay. */
  function BecomeVisible(v: Viewer): (r: Viewer)
    ensures forall id :: !IsLoaded(r, id)
    ensures !r.imageShown
    ensures r.currentIndex == v.currentIndex && r.controlsVisible == v.controlsVisible
  {
    v.(loaded := map[], imageShown := false)
  }

  /** `handleImageLoad(id)`, once its short delay has passed: `id` becomes loaded,
      every other id keeps its entry, and the image is shown. */
  function ImageLoad(v: Viewer, id: string): (r: Viewer)
    ensures IsLoaded(r, id) && r.imageShown
    ensures forall other :: other != id ==> (other in r.loaded <==> other in v.loaded)
    ensures forall other :: other != id && other in v.loaded ==> r.loaded[other] == v.loaded[other]
    ensures r.currentIndex == v.currentIndex && r.controlsVisible == v.controlsVisible
  {
    v.(loaded := v.loaded[id := true], imageShown := true)
  }

  /** Loading is idempotent and loads commute: only the set of loaded ids matters. */
  lemma ImageLoadsCommute(v: Viewer, a: string, b: string)
    ensures ImageLoad(ImageLoad(v, a), a) == ImageLoad(v, a)
    ensures ImageLoad(ImageLoad(v, a), b) == ImageLoad(ImageLoad(v, b), a)
  {
    if a != b {
      assert v.loaded[a := true][b := true] == v.loaded[b := true][a := true];
    }
  }

  /** `toggleControls`: flips whether the controls are shown, nothing else. */
  function ToggleControls(v: Viewer): (r: Viewer)
    ensures r.controlsVisible != v.controlsVisible
    ensures r.loaded == v.loaded && r.currentIndex == v.currentIndex && r.imageShown == v.imageShown
  {
    v.(controlsVisible := !v.controlsVisible)
  }

  /** Toggling twice restores the state. */
  lemma ToggleTwiceRestores(v: Viewer)
    ensures ToggleControls(ToggleControls(v)) == v
  {
  }

  /** An entry of the pager's viewable-items report: a page index and its image's id. */
  datatype Viewable = Viewable(index: int, id: string)

  /** `handleViewableItemsChanged`: an empty report changes nothing; otherwise the
      page becomes the first viewable item's, and the image shows exactly when that
      item's image has loaded. */
  function ViewableChanged(v: Viewer, items: seq<Viewable>): (r: Viewer)
    ensures items == [] ==> r == v
    ensures items != [] ==> r.currentIndex == items[0].index
    ensures items != [] ==> (r.imageShown <==> IsLoaded(v, items[0].id))
    ensures r.loaded == v.loaded && r.controlsVisible == v.controlsVisible
  {
    if |items| > 0 then
      v.(currentIndex := items[0].index, imageShown := IsLoaded(v, items[0].id))
    else v
  }

  /** The counter: the 1-based page and the number of pages. */
  datatype Counter = Counter(position: int, total: nat)

  /** The counter drawn over the pager for the current page: it shows the page's
      1-based position out of all the pages. */
  function CounterOf(v: Viewer, pages: seq<Image>): (c: Counter)
    ensures c.position == v.currentIndex + 1 && c.total == |pages|
    ensures 0 <= v.currentIndex < |pages| <==> 1 <= c.position <= c.total
  {
    Counter(v.currentIndex + 1, |pages|)
  }

  /** What can happen to the viewer. */
  datatype Event = Shown | Loaded(id: string) | Tap | Scrolled(items: seq<Viewable>)

  /** One event, handled by its own handler. */
  function Step(v: Viewer, e: Event): Viewer {
    match e
    case Shown => BecomeVisible(v)
    case Loaded(id) => ImageLoad(v, id)
    case Tap => ToggleControls(v)
    case Scrolled(items) => ViewableChanged(v, items)
  }

  /** The events in order. */
  function Run(v: Viewer, events: seq<Event>): Viewer
    decreases |events|
  {
    if events == [] then v else Run(Step(v, events[0]), events[1..])
  }

  /** The pager only reports pages that exist. */
  predicate ReportsPagesOf(e: Event, pages: seq<Image>) {
    e.Scrolled? ==> forall k :: 0 <= k < |e.items| ==> 0 <= e.items[k].index < |pages|
  }

  /** What every reachable state satisfies: the record holds only `true`, and the
      page lies within the pages. */
  ghost predicate Good(v: Viewer, pages: seq<Image>) {
    OnlyTrue(v) && 0 <= v.currentIndex < |pages|
  }

  /** Every event keeps the state good. */
  lemma StepKeepsGood(v: Viewer, pages: seq<Image>, e: Event)
    requires Good(v, pages) && ReportsPagesOf(e, pages)
    ensures Good(Step(v, e), pages)
  {
  }

  /** From a good start, any run of events keeps the state good; so the counter
      always reads between 1 and the number of pages. */
  lemma {:induction false} RunKeepsGood(v: Viewer, pages: seq<Image>, events: seq<Event>)
    requires Good(v, pages)
    requires forall k :: 0 <= k < |events| ==> ReportsPagesOf(events[k], pages)
    ensures Good(Run(v, events), pages)
    ensures 1 <= CounterOf(Run(v, events), pages).position <= CounterOf(Run(v, events), pages).total
    decreases |events|
  {
    if events != [] {
      StepKeepsGood(v, pages, events[0]);
      RunKeepsGood(Step(v, events[0]), pages, events[1..]);
    }
  }

  /** Opening on an existing page starts good. */
  lemma MountIsGood(initialIndex: int, image: Image, images: seq<Image>)
    requires 0 <= initialIndex < |AllImages(image, images)|
    ensures Good(Mount(initialIndex), AllImages(image, images))
  {
  }

  /** A viewer opened on an existing page keeps its counter between 1 and the number
      of pages, whatever the user does, as long as the pager reports existing pages. */
  lemma MountedCounterInRange(initialIndex: int, image: Image, images: seq<Image>, events: seq<Event>)
    requires 0 <= initialIndex < |AllImages(image, images)|
    requires forall k :: 0 <= k < |events| ==> ReportsPagesOf(events[k], AllImages(image, images))
    ensures var c := CounterOf(Run(Mount(initialIndex), events), AllImages(image, images));
      1 <= c.position <= c.total
  {
    MountIsGood(initialIndex, image, images);
    RunKeepsGood(Mount(initialIndex), AllImages(image, images), events);
  }

  /** Scrolling back to a page whose image loaded after the modal was last shown
      shows it at once; a page loaded only before that shows hidden. */
  lemma LoadedPageShowsOnReturn(v: Viewer, id: string, index: int)
    ensures ViewableChanged(ImageLoad(v, id), [Viewable(index, id)]).imageShown
    ensures !ViewableChanged(BecomeVisible(ImageLoad(v, id)), [Viewable(index, id)]).imageShown
  {
  }
}
