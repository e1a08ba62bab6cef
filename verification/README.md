# AI headshots app: the logic inside its pickers and screens, in Dafny

The app is a React Native front end for an AI headshot service. Most of it is
declarative UI over a GraphQL back end. A few components also hold small pieces
of pure, sequential logic, and this project models those pieces and proves what
they do:

- **Keyword lookup for option names.** Both pickers give each option an icon or
  a swatch by finding a keyword in the lowered option name. The tables are
  modelled as ordered `seq<(string, string)>`, because `Object.entries` yields
  keys in declaration order. The lookups are first-match searches over these
  tables (`Keywords`, `ColorNames`, `DualSliderPicker`, `IosPicker`).
- **Selection state.** Each tap in the dual picker reaches exactly one parent
  callback. The iOS picker keeps a draft value that reaches the parent only on
  Confirm. The image viewer keeps a loaded-image record, a page index and a
  controls flag (`DualSliderPicker`, `IosPicker`, `ImageViewer`).
- **Cart placeholders.** Each order of the cart shows its chosen styles, then
  one captioned placeholder per style its package still allows
  (`SelectedStyles`).
- **Lookups and gating.** The screens find the "Outfit", "Outfit Color" and
  "Gender" properties and take a value from them. The style modal adds a style
  only when both selections are set. The upload card classifies face-detection
  statuses (`Properties`, `StylesSelectionModal`, `GenderSelection`,
  `UploadedImageCard`).

Shared pieces: `Wrappers` (Option), `Seqs` (first-match search, the model of
`Array.prototype.find`), `Text` (ASCII lowering, `includes`, decimal
rendering) and `PickerProps` (the `{ name, value }` option record).

The two pickers declare byte-for-byte identical `COLOR_MAP` tables (45 entries)
and identical `getColorForOption` bodies. They are modelled once, in
`ColorNames`. Their `OPTION_ICONS` tables differ (72 entries in the dual
picker, 31 on iOS), and each picker module has its own.

The proofs make several behaviours of the source explicit:

- Because "shirt" is declared before "tshirt" and "polo", in the dual picker a
  name that contains "shirt" and none of the eight keywords declared before it
  gets the "shirt" icon; "TShirt" and "Polo Shirt" are such names. A name that
  also contains an earlier keyword gets that keyword's icon instead.
- On iOS, because "male" is declared before "female", "Female" gets the male
  icon.
- The four "dark/light blue/green" special cases in `getColorForOption` can
  never fire. A name that contains "blue" or "green" has already matched the
  "blue" or "green" key as a substring. So "Dark Blue" gets plain blue.

Effects the components ask of the outside world are returned as values, not
performed. These are GraphQL mutations, navigation, and calls of parent
callbacks. Each returned sequence records the order of its effects.

## Model

| member | source | states |
|---|---|---|
| Seqs.Find | components/common/DualSliderPicker.tsx:235-236 | `find` yields nothing iff no element satisfies the test, and otherwise yields the first element that does |
| PickerProps.OptionWithValue | components/common/DualSliderPicker.tsx:235-236 | the option found for a value is the first option carrying it, and there is none iff no option carries it |
| PickerProps.NameOr | components/common/picker.ios.tsx:524 | the option's name, or the fallback when the option is missing or its name is empty (the `?.name` fallback pattern) |
| Seqs.FindIndexReturnsFirst | components/common/DualSliderPicker.tsx:235-236 | the index returned is the unique first index satisfying the test |
| Text.Lower | components/common/DualSliderPicker.tsx:242 | lowering keeps length and lowers each character, so no upper-case letter remains |
| Text.LowerIdempotent | components/common/DualSliderPicker.tsx:258 | lowering twice is lowering once, which is why both lookups ignore case |
| Text.ContainsIffOccurs | components/common/DualSliderPicker.tsx:246 | `includes(sub)` holds iff `sub` occurs at some position of the string |
| Text.MissingCharExcludes | components/common/DualSliderPicker.tsx:246 | a string lacking some character of `sub` cannot include `sub` |
| Text.NatToStringRoundTrip | components/stylesSelection/selectedStyles.tsx:54 | the decimal text of a count parses back to the count |
| Keywords.FirstKeyIn | components/common/DualSliderPicker.tsx:245-249 | the index found is the first entry, in declaration order, whose key the name includes; none iff no key is included |
| Keywords.FirstKeyIs | components/common/DualSliderPicker.tsx:261-265 | the index found is the first entry whose key equals the name; none iff no key equals it |
| Keywords.LookupIn | components/common/DualSliderPicker.tsx:245-251 | the result is the value of the deciding entry, or the fallback when no key is included, and always a table value or the fallback |
| Keywords.ShadowedKeyNeverDecides | components/common/DualSliderPicker.tsx:49-51 | a key that includes an earlier key can never be the first match, for any name |
| Keywords.EmptyNameFallsBack | components/common/picker.ios.tsx:207-218 | with non-empty keys, the empty name includes no key and gets the fallback |
| ColorNames.DefaultIsNotAColor | components/common/DualSliderPicker.tsx:138-199 | "#CCCCCC" is not a value of the colour table, so the fallback never coincides with a match |
| ColorNames.KeywordsHaveNoSpace | components/common/DualSliderPicker.tsx:138-199 | no colour key contains a space |
| ColorNames.GetColorForOption | components/common/DualSliderPicker.tsx:255-281 | the result is a table value or "#CCCCCC"; it is "#CCCCCC" iff the name is empty or includes no key; the first exact key match wins, and without one the first included key decides |
| ColorNames.Describe | components/common/DualSliderPicker.tsx:275-278 | each special-case colour is already a table value, and a special case needs "blue" or "green" in the name |
| ColorNames.DescriptionsNeverDecide | components/common/DualSliderPicker.tsx:268-278 | whenever a special case would apply, some key is already included, so the partial-match loop returns first |
| ColorNames.ColorIgnoresCase | components/common/DualSliderPicker.tsx:258 | the colour of a name equals the colour of its lowered form |
| ColorNames.ExactMatchBeatsSubstring | components/common/DualSliderPicker.tsx:261-265 | "darkblue" includes the earlier key "blue" yet gets its own exact colour "#0D47A1" |
| ColorNames.MultiWordNameTakesFirstKeyword | components/common/DualSliderPicker.tsx:268-272 | a name with a space never equals a key, so the first included key decides its colour |
| ColorNames.DarkBlueInWordsIsPlainBlue | components/common/DualSliderPicker.tsx:268-278 | "Dark Blue" gets plain blue "#1E88E5" and never reaches the dark-blue special case |
| DualSliderPicker.OptionIcons | components/common/DualSliderPicker.tsx:34-135 | the icon table has 72 non-empty keys and starts with the "default" entry |
| DualSliderPicker.GetIconForOption | components/common/DualSliderPicker.tsx:239-252 | the icon is a table value; the empty name and a name including no key get "tshirt-crew-outline"; otherwise the first included key decides |
| DualSliderPicker.EmptyNameIconIsFallback | components/common/DualSliderPicker.tsx:240-251 | the early return for the empty name gives the same icon as the no-match fallback |
| DualSliderPicker.IconIgnoresCase | components/common/DualSliderPicker.tsx:242 | the icon of a name equals the icon of its lowered form |
| DualSliderPicker.TshirtKeyNeverDecides | components/common/DualSliderPicker.tsx:49-50 | the "tshirt" entry can never be the first match, because "shirt" comes first |
| DualSliderPicker.ShirtNamesGetShirtIcon | components/common/DualSliderPicker.tsx:245-249 | a name including "shirt" and none of the eight earlier keys gets "tshirt-v" |
| DualSliderPicker.TShirtGetsShirtIcon | components/common/DualSliderPicker.tsx:49-50 | "TShirt" gets "tshirt-v", not the "tshirt" entry's "tshirt-crew" |
| DualSliderPicker.PoloShirtGetsShirtIcon | components/common/DualSliderPicker.tsx:49-51 | "Polo Shirt" gets "tshirt-v", not the "polo" entry's icon |
| DualSliderPicker.ColorColumn | components/common/DualSliderPicker.tsx:293-295 | one row per colour option, in order; a row is marked iff its value equals the selected colour |
| DualSliderPicker.OutfitColumn | components/common/DualSliderPicker.tsx:340-374 | one row per outfit option; a row is marked iff its value equals the selected outfit; the marked icon takes the selected colour's swatch and every other icon the text colour "#FFFFFF" |
| DualSliderPicker.AtMostOneColorRowSelected | components/common/DualSliderPicker.tsx:294 | with distinct values, at most one colour row is marked, and one is marked iff some option carries the selection |
| DualSliderPicker.SelectedOutfitRowMatchesSummary | components/common/DualSliderPicker.tsx:432-441 | the marked outfit row shows the summary's icon, drawn in the summary's swatch |
| DualSliderPicker.SummaryOf | components/common/DualSliderPicker.tsx:426-447 | the summary icon is drawn in the swatch colour; with no option carrying a selection the swatch is "#CCCCCC" and the icon the default; otherwise swatch and icon are the lookups of the first carrying option's name |
| DualSliderPicker.SummaryTextNamesSelection | components/common/DualSliderPicker.tsx:446 | the summary text is the colour name, a space, and the outfit name, with "" for a selection no option carries, stated for each of the four found/missing combinations |
| DualSliderPicker.HandleTap | components/common/DualSliderPicker.tsx:283-291 | every tap reaches exactly one callback, that of its own list, with the tapped value |
| IosPicker.OptionIcons | components/common/picker.ios.tsx:34-75 | the iOS icon table has 31 non-empty keys and starts with "default" |
| IosPicker.GetIconForOption | components/common/picker.ios.tsx:207-218 | the icon is a table value; the first included key decides; no included key gives "circle-outline" |
| IosPicker.EmptyNameGetsDefaultIcon | components/common/picker.ios.tsx:207-218 | without an early return, the empty name still gets "circle-outline" |
| IosPicker.IconIgnoresCase | components/common/picker.ios.tsx:208 | the icon of a name equals the icon of its lowered form |
| IosPicker.FemaleKeyNeverDecides | components/common/picker.ios.tsx:68-69 | the "female" entry can never be the first match, because "male" comes first |
| IosPicker.FemaleGetsMaleIcon | components/common/picker.ios.tsx:68-69 | "Female" gets "gender-male" |
| IosPicker.MixedCaseExactColorWins | components/common/picker.ios.tsx:226-231 | "DarkBlue" lowers to the key "darkblue" and gets "#0D47A1", not blue's colour |
| IosPicker.TriggerLabel | components/common/picker.ios.tsx:523-525 | the caption is the name of the first option carrying the committed value; "Select an option" when no option carries it or that option's name is empty |
| IosPicker.Mount | components/common/picker.ios.tsx:161-162 | the picker starts hidden, with the draft equal to the committed value |
| IosPicker.Step | components/common/picker.ios.tsx:249-329 | Open copies the committed value into the draft and shows the modal; Select changes only the draft; Confirm makes exactly one call, with the draft, and hides the modal; Close and the back request hide it and call nothing |
| IosPicker.CallsMatchConfirms | components/common/picker.ios.tsx:325-327 | over any run, `onValueChange` is called exactly once per Confirm |
| IosPicker.NoConfirmKeepsCommitted | components/common/picker.ios.tsx:295-323 | a run without Confirm makes no call and leaves the committed value alone |
| IosPicker.SelectsMoveOnlyDraft | components/common/picker.ios.tsx:320-323 | a run of selections moves only the draft, to the last value selected |
| IosPicker.OpenSelectConfirmCommitsLast | components/common/picker.ios.tsx:249-327 | open, select, confirm passes the last selected value (or the old value when nothing was selected) in one call, and the modal ends hidden |
| IosPicker.OpenSelectDismissCommitsNothing | components/common/picker.ios.tsx:295-318 | open, select, then dismiss with the close button or the back request: no call, committed value unchanged |
| IosPicker.MountedPickerCommitsOnConfirm | components/common/picker.ios.tsx:161-162 | from mount, the parent receives exactly one value per Confirm, and keeps its mounted value when there is none |
| SelectedStyles.PlaceholderCaption | components/stylesSelection/selectedStyles.tsx:53-57 | the caption starts "Select ", then the count's digits, and ends in the word "styles" when more than one style remains and "style" otherwise |
| SelectedStyles.CaptionCountReadsBack | components/stylesSelection/selectedStyles.tsx:54 | the number in the caption reads back as the remaining count |
| SelectedStyles.CaptionSaysMoreIffSelected | components/stylesSelection/selectedStyles.tsx:54 | the caption contains "more" iff at least one style is already chosen |
| SelectedStyles.Placeholders | components/stylesSelection/selectedStyles.tsx:22-32 | no package or nothing remaining gives no placeholders; otherwise stylesCount − selected of them, numbered from 0, all with the same caption |
| SelectedStyles.OrderCards | components/stylesSelection/selectedStyles.tsx:76-86 | an order shows its chosen styles in order, then exactly its placeholders (numbered from 0, each with the counted, pluralised caption) |
| SelectedStyles.CardsFillPackage | components/stylesSelection/selectedStyles.tsx:24-32 | with a package, chosen cards plus placeholders number max(selected, stylesCount) |
| SelectedStyles.ChosenBeforePlaceholders | components/stylesSelection/selectedStyles.tsx:78-84 | no chosen-style card follows a placeholder of the same order |
| SelectedStyles.RenderAppend | components/stylesSelection/selectedStyles.tsx:76 | rendering joined order lists is rendering each and joining the results |
| SelectedStyles.Render | components/stylesSelection/selectedStyles.tsx:76-86 | the strip is empty without orders, opens with the first order's cards, and holds one card per card of each order |
| SelectedStyles.RenderKeepsOrderCards | components/stylesSelection/selectedStyles.tsx:76-86 | orders render in input order: the k-th order's cards sit, unchanged, right after those of the orders before it |
| Properties.FindProperty | components/stylesSelection/stylesSelectionModal.tsx:56-62 | the property found is the first one named exactly as asked; none iff no property has that name |
| Properties.FindValue | app/genderSelection.tsx:24-26 | the value found is the first one named exactly as asked; none iff no value has that name |
| Properties.IdOr | app/genderSelection.tsx:33 | a missing value gives the id "" |
| StylesSelectionModal.Open | components/stylesSelection/stylesSelectionModal.tsx:54-69 | on the first render: nothing opens without a style; otherwise the options and initial selections come from the first "Outfit" and "Outfit Color" properties |
| StylesSelectionModal.Rerender | components/stylesSelection/stylesSelectionModal.tsx:56-82 | a later render recomputes both option lists from the new properties but keeps the selections, which `useState` seeds only once |
| StylesSelectionModal.LatePropertiesStayUnselected | components/stylesSelection/stylesSelectionModal.tsx:64-85 | properties that arrive after the first render leave both selections "", off the offered options, so Add does nothing until rows are pressed |
| StylesSelectionModal.InitialSelection | components/stylesSelection/stylesSelectionModal.tsx:64-69 | the initial selection is the first value's id, or "" for a missing property or one without values |
| StylesSelectionModal.OptionsOf | components/stylesSelection/stylesSelectionModal.tsx:74-82 | options keep length and order and map name to name and id to value; a missing property gives no options |
| StylesSelectionModal.InitialIsFirstOption | components/stylesSelection/stylesSelectionModal.tsx:64-82 | the initial selection is the first option's value, or "" when there are no options |
| StylesSelectionModal.Apply | components/stylesSelection/stylesSelectionModal.tsx:115-116 | `onColorChange` sets only the colour, `onOutfitChange` only the outfit |
| StylesSelectionModal.TapSetsOnlyItsColumn | components/stylesSelection/stylesSelectionModal.tsx:110-117 | a colour tap sets the colour to the tapped value and keeps the outfit, and the reverse for an outfit tap |
| StylesSelectionModal.OpenIsValid | components/stylesSelection/stylesSelectionModal.tsx:64-82 | the modal opens with each selection one of its options' values, or "" when there are no options |
| StylesSelectionModal.PressesKeepValid | components/stylesSelection/stylesSelectionModal.tsx:110-117 | presses on option rows keep each selection one of its options' values |
| StylesSelectionModal.HandleAdd | components/stylesSelection/stylesSelectionModal.tsx:84-95 | no effect at all unless both selections are non-empty; then the mutation with projectId, style id and [outfit, colour] in that order, followed by closing |
| StylesSelectionModal.AddAlwaysFiresWithValues | components/stylesSelection/stylesSelectionModal.tsx:84-85 | from a first render that already has both properties, with values whose ids are non-empty (a Valid start, see OpenIsValid), Add goes through after any presses |
| StylesSelectionModal.NoOutfitPropertyNeverAdds | components/stylesSelection/stylesSelectionModal.tsx:56-85 | without an "Outfit" property, Add never goes through, whatever is pressed |
| ImageViewer.AllImages | components/imageViewer/imageViewer.tsx:72 | the pages are `images` when non-empty and otherwise `[image]`, so never empty |
| ImageViewer.Mount | components/imageViewer/imageViewer.tsx:75-88 | the viewer starts with nothing loaded, on `initialIndex`, with the controls shown and the image hidden |
| ImageViewer.BecomeVisible | components/imageViewer/imageViewer.tsx:101-106 | becoming visible forgets every load and hides the image |
| ImageViewer.ImageLoad | components/imageViewer/imageViewer.tsx:229-240 | a load marks its id loaded, leaves every other entry as it was, and shows the image |
| ImageViewer.ImageLoadsCommute | components/imageViewer/imageViewer.tsx:231-235 | loading an id twice equals loading it once, and the order of two loads does not matter |
| ImageViewer.ToggleControls | components/imageViewer/imageViewer.tsx:243-251 | toggling flips the controls flag and nothing else |
| ImageViewer.ToggleTwiceRestores | components/imageViewer/imageViewer.tsx:243-245 | toggling twice restores the state |
| ImageViewer.ViewableChanged | components/imageViewer/imageViewer.tsx:254-262 | an empty report changes nothing; otherwise the page becomes the first item's index and the image shows iff that item has loaded |
| ImageViewer.LoadedPageShowsOnReturn | components/imageViewer/imageViewer.tsx:254-262 | returning to a page loaded since the viewer was shown shows its image; a page loaded only before that shows hidden |
| ImageViewer.MountIsGood | components/imageViewer/imageViewer.tsx:69-81 | a viewer opened on an `initialIndex` within the pages starts with an all-`true` (empty) record and its page in range |
| ImageViewer.RunKeepsGood | components/imageViewer/imageViewer.tsx:377-379 | from an in-range start page (see MountIsGood), over any run whose scroll reports name existing pages, the loaded record holds only `true` and the counter reads between 1 and the number of pages |
| ImageViewer.CounterOf | components/imageViewer/imageViewer.tsx:377-379 | the counter shows the current index plus one over the number of pages, so its position lies in 1..total exactly when the current page exists |
| ImageViewer.MountedCounterInRange | components/imageViewer/imageViewer.tsx:69-81 | a viewer opened on an existing page shows a counter in 1..total after any events whose scroll reports name existing pages |
| UploadedImageCard.HasError | components/imagesUpload/uploadedImageCard.tsx:40-42 | `hasError` holds exactly for the two face-detection failures |
| UploadedImageCard.Mount | components/imagesUpload/uploadedImageCard.tsx:33 | a card starts with its warning modal closed |
| UploadedImageCard.MountedModalOnlyForErrors | components/imagesUpload/uploadedImageCard.tsx:33-83 | from mount, the modal is ever open only on a card whose status is a face-detection failure |
| UploadedImageCard.ErrorMessage | components/imagesUpload/uploadedImageCard.tsx:44-49 | the no-faces text exactly for NoFacesDetected, the multiple-faces text for every other status |
| UploadedImageCard.Step | components/imagesUpload/uploadedImageCard.tsx:58-93 | the warning press opens the modal only when the overlay is drawn; delete asks to remove this image and closes the modal; the back request closes it |
| UploadedImageCard.ModalOnlyForErrors | components/imagesUpload/uploadedImageCard.tsx:58-83 | over any run, the card's image and status stay, the modal is open only for an error status, and its text names that status |
| UploadedImageCard.RemovalsMatchDeletes | components/imagesUpload/uploadedImageCard.tsx:35-38 | one removal is requested per delete press, always for the card's own image |
| GenderSelection.GenderValueId | app/genderSelection.tsx:24-33 | the id is that of the first value named after the button in the first "Gender" property, else "" |
| GenderSelection.SelectGender | app/genderSelection.tsx:19-42 | nothing while loading; otherwise the update with that id and then the push to "/imagesUpload" for the same project |
| GenderSelection.SendsFirstMatchingValue | app/genderSelection.tsx:24-26 | when both lookups succeed, the first matching value's id is sent |
| GenderSelection.FirstGenderPropertyOnly | app/genderSelection.tsx:24-33 | a later "Gender" property is never consulted; if the first lacks the value, "" is sent |
| GenderSelection.AlwaysMovesOn | app/genderSelection.tsx:30-42 | the push always follows the update, for the same project, whether or not a value was found |

## Left out

- Animations, haptics, gradients, blur, shimmer and all `StyleSheet` values: they are visual and float-valued. The viewer's image opacity is a boolean.
- The 100 ms `setTimeout` in `handleImageLoad`: only its resulting state change is modelled.
- The fade-out before `handleClose` hides the iOS modal: closing takes effect at once in the model.
- `toLowerCase` is modelled as ASCII lowering: Unicode case folding is out of scope.
- GraphQL queries and mutations are opaque effects that the model records. Their failures are not modelled: a rejected `addProjectStyle`, `removeImage` or `updateProjectPropertyValue` would stop the code after the `await`, and the model assumes success.
- The `ImageProcessingStatusEnum` declaration is not part of this model. Statuses other than the two face-detection failures are carried as `Other(name)`.
- The iOS row rendering (`renderItem`), including the colour category's outfit icon, is presentation. Only the draft/commit logic and the trigger caption are modelled.
- The dual picker's list scrolling, `FlatList` layout and the iOS trigger's colour-swatch drawing are left out; their colour and icon values come from the modelled lookups.
- StylesSelectionModal.Open: models the first render only; later renders are `Rerender`, which keeps the selections. A modal instance that first renders without a style and later gets one would call more hooks than on its first render (the early return at stylesSelectionModal.tsx:54 precedes the `useState` calls), which React rejects at run time; that transition is not modelled.
- UploadedImageCard.ModalOnlyForErrors: treats the card's `status` prop as fixed for the life of the card. A status that changes while the modal is open would leave it open over the new status, which the model does not cover.
- ImageViewer.RunKeepsGood: assumes `initialIndex` lies within the pages. The viewer never checks it against the number of pages (imageViewer.tsx:69, 81), so an out-of-range `initialIndex` would show a counter outside 1..total.
- Logging (the `console.log` in `selectGender`, app/genderSelection.tsx:28) has no effect on the state or the requests and is not modelled.
- The purchase flow, native sign-in and notification code, navigation and layout screens, presentational components, and the platform dispatch wrappers are outside the modelled core.
