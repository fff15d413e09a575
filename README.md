# html_semantic_seg: a verified model of the page segmentation engine

`app.js` loads a web page in a headless browser and runs one script inside it. The script:

1. Walks the DOM breadth first from `document.body` and collects "leaf" segments. A segment is
   the bounding box of an element, a semantic label for it and a short description.
2. Removes segments whose boxes coincide.
3. Sorts the rest top to bottom.
4. Cuts them into bands one viewport high, each band in its own coordinates.
5. Returns the bands as plain records.

This project models that script in Dafny and proves what it does. The modules follow the
script's structure:

- `JsText` (`jstext.dfy`): the JavaScript string operations the script relies on. These are
  `trim`, ASCII `toUpperCase`, `slice` with negative bounds, `replace(/"/g, "")`,
  `split('.').pop()`, `startsWith` and `String(n)` for integers.
- `Dom` (`dom.dfy`): the page as the script sees it. This covers elements, text nodes and
  other nodes. The browser's answers are fields of an element: layout box, computed style,
  `checkVisibility()`, click listeners and the custom-element registry.
- `Classifier` (`classifier.dfy`): `Segment.getLabel` with its eleven `is*` rules in
  first-match order and the `LABELS` table, plus `Segment.getDescription`.
- `Collection` (`collection.dfy`): the `Segment` record, the `Segments` class (`add`, `sort`,
  `uniquify`, `serialize`) and the specifications `Unique` and `SortByY`.
- `Bands` (`bands.dfy`): the `SegmentGroups` class (`group`, `serialize`) and the pure
  specification of `group`'s loop, `Fold`/`Partition`.
- `Traversal` (`traversal.dfy`): the tag lists, the visibility filter and the breadth-first
  loop. The loop is specified by `Walk`, a function over the queue.
- `Pipeline` (`pipeline.dfy`): the last three statements of the script.

The model keeps three behaviours of the code exactly as written:

- **LIST labels are `undefined`.** The LIST rule returns `LABELS.LIST`, but `LABELS` has no
  `LIST` key. So lists, tables and definition lists get the label `undefined`
  (`Classifier.ListIsUndefined`, `Classifier.LabelValues`).
- **IFRAME is not skipped.** The skip list spells `'IFAME'`, so an `<iframe>` is not passed
  over by its tag (`Traversal.IframeIsNotSkipped`).
- **`group` drops segments.** A segment whose top is at or below `offset + viewportHeight`
  closes the current band and advances the offset by one viewport height. That segment is
  then put in no band at all. `Bands.DroppedExample` shows a case: with h = 720 and
  segments at y = 100, 800 and 1500, only the first is kept, in three bands
  (`Bands.DroppedIsInNoBand`, `Bands.BandCounts`).

The class comment at app.js:362 reads "SegmentGroups is an iterable collection of
SegmentGroup objects, broken down by viewport height essentially". It says nothing about
dropped segments. Our reading is that it describes every segment as landing in the band of
its height. The loop does not do that, and the model follows the loop.

## Model

| member | source | states |
|---|---|---|
| JsText.Trim | app.js:148 | `s.trim()`: leading and then trailing JavaScript white space and line terminators removed |
| JsText.Slice | app.js:227 | `s.slice(start, end)` with JavaScript's clamping of negative and out-of-range bounds; never longer than s |
| JsText.IntToString | app.js:338 | `String(n)` for an integer: decimal digits, with '-' exactly when n is negative, and never '_' |
| JsText.HasTextIffNonSpace | app.js:148 | `s.trim() !== ''` holds exactly when s has a character that is not JavaScript white space or a line terminator |
| JsText.Upper | app.js:145 | upper-casing keeps the length and maps each character through ASCII upper-case |
| JsText.SliceUrlPrefix | app.js:441 | `bg.slice(0,3) == 'url'` holds exactly when bg starts with "url" |
| JsText.SliceInner | app.js:229 | `bg.slice(4, -1)` is the text between the first four characters and the last one, or "" when bg has at most five characters |
| JsText.RemoveQuotes | app.js:229 | removing double quotes leaves none and never lengthens the string |
| JsText.RemoveQuotesKeepsOthers | app.js:229 | every character other than `"` occurs as often after removing quotes as before |
| JsText.AfterLastDot | app.js:230 | `split('.').pop()` has no '.' and is a suffix of its input |
| JsText.AfterLastDotSplits | app.js:230 | without a '.', `split('.').pop()` is the whole string; with one, it is what follows a '.' |
| JsText.IntToStringInjective | app.js:338 | two integers print the same exactly when they are equal |
| JsText.JoinUnderscoreInjective | app.js:338 | joining two underscore-free pieces with '_' determines both pieces |
| Dom.GetAttribute | app.js:263-268 | `el.getAttribute(name)`: the attribute's value, or null when it is absent |
| Dom.ChildElementCount | app.js:437 | `childElementCount` is 0 exactly when no child node is an element, and never exceeds the number of children |
| Classifier.GetLabel | app.js:143-170 | `getLabel(el)`: the rule chain applied to the element's data record (tag and parent tag upper-cased, class list, `hasText`) |
| Classifier.Chain | app.js:152-169 | the if-chain HEADER, CODE, QUOTE, LIST, BUTTON, LINK, INPUT, TEXT, IMAGE, ICON, CUSTOM, then the fallback tags and the raw tag |
| Classifier.IsButton | app.js:171-179 | a BUTTON tag, `role="button"`, an INPUT with `type="button"`, an `<a>` with class btn or button, or a click listener |
| Classifier.IsInput | app.js:180-183 | INPUT, SELECT, TEXTAREA or OPTION |
| Classifier.IsCustom | app.js:184-187 | the tag is registered as a custom element |
| Classifier.IsText | app.js:188-192 | a P, SPAN, ABBR, LABEL, DIV or LI that has text |
| Classifier.IsLink | app.js:193-202 | an `<a>` whose class list has neither btn nor button, a P/SPAN/ABBR/ADDRESS inside an `<a>`, or a CITE |
| Classifier.IsHeader | app.js:203-211 | the element has text and its tag or its parent's tag is H1..H6 |
| Classifier.IsCode | app.js:212-215 | CODE or PRE |
| Classifier.IsQuote | app.js:216-219 | BLOCKQUOTE |
| Classifier.IsImage | app.js:220-236 | IMG, an SVG with area above 800, or a `url(...)` background whose file type is jpg, png, gif, jpeg or webp |
| Classifier.IsIcon | app.js:237-257 | KBD, an SVG with area below 800, or a `url(...)` background whose file type is svg or starts with "data" |
| Classifier.IsList | app.js:258-261 | UL, OL, DL or TABLE |
| Classifier.BackgroundFileType | app.js:229-230 | `bg.slice(4,-1).replace(/"/g, "").split('.').pop()` |
| Classifier.LabelOf | app.js:23-40 | `LABELS[name]` is a code in 0..15 exactly when the key exists, and `undefined` otherwise |
| Classifier.FirstMatchingRuleWins | app.js:152-163 | when rule i of the chain holds and no earlier rule does, the label is rule i's `LABELS` entry |
| Classifier.NoRuleFallsBack | app.js:165-169 | when no rule holds, VIDEO/AUDIO/FORM/NAV/FOOTER get their `LABELS` entry and any other tag is returned as its upper-cased name |
| Classifier.LabelValues | app.js:143-170 | a label is a code in 0..15, or `undefined` exactly when LIST is the first rule that holds, or the upper-cased tag name exactly when no rule holds and the tag is not a fallback tag |
| Classifier.AnchorWithButtonClassIsButton | app.js:171-179 | an `<a>` with class `btn` is a BUTTON (6), not a LINK, unless the heading rule takes it first |
| Classifier.CodeInHeadingIsHeader | app.js:203-211 | a `<code>` with text inside an `<h2>` is a HEADER (12): the heading rule comes before the code rule |
| Classifier.ListIsUndefined | app.js:258-261 | a `<ul>` that is not a heading gets the label `undefined` |
| Classifier.SvgSizeThreshold | app.js:220-257 | an `<svg>` with area above 800 is an IMAGE; below 800 it is an ICON unless its background image is a picture; at exactly 800 both size tests fail, and it is decided by the background image, the custom-element registry and then the raw tag "SVG" |
| Classifier.BackgroundUrlFileType | app.js:227-233 | for `url(name.ext)` or `url("name.ext")`, the url test holds and the file type is ext |
| Classifier.BackgroundFileTypeIsExtension | app.js:248-254 | the file type is the unquoted url text after its last '.', or all of it when it has no '.' |
| Classifier.GetDescription | app.js:262-270 | the description is non-empty exactly when one of `aria-label`, `alt`, `role` is present and non-empty |
| Classifier.DescriptionPriority | app.js:262-270 | the description is the first of `aria-label`, `alt`, `role` that is present and non-empty |
| Classifier.DescriptionExamples | app.js:262-270 | `alt="x"` with `role="y"` gives "x"; an empty `aria-label` and an empty `alt` give the role |
| Collection.NewSegment | app.js:122-131 | `new Segment(el)`: the element's box, its label and its description |
| Collection.SerializeSegment | app.js:299-310 | `segment.serialize()`: the record of label, box and description |
| Collection.Key | app.js:338 | the `x_y_width_height` key of a box |
| Collection.FirstOccurrences | app.js:334-345 | the segments of a prefix that no earlier segment shares a box with, in order |
| Collection.Unique | app.js:334-345 | what `uniquify` keeps: `FirstOccurrences` of the whole collection |
| Collection.SerializeRoundTrip | app.js:299-310 | the record keeps label, box and description, so element plus record give back the segment |
| Collection.KeyInjective | app.js:338 | two boxes have the same `x_y_w_h` key exactly when they are equal |
| Collection.KeySeenIffNotFirst | app.js:336-342 | a segment's key is already in `seen` exactly when an earlier segment has the same box |
| Collection.UniquifyInvariant | app.js:337-343 | one turn of the `uniquify` loop extends the kept list to the first-of-key segments of a longer prefix, and `seen` to that prefix's keys |
| Collection.FirstIndices | app.js:334-345 | the kept positions increase, each is the first with its box, and every such first position is kept |
| Collection.FirstOccurrencesAreSubsequence | app.js:334-345 | dedup keeps order: its k-th segment is the input's segment at the k-th first-of-key position |
| Collection.FirstOccurrencesDistinct | app.js:334-345 | no two kept segments share a box |
| Collection.FirstOccurrencesKeys | app.js:334-345 | dedup keeps every box of its input: the kept boxes and the input boxes are the same set |
| Collection.UniqueIsSubset | app.js:334-345 | dedup keeps only input segments |
| Collection.SortByY | app.js:322-325 | sorting by y is a permutation (same multiset) |
| Collection.SortByYSorted | app.js:322-325 | the sorted result has non-decreasing y |
| Collection.SortByYStable | app.js:322-325 | segments with equal y keep their relative order (a stable sort, as `Array.prototype.sort` is) |
| Collection.Segments.constructor | app.js:315-317 | `new Segments(segments)` holds exactly the given segments |
| Collection.Segments.Empty | app.js:315-317 | `new Segments()` is empty |
| Collection.Segments.Add | app.js:318-321 | `add` appends its segment and changes nothing else |
| Collection.Segments.Sort | app.js:322-325 | `sort` leaves a y-sorted permutation of the old segments, stable for equal y |
| Collection.Segments.Uniquify | app.js:334-345 | `uniquify` returns a fresh collection holding, in input order, the first segment of each key |
| Collection.Segments.Serialize | app.js:352-358 | one record per segment, in order |
| Bands.Step | app.js:371-380 | one iteration of `group`: place the segment, translated, in the open band, or close the band and advance the offset by h |
| Bands.Fold | app.js:367-381 | the loop's state after visiting a prefix, starting from no bands, an empty band and offset 0 |
| Bands.Partition | app.js:367-384 | the bands `group` appends: the closed ones, then the last open one |
| Bands.Translate | app.js:373 | `bbox.y -= offset`: the new y plus offset is the old y, and the element, label, description, x, width and height are unchanged |
| Bands.FoldOffset | app.js:367-384 | the running offset is always h times the number of closed bands |
| Bands.FoldCounts | app.js:367-384 | the closed bands are as many as the dropped segments, and placed plus dropped segments make up the input seen so far |
| Bands.BandCounts | app.js:367-384 | `group` appends one more band than there are dropped segments, and placed plus dropped is the input count |
| Bands.DroppedAdvances | app.js:376-380 | a dropped segment closes the open band, opens an empty one and advances the offset by h |
| Bands.FoldBelow | app.js:371-381 | over a y-sorted input, the offset never passes a segment still to come |
| Bands.FoldBands | app.js:371-381 | over a y-sorted input with y >= 0 and h > 0, every banded segment has y in [0, h) and is a placed input segment moved up by its band's start |
| Bands.BandsAreLocal | app.js:367-384 | for sorted input with y >= 0 and h > 0, band k holds only placed input segments whose document y lies in [k*h, (k+1)*h), each moved up by k*h |
| Bands.BandSource | app.js:372-375 | a banded segment comes from a placed input segment moved up by its band's start, and lies in [0, h) |
| Bands.PlacedIsInBand | app.js:372-375 | each placed segment does end up in band k, where k counts the segments dropped before it, moved up by k*h |
| Bands.FoldExtends | app.js:371-381 | the loop only appends: every band so far is a prefix of the band it later becomes |
| Bands.DroppedIsInNoBand | app.js:376-380 | when boxes are distinct, no band k holds a dropped segment at its band's translation (moved up by k*h) |
| Bands.DroppedExample | app.js:367-384 | with h = 720 and y = 100, 800, 1500 the bands are `[[a], [], []]`, and the last two segments are dropped |
| Bands.SegmentGroups.constructor | app.js:363-366 | a new `SegmentGroups` has no bands and holds the given collection |
| Bands.SegmentGroups.Place | app.js:371-380 | one iteration of `group`: the bands and offset advance exactly as one `Step` of the loop's state, the closed bands only grow by the old open band, and a closed band is replaced by a fresh empty `Segments` |
| Bands.SegmentGroups.Group | app.js:367-384 | `group(h)` appends one fresh `Segments` per band of `Partition`, in order, and leaves the source collection as it was |
| Bands.SegmentGroups.Serialize | app.js:385-391 | one list of records per band, each band's records in order |
| Traversal.Hidden | app.js:422-424 | visibility hidden or none, opacity "0", or `checkVisibility()` false |
| Traversal.Admitted | app.js:419-424 | not in the invisible or skipped tag lists and not hidden |
| Traversal.VisitItem | app.js:405-447 | one turn of the loop, its tests in source order; what it queues lies strictly below the node, so the walk ends |
| Traversal.Walk | app.js:402-448 | every segment the loop adds to `leaves`, in order, from a given queue |
| Traversal.Items | app.js:447 | `els.push(...el.childNodes)` queues the children in document order, each with el as its parent element |
| Traversal.WalkIsPreorderUpToOrder | app.js:402-448 | the breadth-first loop collects the same segments, as often, as the depth-first description `EmitsAll` |
| Traversal.SubtreeExcluded | app.js:418-424 | an invisible, skipped or hidden element adds no segment, and neither does anything below it |
| Traversal.LeafDoesNotDescend | app.js:430-434 | a visible leaf element (SVG, IMG, PRE, ...) adds exactly one segment and is not opened |
| Traversal.CompositeEmitsAndDescends | app.js:426-428 | a visible composite element (TABLE, UL, P, ...) with element children adds its segment and then everything its children add |
| Traversal.OrdinaryElementDescends | app.js:437-447 | any other visible element with element children adds nothing itself and queues its child nodes |
| Traversal.ChildlessVisit | app.js:426-445 | a visible non-leaf element without element children adds its composite segment (when composite), then its text segment and its background segment, each when its test holds, and queues nothing |
| Traversal.ChildlessElement | app.js:436-445 | a visible element that is neither a leaf nor a composite and has no element children adds one segment for non-blank text and one for a `url(...)` background, possibly both, and is not opened |
| Traversal.ChildlessComposite | app.js:426-445 | a visible composite element without element children (`<p>hello</p>`) adds its composite segment, then one for non-blank text and one for a `url(...)` background, and is not opened |
| Traversal.TextEmitsParent | app.js:408-411 | a text node with a non-space character adds its parent element's segment; a blank text node adds none |
| Traversal.IframeIsNotSkipped | app.js:396 | an IFRAME is passed over only when hidden, because the skip list says 'IFAME' |
| Traversal.VisitEmitsAdmitted | app.js:405-447 | each segment one turn adds is `new Segment` of an element that is not invisible, skipped or hidden |
| Traversal.WalkEmitsAdmitted | app.js:402-448 | every collected segment is `new Segment(el)` of an element that is neither invisible, skipped nor hidden |
| Traversal.Turn | app.js:405-447 | one turn of the loop adds `VisitItem(it).emitted` to `leaves` and returns the nodes to push |
| Traversal.CollectLeaves | app.js:402-448 | the loop from `[document.body]` leaves exactly `Walk([body])` in a fresh `leaves` |
| Pipeline.PageBands | app.js:451-454 | the bands of the sorted, deduplicated segments the walk collects from body |
| Pipeline.SegmentPage | app.js:450-456 | the script returns, band by band, the records of `Partition(SortByY(Unique(leaves)), viewportHeight)` |
| Pipeline.SortedUniqueFromWalk | app.js:451 | `uniquify().sort()` yields a y-sorted sequence of collected segments |
| Pipeline.NonNegativeKept | app.js:451 | segments drawn from a collection with y >= 0 all have y >= 0 |
| Pipeline.BandsOfSorted | app.js:451-454 | banding sorted, non-negative segments of admitted elements gives, in band k, admitted elements' boxes moved up by k*h with y in [0, h) |

## Left out

- Playwright, the browser launch, navigation, waiting, the screenshots, canvas drawing
  (`drawSegments`), `saveCanvas` and the cropping loop. These are I/O and are not part of
  this model.
- The URL sanitising of the screenshot path: it is file-system naming, not segmentation.
- `getSegmentFromPoint`, `replaceWithSegmentFromPoint` (on `Segment` and on `Segments`) and
  the constructor's `offset` argument. The script never calls them (the call is commented
  out), and they depend on scrolling and `elementFromPoint`.
- `isClickable`: the constructor's call to it is commented out.
- The `[Symbol.iterator]` protocol: loops over a collection are modelled as loops over its
  sequence.
- What the browser computes is taken as given, as fields of an element: the layout box,
  computed style, `checkVisibility()`, `getEventListeners` and `customElements.get`.
  `textContent` is a field too, and its agreement with the child nodes is not modelled.
- Coordinates are integers. Floating-point boxes, `NaN` in the sort comparator and the
  exponent notation `String(n)` uses from 1e21 up are not modelled.
- `toUpperCase` is modelled for ASCII letters only.
- `el.parentElement` is never null for the nodes the walk reaches. A text node is always
  queued by its parent element, and `parentTagName` is a field of an element. The crash on
  a missing parent is not modelled.
- `new Segments(segments || [])` and `new SegmentGroups(segments || new Segments())` with a
  missing argument: the model's constructors take their argument. `Segments.Empty` stands
  for `new Segments()`.
- The methods' `return this` (used for chaining) is not modelled. Each method's effect is
  stated on its object.
- Collection.Segments.Sort: the proof is against a reference insertion sort. It does not
  cover the engine's own sorting algorithm, only its result: stable and ordered by y.
- Bands.SegmentGroups.Group: `segment.bbox.y -= offset` is modelled on values. The band gets
  a translated copy, and the sorted collection keeps the original y. In the source the same
  objects are mutated, so afterwards `this.segments` also holds the translated y of every
  placed segment. Only the bands are serialized.
- Pipeline.BandsOfSorted: the end-to-end banding property is stated for any sorted,
  non-negative sequence drawn from the collected segments. It is not one lemma about
  `PageBands`; `SortedUniqueFromWalk`, `NonNegativeKept` and `WalkEmitsAdmitted` supply
  its requirements for the page.
