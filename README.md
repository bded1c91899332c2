# Scrollytelling rules of the disaster-survey pages, in Dafny

The site tells the story of a post-disaster field survey in Aceh, Sumatera
Utara and Sumatera Barat over three scroll-driven pages. Most of each page is
animation and map-library calls. A small set of rules decides what the story
shows, and this project states and proves them:

- **Findings page** (`src/pages/Findings.jsx`):
  - `calculateBounds`, the bounding box of GeoJSON Polygon and MultiPolygon
    features (RFC 7946, sections 3.1.1, 3.1.6 and 3.1.7). Modules `Geo` and
    `Wrappers`.
  - the district loader's filter and projection. Module `Districts`.
  - the five-step "skala" discretizer, the infographic slide index, the step
    controller's scenes and the district overlay of a region step. Module
    `Steps`.
- **Journey page** (`src/pages/Journey.jsx`):
  - the text-scramble hook. Module `Scramble`.
  - the fifteen-photo circular carousel. Module `Carousel`.
  - the image-preload counter. Module `Preload`.
  - the province highlight and the interview player. Module `Toggles`.
- **Satellite page** (`src/pages/Satellite.jsx`): the scroll handler's
  chapter detection, the `chapters` camera table and the chapter paint. Module
  `Chapters`.

Three conventions hold throughout:

- **Numbers.** Coordinates and scroll progress are `real`. The carousel's
  angles are integers, since every angle it produces is a multiple of 24
  degrees. JavaScript's `Math.round` is `floor(x + 0.5)`. Its truncating `%`
  is written out as `Carousel.JsRem`.
- **State.** Most state that the source updates in place is a class. Each
  method's `ensures` ties the new state to a transition function of the old
  state, then lemmas prove the properties of those functions. The two
  toggles of module `Toggles` (the province highlight and the interview
  player) are modelled as transition functions on values only, without a
  class.
- **Missing values.** `null`/`undefined` values are `Option`. An absent
  property key reads as `undefined`.

The code clamps the skala step only from above
(`src/pages/Findings.jsx:734-737`), and the model follows it. The step is non-negative because the scroll trigger reports
progress in [0, 1].

## Model

| member | source | states |
|---|---|---|
| Geo.ExtendAllAppend | src/pages/Findings.jsx:99-125 | folding the positions of two lists one after the other is folding their concatenation (the walk's visiting order composes) |
| Geo.ExtendAllCovers | src/pages/Findings.jsx:104-111 | the min/max update never loses a position: every folded position and everything covered before lies inside the box |
| Geo.ExtendAllEmpty | src/pages/Findings.jsx:97-100 | the fold yields the "no position yet" (±Infinity) box exactly when there were no positions |
| Geo.ExtendAllTight | src/pages/Findings.jsx:104-111 | each of the four bounds equals the coordinate of some folded position |
| Geo.FeaturesPositionsAppend | src/pages/Findings.jsx:99-125 | the positions of a feature list split over concatenation, in order |
| Geo.OtherGeometryIgnored | src/pages/Findings.jsx:118-124 | a feature that is neither Polygon nor MultiPolygon leaves the box unchanged wherever it stands |
| Geo.BoundsContainAndAreTight | src/pages/Findings.jsx:127-130 | the returned box contains every Polygon/MultiPolygon position, is the empty box iff there are none, and each bound is attained |
| Geo.ProcessCoords | src/pages/Findings.jsx:100-115 | the recursive walk of a coordinate array folds exactly its positions, in order, into the running box |
| Geo.ProcessRings | src/pages/Findings.jsx:118-123 | the loop over a polygon's rings folds all their positions in order |
| Geo.ProcessGeometry | src/pages/Findings.jsx:118-124 | a Polygon folds its rings, a MultiPolygon each polygon's rings, any other type nothing |
| Geo.CalculateBounds | src/pages/Findings.jsx:94-131 | null for a missing or empty list; otherwise the box of all Polygon/MultiPolygon positions |
| Districts.Project | src/pages/Findings.jsx:67-74 | geometry kept; `province` = `nmprov`; `districtName` = `nmkab` if truthy else `name`; every other property unchanged |
| Districts.ProjectAll | src/pages/Findings.jsx:67-75 | the map keeps the length and projects each feature in place |
| Districts.FilterTargetsMembers | src/pages/Findings.jsx:61-64 | a feature is kept iff its `nmprov` is ACEH, SUMATERA UTARA or SUMATERA BARAT |
| Districts.FilterTargetsAppend | src/pages/Findings.jsx:62-64 | the filter keeps the original order (it distributes over concatenation) |
| Districts.FilterTargetsIdempotent | src/pages/Findings.jsx:62-64 | filtering the filtered list removes nothing |
| Districts.LoadedDistrictsProvince | src/pages/Findings.jsx:61-75 | every loaded district carries a target `province`, and every target feature's projection is loaded |
| Districts.LoadDistrictsDataOutcomes | src/pages/Findings.jsx:61-87 | one feature with `null` or missing `properties` makes the filter throw and the loader return no district; otherwise every loaded district has a target `province` and every target feature is loaded |
| Steps.SkalaStep | src/pages/Findings.jsx:734-737 | the step never exceeds 4 and is non-negative for non-negative progress |
| Steps.SkalaStepBuckets | src/pages/Findings.jsx:734-737 | step k iff progress in [k/5, (k+1)/5), with progress 1 in step 4; below 1 the step is floor(progress*5) |
| Steps.SkalaStepMonotone | src/pages/Findings.jsx:734-737 | the step is non-decreasing in progress |
| Steps.SkalaStepNoSkip | src/pages/Findings.jsx:734-737 | a progress change of at most 1/5 moves the step by at most one |
| Steps.SkalaStepReached | src/pages/Findings.jsx:721 | each of the five steps is shown at progress k/5 |
| Steps.SlideIndex | src/pages/Findings.jsx:921-924 | the index never exceeds totalSlides-1 and is non-negative for non-negative progress |
| Steps.SlideIndexNearest | src/pages/Findings.jsx:921-924 | 0 at progress 0, totalSlides-1 at progress 1, and otherwise the slide nearest to progress*(totalSlides-1) |
| Steps.SlideIndexMonotone | src/pages/Findings.jsx:921-924 | the slide index is non-decreasing in progress |
| Steps.FindingsView.constructor | src/pages/Findings.jsx:152-153 | both steps start at 0 |
| Steps.FindingsView.OnSkalaUpdate | src/pages/Findings.jsx:734-738 | the stored step becomes the computed step; it re-renders only when the value changed |
| Steps.FindingsView.OnImpactUpdate | src/pages/Findings.jsx:920-925 | the stored slide becomes the computed index; it re-renders only when the value changed |
| Steps.StepScenes | src/pages/Findings.jsx:2087-2088 | every reachable step has a scene; `activeRegion` is -1 iff step < 2, else a valid `regionsData` index; the camera is the overview or the region at zoom 8.5 |
| Steps.OneMarkerPerRegionStep | src/pages/Findings.jsx:2206-2215 | step 0 hides every marker, step 1 shows all, steps 2-4 show exactly the active region's marker |
| Steps.FilterProvinceMembers | src/pages/Findings.jsx:2278-2280 | the overlay keeps exactly the districts whose `province` equals the key |
| Steps.FilterProvinceNone | src/pages/Findings.jsx:2278-2280 | no district with that `province` gives an empty overlay |
| Steps.RegionDistrictsAsWrittenEmpty | src/pages/Findings.jsx:2278-2280 | as written, every region step's overlay is empty for any loaded GeoJSON |
| Steps.ProvinceKeyMatches | src/pages/Findings.jsx:378-450 | the upper-cased name of region k is the k-th target province |
| Steps.RegionDistrictsShowRegion | src/pages/Findings.jsx:2278-2280 | corrected, a region step draws exactly the loaded districts of its province, each target feature of it included |
| Scramble.ScrambledText | src/pages/Journey.jsx:77-86 | a scrambled frame has the length of the final text |
| Scramble.RevealedIff | src/pages/Journey.jsx:77-82 | `i / len < frame / 22` iff `22 i < frame len` |
| Scramble.RevealGrows | src/pages/Journey.jsx:77-82 | a revealed position stays revealed at later frames |
| Scramble.RevealBounds | src/pages/Journey.jsx:69-82 | at frame 22 every position is revealed, at frame 0 none |
| Scramble.FrameTextPossible | src/pages/Journey.jsx:71-86 | every frame keeps the length, keeps spaces/newlines/commas and revealed characters in place, draws the rest from the alphabet, and equals the final text from frame 22 |
| Scramble.PossibleFrameReachable | src/pages/Journey.jsx:78-85 | every text of that shape is produced by some random draws |
| Scramble.TextScramble.constructor | src/pages/Journey.jsx:62-68 | the hook starts showing the final text; the interval runs only when triggered |
| Scramble.TextScramble.Tick | src/pages/Journey.jsx:70-87 | the counter advances; the text is the frame's text; the interval stops exactly at frame 22 |
| Scramble.TextScramble.Animate | src/pages/Journey.jsx:66-89 | a triggered run ends after 22 ticks showing the final text |
| Carousel.JsRem | src/pages/Journey.jsx:1635 | the truncating remainder lies strictly between -b and b and is the Euclidean one for non-negative operands |
| Carousel.ShortestDelta | src/pages/Journey.jsx:1635-1636 | the turn lies in (-180, 180] |
| Carousel.DoubleRemIsMod | src/pages/Journey.jsx:1635 | `((x % 360) + 360) % 360` is the mathematical remainder in [0, 360) |
| Carousel.ShortestDeltaOfDiff | src/pages/Journey.jsx:1633-1636 | the turn depends only on (target - current) mod 360 |
| Carousel.ShortestDeltaLands | src/pages/Journey.jsx:1633-1637 | current + delta is congruent to the target angle mod 360 |
| Carousel.ShortestDeltaMinimal | src/pages/Journey.jsx:1634-1636 | no other turn reaching the target is shorter |
| Carousel.RotateToAligned | src/pages/Journey.jsx:1630-1641 | `rotateTo(idx)` makes idx active with the ring aligned on it, turning a whole number of steps, at most seven |
| Carousel.NextTurnsOneStep | src/pages/Journey.jsx:1647-1650 | from an aligned ring, next moves to (idx+1) % 15 and turns back by 24 degrees |
| Carousel.PrevTurnsOneStep | src/pages/Journey.jsx:1643-1646 | from an aligned ring, prev moves to (idx+14) % 15 and turns forward by 24 degrees |
| Carousel.PrevUndoesNext | src/pages/Journey.jsx:1643-1650 | prev after next restores the state exactly |
| Carousel.NextUndoesPrev | src/pages/Journey.jsx:1643-1650 | next after prev restores the state exactly |
| Carousel.TickIsNext | src/pages/Journey.jsx:1622-1626 | an auto-rotate tick (angle - 24, index + 1 mod 15) equals the next button and keeps the ring aligned |
| Carousel.EventsKeepAligned | src/pages/Journey.jsx:1715-1718 | prev, next, tick, a node click and the toggle keep the ring aligned; a node click turns auto-rotate off |
| Carousel.CircularCarousel.constructor | src/pages/Journey.jsx:1611-1613 | index 0, angle 0, auto-rotate on, aligned |
| Carousel.CircularCarousel.RotateTo | src/pages/Journey.jsx:1630-1641 | the new state is the `rotateTo` transition and stays aligned |
| Carousel.CircularCarousel.Prev | src/pages/Journey.jsx:1643-1646 | the new state is the prev transition |
| Carousel.CircularCarousel.Next | src/pages/Journey.jsx:1647-1650 | the new state is the next transition |
| Carousel.CircularCarousel.Tick | src/pages/Journey.jsx:1622-1628 | the new state is the tick transition, only while auto-rotate is on |
| Carousel.CircularCarousel.Select | src/pages/Journey.jsx:1715-1718 | rotate to the clicked node and switch auto-rotate off |
| Carousel.CircularCarousel.ToggleAuto | src/pages/Journey.jsx:1751 | auto-rotate flips and nothing else changes |
| Preload.PercentRange | src/pages/Journey.jsx:2009-2011 | the percentage is in [0, 100] and is 100 once all images are done |
| Preload.PercentMonotone | src/pages/Journey.jsx:2011 | more finished images never show a smaller percentage |
| Preload.PercentFullOnlyAtEnd | src/pages/Journey.jsx:2011-2012 | with fewer than 200 images, 100 is shown only when all are done |
| Preload.PercentFullEarly | src/pages/Journey.jsx:2011 | the 200 bound is tight: 199 of 200 already rounds to 100 |
| Preload.EightImages | src/pages/Journey.jsx:1996-2012 | for the page's eight images the bar shows 100 iff all eight are done, the moment `ready` is scheduled |
| Preload.Preloader.constructor | src/pages/Journey.jsx:1992-1993 | nothing finished, progress 0, not ready |
| Preload.Preloader.OnSettled | src/pages/Journey.jsx:2009-2012 | n grows by one; progress = round(n/len*100) in [0, 100]; ready is scheduled iff n == len |
| Preload.Preloader.SettleAll | src/pages/Journey.jsx:2007-2015 | after every image settles, progress is 100 and ready is scheduled |
| Toggles.ClickProvinceToggles | src/pages/Journey.jsx:839 | a click highlights the province iff it was not highlighted, otherwise clears it; no other province is highlighted |
| Toggles.HoverHighlights | src/pages/Journey.jsx:840-841 | hovering on highlights that province alone; hovering off clears the highlight |
| Toggles.ClickProvinceTwice | src/pages/Journey.jsx:839 | two clicks restore a highlight that was this province or none |
| Toggles.TimerFires | src/pages/Journey.jsx:1242 | a firing timer clears the interview and is removed from the pending ones |
| Toggles.HandleInterviewToggles | src/pages/Journey.jsx:1233-1246 | a click on the playing interview stops it, on another one starts it; both versions agree on the selection |
| Toggles.ClickKeepsTimersOwned | src/pages/Journey.jsx:1233-1246 | corrected, a click leaves at most the current interview's own timer pending |
| Toggles.FireKeepsTimersOwned | src/pages/Journey.jsx:1242 | a timer firing keeps that invariant |
| Toggles.RunKeepsTimersOwned | src/pages/Journey.jsx:1233-1246 | corrected, every reachable state keeps the invariant |
| Toggles.TimerClearsOnlyItsOwnInterview | src/pages/Journey.jsx:1240-1242 | corrected, a timer that fires clears the interview it was set for, 15 s after it started |
| Toggles.StaleTimerClearsNewInterview | src/pages/Journey.jsx:1240-1242 | as written, the first interview's timer clears a second one 5 s after the second started |
| Chapters.FirstInViewIsFirst | src/pages/Satellite.jsx:150-157 | the selected section is a present, visible section with no such section before it; none iff no section qualifies |
| Chapters.LaterSectionsIgnored | src/pages/Satellite.jsx:174 | sections after the first visible one are not examined: changing or removing them changes nothing |
| Chapters.PaintEmphasis | src/pages/Satellite.jsx:133-144 | only `problem` gets fill 0.6 and line width 3; every other chapter gets the weaker 0.15 and 2 |
| Chapters.PaintUpdateGuarded | src/pages/Satellite.jsx:129-145 | no paint without the mounted map or the survey layer; with both, fill 0.6 and line width 3 exactly on `problem`, fill 0.15 otherwise |
| Chapters.ChapterView.constructor | src/pages/Satellite.jsx:47-48 | starts on `cover` with points hidden |
| Chapters.ChapterView.HandleScroll | src/pages/Satellite.jsx:148-178 | on a new chapter: it becomes active, points shown iff `groundtruth`, fly to its `chapters` entry when the map exists; otherwise nothing changes and nothing flies |

## Left out

- Fetching and parsing the GeoJSON, every maplibre call (`flyTo`, paint
  properties, sources, markers), GSAP timelines, framer-motion springs,
  Howler audio and the React effect lifecycle. Each event is one method call
  or transition function.
- Timer and interval delays are left out: the 38 ms scramble interval, the
  2.2 s carousel tick, the 400 ms `ready` delay and the 15 s interview timeout.
  The interview model keeps the due times only.
- Geo.CalculateBounds: a feature with a `null` geometry throws in the source.
  The model has no null geometry. The function is defined but never called in
  `src/pages/Findings.jsx`.
- Geo.CalculateBounds: positions are exact reals, so the NaN and non-number
  coordinates JavaScript would accept are not modelled. An empty nested array
  contributes no position, as in the source.
- Districts.LoadDistrictsData: a failed fetch, a body that is not JSON and a
  collection without `features` are not modelled; each also ends in the empty
  collection in the source.
- Districts.Project: property values are strings. A key written with the value
  `undefined` is modelled as an absent key, which reads the same.
- Steps.SkalaStep: the model does not add a lower clamp, because the code has
  none. Negative progress gives a negative step.
- Steps.SlideIndex: `progress * (totalSlides - 1)` is exact, not
  floating-point.
- Steps.StepScenes: the model covers the scene's camera, markers and district
  overlay. The stat-card and photo-card animations, the paint changes and the
  text overlays of each step are not modelled.
- Scramble.TextScramble: the model covers one run of the effect for a fixed
  `finalText`. The run restarts when `finalText` or `trigger` changes, and
  that restart is not modelled. A text left scrambled when the trigger turns
  off is not modelled either.
- Scramble.TextScramble: characters are Unicode scalar values. The source
  splits UTF-16 code units. The two agree on the alphabet and on every
  character of the Basic Multilingual Plane.
- Carousel: the spring smoothing (`smoothAngle`) and the node positions on the
  orbit are not modelled.
- Preload.Percent: the percentage uses exact rationals. For the page's eight
  images, `n / 8 * 100` is exact in floating point too.
- Toggles: the scroll-out reset that clears the interview and stops the audio
  (`src/pages/Journey.jsx:1211`) is not modelled. Neither are the audio fades.
  The `playing` flag records `stop()`/`play()` only.
- Chapters: `mapRef.current` and the survey layer's presence are parameters
  (`mapReady`, `layerExists`). The initial camera animation and the
  ground-truth layer are not modelled.

## Findings

| source | as written | input that shows it | evidently intended | confidence | as-written member | corrected member |
|---|---|---|---|---|---|---|
| src/pages/Findings.jsx:2278-2280 | a region step's district overlay keeps districts whose `province` equals `region.name`. `province` is the upper-case `nmprov` ("ACEH"), but `region.name` is title case ("Aceh") | any GeoJSON; step 2 with region "Aceh" draws no district | compare against the upper-cased region name, so the step draws its province's districts | high (not executed) | Steps.RegionDistrictsAsWrittenEmpty | Steps.RegionDistrictsShowRegion |
| src/pages/Journey.jsx:1240-1242 | every interview start sets a 15 s timer that clears whatever interview is on. The timer is never cancelled | start "a" at 0 ms, then "b" at 10 000 ms: a's timer clears "b" at 15 000 ms | each interview is cleared 15 s after it started; a newer selection cancels the older timer | medium (not executed) | Toggles.StaleTimerClearsNewInterview | Toggles.TimerClearsOnlyItsOwnInterview |
