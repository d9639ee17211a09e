# mapa-independente: temporal visibility engine

A Dafny model of the client script of the *mapa independente* web map
(`src/map/assets/script.js`). The map shows Portuguese independent art
spaces as GeoJSON points, each with a `from` and an optional `to` year. The
script's core decides what the map shows for a selected year:

- **Classifier and filter** (`Temporal`). Each feature is classified for
  the selected year as `active`, `expired` or `hidden`. The state is
  written into a copy of its properties as `displayState`, and the hidden
  copies are dropped.
- **Bounding box** (`Bounds`). `getBoundingBox` scans the filtered features
  for their extreme coordinates. The camera is fitted to that box only
  when at least one feature is shown.
- **Timeline and playback** (`Timeline`). The slider range runs from the
  least parseable `from` year (or ten years before 2025) to 2025. A
  play/pause toggle starts and clears one interval timer. Each tick
  advances the year and wraps from the last year to the first. Moving a
  slider by hand stops playback.
- **Asset-load coordinator** (`Assets`). Two marker images load
  asynchronously. When both load, the icon (symbol) layer is set up. Any
  error switches, once, to the circle-layer fallback. The source and the
  layer are added to the map only when missing.
- **Popup detail rows** (`Popup`). These are the properties listed in a
  feature's popup. Each row has a formatted key and is shown as a web
  link, a mail link or plain text.

`Js` models the JavaScript value semantics these rely on: `String(v)`,
truthiness, `trim`, `startsWith`, the regular-expression `\w` class and
ASCII case mapping. `Features` models property objects as ordered key/value
lists, with the object spread `{ ...p, k: v }`.

Operations that change state step by step are imperative Dafny, each proved
against a function:

- `Bounds.GetBoundingBox` and `Timeline.MinDataYear` (the source's loops);
- `Popup.DetailRows` (the `for...in` loop);
- the `Timeline.Player` class (the `isPlaying`/`timer` globals and the
  sliders);
- the `Assets.Coordinator` class (the closure flags and the map surface).

The expression-level parts are functions, and lemmas state their
properties.

`parseInt` is not re-implemented. A feature carries the two results of
`parseInt` on its `from` and `to` properties (`None` for `NaN`) next to its
raw properties. Timers, image decoding and the map library are replaced by
explicit events and logs:

- the interval timer by handle numbers;
- image decoding by `Loaded`/`Failed` events;
- the map surface by the sets of source and layer ids plus the log of
  `addImage`/`addSource`/`addLayer` calls;
- camera fits by a log of boxes.

## Model

| member | source | states |
|---|---|---|
| Js.TrimEmptyIffBlank | src/map/assets/script.js:123 | `String(v).trim() === ""` holds exactly when every character is JavaScript whitespace (including the empty string) |
| Js.TrimStartEmptyIffBlank | src/map/assets/script.js:314 | stripping leading whitespace leaves nothing exactly for a blank string |
| Js.TrimEndEmptyIffBlank | src/map/assets/script.js:314 | stripping trailing whitespace leaves nothing exactly for a blank string |
| Js.TrimStart | src/map/assets/script.js:123 | the result is a suffix of the input, everything removed before it is whitespace, and it does not start with whitespace |
| Js.TrimEnd | src/map/assets/script.js:123 | the result is a prefix of the input, everything removed after it is whitespace, and it does not end with whitespace |
| Js.UpperAscii | src/map/assets/script.js:316 | upper-casing gives the same character up to ASCII case, never a lower-case ASCII letter, and keeps a `\w` character a `\w` character |
| Js.LowerAsciiString | src/map/assets/script.js:312 | `key.toLowerCase()` keeps the length, leaves no upper-case ASCII letter, and agrees with the key character by character up to ASCII case |
| Features.Get | src/map/assets/script.js:141 | reading a missing key gives `undefined`; a present key gives a value stored under it |
| Features.SetPropGet | src/map/assets/script.js:140 | after the spread, `displayState` reads the new value and every other key reads what it read before |
| Features.SetPropOnlyTouches | src/map/assets/script.js:140 | with the written key removed, the spread copy and the original are the same entries in the same order |
| Features.SetPropKeys | src/map/assets/script.js:140 | the spread copy's keys are the original keys plus the written one |
| Features.Without | src/map/assets/script.js:140 | the removed key no longer occurs, and an entry is kept exactly when it is an entry of the original under another key |
| Bounds.GetBoundingBox | src/map/assets/script.js:4-23 | for no features, all four coordinates stay `undefined`; otherwise the result is the smallest box enclosing every position, each side touched by some position |
| Bounds.BoxUnique | src/map/assets/script.js:4-23 | the smallest enclosing box is unique, so the scan's result is determined by the positions alone |
| Bounds.SinglePointBox | src/map/assets/script.js:4-23 | one feature gives the degenerate box at its own position |
| Temporal.ToYearOfString | src/map/assets/script.js:121-125 | a string `to` gives its parsed value unless it is blank or does not parse, and 2025 otherwise |
| Temporal.ToYearDefault | src/map/assets/script.js:121-125 | a missing, `null` or blank `to` ends the record in 2025 |
| Temporal.ActiveIff | src/map/assets/script.js:127-139 | `active` exactly when `from` parses and `from <= year <= to` |
| Temporal.ExpiredIff | src/map/assets/script.js:127-139 | `expired` exactly when `from` parses and `from <= to < year` |
| Temporal.NeverShown | src/map/assets/script.js:127-139 | an unparseable `from`, or a `to` before `from`, is hidden in every year |
| Temporal.ExpiredWasActive | src/map/assets/script.js:132-136 | an expired record was active in some earlier year |
| Temporal.OpenEndedExample | src/map/assets/script.js:119-139 | a record from 2015 with an empty `to` is hidden in 2010, active in 2020 and expired in 2030 |
| Temporal.ClosedExample | src/map/assets/script.js:119-139 | a record from 2019 to 2023 is hidden in 2018, active in 2019 and 2023, and expired in 2024 |
| Temporal.StampOnlyAddsState | src/map/assets/script.js:140 | the stamped copy's `displayState` is the state's name; its other properties, its position and its parsed years are the input's |
| Temporal.StampedHiddenIff | src/map/assets/script.js:140-141 | filtering on the written `displayState` is filtering on the classification |
| Temporal.ProcessedExactly | src/map/assets/script.js:119-141 | the filtered list is exactly the non-hidden features, in input order, each the stamped copy of its input |
| Temporal.ProcessedNonEmptyIff | src/map/assets/script.js:154 | features are shown (so a fit is asked for) exactly when some feature is not hidden in that year |
| Temporal.KeptInRange | src/map/assets/script.js:141 | every kept index is in range and flagged |
| Temporal.KeptIncreasing | src/map/assets/script.js:141 | kept indices are strictly increasing, so the filter preserves order |
| Temporal.KeptComplete | src/map/assets/script.js:141 | every flagged index is kept |
| Temporal.FilterKept | src/map/assets/script.js:141 | `filter` returns the elements at the kept indices, one for each |
| Timeline.MinDataYear | src/map/assets/script.js:72-89 | the first year is the least parseable `from` when some `from` parses, and 2015 otherwise |
| Timeline.TickInRange | src/map/assets/script.js:183-188 | a tick keeps the year in range, moves to the next year, and wraps from the last year to the first |
| Timeline.TicksCircular | src/map/assets/script.js:182-190 | after `n` ticks from `cur` the year is `lo + (cur - lo + n) mod (hi - lo + 1)`: playback cycles through the range |
| Timeline.ModSucc | src/map/assets/script.js:184-188 | one more step wraps the remainder to 0 exactly at `m - 1` (the arithmetic behind the cycle) |
| Timeline.Player.constructor | src/map/assets/script.js:72-104 | sliders span the first data year to 2025 and start at the first; not playing, no interval scheduled |
| Timeline.Player.ShowYear | src/map/assets/script.js:111-172 | both sliders show the year; the map gets the non-hidden stamped features; one camera fit to their box is added only when there is at least one; playback untouched |
| Timeline.Player.Toggle | src/map/assets/script.js:175-194 | playback flips; starting schedules exactly one new interval and stores its handle; stopping clears the stored one; at most one interval is ever live, and one is live exactly while playing |
| Timeline.Player.Tick | src/map/assets/script.js:182-190 | the interval advances the year circularly, keeps it in range, and updates the view; playback state unchanged |
| Timeline.Player.SliderInput | src/map/assets/script.js:197-209 | moving either slider stops playback (no interval left) and shows the chosen year |
| Assets.AtMostOnceForAnyEvents | src/map/assets/script.js:253-258 | for any sequence of load, error and exception events: the fallback runs at most once, and exactly when the flag is set; icon setup runs only after both images loaded; no source or layer id is added twice |
| Assets.RunInv | src/map/assets/script.js:368-380 | every event sequence keeps the coordinator invariant |
| Assets.StepInv | src/map/assets/script.js:481-495 | every single callback keeps the coordinator invariant |
| Assets.ImageLoadInv | src/map/assets/script.js:481-493 | an `onload` keeps the coordinator invariant |
| Assets.ErrorInv | src/map/assets/script.js:374-380 | an error keeps the coordinator invariant |
| Assets.AddSourceOnceInv | src/map/assets/script.js:384-389 | the guarded `addSource` keeps each source id added exactly as often as it is present |
| Assets.AddLayerOnceInv | src/map/assets/script.js:390-407 | the guarded `addLayer` keeps each layer id added exactly as often as it is present |
| Assets.SetupsInv | src/map/assets/script.js:257-291 | both setup routines keep the surface invariant |
| Assets.AddsAppend | src/map/assets/script.js:261-270 | one more surface call adds to the count of its own id only |
| Assets.FallbackIsSticky | src/map/assets/script.js:374-380 | `fallbackTriggered` never goes back to false; once set, an error changes nothing and no setup runs again |
| Assets.IconSetupGuard | src/map/assets/script.js:257-258 | icon setup advances only on an `onload`, only without the fallback, and only with both images loaded |
| Assets.ExactlyOneSetup | src/map/assets/script.js:481-495 | with one outcome per image, or one exception handled by the corrected `catch`, exactly one setup routine runs, once: icons when both load, the fallback otherwise; the layer is then present |
| Assets.FirstOutcome | src/map/assets/script.js:481-494 | after the first image's outcome, a load sets only its own flag and an error has set up the fallback |
| Assets.LateErrorAfterIconSetup | src/map/assets/script.js:374-380 | an `onerror` arriving after the icon setup still runs the fallback routine, which adds nothing to the surface |
| Assets.RepeatedLoadRerunsSetup | src/map/assets/script.js:368-372 | a repeated `onload` re-enters the icon setup, while the surface is still added to only once |
| Assets.CatchAsWrittenRendersNothing | src/map/assets/script.js:497-503 | as written, an exception while preparing the markers leaves no layer and no setup |
| Assets.CatchCorrectedFallsBack | src/map/assets/script.js:497-503 | with `fallbackTriggered` and `triggerFallbackMechanism` declared before the `try`, the same exception sets up the circle fallback |
| Assets.Coordinator.constructor | src/map/assets/script.js:253-255 | all flags false, empty surface |
| Assets.Coordinator.AddSourceIfMissing | src/map/assets/script.js:384-389 | adds the source only when missing |
| Assets.Coordinator.AddLayerIfMissing | src/map/assets/script.js:390-407 | adds the layer only when missing |
| Assets.Coordinator.SetupMapLayersAndData | src/map/assets/script.js:257-291 | does nothing once the fallback triggered; else adds source and symbol layer when missing |
| Assets.Coordinator.TriggerFallbackMechanism | src/map/assets/script.js:382-407 | adds source and circle layer when missing |
| Assets.Coordinator.HandleMarkerLoadSuccess | src/map/assets/script.js:368-372 | sets up icons only with both flags and no fallback |
| Assets.Coordinator.HandleMarkerLoadError | src/map/assets/script.js:374-380 | sets the flag and runs the fallback, only the first time |
| Assets.Coordinator.ImageOnLoad | src/map/assets/script.js:481-493 | registers the image, sets its flag, then tries the icon setup; the object stays the run of the callbacks handled so far, so the fallback has run at most once and no id was added twice |
| Assets.Coordinator.ImageOnError | src/map/assets/script.js:486-494 | an image error is handled as a load error; the object stays the run of the callbacks handled so far, so the fallback has run at most once and no id was added twice |
| Assets.Coordinator.SetupCatch | src/map/assets/script.js:497-503 | the corrected `catch`, with `fallbackTriggered` and `triggerFallbackMechanism` declared before the `try`: triggers the fallback unless it already triggered; the object stays the run of the callbacks handled so far, so the fallback has run at most once and no id was added twice |
| Popup.DetailRows | src/map/assets/script.js:309-326 | the loop produces the rows of the listed properties, one per property, in enumeration order |
| Popup.RowsFromListed | src/map/assets/script.js:311-314 | every row comes from a listed property: not `name`, key not excluded in any case, value present and not blank |
| Popup.ListedGivesRow | src/map/assets/script.js:311-324 | every listed property gives its row |
| Popup.FlatMapHas | src/map/assets/script.js:311 | whatever one property contributes appears in the rows |
| Popup.FlatMapSource | src/map/assets/script.js:311 | every row was contributed by some property |
| Popup.ListedIff | src/map/assets/script.js:312-314 | listing condition in both directions, with `trim() === ''` as blankness |
| Popup.ExcludedAnyCase | src/map/assets/script.js:310-312 | `ID`, `Point_Lat` and `DisplayState` are never listed: exclusion ignores case |
| Popup.LinkIff | src/map/assets/script.js:318-319 | a web link exactly for a string starting with `http://` or `https://` |
| Popup.MailtoIff | src/map/assets/script.js:320-321 | a mail link exactly for a non-link string containing `@` and not starting with `mailto:` |
| Popup.NonStringIsPlain | src/map/assets/script.js:318-323 | numbers, booleans and objects are always plain text |
| Popup.Spaced | src/map/assets/script.js:316 | keeps the length, turns every underscore into a space, and keeps every other character in place, so no underscore is left |
| Popup.CapitalizeWords | src/map/assets/script.js:316 | changes only characters that start a word, and only their ASCII case; none of them is left lower-case |
| Popup.FormatKeyShape | src/map/assets/script.js:316 | the displayed key has the key's length, no underscore, no lower-case letter starting a word, and equals the key up to case and underscores |
| Popup.FormatKeyIdempotent | src/map/assets/script.js:316 | formatting a displayed key again changes nothing |
| Popup.FormatKeyPhoneNumber | src/map/assets/script.js:316 | `phone_number` is shown as `Phone Number` |
| Popup.FormatKeyWebsite | src/map/assets/script.js:316 | `website` is shown as `Website` |

## Left out

- Map construction, the navigation and attribution controls, and collapsing the attribution (lines 25-54): these are calls into the map library and the DOM with no logic of their own.
- The DOM and the SVG markup: the play/pause icon's `innerHTML`, the year labels' `textContent`, and the marker SVG strings with their `btoa` data URLs. These are presentation.
- `setInterval` timing (`frameDuration` = 750 ms). A tick is an explicit `Timeline.Player.Tick` call, and an interval is a handle number.
- Assets.ExactlyOneSetup: its exception case holds for the corrected `catch` only. As written, the `catch` runs no setup at all (see Findings).
- Property objects as ordered lists may repeat a key, which a JavaScript object cannot. The model does not exclude this, and `Popup.DetailRows` would then give one row per entry.
- Timeline.Player.SliderInput: accepts any year. The browser clamps a range input to its `min`/`max`, and that clamping is not modelled.
- `parseInt` itself. Its results on `from` and `to` are inputs of each feature (`parsedFrom`, `parsedTo`).
- Timeline.Player.ShowYear: the `getSource` guard before `setData` (lines 149-151) is not modelled. `shown` is the data the map would receive once the source exists.
- `fitBounds` options (padding, maxZoom, duration): a camera fit is recorded as its box only.
- Assets.Coordinator.SetupMapLayersAndData and Assets.Coordinator.TriggerFallbackMechanism: these routines also register click and hover handlers, fit the camera to all the data (lines 361-362, 476-477) and call `updateMapViewForYear(minDataYear)`. Those effects are not composed with `Timeline.Player`. The surface records only the `addImage`/`addSource`/`addLayer` calls.
- The layers' paint and layout expressions, which choose an icon or colour from `displayState`. These are evaluated by the map library.
- The popup's title, the antimeridian correction loop (lines 300-302, 416-418), the HTML of each row, and the Google Maps iframe with its `share_gmaps` URL parsing (lines 443-461). A row records the displayed key, `String(value)` and the kind of link.
- `for...in` enumeration details: inherited properties, and JavaScript's ordering of integer-like keys before other keys. A property object is an ordered list of own properties.
- Js.LowerAsciiString: lowercases ASCII letters only. Full Unicode `toLowerCase` can also map KELVIN SIGN to `k`, but no excluded key contains `k`, so the exclusion decision is unchanged.
- Coordinates are `real`. `NaN` coordinates and floating-point rounding are not modelled.
- The exception event is taken to arrive before any image handler is attached, which is when the `try` block can throw. An exception thrown inside a later callback does not reach the `catch`.
- The embedded dataset (lines 512-547) and `src/geospatial/csv-to-geojson.py` are data and tooling, not logic of the script.
- `console` logging.

## Findings

| source | as written | input that shows it | evidently intended | confidence | as-written member | corrected member |
|---|---|---|---|---|---|---|
| src/map/assets/script.js:497-503 | the `catch` reads and writes `fallbackTriggered`, a `let` declared inside the `try` block (line 255), so the `catch` itself throws a ReferenceError and the fallback never runs; `triggerFallbackMechanism` (line 382) is also declared inside the `try`, after every statement that can throw, so moving the flag alone would not help | any exception thrown in the `try` block before the image handlers are attached, e.g. a `TypeError` from `new Image()` where `Image` is not a constructor | with `fallbackTriggered` and `triggerFallbackMechanism` declared before the `try`, trigger the circle-layer fallback once, as the comment on line 501 says | not executed | Assets.CatchAsWrittenRendersNothing | Assets.CatchCorrectedFallsBack |
