# Gradient Generator — a verified model of the editor's core

The Gradient Generator is a browser page for building CSS gradients. The
user edits a list of colour stops (colour, position, opacity), picks linear
or radial, sets an angle and an export format, and saves gradients to a
small history. All of its logic lives in `script.js`. This project models
the part of that file that is not DOM wiring:

- the colour helpers `isValidHex`, `normalizeHex` and `hexToRgba`;
- the core of `updateGradient`:
  - the stable in-place sort of the stops by position;
  - the `linear-gradient(...)` / `radial-gradient(circle, ...)` string;
  - the four export snippets;
- the state object and the handlers that change it:
  - adding and removing stops;
  - editing a stop's colour, hex text, opacity and position;
  - type, angle and format changes;
  - saving, deleting and loading history entries.

Modules, one file each:

| file | module | what it holds |
|---|---|---|
| `numerals.dfy` | `Numerals` | how JavaScript writes an integer in decimal, and reading it back |
| `hex.dfy` | `Hex` | the colour regex, the `#rgb` expansion, `parseInt(pair, 16)` on two characters, the `rgba(...)` text, `getRandomColor` with its draws passed in |
| `stops.dfy` | `Stops` | the stop record, the default stops, the stable sort, `addColorStop`'s id and position, `removeColorStop`'s filter, `find` by id |
| `templates.dfy` | `Templates` | the four export snippets and the format switch |
| `serialize.dfy` | `Serialize` | the gradient string, the default example, and the fact that each snippet holds it exactly once |
| `history.dfy` | `History` | the saved list: duplicate test, unshift-then-pop, `splice(index, 1)`, thumbnails, save-then-load |
| `editor.dfy` | `Editor` | class `GradientEditor`: the `state` object and the core's handlers that change it |
| `sharing.dfy` | `SharedStops` | stops as shared objects, to show what the page's shallow copy on save does |

The pure parts are functions with lemmas. The `state` object is a class.
Its methods assign the fields the handlers assign. Each method's `ensures`
ties the new state to the pure functions. `updateGradient`'s sort is
`SortByPosition`, a stable insertion sort. Its properties are proved as
lemmas:

- it is sorted;
- it is a permutation of its input;
- it is stable, meaning the stops at each position keep their order;
- it is the only sorted list with that per-position order.

The class invariant `Valid()` says the stops are in position order, which
is what every modelled handler leaves behind. The preview and the export text are
the functions `Preview()` and `Output()` of the state.

What the page does not do, and the model therefore does not do either:

- It has no repeating flag and no radial shape or size keyword: a radial
  gradient is always `radial-gradient(circle, ...)` (line 218).
- A new stop does not go into the widest gap: it goes at the rounded
  midpoint of the two stops around the middle index (lines 308-314).
- Opacity and position are not clamped (lines 147 and 154).
- A save does not truncate the history to ten: it pops at most one entry
  (lines 415-417), so a history loaded from storage with more than ten
  entries stays longer than ten.

## Model

| member | source | states |
|---|---|---|
| Hex.IsValidHex | script.js:557-559 | the colour test: `#` then three or six hex digits, as two or one triples; `IsValidHexIff` states it as a plain length-and-alphabet condition |
| Hex.IsValidHexIff | script.js:557-559 | the regex accepts exactly `#` followed by 3 or 6 hex digits of either case |
| Hex.NormalizeHex | script.js:561-566 | a 4-character string becomes `#` and each of its three digits doubled; any other string is returned unchanged |
| Hex.NormalizeHexValid | script.js:561-566 | a valid colour normalises to a valid 7-character colour |
| Hex.NormalizeHexIdempotent | script.js:561-566 | normalising twice is normalising once |
| Hex.HexDigitValue | script.js:573-581 | a hex digit's value is below 16 |
| Hex.ParseHexPair | script.js:573-581 | `parseInt` of a two-character string in base 16 is NaN or lies in [-15, 255] (sign, white space and `0x` prefix handled as JavaScript does) |
| Hex.ParseHexPairDigits | script.js:573-581 | two hex digits parse to 16 × first + second, a byte |
| Hex.Channels | script.js:568-585 | a string of length other than 4 or 7 gives channels 0, 0, 0 |
| Hex.ValidHexChannels | script.js:568-585 | every channel of a valid colour is a number in [0, 255]; for `#rrggbb` the channels are the three digit pairs in base 16 |
| Hex.ChannelText | script.js:584 | a channel prints as its integer, or `NaN`; `ValidHexChannels` shows a valid colour never gives `NaN` |
| Hex.OpacityText | script.js:584 | an opacity p percent prints as the shortest decimal of p/100, or `NaN`; `OpacityTextWhole` pins whole values |
| Hex.RgbaText | script.js:584 | `rgba(r, g, b, o)`; `RgbaArgumentsNoParen` and `StopTextParens` show its only `(` is the one after `rgba` |
| Hex.HexToRgba | script.js:568-585 | the `rgba(...)` text of a colour's channels and an opacity; `HexToRgbaNormalized` and `ValidHexChannels` state its properties |
| Hex.HexToRgbaNormalized | script.js:561-585 | a 4-character colour and its expansion give the same `rgba(...)` text |
| Hex.OpacityTextWhole | script.js:584 | an opacity of k×100 percent prints as the integer k, so full opacity prints `1` |
| Hex.RandomColor | script.js:548-555 | with six draws below 16, the result is `#` and the six chosen characters of `0123456789ABCDEF`, and it passes the colour test |
| Numerals.IntToString | script.js:211-214 | an integer prints as at least one character, beginning with `-` exactly when it is negative; `IntToStringInjective` and `IntToStringAlphabet` state the rest |
| Numerals.NatToString | script.js:214 | a number prints as one or more decimal digits with no leading zero |
| Numerals.NatToStringRoundTrip | script.js:214 | the printed form of a position or angle reads back as the same number |
| Numerals.IntToStringInjective | script.js:211-214 | two different integers never print the same |
| Numerals.IntToStringAlphabet | script.js:211-214 | a printed integer holds only digits and a minus sign |
| Stops.AtPosition | script.js:206 | every stop it returns is in the list and at the given position, and there are no more of them than stops in the list |
| Stops.Insert | script.js:206 | one step of the stable sort: the stop goes before the first stop whose position is not smaller; `InsertMembers`, `InsertSorted` and `InsertAtPosition` state its properties |
| Stops.SortByPosition | script.js:206 | `sort((a, b) => a.position - b.position)` as a stable insertion sort; `SortByPositionCorrect` and `SortByPositionUnique` prove it is the stable sort |
| Stops.InsertMembers | script.js:206 | one insertion step adds exactly one element: same members plus the new one, as a multiset |
| Stops.InsertSorted | script.js:206 | inserting into a sorted list keeps it sorted |
| Stops.InsertAtPosition | script.js:206 | an insertion step keeps the order of the stops at each position |
| Stops.SortByPositionPermutes | script.js:206 | the sorted list is ordered by position and is a permutation of the input |
| Stops.SortByPositionStable | script.js:206 | the sort is stable: stops at equal positions keep their relative order |
| Stops.SortByPositionCorrect | script.js:206 | sorted, permutation, same length and stable, together |
| Stops.SortedUnique | script.js:206 | two sorted lists with the same stops at each position, in the same order, are equal |
| Stops.SortByPositionUnique | script.js:206 | any sorted list that keeps the per-position order of the input is the sort's result |
| Stops.SortByPositionSorted | script.js:206 | sorting a sorted list changes nothing, so re-sorting on every render is idempotent |
| Stops.AtPositionDistinct | script.js:206 | with distinct positions, at most one stop sits at each position |
| Stops.SameStopsAtPosition | script.js:206 | two orderings of the same stops with distinct positions have the same stop at each position |
| Stops.ReorderedSortsEqual | script.js:206 | two orderings of the same stops with distinct positions sort to the same list |
| Stops.MaxId | script.js:304-305 | the maximum id is at least every id and belongs to some stop |
| Stops.NextId | script.js:304-305 | the new id is greater than every existing id |
| Stops.AddStop | script.js:303-326 | adding pushes exactly one stop at the end, with the given colour and opacity 1, leaving the others as they were |
| Stops.AddStopIds | script.js:303-326 | the new stop's id exceeds every existing id, so ids stay unique |
| Stops.NewPosition | script.js:308-314 | 50 for fewer than two stops, otherwise `Math.round` of the mean of the two stops around the middle index; `NewPositionBetween` states where that lands |
| Stops.NewPositionBetween | script.js:308-314 | with n ≥ 2 sorted stops the new position lies between the stops at indices ⌊n/2⌋−1 and ⌊n/2⌋; with fewer it is 50 |
| Stops.WithoutId | script.js:334 | `filter(stop => stop.id !== id)`, never longer than the list; `WithoutIdMembers`, `WithoutIdSorted` and `WithoutIdOnlyAt` state what it keeps |
| Stops.WithoutIdMembers | script.js:334 | the filter keeps exactly the stops whose id differs |
| Stops.RemoveStop | script.js:328-337 | with two or fewer stops the list is unchanged; otherwise exactly the stops with a different id remain |
| Stops.WithoutIdSorted | script.js:334 | filtering a sorted list leaves it sorted |
| Stops.WithoutIdAbsent | script.js:334 | filtering by an id nobody has changes nothing |
| Stops.WithoutIdOnlyAt | script.js:334 | filtering by an id only the stop at index k has removes exactly that stop and keeps the rest in order |
| Stops.WithoutIdUnique | script.js:334 | with unique ids, deleting the stop at index k removes exactly that one |
| Stops.RemoveStopUnique | script.js:328-337 | with unique ids and three or more stops, deleting a stop removes exactly it and at least two remain |
| Stops.SortKeepsUniqueIds | script.js:206 | sorting keeps the stop ids unique |
| Stops.WithoutIdKeepsUniqueIds | script.js:334 | deleting by id keeps the stop ids unique |
| Stops.InsertUniqueIds | script.js:206 | inserting a stop with a new id keeps the ids unique |
| Stops.FirstWithId | script.js:126-157 | `find` returns the first stop with that id |
| Stops.SameOrderAfterRecolour | script.js:126-148 | changing a stop's colour or opacity keeps the list sorted, so the next sort changes nothing |
| Templates.TemplateFor | script.js:231-257 | `tailwind`, `react` and `js` pick their snippet; every other tag picks the CSS one |
| Templates.Fill | script.js:231-257 | the snippet is its prefix, then the gradient string, then its suffix |
| Templates.ExportText | script.js:231-257 | the output text for a format tag: that tag's snippet filled with the gradient string; `ExportHoldsGradientOnce` and the `ExportText...` lemmas state its shape |
| Templates.ExportTextCss | script.js:232-233 | `css` gives `background: G;` |
| Templates.ExportTextUnknown | script.js:255-256 | an unknown tag gives `background: G;` |
| Templates.ExportTextJs | script.js:252-253 | `js` gives `element.style.background = 'G';` |
| Templates.TemplateNoParen | script.js:231-257 | no snippet's fixed text has an opening parenthesis |
| Serialize.StopText | script.js:212-215 | a stop prints as its `rgba(...)` text, a space, its position and `%`; `FirstDefaultStopText` and `StopTextParens` pin it |
| Serialize.StopListText | script.js:212-215 | the stop texts joined with `, `; `StopListParens` states where its parentheses are |
| Serialize.GradientString | script.js:209-224 | `linear-gradient(Adeg, ...)` or `radial-gradient(circle, ...)` around the stop list; `DefaultGradientString` and `ExportHoldsGradientOnce` state its properties |
| Serialize.PreviewGradient | script.js:205-224 | the gradient string of the stops after the stable sort; `PreviewGradientReordered` and `PreviewGradientSorted` state its properties |
| Serialize.FunctionNameShape | script.js:211-218 | both function names are 16 characters and end in `t(`, their only parenthesis |
| Serialize.StopListParens | script.js:212-215 | in the joined stop list every `(` follows an `a` (it is an `rgba(`) |
| Serialize.DefaultGradientString | script.js:209-216 | the default stops (lines 26-35) at 90 degrees give `linear-gradient(90deg, rgba(59, 130, 246, 1) 0%, rgba(139, 92, 246, 1) 100%)` |
| Serialize.FirstDefaultStopText | script.js:212-215 | the first default stop prints as `rgba(59, 130, 246, 1) 0%` |
| Serialize.SecondDefaultStopText | script.js:212-215 | the second default stop prints as `rgba(139, 92, 246, 1) 100%` |
| Serialize.PreviewGradientReordered | script.js:205-224 | any two orderings of the same stops with distinct positions give the same gradient string |
| Serialize.PreviewGradientSorted | script.js:205-224 | for stops already in order, sorting first does not change the string |
| Serialize.ExportHoldsGradientOnce | script.js:209-257 | every export snippet holds the gradient string right after its prefix, and at no other offset |
| History.IsDuplicate | script.js:402-406 | some entry has the same stops, type and angle; the time stamp is not compared |
| History.Save | script.js:394-417 | nothing for a duplicate, otherwise unshift and one pop past ten; `SaveEffect`, `SaveBounded` and `SaveNoDuplicates` state what it does |
| History.SaveEffect | script.js:394-422 | a duplicate save changes nothing; otherwise the new entry is first, the old entries follow in order, the length is old+1 (or unchanged from 10 or more), and only the old last entry can be dropped |
| History.SaveBounded | script.js:414-417 | saving into at most ten entries leaves at most ten |
| History.SaveHolds | script.js:394-417 | after a save the history holds the saved gradient |
| History.SaveTwice | script.js:402-412 | saving the same gradient again, at any later time, leaves the history as the first save left it |
| History.SaveNoDuplicates | script.js:402-417 | saving keeps the history free of duplicate entries |
| History.SaveRecolourSave | script.js:394-417 | with saved entries kept as values, saving, recolouring a stop and saving again adds a second entry and keeps the first with its old colour |
| History.Splice1 | script.js:592 | `splice(index, 1)` with JavaScript's start rules; `Splice1Effect` states them case by case |
| History.Splice1Effect | script.js:592 | an index in range deletes exactly that entry, keeping the others in order; an index past the end changes nothing; a negative index counts back from the end |
| History.Splice1NoDuplicates | script.js:592 | deleting keeps the history free of duplicates |
| History.Thumbnail | script.js:433-439 | the thumbnail string is the gradient string of the entry's stops as stored, unsorted; `ThumbnailMatchesLoaded` relates it to the preview |
| History.ThumbnailMatchesLoaded | script.js:433-439 | a thumbnail of sorted stops is the string the preview shows after loading that entry |
| History.SaveThenLoad | script.js:468-475 | after saving sorted stops (lines 394-417), some entry loads back with the same type, angle and stops |
| Editor.GradientEditor.Preview | script.js:227 | the preview's background is the gradient string of the state; `UpdateGradient` ties it to `PreviewGradient` |
| Editor.GradientEditor.Output | script.js:230-259 | the output box holds the current format's snippet around the preview; `SetFormat` and `ExportHoldsGradientOnce` state its shape |
| Editor.GradientEditor.constructor | script.js:26-35 | the initial state: linear, 90 degrees, the two default stops, `css`, the stored history, sorted |
| Editor.GradientEditor.UpdateGradient | script.js:204-259 | the stops become their stable sort by position; nothing else in the state changes; the preview shows the sorted stops |
| Editor.GradientEditor.SetAngle | script.js:44-70 | the angle changes and the stops stay as they are |
| Editor.GradientEditor.SetFormat | script.js:72-82 | the format changes and the output is the new snippet around the unchanged preview |
| Editor.GradientEditor.SetGradientType | script.js:339-350 | the type changes and the stops stay as they are |
| Editor.GradientEditor.AddColorStop | script.js:303-326 | the stops become the sort of the old list plus one new stop with a valid random colour; unique ids stay unique |
| Editor.GradientEditor.RemoveColorStop | script.js:328-337 | refused, with nothing changed, exactly when two or fewer stops remain; otherwise the stops are the filtered list, already in order; with unique ids exactly the stop with that id goes and at least two remain |
| Editor.GradientEditor.SetStopColor | script.js:126-132 | the first stop with that id takes the new colour; nothing else changes and the list stays sorted |
| Editor.GradientEditor.TypeStopHex | script.js:134-142 | text that fails the colour test changes nothing; valid text is expanded and stored as a valid 7-character colour |
| Editor.GradientEditor.SetStopOpacity | script.js:144-149 | the first stop with that id takes the new opacity; the list stays sorted |
| Editor.GradientEditor.SetStopPosition | script.js:151-157 | the first stop with that id moves, then the list is sorted again |
| Editor.GradientEditor.SaveCurrentGradient | script.js:394-422 | the history becomes `Save` of the current type, angle and stops; the result reports a duplicate |
| Editor.GradientEditor.DeleteSaved | script.js:587-597 | the history becomes `splice(index, 1)` of itself and nothing else changes |
| Editor.GradientEditor.LoadSavedGradient | script.js:468-486 | type, angle and stops are copied from the entry, and the stops are then sorted |
| Editor.GradientEditor.ClickTrashAsWritten | script.js:460-462 | a trash click loads the entry before it deletes it |
| Editor.TrashClickLoadsEntry | script.js:587-597 | deleting a saved radial entry while editing the default linear gradient leaves the editor radial |
| SharedStops.Values | script.js:394-400 | the stops a list of stop objects holds at the moment it is read, one per object, in order |
| SharedStops.SaveRecolourSaveAsWritten | script.js:394-400 | with the page's shallow copy, save, recolour a stop, save again: the second save is a duplicate and the saved entry holds the new colour |

## Left out

- DOM and page wiring are not modelled, except the click order behind the finding below:
  - building the stop controls;
  - the preset gallery;
  - the history panel toggle;
  - the toasts;
  - the slider backgrounds at lines 261-267;
  - the delete button shown only for ids above 2.
- `makeDraggable` is not modelled: it computes pointer geometry on floating point numbers.
- `downloadAsPNG` is not modelled: it uses the canvas, trigonometry and a file download.
- `copyCSSToClipboard` is not modelled: it is an asynchronous browser call.
- `generateRandomGradient` is not modelled: it draws from `Math.random`.
- `getRandomColor` is modelled with its six random draws passed in as a parameter.
- `localStorage` and `JSON` are not modelled:
  - the history is an in-memory sequence given to the constructor;
  - the stored copy is not modelled;
  - the duplicate test compares stop lists by value, which is what comparing their JSON text does for these records.
- Editor.GradientEditor.SaveCurrentGradient: a saved entry is an immutable value. In the page, `[...state.colorStops]` copies only the array, so a saved entry shares its stop objects with the editor until a load (line 473) or a preset click (line 377) replaces the editor's list. Save, recolour a stop, save again: the page reports "This gradient is already saved" and the first entry now holds the new colour, where the model adds a second entry. `SharedStops` exhibits the page's behaviour; see "## Findings".
- Editor.GradientEditor.SaveCurrentGradient: the time stamp is a parameter, because the page reads the clock.
- Editor.GradientEditor.SetAngle: the angle is an integer. The slider stores its value as a string, which prints the same for integer angles. The model misses that the duplicate test compares a string angle with a number angle as different.
- Editor.GradientEditor.SetGradientType: the type is `Linear | Radial`. The page compares a string with `'linear'` and treats every other value as radial.
- Hex.OpacityText: opacity is a whole percentage or NaN, printed as the exact decimal p/100. JavaScript's float division, and its exponent notation for huge values, are not modelled.
- Numerals.IntToString: every integer prints in plain decimal. JavaScript switches to exponent notation from 1e21 upward, so positions, angles and channels of that size print differently in the page.
- Editor.GradientEditor.SetStopPosition: positions are integers. `parseInt` of an empty slider value (NaN) is not modelled.
- Hex.IsValidHexIff: characters are Unicode code points, not UTF-16 units. The difference matters only for astral characters, which no pattern position accepts.
- Hex.Channels: `hex.length` counts code points here and UTF-16 units in the page, so a stored colour holding an astral character can take a different length branch (and read different pairs) in the page.
- Editor.GradientEditor.LoadSavedGradient: the index must be in range. The page only passes indices of rendered entries, and an out-of-range index throws in the page.
- Editor.GradientEditor.SetStopColor: the stop must exist, as it does for every rendered control. A missing stop throws in the page.
- Editor.GradientEditor.SetStopOpacity: the same holds.
- Editor.GradientEditor.SetStopPosition: the same holds.
- Editor.GradientEditor.TypeStopHex: the same holds for accepted text.

## Findings

| source | as written | input that shows it | evidently intended | confidence | as-written member | corrected member |
|---|---|---|---|---|---|---|
| script.js:460-462 | the trash button sits inside the entry's element. The entry's click listener (load) runs before the list's listener (delete), so `stopPropagation` comes too late. | history `[radial entry]` while editing the default linear gradient; click its trash button. The editor loads the radial gradient, then deletes the entry. | the trash button only deletes the entry | medium, not executed | Editor.GradientEditor.ClickTrashAsWritten | Editor.GradientEditor.DeleteSaved |
| script.js:394-400 | the save copies the stop array, not the stop objects. The colour, opacity and position handlers (lines 126-157) assign to those objects, so a saved entry follows later edits until a load or a preset click replaces the editor's list. | save the default gradient, change the first stop's colour, save again. The page reports "This gradient is already saved". The saved entry now holds the new colour. Its thumbnail keeps the old one until the list is redrawn, and loading it gives the new one. | a saved entry keeps the gradient as it was when saved | medium, not executed | SharedStops.SaveRecolourSaveAsWritten | History.SaveRecolourSave |
