# Trace timeline, flame-graph viewport and packet decoder: a verified model

This project models three cores of a firmware-tracing tool in Dafny, each in the form of its source:

- **The execution graph's two passes** (`ExecutionGraph.tsx`).
  - The correlation pass sorts received trace events by arrival time. It pairs each ENTER with its EXIT through an open-call map keyed by (core, trace id, call id). It emits one segment per EXIT, PANIC and RESTART. It hands out palette colors to function names by first appearance.
  - The window pass keeps the segments that overlap the trailing 2000 ms window and clips them to it with a 30 ms minimum width. It groups them by core, sorts each group by clipped start and orders the cores by id.
  - Both passes are methods with loops. They are proved against fold-style specification functions (`CorrelateEvents`, `Kept`, `OnCore`). Lemmas state what those functions mean.
- **The playback flame graph's viewport engine** (`PlaybackFlameGraph.tsx`).
  - A class holds the camera (time offset, zoom) and the hit map of the last draw. The draw, the initial fit and the keyboard handler update it in place.
  - The bounds memo, the hit test and the jump scans are loops.
  - Camera arithmetic uses unbounded integers for times (JavaScript BigInt) and exact reals for zoom and pixels.
- **The backend's packet decoder** (`processing.go`).
  - The little-endian layouts of the ENTER, EXIT and PANIC records are modelled with round-trip lemmas.
  - `bytes.Reader` becomes a small class. `binary.Read` becomes its read-all-or-fail behaviour into a zeroed record.
  - `Process` is a method that returns what happens to a packet instead of printing.

Files:
- `wrappers.dfy`: `Option`.
- `sorting.dfy`: the stable sort standing for `Array.prototype.sort`.
- `trace_types.dfy`: the trace events.
- `execution_graph.dfy`: correlation.
- `execution_window.dfy`: the window pass.
- `playback_flame_graph.dfy`: the viewport engine.
- `processing.dfy`: the packet decoder.

Two consequences of the code worth knowing:
- At `now` = 100 the window widens a 5..15 call to 5..35, because every shown segment is at least 30 ms wide (`ExecutionWindow.NestedCallScenario`).
- `Math.max(w, 1)` makes every bar at least one pixel wide, so the `w < 0.2` check in the draw loop never fires (`PlaybackFlameGraph.DrawnIffVisible`).

## Model

| member | source | states |
|---|---|---|
| Sorting.SortBy | hermes-frontend/src/components/molecules/ExecutionGraph.tsx:60-62 | the sorted copy has the same elements, counted with multiplicity, and is ascending by the key |
| Sorting.SortBySortedIsIdentity | hermes-frontend/src/components/molecules/ExecutionGraph.tsx:60-62 | sorting a sequence that is already in order changes nothing |
| Sorting.SortByIsStable | hermes-frontend/src/components/molecules/ExecutionGraph.tsx:60-62 | the sort is stable: for every key, the elements with that key come out in their input order |
| Sorting.PermutationKeepsDistinct | hermes-frontend/src/components/molecules/ExecutionGraph.tsx:203-205 | reordering a sequence without repetitions leaves it without repetitions, so sorting the core entries keeps core ids unique |
| ExecutionGraph.Correlate | hermes-frontend/src/components/molecules/ExecutionGraph.tsx:51-162 | an empty log gives no segments and an empty color map; otherwise the result is the correlation of the log sorted by arrival, and no segment ends before it starts |
| ExecutionGraph.GetColorForFunction | hermes-frontend/src/components/molecules/ExecutionGraph.tsx:68-74 | looks a name up in the insertion-ordered color map. A name already there keeps its color and the map is unchanged; a new name is appended with palette entry (map size mod 9). Either way the name is then found with the returned color and the old map is a prefix of the new one. `ColorsInFirstSeenOrder` and `ExitSegmentsKeepTheirColor` characterise the map this builds |
| ExecutionGraph.KeyOf | hermes-frontend/src/components/molecules/ExecutionGraph.tsx:76-80 | the pairing key of an ENTER, EXIT or PANIC event: its (core, trace id, call id) triple. Equal keys mean equal `makeKey` strings; `OpenCallsAreLastOpenEnter` states what the map keyed by it holds |
| ExecutionGraph.Step | hermes-frontend/src/components/molecules/ExecutionGraph.tsx:82-159 | one iteration of the correlation loop: ENTER opens its key, EXIT closes it into a segment, PANIC and RESTART add a 30 ms marker. It appends exactly one segment for every event but ENTER, never changes earlier segments and only extends the color map. `ExitClosesCall`, `EnterOpensCall` and `SegmentPerEvent` give each case in full |
| ExecutionGraph.OpenCallsAreLastOpenEnter | hermes-frontend/src/components/molecules/ExecutionGraph.tsx:89-135 | after any event sequence, the call open under a key is exactly the last ENTER with that key not followed by an EXIT with that key |
| ExecutionGraph.ExitClosesCall | hermes-frontend/src/components/molecules/ExecutionGraph.tsx:104-135 | an EXIT appends exactly one segment. It starts at the open ENTER's arrival, or at the EXIT's own arrival when none is open. It ends at the EXIT's arrival, with the EXIT's core, name and kind. Its key is closed afterwards |
| ExecutionGraph.EnterOpensCall | hermes-frontend/src/components/molecules/ExecutionGraph.tsx:89-103 | an ENTER emits no segment, keeps the color map and becomes the open call for its key, replacing any earlier one |
| ExecutionGraph.SegmentPerEvent | hermes-frontend/src/components/molecules/ExecutionGraph.tsx:82-159 | segment j comes from the j-th non-ENTER event, on its core (RESTART: core -1) and of its kind. It ends at its arrival (EXIT) or 30 ms after it (PANIC, RESTART). PANIC and RESTART segments start at their arrival. EXIT segments carry the function's name, PANIC segments are named "PANIC" and colored bg-red-500, RESTART segments are named "RESTART" and colored bg-orange-400 |
| ExecutionGraph.SegmentsNeverEndBeforeStart | hermes-frontend/src/components/molecules/ExecutionGraph.tsx:60-135 | with events in arrival order, every open call comes from the input and every segment has start <= end |
| ExecutionGraph.ColorsInFirstSeenOrder | hermes-frontend/src/components/molecules/ExecutionGraph.tsx:68-74 | the color map lists the EXIT function names once each, in first-seen order, the i-th with palette color i mod 9 |
| ExecutionGraph.ColorMapGrows | hermes-frontend/src/components/molecules/ExecutionGraph.tsx:68-74 | later events only append to the color map, never change or remove an entry |
| ExecutionGraph.ExitSegmentsKeepTheirColor | hermes-frontend/src/components/molecules/ExecutionGraph.tsx:121-133 | every EXIT segment carries the color its function name has in the final map: a name's color never changes within a pass |
| ExecutionWindow.Clip | hermes-frontend/src/components/molecules/ExecutionGraph.tsx:181-191 | a segment is kept iff it overlaps [now-2000, now]. A kept segment starts inside the window, no earlier than before, and is at least 30 ms wide. It starts at max(start, now-2000), cut at the window start when it straddles it. It ends at min(end, now) when that leaves at least 30 ms, else exactly 30 ms after its clipped start. Its other fields are unchanged |
| ExecutionWindow.Window | hermes-frontend/src/components/molecules/ExecutionGraph.tsx:164-217 | window bounds are now-2000 and now. The legend is the color map, empty when there are no segments. Cores come in strictly ascending id and are exactly the cores of kept segments. Each core's list is its kept segments stably sorted by clipped start |
| ExecutionWindow.GroupKept | hermes-frontend/src/components/molecules/ExecutionGraph.tsx:181-197 | the grouping loop yields one list per core of a kept segment, in the order of their first kept segment, each once, each list holding that core's clipped segments in input order |
| ExecutionWindow.SortEachGroup | hermes-frontend/src/components/molecules/ExecutionGraph.tsx:199-201 | sorting each core's list in place keeps the same cores and leaves each list stably sorted by start |
| Sorting.PermutationKeepsDistinctKeys | hermes-frontend/src/components/molecules/ExecutionGraph.tsx:203-205 | reordering a sequence whose keys are all different keeps the keys all different |
| ExecutionWindow.KeptSegmentInItsCoreList | hermes-frontend/src/components/molecules/ExecutionGraph.tsx:193-205 | every kept segment is in its own core's list, every list holds only kept segments of its core, and every list is ordered by start |
| ExecutionWindow.NestedCallScenario | hermes-frontend/src/components/molecules/ExecutionGraph.tsx:82-196 | a nested call on core 0 yields the inner segment then the outer one, colored cyan and emerald; at now = 100 the inner one is widened to 5..35 and the outer one is kept as is |
| PlaybackFlameGraph.ComputeBounds | hermes-frontend/src/components/molecules/FlameGraphs/PlaybackFlameGraph.tsx:41-55 | no entries give (0, 0, 0); otherwise start is the smallest start, end the largest end, duration their difference, and duration >= 0 when every entry ends no earlier than it starts |
| PlaybackFlameGraph.FlameGraphView.constructor | hermes-frontend/src/components/molecules/FlameGraphs/PlaybackFlameGraph.tsx:32-39 | the camera starts at offset 0 and zoom 0.01 with an empty hit map |
| PlaybackFlameGraph.FlameGraphView.InitialFit | hermes-frontend/src/components/molecules/FlameGraphs/PlaybackFlameGraph.tsx:57-66 | with a positive duration, zoom becomes 95% of width/duration, the offset is start minus floor(2.5% of duration), and the hit map is redrawn; otherwise nothing changes |
| PlaybackFlameGraph.InitialFitShowsAll | hermes-frontend/src/components/molecules/FlameGraphs/PlaybackFlameGraph.tsx:60-64 | after the initial fit the left edge is at or before the first start and the visible span reaches the last end |
| PlaybackFlameGraph.FlameGraphView.Draw | hermes-frontend/src/components/molecules/FlameGraphs/PlaybackFlameGraph.tsx:93-140 | with no entries the previous hit map stays; otherwise the hit map becomes the render map of the entries at the current camera |
| PlaybackFlameGraph.DrawnIffVisible | hermes-frontend/src/components/molecules/FlameGraphs/PlaybackFlameGraph.tsx:111-119 | an entry is drawn exactly when it overlaps [offset, offset + floor(width/zoom)]; the thin-bar skip never removes one |
| PlaybackFlameGraph.RenderMapKeys | hermes-frontend/src/components/molecules/FlameGraphs/PlaybackFlameGraph.tsx:107-124 | the hit map a draw builds never holds two shapes under the same rectangle |
| PlaybackFlameGraph.RenderMapEntries | hermes-frontend/src/components/molecules/FlameGraphs/PlaybackFlameGraph.tsx:107-124 | every recorded shape is an input entry that is visible, in the rectangle its scaled position, row and width of at least one pixel give |
| PlaybackFlameGraph.RenderMapCovers | hermes-frontend/src/components/molecules/FlameGraphs/PlaybackFlameGraph.tsx:107-124 | every visible entry's rectangle is a key of the hit map |
| PlaybackFlameGraph.RenderMapLastWins | hermes-frontend/src/components/molecules/FlameGraphs/PlaybackFlameGraph.tsx:107-124 | a later visible entry in the same rectangle replaces an earlier one: the hit map holds the shape of the last visible entry with each rectangle |
| PlaybackFlameGraph.RecordShapeContents | hermes-frontend/src/components/molecules/FlameGraphs/PlaybackFlameGraph.tsx:124 | recording a shape adds it, keeps every shape with another rectangle and adds nothing else |
| PlaybackFlameGraph.RecordShapeIsMapSet | hermes-frontend/src/components/molecules/FlameGraphs/PlaybackFlameGraph.tsx:124 | recording is `Map.set`: a shape whose rectangle is present takes that entry's place, one with a new rectangle is appended |
| PlaybackFlameGraph.RecordShapeKeys | hermes-frontend/src/components/molecules/FlameGraphs/PlaybackFlameGraph.tsx:124 | recording a shape keeps rectangle keys distinct |
| PlaybackFlameGraph.HitTest | hermes-frontend/src/components/molecules/FlameGraphs/PlaybackFlameGraph.tsx:210-218 | nothing is found iff no rectangle contains the cursor; otherwise the entry of the first containing rectangle, edges included |
| PlaybackFlameGraph.FlameGraphView.HandleKeyDown | hermes-frontend/src/components/molecules/FlameGraphs/PlaybackFlameGraph.tsx:224-322 | keys in INPUT or TEXTAREA change nothing and draw nothing; otherwise the camera becomes Navigate of the old camera for the key's command, and a redraw is requested iff the key is a command |
| PlaybackFlameGraph.VisibleSpan | hermes-frontend/src/components/molecules/FlameGraphs/PlaybackFlameGraph.tsx:236 | the visible span is the non-negative floor of width/zoom |
| PlaybackFlameGraph.PanStep | hermes-frontend/src/components/molecules/FlameGraphs/PlaybackFlameGraph.tsx:241-243 | a pan step is between 0 and the visible span |
| PlaybackFlameGraph.ZoomedIn | hermes-frontend/src/components/molecules/FlameGraphs/PlaybackFlameGraph.tsx:258-259 | zooming in multiplies by 1.2 when that stays at most 100, and gives 100 otherwise |
| PlaybackFlameGraph.ZoomedOut | hermes-frontend/src/components/molecules/FlameGraphs/PlaybackFlameGraph.tsx:268-269 | zooming out divides by 1.2 when that stays at least 0.00001, and gives 0.00001 otherwise |
| PlaybackFlameGraph.ZoomKeepsCenter | hermes-frontend/src/components/molecules/FlameGraphs/PlaybackFlameGraph.tsx:256-273 | zooming in or out keeps the time at the center of the surface exactly |
| PlaybackFlameGraph.FloorHalf | hermes-frontend/src/components/molecules/FlameGraphs/PlaybackFlameGraph.tsx:263 | halving a floored span equals flooring the halved span, which makes the zoom keep the center |
| PlaybackFlameGraph.ZoomStaysInRange | hermes-frontend/src/components/molecules/FlameGraphs/PlaybackFlameGraph.tsx:256-273 | from a zoom within [0.00001, 100] every command leaves it within that range |
| PlaybackFlameGraph.PanIsReversible | hermes-frontend/src/components/molecules/FlameGraphs/PlaybackFlameGraph.tsx:248-253 | a pan right (left) moves the offset forward (back) by one pan step and keeps the zoom, so a pan right then left (or left then right) restores the camera |
| PlaybackFlameGraph.JumpCentersOnTarget | hermes-frontend/src/components/molecules/FlameGraphs/PlaybackFlameGraph.tsx:277-316 | a backward (forward) jump keeps the zoom. It centers on the last (first) entry starting strictly before (after) the center, or leaves the camera when there is none |
| PlaybackFlameGraph.LastStartBefore | hermes-frontend/src/components/molecules/FlameGraphs/PlaybackFlameGraph.tsx:282-287 | the result starts before the center and every later entry does not; none means no entry starts before the center |
| PlaybackFlameGraph.FirstStartAfter | hermes-frontend/src/components/molecules/FlameGraphs/PlaybackFlameGraph.tsx:302-307 | the result starts after the center and every earlier entry does not; none means no entry starts after the center |
| PlaybackFlameGraph.FindPrevious | hermes-frontend/src/components/molecules/FlameGraphs/PlaybackFlameGraph.tsx:280-287 | the backward scan finds the last entry starting before the center |
| PlaybackFlameGraph.FindNext | hermes-frontend/src/components/molecules/FlameGraphs/PlaybackFlameGraph.tsx:301-307 | the forward scan finds the first entry starting after the center |
| PlaybackFlameGraph.Navigate | hermes-frontend/src/components/molecules/FlameGraphs/PlaybackFlameGraph.tsx:246-316 | what each keyboard command does to the camera. Unknown keys leave it as it is, only the two zoom commands change the zoom, and a zoom within [0.00001, 100] stays within it. `PanIsReversible`, `ZoomKeepsCenter` and `JumpCentersOnTarget` give each command's effect |
| PlaybackFlameGraph.ParseKey | hermes-frontend/src/components/molecules/FlameGraphs/PlaybackFlameGraph.tsx:246-316 | the command named by the key's lower-cased text, with `Other` for the `default` case. `ParseKeyCommands` states which keys give which command |
| PlaybackFlameGraph.ShapeOf | hermes-frontend/src/components/molecules/FlameGraphs/PlaybackFlameGraph.tsx:107-124 | the rectangle one entry is drawn in, or none. There is one exactly when the entry overlaps the visible range, and it belongs to that entry. Its left edge is the scaled start, its top is the entry's row, and it is at least one pixel wide and 38 px tall. `RenderMapEntries`, `RenderMapCovers` and `RenderMapLastWins` relate the hit map to it |
| PlaybackFlameGraph.ParseKeyCommands | hermes-frontend/src/components/molecules/FlameGraphs/PlaybackFlameGraph.tsx:246-319 | a/d/w/s/q/e in either case, and only those keys, select pan left/right, zoom in/out and jump back/forward |
| PlaybackFlameGraph.ToLower | hermes-frontend/src/components/molecules/FlameGraphs/PlaybackFlameGraph.tsx:246 | lower-casing keeps the length and maps exactly A-Z to a-z |
| Processing.LeU32OfU32Bytes | backend-reader/internal/processing/processing.go:80 | reading back the four little-endian bytes of a word gives the word |
| Processing.U32BytesOfLeU32 | backend-reader/internal/processing/processing.go:80 | any four bytes are the little-endian bytes of the word they read as |
| Processing.LeU32sOfU32sBytes | backend-reader/internal/processing/processing.go:37 | a word array read back from its encoding is the array |
| Processing.Dispatch | backend-reader/internal/processing/processing.go:77-107 | what processing a packet leads to. The type word selects the layout, a read error that does not mention EOF stops processing, and anything else hands on the decoded or zeroed entry. Words above 2 give "Unsure", and each handler is reached only for its own type word. `DispatchByType`, `EnterAndExitDecoded` and `PanicLostInRawPackets` characterise it |
| Processing.DecodeHeader | backend-reader/internal/processing/processing.go:24-30 | the little-endian header fields read at offsets 0, 4, 8 and 12, skipping the padding after the core id. `HeaderRoundTrip` shows it inverts the encoding |
| Processing.DecodeEnter | backend-reader/internal/processing/processing.go:32-39 | the ENTER record read from its 52-byte layout, with four argument words and a 16-byte name. `EnterRoundTrip` shows it inverts the encoding |
| Processing.DecodeExit | backend-reader/internal/processing/processing.go:41-48 | the EXIT record read from its 52-byte layout, skipping the 12 unused bytes before the name. `ExitRoundTrip` shows it inverts the encoding |
| Processing.DecodePanic | backend-reader/internal/processing/processing.go:50-54 | the PANIC record read from its 68-byte layout, with the faulting PC and a 48-byte exception reason. `PanicRoundTrip` shows it inverts the encoding |
| Processing.HeaderRoundTrip | backend-reader/internal/processing/processing.go:24-30 | the common header decodes from bytes 0-3, 4, 8-11 and 12-15 as it was encoded, the padding skipped |
| Processing.EnterRoundTrip | backend-reader/internal/processing/processing.go:32-39 | the 52-byte ENTER layout decodes to the entry it encodes |
| Processing.ExitRoundTrip | backend-reader/internal/processing/processing.go:41-48 | the 52-byte EXIT layout, with its 3 and 12 padding bytes, decodes to the entry it encodes |
| Processing.PanicRoundTrip | backend-reader/internal/processing/processing.go:50-54 | the 68-byte PANIC layout decodes to the entry it encodes |
| Processing.Contains | backend-reader/internal/processing/processing.go:81 | the test is true iff the text occurs at some position |
| Processing.ByteReader.constructor | backend-reader/internal/processing/processing.go:76 | the reader is over the given bytes at position 0 |
| Processing.ByteReader.ReadFull | backend-reader/internal/processing/processing.go:80 | a read of n bytes returns the next n bytes and advances, or, when fewer are left, consumes them and fails with EOF (none left) or UnexpectedEOF (some left) |
| Processing.ReadLayout | backend-reader/internal/processing/processing.go:80 | a layout read succeeds iff the body holds the layout, and then yields its first bytes |
| Processing.Process | backend-reader/internal/processing/processing.go:69-108 | processing a packet gives exactly the dispatch outcome of its type word and body |
| Processing.ReadErrorsMentionEOF | backend-reader/internal/processing/processing.go:80-85 | both read errors' texts contain "EOF", so no read error stops processing |
| Processing.DispatchByType | backend-reader/internal/processing/processing.go:77-107 | type word 0 reaches the ENTER handler, 1 EXIT, 2 PANIC, any other "Unsure", each iff; no packet ends in a read failure |
| Processing.LastTwoBytesIgnored | backend-reader/internal/processing/processing.go:76 | packets that differ only in their last two bytes are processed alike |
| Processing.EnterAndExitDecoded | backend-reader/internal/processing/processing.go:78-95 | a packet that begins with an encoded ENTER (EXIT) entry and has room for it before the last two bytes hands exactly that entry on |
| Processing.PanicLostInRawPackets | backend-reader/internal/processing/processing.go:96-104 | in a 68-byte packet every PANIC is handed on as the all-zero entry, whose type word is not PANIC |
| Processing.PanicDecodedInReaderPackets | backend-reader/cmd/main.go:13 | in a 72-byte packet that begins with an encoded PANIC entry, exactly that entry is handed on |

## Left out

- Rendering is not modelled. This covers the execution graph's JSX layout, the flame graph's canvas setup, device pixel ratio and fills, the bar labels drawn when a bar is wider than 40 px, `getColor`, the time axis, the tooltip and the resize observer. None of them changes the model's state.
- The camera's `isDragging` and `lastMouseX` fields (`PlaybackFlameGraph.tsx:35-36`) are never read or written after initialisation, so the model leaves them out. The only mouse handler is the hover hit test, modelled by `HitTest`.
- The draw's early return when there is no canvas or container, and the key handler's return when there is no container, are not modelled: the model assumes both are mounted.
- `requestAnimationFrame(draw)` is not modelled: `HandleKeyDown` returns whether a redraw is requested instead of drawing.
- The execution graph's clock (`now` refreshed on a timer) is a parameter of `Window`.
- React's memoisation and effect scheduling are not modelled. `Correlate` and `Window` are the bodies of the two memos.
- The call key is a triple, not the string `core-trace-call`. The strings coincide exactly when the triples do.
- The `?? "x"`, `?? -1` and `?? "unknown"` fallbacks and the `"coreId" in entry` test are not modelled. Every event variant carries `coreId`, so the test always holds. The fallbacks sit in the ENTER and EXIT branches (`ExecutionGraph.tsx:89-123`), and ENTER and EXIT events carry `traceId`, `funcCallId` and `funcName`. RESTART events lack those fields and PANIC events lack `funcName`, but neither branch reads them.
- Every time is an unbounded integer, and zoom and pixel positions are exact reals. JavaScript double rounding, and the `Number(...)` conversions of BigInt values beyond 2^53, are not modelled.
- Hit-map keys are rectangles, not their comma-joined text. Parsing the text back with `split(",").map(Number)` gives the same four numbers.
- The unused `ZOOM_FACTOR = 1.75` constant of `PlaybackFlameGraph.tsx` is left out. The key handler zooms by its own 1.2.
- PlaybackFlameGraph.FlameGraphView.InitialFit requires a positive width. With zero width the source sets zoom to 0. Every later draw and key press then computes `width / zoom` (NaN at width 0, Infinity at a positive width), and `BigInt(Math.floor(...))` (`PlaybackFlameGraph.tsx:105` and `:236`) throws a RangeError. The model does not represent that exception.
- PlaybackFlameGraph.FlameGraphView.HandleKeyDown and PlaybackFlameGraph.FlameGraphView.Draw require a non-negative width, which a layout width always is.
- `CallStackEntry` mirrors the fields the flame graph reads: name, start, end and depth. The call-stack entry type is not declared in the `types.ts` that is part of this model.
- `Processor.Run`'s endless loop and the channel receive in `Process` are not modelled: the packet is a parameter of `Process`. `NewProcessor` and `Processor`'s port name are not modelled either.
- The unsafe native-endian read of the type word is modelled as a little-endian read, assuming a little-endian host.
- The printed messages and the three handlers, which only print, become the `Outcome` that `Process` returns.
- Processing.Process requires a packet of at least 4 bytes. The source's packet is a fixed 68-byte array, so this always holds there.
- `binary.Read` is modelled as the only error paths a byte reader has: nothing left (EOF) or a short read (UnexpectedEOF). Either leaves the record zeroed.
- `streamer.go`, `rSerial.go` and the rest of `main.go` are not part of this model. The serial reader checks and cuts off each message's trailing `\r\n` before queueing 72 bytes, so the two bytes `Process` leaves unread are data, not a stop sequence.
- PlaybackFlameGraph.ToLower lower-cases ASCII letters only, where `toLowerCase()` covers all of Unicode. No non-ASCII key lower-cases to one of the command letters, so the command chosen is the same.
- PlaybackFlameGraph.FlameGraphView.InitialFit fits and draws with one width. The source fits with the container's `clientWidth` and draws with the canvas's `getBoundingClientRect().width`; the model takes these to be equal.

## Findings

| source | as written | input that shows it | evidently intended | confidence | as-written member | corrected member |
|---|---|---|---|---|---|---|
| backend-reader/internal/processing/processing.go:12 | packets are declared as 68 bytes and the decoder reads only the first 66, but the PANIC layout is 68 bytes, so `binary.Read` always fails with "unexpected EOF", which is tolerated, and the handler receives an all-zero entry | any 68-byte packet whose first word is 2 | packets of 72 bytes, as the reader process queues them (backend-reader/cmd/main.go:13), so the 68-byte PANIC layout fits in the 70 bytes read | high, not executed | Processing.PanicLostInRawPackets | Processing.PanicDecodedInReaderPackets |
