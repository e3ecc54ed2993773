# Bus Plot: a verified model of its algorithmic core

Bus Plot draws charts of values that arrive over a serial line. This project models, in
Dafny 4.11, the four parts of it that are algorithms in their own right, and proves what
they promise. Run `dafny verify dfyconfig.toml`.

- **Rectangle packer and font atlas** (`imgui/core/imstb_rectpack.h`,
  `imgui/core/imgui_freetype.cpp`). The skyline is a chain of real linked nodes next to a
  chain of spare nodes (`RectPack`). `Skyline` reads a chain as a height per column,
  `Packing` says what one request may do, `PackingLaws` and `PackingRuns` prove what every
  run keeps, `NodeSupply` when the nodes suffice, `PackSearch` that looking at node starts
  and node ends is a search over all columns. `RectSort`, `PackCalls` and `CallLaws` are
  whole calls with their two sorts. `Texture` and `Atlas` copy glyph bitmaps to the places
  found.
- **Draw list and splitter** (`imgui/core/imgui_draw.cpp`). `DrawTrace` gives command and
  index buffers their meaning: the sequence of vertices fetched, each with the clip
  rectangle and texture in force, and callbacks in between. `DrawSpec` is the renderer
  without batching. `DrawList`, `DrawShapes`, `MergeLaws` and `DrawSplitter` are the
  batching code, `ShapeIndices` has the triangles of the shapes, and `DrawRun` proves that
  every run of calls means the same on both and that, on one channel, no command could be
  spared. `PathArc` is the table walk of arcs.
- **Serial protocol and checksums** (`src/`). `CrcTables`, `CrcLaws`, `Crc8Laws` and `Crc`
  tie the table loops to a shift register over single bits and prove which damage is never
  missed; `CrcOrder` finds the order of that register, and with it the two-bit errors.
  `Protocol` and `ProtocolLaws` are the decoder as a machine over bytes and its laws over
  whole streams; `SerialRpc` is the reader with its buffers, handlers and pending read.
- **Decompressor** (`imgui/core/imgui_draw.cpp`). `Adler` is the blocked checksum,
  `LzTokens` the format, `LzDecoder` its decoder as a function, `Decompressor` the code that
  writes through a shared output position.

What the code changes in place is modelled in place: linked nodes and arrays in classes,
loops with invariants, methods proved against specification functions whose properties are
proved as lemmas.

## Where the code keeps less than its comments say

- The comments at `imgui/core/imstb_rectpack.h:145-146` and in
  `stbrp_setup_allow_out_of_mem` say that quantised widths keep the packer from running out
  of nodes. They do not: the search uses the rounded width, the node list the exact one.
  `NodeSupply.NodeSupplySufficesIff` proves that, on targets of two rows and more, the
  promise holds exactly when there are as many nodes as columns, with either heuristic.
  The font atlas lends `TexWidth - TexGlyphPadding` nodes, which is less when there is padding.
- The waste that the search measures is too large when the first node starts left of the
  block on the floor, because only the other branch trims it (`Skyline.WasteIsExactIff`).
  With bottom-left this never matters, as blocks start on nodes.
- 16-bit indices wrap around silently when vertex offsets are not allowed. A run is then
  drawn right exactly when no triangle names a vertex that is number 65536 or later
  (`DrawSpec.NoOffsetsFitIff`); `DrawSpec.IndexIsCut` is a run that is not.
- Shapes of 65536 vertices or more, but plain lines, add only the low 16 bits of their
  count to the next free index. Each still writes exactly what it reserved, but vertex
  offset and next free index no longer add up afterwards (`DrawSpec.CountedIff`,
  `DrawSpec.LevelIff`), and with vertex offsets this and vertex numbers of 65536 and above
  are all that can go wrong (`DrawSpec.OffsetsFitIff`). `DrawSpec.StepIsLost` is such a run;
  `DrawSpec.SmallFiguresFit` says that there is none with smaller figures.
- The decompressor never looks at the length of its input. The model's memory therefore has
  a byte at every position, and a stream is accepted for what lies there.

## Model

| member | source | states |
|---|---|---|
| Skyline.ProfileIsUnique | imgui/core/imstb_rectpack.h:281-291 | a list of knots from column 0 to the sentinel stands for exactly one height per column |
| Skyline.PeakIsMaximum | imgui/core/imstb_rectpack.h:318-324 | the level of a window is an upper bound of its columns and one of them reaches it |
| Skyline.SweepReachesPeak | imgui/core/imstb_rectpack.h:318-342 | from any knot on, the search loop ends at the maximum of the level it came with and the columns still ahead |
| Skyline.PassStaysExact | imgui/core/imstb_rectpack.h:318-339 | one round of the loop keeps the counted waste equal to the area under the level over the columns passed, whichever branch it takes |
| Skyline.SweepMeasuresArea | imgui/core/imstb_rectpack.h:318-341 | the waste the loop ends with is the area between its level and the skyline, if the first knot was trimmed |
| Skyline.SurveyFindsRest | imgui/core/imstb_rectpack.h:295-343 | the search returns the maximum height over the window; its waste is exactly the area below that height when the first node starts at x0 or is not on the floor |
| Skyline.WasteIsExactIff | imgui/core/imstb_rectpack.h:326-336 | for a first node at kx with height ky, the waste is exact on every skyline if and only if kx = x0 or ky > 0: the second branch never trims the first node |
| Skyline.PassStaysSmall | imgui/core/imstb_rectpack.h:318-339 | every round of the loop keeps the counted waste, up and down, within the area below its level over the columns from the first node on |
| Skyline.WasteIsBounded | imgui/core/imstb_rectpack.h:295-343 | the waste, exact or not, is never larger than the target, so that it fits a C int on targets of less than 2^31 columns times rows |
| Skyline.SpliceKnots | imgui/core/imstb_rectpack.h:479-503 | the splice keeps a prefix, puts in the new knot, drops the covered knots and keeps the rest, the first of it moved to the end of the block if it starts before |
| Skyline.SpliceIsWellFormed | imgui/core/imstb_rectpack.h:473-503 | after a splice the knots are strictly increasing in x from 0 to the sentinel at the width, as the debug check counts on |
| Skyline.SpliceRaisesColumns | imgui/core/imstb_rectpack.h:468-503 | read as a height per column, a splice sets exactly the columns from x to its reach to the new top and leaves all others alone |
| Skyline.ReachIsExact | imgui/core/imstb_rectpack.h:491-503 | the raised columns end exactly at x + width when a knot stands at x or at x + width; otherwise they may only end further right |
| Packing.RoundUpIsLeastMultiple | imgui/core/imstb_rectpack.h:357-360 | the searched width is the least multiple of align that is not below the width |
| PackingLaws.SlideLeft | imgui/core/imstb_rectpack.h:369-393 | from any column a block can slide left to the knot below it without rising |
| PackingLaws.ChosenIsLowest | imgui/core/imstb_rectpack.h:351-451 | with either heuristic no integer column whatever gives the rounded block a lower place than the chosen one |
| PackingLaws.BottomLeftIsOnKnot | imgui/core/imstb_rectpack.h:369-395 | the lowest and then leftmost place over all columns starts at a knot, so looking at the node starts is enough |
| PackingLaws.ChosenIffFits | imgui/core/imstb_rectpack.h:362-367 | a place is chosen if and only if the rounded width fits somewhere below the top |
| PackingLaws.ChosenIsUnique | imgui/core/imstb_rectpack.h:351-451 | with either heuristic there is never more than one place to choose: lowest, then with best-fit least measured waste, then leftmost |
| PackingLaws.ReachedColumnsAreLow | imgui/core/imstb_rectpack.h:491-503 | the columns that the unrounded free-and-stitch loop raises beyond the block all lie below its top |
| PackingLaws.ChosenRests | imgui/core/imstb_rectpack.h:447-466 | a chosen block lies inside the target and rests on the highest column below its rounded width |
| PackingLaws.DroppingKeepsStack | imgui/core/imstb_rectpack.h:468-503 | a block dropped on the skyline overlaps none of the boxes below it, and all of them stay below the raised skyline |
| PackingLaws.PlaceConservesNodes | imgui/core/imstb_rectpack.h:469-497 | one placement takes one spare node and gives back one for every node it covers |
| PackingLaws.StepKeepsInv | imgui/core/imstb_rectpack.h:453-530 | every placement or refusal keeps the invariant: strictly increasing knots, conserved nodes, boxes inside, pairwise disjoint and below the skyline |
| PackingLaws.QuantumSpansWidth | imgui/core/imstb_rectpack.h:242-260 | the quantised alignment is the least at which the nodes times the alignment span the width |
| PackingLaws.NothingIsRounded | imgui/core/imstb_rectpack.h:242-260 | where running out of nodes is allowed, widths are not rounded |
| PackingLaws.AligningKeepsInv | imgui/core/imstb_rectpack.h:242-260 | changing the alignment between calls keeps the invariant |
| PackingRuns.RunKeepsInv | imgui/core/imstb_rectpack.h:453-530 | the invariant holds after every run of requests, of any length |
| PackingRuns.RunOnlyAdds | imgui/core/imstb_rectpack.h:453-530 | a run never moves or forgets a placed box, nor changes target, alignment or heuristic |
| PackingRuns.RunNeverOverlaps | imgui/core/imstb_rectpack.h:453-530 | any two rectangles placed anywhere in a run are disjoint and inside the target |
| PackingRuns.ChosenReachIsExact | imgui/core/imstb_rectpack.h:491-503 | with bottom-left, or without rounding, a placement raises exactly the columns of its rectangle |
| PackingRuns.PlacementConservesArea | imgui/core/imstb_rectpack.h:468-503 | with either heuristic and any rounding, each placement raises the sum of the columns by width times height plus an area lost to it that is never negative: what it shuts in, and what is raised beyond its right edge; with bottom-left, or without rounding, all of it lies below the rectangle; with both it is the waste the search measured |
| PackingRuns.RunConservesArea | imgui/core/imstb_rectpack.h:453-530 | over a whole run, with either heuristic and any rounding, the skyline encloses exactly what was packed and what was lost |
| PackingRuns.RunPacksAtMostTarget | imgui/core/imstb_rectpack.h:453-530 | with either heuristic and any rounding, what a run packs never exceeds the target with what lay there before |
| PackingRuns.RefusedIff | imgui/core/imstb_rectpack.h:459-466 | a rectangle is refused if and only if no spare node is left or its rounded width fits nowhere below the top |
| NodeSupply.KnotsSpread | imgui/core/imstb_rectpack.h:281-291 | knot i stands at column i or further right, so width + 1 knots are the most there can be |
| PackingLaws.StartKeepsInv | imgui/core/imstb_rectpack.h:262-292 | a fresh context meets the invariant, with either memory setting |
| NodeSupply.EnoughNodesNeverStarve | imgui/core/imstb_rectpack.h:141-149 | with a node for every column no request of any run is ever refused for lack of a node |
| NodeSupply.CombStarves | imgui/core/imstb_rectpack.h:468-503 | with fewer nodes than columns there is, for either heuristic, a run of one-column requests that uses them up while a rectangle still fits, in one row if the rounded width still fits beside them |
| NodeSupply.NodesAreBoxes | imgui/core/imstb_rectpack.h:463-473 | every node that a run uses up is a box placed, and every box takes at least one unit of area |
| NodeSupply.OneRowFits | imgui/core/imstb_rectpack.h:357-393 | in a target of one row a rectangle fits only where its rounded width of columns is still free |
| NodeSupply.NodeSupplySufficesIff | imgui/core/imstb_rectpack.h:230-260 | the promise that quantised widths make the nodes always suffice holds if and only if there are as many nodes as columns, or no row, or one row and nodes plus alignment exceed the width; with either heuristic and either memory setting |
| NodeSupply.CombFitsBest | imgui/core/imstb_rectpack.h:369-451 | on top of such a comb best-fit also takes the next place on the floor: nothing is wasted there, and everything left of it is higher |
| PackSearch.LowestStartIsLowest | imgui/core/imstb_rectpack.h:371-393 | the lowest node start, seen first from the left, is the bottom-left place over all columns |
| PackSearch.BestSeenIsBest | imgui/core/imstb_rectpack.h:414-445 | the best of all node starts and all right-aligned starts is the best-fit choice |
| PackSearch.LookAtStart | imgui/core/imstb_rectpack.h:371-393 | looking at one more node start keeps the running best the best of all seen |
| PackSearch.LookAtEnd | imgui/core/imstb_rectpack.h:421-444 | looking at one more right-aligned start, with its three-way comparison, keeps the running best the best of all seen |
| PackSearch.SearchAnswers | imgui/core/imstb_rectpack.h:447-450 | after both loops the running best is the chosen place, or nothing can be chosen |
| RectPack.LinkUp | imgui/core/imstb_rectpack.h:269-271 | the lent nodes become one chain in order |
| RectPack.FloorNodes | imgui/core/imstb_rectpack.h:281-291 | the two extra nodes are the floor at column 0 and the sentinel at the width |
| RectPack.Context.InitTarget | imgui/core/imstb_rectpack.h:262-292 | a new context has an empty floor, all lent nodes spare, bottom-left heuristic and quantised widths |
| RectPack.Context.SetupHeuristic | imgui/core/imstb_rectpack.h:230-240 | changes the heuristic and nothing else |
| RectPack.Context.SetupAllowOutOfMem | imgui/core/imstb_rectpack.h:242-260 | sets the alignment to 1 or to width over nodes rounded up, and nothing else |
| RectPack.Context.FindMinY | imgui/core/imstb_rectpack.h:295-343 | on the linked nodes: returns the resting height and the waste of the survey from a node that covers x0 |
| RectPack.Context.ScanStarts | imgui/core/imstb_rectpack.h:369-393 | walking the linked list: after the first loop every node start that fits has been looked at, and the link kept is that of the running best |
| RectPack.Context.Advance | imgui/core/imstb_rectpack.h:425-430 | moves on to the node that covers the right-aligned position |
| RectPack.Context.FirstEnd | imgui/core/imstb_rectpack.h:415-420 | finds the first node whose column leaves room for the width on its left |
| RectPack.Context.TryEnd | imgui/core/imstb_rectpack.h:422-442 | one right-aligned position looked at, the running best and its link updated together |
| RectPack.Context.ScanEnds | imgui/core/imstb_rectpack.h:414-445 | after the second loop every right-aligned position has been looked at too |
| RectPack.Context.FindBestPos | imgui/core/imstb_rectpack.h:351-451 | returns the link, column and height of the chosen place, and none or one too high exactly when nothing can be chosen |
| RectPack.Context.TakeSpare | imgui/core/imstb_rectpack.h:468-473 | takes the first spare node and writes its column and top |
| RectPack.Context.CutIn | imgui/core/imstb_rectpack.h:479-487 | hangs the node in behind or in place of the found node; the lists in front and behind are whole |
| RectPack.Context.Release | imgui/core/imstb_rectpack.h:492-496 | moves the current node to the spare list and goes on to the next |
| RectPack.Context.ReleaseCovered | imgui/core/imstb_rectpack.h:489-497 | frees exactly the nodes the block covers, in place, and returns the first one left |
| RectPack.Context.Stitch | imgui/core/imstb_rectpack.h:499-503 | joins front, new node and rest into one chain and moves the first of the rest to the end of the block |
| RectPack.Context.SpliceIn | imgui/core/imstb_rectpack.h:468-503 | the active chain after hanging in, freeing and stitching reads as the splice of the old one, and no node is lost |
| RectPack.Context.PackRectangle | imgui/core/imstb_rectpack.h:453-530 | on real linked nodes: one step of the packer, with the answer and new state that the choice prescribes; active and spare list stay acyclic, disjoint and complete |
| RectSort.BothAreOrders | imgui/core/imstb_rectpack.h:532-550 | both comparators are total preorders |
| RectSort.OrdersAre | imgui/core/imstb_rectpack.h:532-550 | the first puts the higher rectangle in front, the wider of equally high ones; the second the one that came first |
| RectSort.Sort | imgui/core/imstb_rectpack.h:567-568 | sorts in place by a comparator; the result is a rearrangement |
| PackCalls.AscendingNumbers | imgui/core/imstb_rectpack.h:584-585 | n distinct numbers below n in ascending order are 0 to n - 1 |
| PackCalls.Unsorted | imgui/core/imstb_rectpack.h:584-585 | sorting by the original numbers brings every rectangle back to its place |
| PackCalls.NumberRects | imgui/core/imstb_rectpack.h:562-565 | every rectangle notes its own index |
| PackCalls.ServeRects | imgui/core/imstb_rectpack.h:570-582 | the rectangles are served one after the other, each step from the state the one before left |
| PackCalls.ServeOne | imgui/core/imstb_rectpack.h:571-581 | an empty rectangle gets (0, 0) without a step, a placed one its place, a refused one the marker |
| PackCalls.SetFlags | imgui/core/imstb_rectpack.h:587-595 | flags are set by the marker alone; the result is 1 exactly when no flag is 0 |
| PackCalls.PackRects | imgui/core/imstb_rectpack.h:558-596 | a whole call: every rectangle stays at its index with id, width and height, is served in height order, and its flag says whether it has a place |
| PackCalls.PermutationCovers | imgui/core/imstb_rectpack.h:567-582 | every rectangle of the array is served |
| CallLaws.HighestFirst | imgui/core/imstb_rectpack.h:567-582 | in every call the rectangles are served from the highest to the lowest, equally high ones from the widest to the narrowest |
| CallLaws.CallOnlyAdds | imgui/core/imstb_rectpack.h:558-596 | a call keeps the invariant and all boxes of earlier calls |
| CallLaws.ServedBoxIsPlaced | imgui/core/imstb_rectpack.h:574-577 | a non-empty rectangle with a place is among the placed boxes |
| CallLaws.CallNeverOverlaps | imgui/core/imstb_rectpack.h:558-596 | a packed rectangle of a call is inside the target, apart from every box placed by earlier calls and from every other packed rectangle of the call |
| CallLaws.FlagMeansPlaced | imgui/core/imstb_rectpack.h:587-592 | the flag is set if and only if the rectangle is empty or was really placed: no placed rectangle looks like the 0xffff marker |
| CallLaws.CallSettles | imgui/core/imstb_rectpack.h:558-596 | after a call every rectangle is empty at (0, 0), placed, or refused with the marker |
| Texture.FlatIsInjective | imgui/core/imgui_freetype.cpp:649-664 | no two (row, column) pairs of the texture share a texel |
| Texture.TexelIsAlpha | imgui/core/imgui_freetype.cpp:649-664 | what is copied into an alpha texture is the highest byte of the source pixel, into a colour texture all of it |
| Texture.BlitRow | imgui/core/imgui_freetype.cpp:655-657 | one row of a glyph is copied, nothing else changes |
| Texture.Blit | imgui/core/imgui_freetype.cpp:648-665 | the copy loops write every texel of the glyph at its place, alpha or all four bytes, and nothing else |
| Atlas.CallExtendsLayout | imgui/core/imgui_freetype.cpp:582-596 | what one more packing call packs is apart from everything packed by all calls before |
| Atlas.CallSizes | imgui/core/imgui_freetype.cpp:589-595 | a call keeps the number of rectangles, the boxes placed before it and the size of the target |
| Atlas.BlitKeepsDrawn | imgui/core/imgui_freetype.cpp:651-665 | copying one glyph leaves every other glyph readable |
| Atlas.BlitKeepsBlank | imgui/core/imgui_freetype.cpp:651-665 | copying a glyph leaves rectangles apart from it untouched |
| Atlas.PackBatch | imgui/core/imgui_freetype.cpp:589-596 | packs one array and raises the texture height to the lowest edge of what was packed |
| Atlas.FontAtlas.PackCustomRects | imgui/core/imgui_draw.cpp:2609-2634 | packs the custom rectangles, notes their places and raises the texture height |
| Atlas.FontAtlas.NotePlaces | imgui/core/imgui_draw.cpp:2626-2633 | every packed custom rectangle learns its place, the others keep theirs |
| Atlas.SizeAsked | imgui/core/imgui_freetype.cpp:556-557 | a missing glyph asks for an empty rectangle, a loaded one for its size and padding exactly as long as 16 bits hold them |
| Atlas.FontAtlas.PackSource | imgui/core/imgui_freetype.cpp:528-559 | asks for every glyph a rectangle of that size and packs them |
| Atlas.PackSources | imgui/core/imgui_freetype.cpp:582-596 | packs all sources into the one target; all rectangles of all calls are laid out apart |
| Atlas.UpperPowerIsLeast | imgui/core/imgui_freetype.cpp:598-599 | the rounded-up texture height is the least power of two that is not below the lowest edge |
| Atlas.EdgeIsReached | imgui/core/imgui_freetype.cpp:592-595 | the lowest edge is that of some packed rectangle, or none was lower than the height before |
| Atlas.JobFits | imgui/core/imgui_freetype.cpp:642-646 | a glyph that has a place and passes the size checks lies inside the texture with its padding |
| Atlas.DrawNext | imgui/core/imgui_freetype.cpp:634-665 | drawing one more glyph keeps all earlier glyphs readable and all custom rectangles blank |
| Atlas.DrawJobs | imgui/core/imgui_freetype.cpp:613-665 | copies all glyphs; stops exactly when a glyph has no place or outgrew its rectangle |
| Atlas.PackAll | imgui/core/imgui_freetype.cpp:572-596 | custom rectangles and all sources are packed into one target of 32768 rows, with width less padding nodes |
| Atlas.CustomsAreApart | imgui/core/imgui_draw.cpp:2609-2634 | the places that the custom rectangles note are inside the texture and apart from each other |
| Atlas.CustomsAreBlank | imgui/core/imgui_freetype.cpp:634-665 | and nothing is drawn there |
| Atlas.LoadedGlyphs | imgui/core/imgui_freetype.cpp:634-643 | the code stops at a loaded glyph if and only if it has no place, or 16 bits do not hold its width or height with padding and do not cut both of them to 0; one they cut to 0 is skipped, and so is a missing one |
| Atlas.Build | imgui/core/imgui_freetype.cpp:572-686 | the atlas holds every loaded glyph: read back at its place it is the bitmap; custom rectangles are blank; the code runs through if and only if no assertion stops it; the texture is as high as the lowest edge asks |
| DrawTrace.OffsetsArePrefixSums | imgui/core/imgui.h:2340-2350 | the index offset of every command is the sum of the counts before it |
| DrawTrace.TraceGrow | imgui/core/imgui_draw.cpp:628-643 | indices added behind the last command are fetched under its header, and nothing else changes |
| DrawTrace.TraceRewritten | imgui/core/imgui_draw.cpp:672-685 | writing the reserved indices changes the fetches of those indices only |
| DrawTrace.TraceMoved | imgui/core/imgui_draw.cpp:1748-1752 | commands and indices moved behind others, with offsets renumbered, fetch what they fetched |
| DrawTrace.TraceFused | imgui/core/imgui_draw.cpp:1736-1742 | two neighbouring commands with one header and no callback can be drawn as one |
| DrawTrace.BatchedAdd | imgui/core/imgui_draw.cpp:457-467 | a new command behind a used one with another header, or behind a callback, leaves no command that could be spared |
| DrawTrace.BatchedReplace | imgui/core/imgui_draw.cpp:513-521 | neither does changing the last command, if it then differs from the one before |
| DrawList.HeaderBatched | imgui/core/imgui_draw.cpp:502-544 | after a change of clip rectangle or texture no command could be spared: none but the last is unused and no two neighbours could be one |
| DrawList.OffsetBatched | imgui/core/imgui_draw.cpp:546-559 | the same after a change of vertex offset, though the code does not look for a command to merge with |
| DrawList.CallbackBatched | imgui/core/imgui_draw.cpp:480-493 | the same after a callback |
| DrawSpec.Clipped | imgui/core/imgui_draw.cpp:572-589 | the clip rectangle that comes into force is well formed: its maximum is not below its minimum |
| DrawSpec.ClippedIsWindow | imgui/core/imgui_draw.cpp:572-589 | a point is inside the clip rectangle that comes into force if and only if it is inside the given one and, if asked to intersect, inside the current one |
| DrawSpec.PopUndoesPush | imgui/core/imgui_draw.cpp:596-615 | after any run, a push and a pop bring back the texture, and the clip rectangle or, under the first one, the full screen |
| DrawSpec.JoinedShape | imgui/core/imgui_draw.cpp:1711-1780 | joining channels loses nothing: equal joins of equally long channels come from equal channels |
| DrawSpec.PlaceIsRight | imgui/core/imgui_draw.cpp:620-643 | a vertex number is looked up where its vertex was written if and only if the figure starts a new vertex offset, or offset and next free index are level, and the index stays below 65536 |
| DrawSpec.FigureIsBelow | imgui/core/imgui_draw.cpp:709-1044 | every triangle of every figure, shape or line lies over the vertices of that figure |
| DrawSpec.PlayAgrees | imgui/core/imgui_draw.cpp:620-654 | one call with 16-bit indices does what it does with unbounded ones if and only if it fits: its figure starts a new vertex offset or finds offset and next free index level, and its indices stay below 65536 |
| DrawSpec.RunsAgree | imgui/core/imgui_draw.cpp:620-654 | a whole run with 16-bit indices is drawn right if and only if each of its calls fits |
| DrawSpec.LevelIff | imgui/core/imgui_draw.cpp:546-643 | a call leaves vertex offset and next free index adding up to the vertices written if and only if they did, or it starts a new offset, and it counts all its vertices |
| DrawSpec.CountedIff | imgui/core/imgui_draw.cpp:709-1044 | a shape fails to count all its vertices if and only if it has 65536 or more, as the count is cut to 16 bits; a primitive and a plain line never do |
| DrawSpec.AlwaysLevel | imgui/core/imgui_draw.cpp:620-643 | while no shape loses count, vertex offset and next free index add up at every call boundary of every run |
| DrawSpec.OffsetsFitIff | imgui/core/imgui_draw.cpp:622-627 | with vertex offsets a run is drawn right if and only if every figure names its vertices by numbers below 65536 and none is drawn, without a new offset, where offset and next free index have lost step |
| DrawSpec.CountedOffsetsFitIff | imgui/core/imgui_draw.cpp:622-627 | with vertex offsets and no shape that loses count, a run is drawn right if and only if every figure names its vertices by numbers below 65536 |
| DrawSpec.SmallFiguresFit | imgui/core/imgui_draw.cpp:622-627 | with vertex offsets and figures below 65536 vertices, every run of any length is drawn right |
| DrawSpec.NextIndexFits | imgui/core/imgui_draw.cpp:622-627 | nor does the next free index ever need more than 16 bits in such a run |
| DrawSpec.NoOffsetsFitIff | imgui/core/imgui_draw.cpp:620-643 | without vertex offsets a run is drawn right if and only if no triangle names a vertex that is number 65536 or later in the whole list |
| DrawSpec.IndexIsCut | imgui/core/imgui_draw.cpp:620-643 | a run without vertex offsets that is drawn wrong |
| DrawSpec.StepIsLost | imgui/core/imgui_draw.cpp:1024-1043 | a run with vertex offsets that is drawn wrong though every vertex number is below 65536: a triangle after a polygon of 65536 corners |
| DrawList.DrawList.constructor | imgui/core/imgui_draw.cpp:408-430 | a fresh list draws nothing and has one empty command with the header in force |
| DrawList.DrawList.AddDrawCmd | imgui/core/imgui_draw.cpp:457-467 | a new command draws nothing yet and has the header in force |
| DrawList.DrawList.PopUnusedDrawCmd | imgui/core/imgui_draw.cpp:471-478 | dropping an unused last command changes nothing that is drawn |
| DrawList.DrawList.AddCallback | imgui/core/imgui_draw.cpp:480-493 | the callback runs behind all that was drawn, and an ordinary command follows it |
| DrawList.DrawList.TryMerge | imgui/core/imgui_draw.cpp:502-559 | the last command goes if and only if it is unused and the one before it has the header in force and is no callback; what is drawn stays |
| DrawList.DrawList.OnChangedClipRect | imgui/core/imgui_draw.cpp:502-522 | starts or merges a command so that the last one has the new clip rectangle; what is drawn stays |
| DrawList.DrawList.OnChangedTextureID | imgui/core/imgui_draw.cpp:524-544 | the same for the texture |
| DrawList.DrawList.OnChangedVtxOffset | imgui/core/imgui_draw.cpp:546-559 | the same for the vertex offset, with indices starting again from 0 |
| DrawList.DrawList.PushClipRect | imgui/core/imgui_draw.cpp:572-589 | the clip rectangle in force becomes the given one, cut down to the current one if asked, and ordered |
| DrawList.DrawList.PopClipRect | imgui/core/imgui_draw.cpp:596-601 | the clip rectangle below comes into force, or the full screen |
| DrawList.DrawList.PushTextureID | imgui/core/imgui_draw.cpp:603-608 | the texture comes into force; nothing drawn changes |
| DrawList.DrawList.PopTextureID | imgui/core/imgui_draw.cpp:610-615 | the texture below comes into force, or none |
| DrawList.DrawList.PrimReserve | imgui/core/imgui_draw.cpp:620-643 | for every reservation on every list: grows the buffers and the last command by it, starting a new vertex offset where the indices would run out of 16 bits |
| DrawList.DrawList.PrimUnreserve | imgui/core/imgui_draw.cpp:645-654 | gives back the end of a reservation: what was drawn is what is still drawn plus the fetches given back |
| DrawList.DrawList.PrimWriteVtx | imgui/core/imgui.h:2553 | writes one vertex at the write position and counts it |
| DrawList.DrawList.PrimWriteIdx | imgui/core/imgui.h:2554 | writes one index at the write position |
| DrawList.FigureBatched | imgui/core/imgui_draw.cpp:546-643 | after any figure, with or without a new vertex offset, no command could be spared |
| DrawList.DrawList.AddPrim | imgui/core/imgui_draw.cpp:3579-3705 | reserving, writing all indices and vertices and giving back the rest of the reservation, as text does, draws exactly the primitive behind what was drawn |
| DrawShapes.PrimRectUV | imgui/core/imgui_draw.cpp:672-685 | writes exactly the six indices and four vertices reserved |
| DrawShapes.CornersGoAround | imgui/core/imgui_draw.cpp:672-685 | the four vertices go around the rectangle, each with the texture coordinates of its own sides |
| ShapeIndices.RectIsCovered | imgui/core/imgui_draw.cpp:678-679 | the two triangles cover the rectangle: each side belongs to exactly one of them |
| DrawShapes.VisibleIffAlpha | imgui/core/imgui_draw.cpp:1394 | a colour is drawn if and only if its alpha byte is not 0 |
| DrawShapes.AddRectUV | imgui/core/imgui_draw.cpp:656-685 | a rectangle draws two triangles over its own four vertices |
| DrawShapes.AddRectFilled | imgui/core/imgui_draw.cpp:1392-1406 | an invisible rectangle draws nothing, a visible one two triangles |
| DrawShapes.AddImage | imgui/core/imgui_draw.cpp:1602-1616 | an image draws two triangles with its own texture and puts the texture in force back, whether or not it was the same |
| ShapeIndices.PolyFits | imgui/core/imgui_draw.cpp:965-1044 | every index of a filled convex polygon lies inside its own vertices, with and without fringe |
| ShapeIndices.FanIsCovering | imgui/core/imgui_draw.cpp:984-988 | the fan covers the polygon: each side belongs to exactly one triangle, each line between to exactly the two beside it |
| ShapeIndices.FringeIsCovering | imgui/core/imgui_draw.cpp:1003-1022 | the fringe covers, for each edge of the polygon, the piece between inner and outer vertices: each of its four sides belongs to exactly one of two triangles |
| DrawShapes.WriteFan | imgui/core/imgui_draw.cpp:984-988 | the fan is written triangle by triangle |
| DrawShapes.WriteFringe | imgui/core/imgui_draw.cpp:1003-1023 | the fringe is written edge by edge, around the end |
| DrawShapes.AddConvexPolyFilled | imgui/core/imgui_draw.cpp:965-1044 | for any number of points: writes exactly the counts it reserved and draws the fan and the fringe behind what was drawn; vertex offset and next free index stay level if and only if it has less than 65536 vertices; below three points it does nothing |
| ShapeIndices.LineFits | imgui/core/imgui_draw.cpp:709-963 | every index of a polyline lies inside its own vertices, in all four styles, open or closed |
| ShapeIndices.LineIsCovered | imgui/core/imgui_draw.cpp:785-963 | in all four styles a line is covered between every two neighbouring points, a closed one also between the last and the first, piece by piece, and nowhere else: each of the four sides of a piece belongs to exactly one of its two triangles |
| ShapeIndices.EveryVertexIsUsed | imgui/core/imgui_draw.cpp:732-963 | no vertex that a line reserves is left out of its triangles |
| ShapeIndices.StyleIs | imgui/core/imgui_draw.cpp:717-739 | a line is drawn along the texture if and only if both flags are set, the fringe is 1 wide, and it is thinner than 1 or a whole number up to 62 thick; with a solid core if and only if it is another anti-aliased line that is thicker than the fringe |
| DrawShapes.WriteSegments | imgui/core/imgui_draw.cpp:785-823 | the segments of a line are written one by one, the last one of a closed line back to the first vertices |
| DrawShapes.AddPolyline | imgui/core/imgui_draw.cpp:709-963 | for any number of points, flags and thickness: writes exactly the counts it reserved and draws its segments behind what was drawn; vertex offset and next free index stay level if and only if it is not anti-aliased or has less than 65536 vertices; below two points it does nothing |
| MergeLaws.RenumberMoves | imgui/core/imgui_draw.cpp:1748-1752 | renumbering contiguous commands moves all their index offsets by one distance and changes nothing else |
| MergeLaws.AppendChannel | imgui/core/imgui_draw.cpp:1744-1752 | a channel renumbered behind others draws what it drew, after them |
| MergeLaws.FuseChannel | imgui/core/imgui_draw.cpp:1733-1752 | so it does when its first command is fused with the last one before it |
| MergeLaws.FuseKeepsTight | imgui/core/imgui_draw.cpp:1736-1742 | fusing two commands that could be one leaves no command to spare where there was none |
| DrawSplitter.MergeByAppending | imgui/core/imgui_draw.cpp:1727-1752 | one more channel dealt with by appending |
| DrawSplitter.MergeByFusing | imgui/core/imgui_draw.cpp:1733-1752 | one more channel dealt with by fusing, also when the command fused with belongs to an earlier channel than the one before |
| DrawSplitter.Splitter.Split | imgui/core/imgui_draw.cpp:1681-1709 | the current channel stays in the draw list, all new ones are empty |
| DrawSplitter.Splitter.SetCurrentChannel | imgui/core/imgui_draw.cpp:1782-1804 | every channel keeps its meaning through the swap, and the last command has the header in force |
| DrawSplitter.Splitter.MergeChannel | imgui/core/imgui_draw.cpp:1725-1753 | one round of the merge loop: the channels so far draw, in order, what they drew, with no command to spare if they had none |
| DrawSplitter.Splitter.MergeAll | imgui/core/imgui_draw.cpp:1720-1753 | after the loop all channels together draw, in channel order, what each drew |
| DrawSplitter.Splitter.Flatten | imgui/core/imgui_draw.cpp:1754-1766 | all commands and indices are copied behind those of the draw list |
| DrawSplitter.Splitter.Gather | imgui/core/imgui_draw.cpp:1717-1718 | channel 0 comes back into the draw list, without an unused last command |
| DrawSplitter.Splitter.Finish | imgui/core/imgui_draw.cpp:1768-1777 | an ordinary last command with the header in force, and nothing else that is drawn |
| DrawSplitter.Splitter.Merge | imgui/core/imgui_draw.cpp:1711-1780 | the draw list draws the concatenation of all channels in channel order, with all index offsets right and an ordinary last command with the header in force; if no channel had a command to spare, but for an unused last one, neither has the list |
| DrawRun.CarryFigure | imgui/core/imgui_draw.cpp:620-1044 | primitives, filled polygons and polylines, on any list, draw what the unbatched renderer draws |
| DrawRun.Carry | imgui/core/imgui_draw.cpp:457-1804 | every call, on the list and the splitter, does what the unbatched renderer does |
| DrawRun.Render | imgui/core/imgui_draw.cpp:408-1804 | for every run of clip, texture, callback, primitive, polygon, polyline, split, channel and merge calls the buffers mean what the unbatched renderer says; offsets are prefix sums; the last command is no callback and has the header in force; without channels no command could be spared |
| CrcTables.WideTableIsRegister | src/crc.hpp:30-63 | every entry of the 16-bit table is eight steps of the shift register x^16 + x^12 + x^5 + 1, low bit first (section C.2 of RFC 1662) |
| CrcTables.NarrowTableIsRegister | src/crc.hpp:12-29 | every entry of the 8-bit table is eight steps of the register x^8 + x^5 + x^4 + 1 |
| CrcLaws.TableStepIsRegister | src/crc.cpp:50-51 | one table step is eight single-bit steps of the register |
| CrcLaws.RegisterIsLinear | src/crc.cpp:48-53 | the 16-bit checksum is linear over xor in message and start value together, at every length |
| Crc8Laws.RegisterIsLinear8 | src/crc.cpp:6-9 | so is the 8-bit checksum |
| Crc8Laws.TableStepIsRegister8 | src/crc.cpp:7-8 | one 8-bit table step is eight single-bit steps |
| CrcLaws.RegisterIsOneToOne | src/crc.cpp:48-53 | different states stay different through any message |
| CrcLaws.TailClears | src/crc.cpp:61-67 | two more bytes clear the register if and only if they are the checksum, low byte first |
| CrcLaws.CatchUp | src/crc.cpp:48-53 | two states that n bits, up to 16, can bring together differ in their low n bits at most |
| CrcLaws.BurstChangesRegister | src/crc.cpp:48-53 | a change confined to sixteen consecutive bits, anywhere, changes the checksum |
| CrcLaws.RegisterParity | src/crc.cpp:48-53 | the parity of the state is the parity of the start value and all bits fed |
| CrcLaws.OddFlipsChangeRegister | src/crc.cpp:48-53 | an odd number of flipped bits changes the checksum |
| Crc.IntactIffTail | src/crc.cpp:61-67 | running the checksum over a frame with its tail gives 0 if and only if the tail is the checksum of the rest |
| Crc.Intact8IffTail | src/crc.cpp:18-24 | the same for the 8-bit checksum |
| Crc.GetCRC16Checksum | src/crc.cpp:44-54 | the table loop computes the bit-serial register over any message and start value; without a message it answers 0xffff |
| Crc.VerifyCRC16Checksum | src/crc.cpp:61-67 | accepts exactly the frames over which the register ends at 0; never without a message or below three bytes |
| Crc.AppendCRC16Checksum | src/crc.cpp:74-81 | makes a frame intact by its last two bytes alone, and does nothing without a message or below three bytes |
| Crc.GetCRC8Checksum | src/crc.cpp:3-11 | the 8-bit table loop computes the bit-serial register |
| Crc.CheckValues | src/crc.cpp:3-54 | over the digits 1 to 9 the 16-bit checksum is 0x6f91 and the 8-bit one 0x0b |
| Crc.VerifyCRC8Checksum | src/crc.cpp:18-24 | accepts exactly the frames over which the 8-bit register ends at 0 |
| Crc.AppendCRC8Checksum | src/crc.cpp:31-37 | makes a frame intact by its last byte alone |
| Crc.BurstIsCaught | src/crc.cpp:61-67 | no change within sixteen consecutive bits, tail included, leaves an intact frame intact |
| Crc.AdjacentBytesAreCaught | src/crc.cpp:61-67 | no change of two adjacent bytes does |
| Crc.OddFlipsAreCaught | src/crc.cpp:61-67 | no odd number of flipped bits does |
| Crc.AlwaysCaughtIff | src/crc.cpp:61-67 | bursts of up to n bits are always caught if and only if n <= 16 |
| CrcOrder.PowersMultiply | src/crc.hpp:30-63 | shifting m + n times is multiplying what m and n shifts make of the top bit, as polynomials modulo the generator |
| CrcOrder.PeriodIff | src/crc.hpp:30-63 | a lone bit in the register comes back to where it was after n zero bits if and only if n is a multiple of 32767 |
| CrcOrder.TwoFlipsMissedIff | src/crc.cpp:48-53 | flipping two bits leaves the checksum as it was if and only if their distance is a multiple of 32767 |
| CrcOrder.TwoFlips | src/crc.cpp:48-53 | two messages that differ in two bits are one message and the same with two bits flipped |
| Crc.TwoFlipsPassIff | src/crc.cpp:61-67 | an intact frame with two flipped bits is intact if and only if their distance is a multiple of 32767 |
| Crc.TwoFlipsAreCaught | src/crc.cpp:61-67 | no two flipped bits leave an intact frame of up to 4095 bytes intact |
| Crc.PairsCaughtIff | src/crc.cpp:61-67 | two flipped bits are always caught in frames of n bytes if and only if n <= 4095 |
| Protocol.LengthByte | src/serial_rpc.hpp:72-73 | the length byte of a body below 256 bytes gives the length back |
| Protocol.SampleFrame | src/serial_rpc.hpp:68-79 | a request to remove variable 0x1234, byte by byte on the wire |
| Protocol.DecodeJoin | src/serial_rpc.cpp:63-91 | decoding a stream is decoding its parts one after the other |
| Protocol.ChunkingDoesNotMatter | src/serial_rpc.hpp:113-119 | how a stream is cut into chunks changes neither what is delivered nor where the decoder stands |
| Protocol.CollectHeader | src/serial_rpc.cpp:63-79 | three bytes after the start byte decide: a registered command with the registered length awaits its body, anything else is ignored |
| Protocol.CollectBody | src/serial_rpc.hpp:93-111 | body and tail are collected to their length and delivered exactly when the frame is intact |
| ProtocolLaws.StreamDelivers | src/serial_rpc.hpp:44-111 | any stream of frames of registered types, noise without start bytes and damaged frames delivers exactly the requests of the undamaged frames, in order |
| ProtocolLaws.DamageCostsOneFrame | src/serial_rpc.hpp:94-111 | damage to body or tail within sixteen consecutive bits, or of one, two, three or any odd number of bits, costs that frame and no other |
| ProtocolLaws.BackInStep | src/serial_rpc.cpp:63-91 | from any reachable state, 3 + largest body + 2 bytes without start byte bring the decoder back to waiting for one |
| ProtocolLaws.FramesAfterPause | src/serial_rpc.cpp:63-91 | after any bytes at all and such a pause, every frame sent is delivered |
| ProtocolLaws.FailureCostsOneFrame | src/serial_rpc.cpp:63-91 | a read that fails inside a frame costs that frame only, a read that fails between frames ends everything |
| ProtocolLaws.IntactIsEncoded | src/serial_rpc.hpp:100-109 | an intact frame is the encoding of the request it delivers |
| ProtocolLaws.OnlyRegistered | src/serial_rpc.hpp:44-66 | from any reachable state and on any bytes, every request delivered is of a registered command with the size registered for it |
| ProtocolLaws.NothingMadeUp | src/serial_rpc.hpp:44-111 | on any byte stream, the delivered requests are of registered commands and sizes, and are contiguous, disjoint slices of the stream in order, each equal to its encoding |
| SerialRpc.MakeRequest | src/serial_rpc.hpp:68-79 | fills in start byte, length, command and body and appends the checksum: the encoding of the request |
| SerialRpc.SerialRPC.RegisterMessage | src/serial_rpc.hpp:44-66 | the first registration of a command stays; the result says whether this was the first |
| SerialRpc.SerialRPC.ReadSOFHandler | src/serial_rpc.cpp:81-91 | a start byte arms the header read, another byte the start byte read; an error arms nothing |
| SerialRpc.SerialRPC.ReadHeaderHandler | src/serial_rpc.cpp:63-79 | as the decoder decides after a header; an error goes back to the start byte |
| SerialRpc.SerialRPC.HandleRequest | src/serial_rpc.hpp:46-63 | a wrong length goes back to the start byte, the right one arms the body read |
| SerialRpc.SerialRPC.ReadBodyHandler | src/serial_rpc.hpp:93-111 | calls the registered function exactly when the frame is intact, and always goes back to the start byte |
| SerialRpc.SerialRPC.Arrive | src/serial_rpc.hpp:113-119 | one byte for the pending read: buffers and pending read move as the decoder does |
| SerialRpc.SerialRPC.Break | src/serial_rpc.cpp:63-91 | a failing read ends everything while waiting for a start byte, and only the current frame otherwise |
| SerialRpc.SerialRPC.ArriveChunk | src/serial_rpc.hpp:113-119 | a chunk of any size delivers what the decoder delivers |
| SerialRpc.FirstCounts | src/serial_rpc.hpp:44-66 | of several registrations of one command the first counts |
| SerialRpc.Listen | test/rpc_test.cpp:33-44 | register messages, start, and let a stream come in by chunks of any sizes: what the decoder makes of the whole stream is delivered, all of it registered; of frames, noise and damaged frames exactly the requests of the undamaged ones, in order |
| Adler.ReduceLater | imgui/core/imgui_draw.cpp:4024 | reducing once after a block gives what reducing after every byte gives |
| Adler.ChecksumIs | imgui/core/imgui_draw.cpp:4000-4029 | the checksum in one formula: one plus all bytes, modulo 65521, in the low half, and the sum of all these sums in the high half |
| Adler.ChecksumGoesOn | imgui/core/imgui_draw.cpp:4000-4029 | a checksum can be taken up where it was left: that of two buffers together is that of the second, started with that of the first |
| Adler.CeilingIsReached | imgui/core/imgui_draw.cpp:4008-4022 | bytes of all ones from the largest reduced sums reach the bound on the sums |
| Adler.BlockFitsIff | imgui/core/imgui_draw.cpp:4002-4027 | blocks of n bytes never overflow 32 bits if and only if n <= 5552 |
| Adler.SumBlock | imgui/core/imgui_draw.cpp:4008-4022 | the unrolled loop and the rest loop sum a block without overflow, even from sums that are not reduced |
| Adler.StbAdler32 | imgui/core/imgui_draw.cpp:4000-4029 | equals the byte-by-byte checksum of section 8.2 of RFC 1950 for every buffer and start value, first block empty or not |
| LzTokens.Out4Holds | imgui/core/imgui_draw.cpp:3979-3981 | a number is read back high byte first |
| LzTokens.FormsByExample | imgui/core/imgui_draw.cpp:3983-3998 | one token in each of the nine forms, byte by byte |
| LzDecoder.WrittenIffRead | imgui/core/imgui_draw.cpp:3983-3998 | each of the nine token forms is read back exactly where it is written, with its bias |
| LzDecoder.ReadSuits | imgui/core/imgui_draw.cpp:3983-3998 | whatever is read as a token has a length of at least one and a distance of at least one, within its form |
| LzDecoder.AppliedGrows | imgui/core/imgui_draw.cpp:4042-4060 | every accepted token writes at least one byte and stays within the announced length, so the loop ends |
| LzDecoder.CopyRepeats | imgui/core/imgui_draw.cpp:3961-3968 | a copy is the one continuation that repeats itself at its distance, also when it is longer than the distance |
| LzDecoder.DecodedThrough | imgui/core/imgui_draw.cpp:4042-4060 | going through written tokens takes the decoder to their end with their expansion written |
| LzDecoder.PiecesFound | imgui/core/imgui_draw.cpp:4042-4060 | whatever the decoder accepts is a sequence of well-formed tokens that expands to its output |
| LzDecoder.UnpackIffStream | imgui/core/imgui_draw.cpp:4031-4061 | the decoder yields data if and only if a well-formed stream for that data lies there: header, tokens, end mark, checksum |
| Decompressor.Unpacker.Match | imgui/core/imgui_draw.cpp:3961-3968 | copies byte by byte, or moves beyond the end when the copy does not fit or starts before the output |
| Decompressor.Unpacker.Lit | imgui/core/imgui_draw.cpp:3970-3977 | copies literal bytes, or moves beyond the end |
| Decompressor.Unpacker.DecompressToken | imgui/core/imgui_draw.cpp:3983-3998 | reads and applies one token of any form, or stays where it is |
| Decompressor.StbDecompress | imgui/core/imgui_draw.cpp:4031-4061 | writes the data of the stream into the buffer and returns its length, or returns 0 when there is no well-formed stream |
| PathArc.StepsWithin | imgui/core/imgui_draw.cpp:1066-1082 | the shortened first step and full steps after it fit the range as often as full steps would |
| PathArc.ArcIsCovered | imgui/core/imgui_draw.cpp:1062-1082 | in both directions: first angle at the start, last at the end, every angle goes on from the one before by at least one and at most the clamped step, every point is the table entry of its angle |
| PathArc.GapsAreEven | imgui/core/imgui_draw.cpp:1065-1082 | all gaps are full steps, or all but the first and the last, which differ by at most one |
| PathArc.ClampedIsNearest | imgui/core/imgui_draw.cpp:1054-1059 | the step is the asked one, or the nearest one between one table entry and a quarter of the circle |
| PathArc.ClampedGivesSegments | imgui/core/imgui_draw.cpp:1054-1059 | without an asked step it is the longest one, up to a quarter, that gives the circle no fewer segments than wanted |
| PathArc.TruncatedTurn | imgui/core/imgui_draw.cpp:1087-1092 | the remainder with its correction is the angle modulo the table size, also below zero |
| PathArc.TurnOn | imgui/core/imgui_draw.cpp:1094-1122 | one addition or subtraction of the table size keeps the index the angle modulo the table size |
| PathArc.PlanSteps | imgui/core/imgui_draw.cpp:1062-1082 | sample count, first step and extra sample are those of the plan |
| PathArc.Normalized | imgui/core/imgui_draw.cpp:1086-1092 | every angle gets an index inside the table |
| PathArc.DrawPath.DrawUp | imgui/core/imgui_draw.cpp:1094-1108 | the upward loop writes one point per round, each the table entry of its angle |
| PathArc.DrawPath.DrawDown | imgui/core/imgui_draw.cpp:1109-1122 | so does the downward loop |
| PathArc.DrawPath.PathArcToFastEx | imgui/core/imgui_draw.cpp:1046-1136 | the path grows by exactly the planned points, each the table entry of its angle; without a radius by the centre alone |

## Left out

- RectPack.Context.FindMinY: counts the waste in unbounded integers; a C `int` can overflow only on targets of 2^31 and more columns times rows (`Skyline.WasteIsBounded`).
- DrawShapes.AddConvexPolyFilled: positions, normals, UVs and colours of the vertices are the caller's, as the geometry is floating point.
- DrawShapes.AddPolyline: so are those of a line; its thickness and fringe scale are reals.
- RectSort.Sort: is an insertion sort, in place of `ImQsort` and the C library's `qsort`; only a sorted rearrangement is used of it.
- DrawList.DrawList.PushClipRect: compares clip rectangles as reals, where the code compares the bytes of floats; NaN and negative zero are not modelled.
- Atlas.Build: takes the texture width as given; the choice of a width from the summed glyph areas, with a floating-point square root, is not modelled.
- Decompressor.StbDecompress: returns 0 where the code asserts first and then returns 0, as in a build without assertions.
- DrawRun.Render: does not say that no command could be spared once channels have been split, as `SetCurrentChannel` does not look for a command to merge with.
- SerialRpc.MakeRequest: takes the body as bytes of the request type's size, at most 255, as the length byte demands; the layout of the request types is not modelled.
- SerialRpc.SerialRPC.ArriveChunk: models Boost.Asio's reads as bytes that arrive for the pending read, or a failing read; threads, port options, connecting and closing are not modelled.
- Best-fit: the waste it compares is the measured one, exact or not; that its result has least true waste is not claimed, as the code does not give it.
- `PrimRect` and `PrimQuadUV` write the indices of `PrimRectUV` and are not modelled on their own.
- Rounded rectangles, circles, Bezier curves, the layout of text (what is drawn of it is `DrawList.DrawList.AddPrim`) and `PathArcTo` with its floating-point angles are not modelled; `imgui_internal.h` is not part of this model, so the size of the arc table and `_CalcCircleAutoSegmentCount` are parameters.
- Glyph rasterising by FreeType, glyph ranges, font metrics and UV coordinates are not modelled.
- The user interface, charts, series, OpenGL and GLFW code are not modelled.
