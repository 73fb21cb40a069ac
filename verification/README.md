# Agent terminal: a verified model

A Dafny model of the agent terminal: a daemon that keeps terminal sessions alive behind a Unix socket, its terminal
engine, its scrollback on disk, its pane layout and compositor, and the clients that attach to it. The model follows the
source part by part and proves what those parts promise over every input and every run. Functions in C that change a
structure step by step are methods of classes here; what they compute is stated by functions over values, and the lemmas
are about those.

- **Scrollback** (`Log`, `DiskFormat`, `History`, `Modular`, `LineRing`, `LogIndex`, `Generations`, `Scrollback`): an
  in-memory ring over a two-generation append-only log with a write buffer and a sparse index. A fetch is the first
  lines due of the plain list of all lines, whichever part serves it, in every state reachable by pushes, flushes,
  rotations, crashes at any byte and reopenings. The checksum is any function.
- **Terminal engine** (`Utf8`, `Parser`, `Replay`, `Machine`, `Cells`, `Screen`, `Engine`, `Dispatch`,
  `Wrapping`, `Sequences`, `Editing`, `Switches`, `AltScreen`): the VT500 state machine with UTF-8 as in section 4 of
  RFC 3629, the recorder of unfinished sequences, the grid and its damage marks.
  The engine that changes fields in place ends up, for any bytes, where a function of the engine's whole state leads,
  and that function is pinned from the bytes on: where text of any length stands, what each control sequence leaves in
  cursor, pen and cells, and that the alternate screen gives the primary one back. Every invariant of shape holds after
  every history, and a row reported clean has not changed.
- **Layout and compositor** (`SplitTree`, `Layout`, `Tiling`, `Picture`, `Composite`, `Overlap`, `Overruns`, `Compositor`,
  `Clients`, `Repaint`, `Plans`, `Views`): a split tree in a fixed node array that tiles the view exactly, and frames that
  repaint only dirty rows. Every client has its own history of frames; over any run each of them shows what a full repaint
  would, and that is every cell of every pane in its place.
- **Sessions and clients** (`SessionPanes`, `Relay`, `Tables`, `Stdin`): pane bookkeeping with rollbacks, two tables of
  reused slots that point at each other and refine a relay without slots, and keyboard input under short writes.
- **Framing** (`Bytes`, `ByteRing`, `Framing`): a masked byte ring that is a queue, two frame decoders that agree, and the
  exact bursts that the daemon serves in full.
- **Text of a line** (`LineText`, `LineReplay`): cells to ANSI text, stripped and decoded again by the pager, and read
  back by the engine into the same cells.
- **Clients** (`Scan`, `Backfill`): the chord scanner and the order of history, repaint and live output at attach.
- **Usage** (`Usage`, `Transcript`): token accounting with deduplication, retraction and eviction.

Results that go against a reading of the source or its comments:

- A wide character printed in front of an orphaned right half is blanked by its own writing (`Screen.WrittenShows`,
  at a real row in `Screen.OverprintVanishes`).
- Erasing the right half of a wide character makes the compositor draw the row one column too wide, over a divider that
  only a full frame repairs (`Overruns.SplitPairOverruns`); rows are exact exactly when left halves and spacers balance
  (`Picture.EmissionExact`). In a view too small for its tree panes overlap dividers and a frame of dirty rows overpaints
  them (`Overruns.CrampedOverpaints`); with room they never do (`Composite.LaidOutApart`). With rows exact, overlap is the
  only way a frame of dirty rows goes wrong (`Overlap.ReliableIffApart`).
- A pane that exits while zoomed leaves the session zoomed into nothing: the other panes are not drawn until the zoom is
  dropped (`Composite.ZoomedGone`).
- The daemon reads all there is before it parses. A client whose valid frames come in faster, more than 2 MiB in one go,
  is disconnected with those frames undispatched (`Framing.FastSenderDropped`), and that is the only way a greeted client
  loses any (`Framing.ServesIffFits`).
- `src/client/scan.h` sizes the output buffer at twice the input; that is too little for short reads behind a half-typed
  arrow chord (`Scan.TwiceIffLongEnough`). Input length plus three is enough (`Scan.OutputBound`).
- A ring whose ceiling is no power of two and below its first allocation overwrites its own contents
  (`ByteRing.QueuesIffPow2`, `ByteRing.CeilingSound`). The ceilings in use are powers of two.
- A control byte that the recorder leaves out can matter to the replay (`Replay.LeftOutControlMatters`,
  `Replay.LeftOutInDcs`), in exactly the states that `Replay.SkippedHarmless` names.
- A deep fetch whose text buffer fills inside the older log goes on to the current one and can leave a hole
  (`History.PageWithHole`; `History.TwoGenerationsExact` gives the exact condition). The ring still serves lines that
  rotation has dropped from disk (`Scrollback.RingOutlivesDisk`).

## Model

| member | source | states |
|---|---|---|
| `Bytes.U32RoundTrip` | src/common/proto.c:9-22 | a stored 32-bit scalar reads back whatever follows it |
| `Bytes.U64RoundTrip` | src/common/proto.c:15-25 | a stored 64-bit scalar reads back whatever follows it |
| `Bytes.LittleEndian` | src/common/proto.c:9-18 | scalars are stored lowest byte first: each byte counts 256 times as much as the one before it |
| `DiskFormat.ReadEncoded` | src/common/scrollback.c:462-485 | reading at a written record gives that record, for any checksum function |
| `DiskFormat.ReadTorn` | src/common/scrollback.c:462-485 | a record cut short by any number of bytes is not read |
| `DiskFormat.LogFormatFaithful` | src/common/scrollback.c:403-485 | the disk format meets what the log model asks of a format: records read back, torn ones are rejected |
| `DiskFormat.RecordBytes` | src/common/scrollback.c:403-440 | a record is, lowest byte first, the length of all behind the first four bytes, the checksum of all behind the first eight, the number, and the text |
| `Log.EncodeLength` | src/common/scrollback.c:203-209 | offsets are the sums of record sizes, so the encoded log is as long as the offset behind its last record |
| `Log.ReadAt` | src/common/scrollback.c:462-485 | in an encoded log, with anything behind it, reading at the offset of record k gives record k |
| `Log.ScanCut` | src/common/scrollback.c:211-261 | a log cut at any byte scans to exactly the records wholly before the cut |
| `Log.ScanWhole` | src/common/scrollback.c:211-261 | an uncut log scans to all its records |
| `History.DueMeaning` | src/common/scrollback.c:442-460 | the first due record is the first numbered start or later: all before it are numbered lower |
| `History.TwoGenerationsExact` | src/common/scrollback.c:551-579 | serving the older log and then the current one gives the page of the joined list unless the text buffer filled inside the older log with lines of it still due and the first current line still fits: exactly then the page has a hole |
| `History.PageWithHole` | src/common/scrollback.c:551-579 | such a page: with two bytes of room, line 2 is served right behind line 0 |
| `History.DeepIsHistory` | src/common/scrollback.c:551-579 | whichever of ring and logs serves a fetch, the answer is the first lines numbered start or later of the plain list if and only if the stated condition on buffer and ring holds |
| `History.RingPage` | src/common/scrollback.c:442-460 | the ring, a suffix of all lines that holds the start asked for, answers as the whole list would |
| `History.RoomyPage` | src/common/scrollback.c:551-579 | a text buffer with room for the whole page meets the condition of the two-generation fetch |
| `History.LastOfTails` | src/common/scrollback.c:211-261 | the last n of two lists are the last n of their last n |
| `LineRing.Ring.Put` | src/common/scrollback.c:270-283 | after a put the ring holds the last memLines of what it held and the new line |
| `LineRing.Ring.Fetch` | src/common/scrollback.c:442-460 | the ring answers the plain page of what it holds |
| `LogIndex.ExtendExact` | src/common/scrollback.c:203-209 | appending keeps entry i the offset of record 512 i, with the number of record 0 remembered |
| `LogIndex.ScanLog` | src/common/scrollback.c:211-261 | a scan finds the records of the file, the bytes they take, the next number, the offset where the last `want` records begin, and an exact index |
| `LogIndex.Seek` | src/common/scrollback.c:487-503 | the entry sought is the last whose record is numbered at most the one wanted |
| `LogIndex.ShortSweep` | src/common/scrollback.c:487-549 | with an exact index fewer than 512 records lie between the entry sought and the record wanted |
| `LogIndex.Sweep` | src/common/scrollback.c:505-549 | from a record boundary the sweep stops at the first due record, having read every one before it |
| `LogIndex.FetchGen` | src/common/scrollback.c:505-549 | one generation serves exactly its page, also with index entries replaced by offsets that are no record boundaries; with an exact index and a start it holds, fewer than 512 records are swept |
| `Generations.LogFiles.Drain` | src/common/scrollback.c:365-377 | draining moves the staged bytes to the file and keeps the records |
| `Generations.LogFiles.MaybeRotate` | src/common/scrollback.c:379-401 | rotation makes the current records the older generation, with their index, and starts an empty current one |
| `Generations.LogFiles.Append` | src/common/scrollback.c:403-440 | appending adds the record to the current generation, which becomes the older one exactly when it has reached its cap, and keeps both indices exact |
| `Generations.LogFiles.Fetch` | src/common/scrollback.c:551-579 | a disk fetch is the two-generation page of the records on disk and staged; for a start before their end fewer than 512 records are swept in both logs together |
| `Scrollback.Refill` | src/common/scrollback.c:608-635 | reading a log from a tail offset puts exactly the records behind it into the ring |
| `Scrollback.Recovered` | src/common/scrollback.c:294-361 | what a cut leaves on disk is the older generation and the whole records of the current one before the cut |
| `Scrollback.RebuildRing` | src/common/scrollback.c:309-361 | the two tail windows rebuild the ring as exactly the last min(memLines, records) of both logs together |
| `Scrollback.NoGap` | src/common/scrollback.c:309-316 | whatever part of the lines a crash keeps, the next number is at or below the one it was, so numbering never skips ahead |
| `Scrollback.Store.Open` | src/common/scrollback.c:294-361 | opening a disk left by any crash gives a valid store over the recovered records, with ring, indices and next number |
| `Scrollback.Store.Push` | src/common/scrollback.c:403-440 | a push does to the plain lists what the model says: one line more under the next number, rotation at the cap; ring, logs and indices stay in step |
| `Scrollback.Store.Flush` | src/common/scrollback.c:586-588 | a flush changes no line |
| `Scrollback.Store.FetchDeep` | src/common/scrollback.c:551-579 | a fetch is the first lines numbered start or later of the plain list, from ring or either log, exactly when buffer and ring meet the stated condition, and it sweeps fewer than 512 records |
| `Scrollback.Store.CrashHolds` | src/common/scrollback.c:309-361 | a crash that cuts the current log at any byte leaves a disk that reopening understands |
| `Scrollback.Store.RotationCrashHolds` | src/common/scrollback.c:379-401 | so does a crash between renaming the full log and creating the new one |
| `Scrollback.ReopenCut` | src/common/scrollback.c:294-361 | reopening after a cut at any byte leaves the plain lists with exactly the records wholly before it, numbered on from there |
| `Scrollback.ReopenRotated` | src/common/scrollback.c:294-361 | reopening after a crash in mid-rotation leaves the records of the full log as the older generation |
| `Scrollback.RunAnswers` | src/common/scrollback.c:551-579 | in every run from an empty directory every fetch answers from history under the stated condition on buffer and ring |
| `Scrollback.RingOutlivesDisk` | src/common/scrollback.c:403-460 | the ring exception is met in practice: a line rotated off the disk is still served by the ring |
| `Scrollback.Run` | src/common/scrollback.c:294-579 | every run of pushes, flushes, fetches, crashes and reopenings from an empty directory: each fetch answers as computed from the plain lists alone, and so from history; the store ends up holding just those lists |
| `SplitTree.TilesIffRoomy` | src/daemon/layout.c:38-71 | the rectangles and dividers of a tree tile its rectangle, every cell exactly once, if and only if every split node has at least 3 cells to divide |
| `SplitTree.NodeCount` | src/daemon/layout.c:95-152 | a tree of n leaves has 2 n - 1 nodes |
| `SplitTree.HeightBelowLeaves` | src/daemon/layout.c:73-84 | a tree is never deeper than its leaves less one |
| `SplitTree.SplitLeafShape` | src/daemon/layout.c:95-128 | a split adds two nodes and one pane and keeps panes and nodes distinct |
| `SplitTree.CloseLeafShape` | src/daemon/layout.c:130-152 | a close takes away two nodes and one pane and keeps the rest distinct |
| `SplitTree.SplitThenClose` | src/daemon/layout.c:95-152 | closing the pane a split added leads back to the very tree before it, so to every former rectangle |
| `SplitTree.SplitRects` | src/daemon/layout.c:38-71 | a split leaves the rectangle of every other pane alone |
| `SplitTree.SplitHalves` | src/daemon/layout.c:38-71 | the two halves of a split take the rectangle the pane had, divided as reflow divides it |
| `SplitTree.DividedEvenly` | src/daemon/layout.c:38-71 | with three cells or more to divide, the halves and one cell between them make up the whole, the first half is as long as the second or one cell longer, and both are as wide as the whole |
| `Layout.SplitGeometryHolds` | src/daemon/layout.c:95-128 | a split of a pane large enough gives both halves the minimum size, divides its rectangle evenly with the odd cell in the first half, and moves no other pane |
| `Layout.SplittableExactly` | src/daemon/layout.c:95-128 | a pane is large enough exactly if both halves keep the minimum |
| `SplitTree.NoLeafIsAll` | src/daemon/layout.c:38-71 | with two or more leaves no leaf has the rectangle of the whole view |
| `Layout.PaneLayout.Alloc` | src/daemon/layout.c:5-9 | the first unused node, or none |
| `Layout.PaneLayout.FindLeaf` | src/daemon/layout.c:11-17 | the node of a pane's leaf, or none if it has no leaf |
| `Layout.PaneLayout.FindParent` | src/daemon/layout.c:19-26 | the split node above a pane's leaf, or none at the root |
| `Layout.PaneLayout.constructor` | src/daemon/layout.c:28-36 | one leaf for the pane, all other nodes unused |
| `Layout.PaneLayout.ReflowNode` | src/daemon/layout.c:73-84 | every node below gets the rectangle the tree gives it; the depth cap never cuts a real tree; nothing but rectangles changes |
| `Layout.PaneLayout.Reflow` | src/daemon/layout.c:86-93 | after a reflow all rectangles are those of the view |
| `Layout.PaneLayout.SixLeaves` | src/daemon/layout.c:5-9 | the nodes in use are one less than twice the leaves, so at most 6 leaves |
| `Layout.PaneLayout.TwoFree` | src/daemon/layout.c:5-9 | if at most one node is free there are 6 leaves: below that a split never lacks nodes |
| `Layout.PaneLayout.Split` | src/daemon/layout.c:95-128 | done exactly for a known pane large enough with fewer than 6 leaves; refused with nothing changed; when rectangles were current both halves meet the minimum, divide the old rectangle evenly, and no other pane moves |
| `Layout.PaneLayout.Close` | src/daemon/layout.c:130-152 | done exactly for a known pane that is not the last; the sibling takes the parent's place; refused with nothing changed |
| `Layout.PaneLayout.PaneRect` | src/daemon/layout.c:154-164 | the rectangle the tree gives the pane |
| `Tiling.DrawersArePieces` | src/daemon/composite.c:152-170 | the nodes that draw a cell are as many as the pieces of the tree that hold it, dividers found through the first child as emit_dividers does |
| `Tiling.ViewDrawnOnce` | src/daemon/composite.c:152-170 | each cell of the view is drawn by exactly one node, none outside it |
| `Parser.StepOk` | src/vt/vt_parser.c:12-243 | any byte keeps parameters, intermediates and string bodies within their buffers and parameters at most 9999999 |
| `Replay.StepAlike` | src/vt/vt_parser.c:94-243 | parsers that agree wherever the state still reads dispatch any byte alike and stay so |
| `Replay.MattersTells` | src/vt/vt_parser.c:94-254 | a control that matters leaves a parser that bytes to come tell from the one before by what they dispatch |
| `Replay.SkippedHarmless` | src/vt/vt_parser.c:245-254 | a control left out by the recorder goes unnoticed by all bytes to come if and only if it is not CAN or SUB in mid-sequence, not BEL in an OSC string, not behind an ESC in a string, and not behind an ESC that cut a character short |
| `Replay.RunSplit` | src/vt/vt_parser.c:256-262 | what a run dispatches does not depend on where it is cut |
| `Replay.ReplayReproduces` | src/vt/vt_parser.c:245-262 | without overflow and with only harmless controls left out, replaying the recorded bytes gives the live parser state |
| `Replay.ReplayContinues` | src/vt/vt_render.c:268-269 | every later byte is then dispatched alike by both parsers |
| `Replay.LeftOutControlMatters` | src/vt/vt_parser.c:245-254 | the premise is needed: a control left out inside a string after ESC leads the replayed parser elsewhere |
| `Replay.LeftOutInDcs` | src/vt/vt_parser.c:94-254 | nor is a device control string safe: after ESC P q ESC LF the live parser is in the string, the replayed one leaves it at a backslash |
| `Machine.ParserMachine.FeedByte` | src/vt/vt_parser.c:94-243 | the fields after a byte, and what is dispatched, are those of the step function |
| `Machine.ParserMachine.RecordPending` | src/vt/vt_parser.c:245-254 | the recorder empties when idle, skips controls, keeps other bytes up to its limit |
| `Machine.ParserMachine.Feed` | src/vt/vt_parser.c:256-262 | a whole buffer dispatches the run of the step function over its bytes, and the recorder is that of all bytes fed |
| `Screen.Vt.WriteRow` | src/vt/vt_screen.c:22-35 | cells of a row written leave damage sound if the row is marked; marking is a step of its own |
| `Screen.Vt.ClearRow` | src/vt/vt_screen.c:42-49 | the cells from, up to, to of a row are blank, the row is marked, every other cell is as it was |
| `Screen.Vt.UnsplitWide` | src/vt/vt_screen.c:52-68 | the other half of a wide character is blanked and the row marked |
| `Screen.Vt.ScrollRegionUp` | src/vt/vt_screen.c:72-88 | rows of the region move up, blank rows follow, lines leaving the top of the primary screen go to the scrollback in order |
| `Screen.Vt.ScrollRegionDown` | src/vt/vt_screen.c:90-101 | rows of the region move down, blank rows come in above |
| `Screen.Vt.MoveCursor` | src/vt/vt_screen.c:108-119 | the cursor lands where asked, clamped to the grid or, in origin mode, to the region |
| `Screen.Vt.Newline` | src/vt/vt_screen.c:133-141 | down a row, or the region scrolls at its last row and hands out the line that leaves the top of the primary screen |
| `Screen.Vt.ReverseIndex` | src/vt/vt_screen.c:143-151 | up a row, or the region scrolls back at its first row |
| `Screen.Vt.Tab` | src/vt/vt_screen.c:153-161 | to the next tab stop, skipping none, or the last column |
| `Screen.Vt.AttachCombining` | src/vt/vt_screen.c:168-174 | a mark goes on the cell written last if that has a base and no mark yet, else nowhere |
| `Screen.Vt.WrapLine` | src/vt/vt_screen.c:187-190 | to the start of the next line, scrolling the region if need be |
| `Screen.Vt.MakeRoom` | src/vt/vt_screen.c:187-203 | the wrap held back at the margin is made, a wide character at the last column goes to the next line or one back; only a one-column grid without autowrap has no room |
| `Screen.Vt.Put` | src/vt/vt_screen.c:176-243 | grid, cursor and lines handed out after a character are those of the printing function, through wrap, wide margin and insert mode; a combining mark goes on the last cell written or nowhere |
| `Screen.TextShows` | src/vt/vt_screen.c:176-243 | text that fits the rest of the row is there to read after it is printed, whatever the row held before; no other row changes |
| `Screen.WrittenShows` | src/vt/vt_screen.c:207-234 | the character written is on screen afterwards if and only if it is not a wide one put in front of an orphaned right half; cells further off are untouched |
| `Screen.OtherHalfEmpty` | src/vt/vt_screen.c:52-68 | a character written over one half of a wide one leaves the other half empty in the colors it had |
| `Screen.OverprintVanishes` | src/vt/vt_screen.c:207-234 | three ordinary steps to such a row: print a wide character, erase its left half, print another in its place |
| `Screen.Vt.EraseDisplay` | src/vt/vt_screen.c:247-268 | the part of the display before, behind or around the cursor is blank |
| `Screen.Vt.EraseLine` | src/vt/vt_screen.c:270-279 | the part of the line before, behind or around the cursor is blank |
| `Screen.Vt.InsertLines` | src/vt/vt_screen.c:281-285 | blank lines come in at the cursor, within the region only |
| `Screen.Vt.DeleteLines` | src/vt/vt_screen.c:287-291 | lines go at the cursor, within the region only; from the top row of the primary screen they go to the scrollback |
| `Screen.Vt.InsertChars` | src/vt/vt_screen.c:293-304 | blanks come in at the cursor, the rest of the row moves right |
| `Screen.Vt.DeleteChars` | src/vt/vt_screen.c:306-317 | cells go at the cursor, blanks come in at the end of the row |
| `Screen.Vt.EraseChars` | src/vt/vt_screen.c:319-326 | cells from the cursor on are blank |
| `Screen.Vt.SetScrollRegion` | src/vt/vt_screen.c:330-338 | a region of two or more rows is set and the cursor homed, any other request ignored |
| `Screen.Vt.SwitchAlt` | src/vt/vt_screen.c:340-358 | the primary grid survives the alternate screen untouched; everything is marked when the screen changes |
| `Screen.Vt.Reset` | src/vt/vt_screen.c:366-380 | a fresh screen, everything marked |
| `Screen.Vt.AlignTest` | src/vt/vt_screen.c:383-399 | a screen full of E, cursor home |
| `Screen.Vt.constructor` | src/vt/vt_screen.c:401-424 | a fresh screen of the size asked for, clamped |
| `Screen.Vt.Resize` | src/vt/vt_screen.c:433-466 | the overlap of both grids is kept, cursors confined, everything marked; an unchanged size changes nothing |
| `Screen.ResizedKeeps` | src/vt/vt_screen.c:433-466 | a grid grown and shrunk back is the same, new cells are empty, and a cursor comes to the nearest row and column there are |
| `Screen.Vt.DamageClear` | src/vt/vt_screen.c:503-506 | the picture damage is counted from is now the visible grid |
| `Engine.Drawn` | src/vt/vt_dispatch.c:16-24 | surrogates and what is no code point are drawn as U+FFFD, exactly the C1 controls are dropped, and all else but line-drawing letters is drawn as itself |
| `Engine.BoxesDrawn` | src/vt/vt_dispatch.c:9-24 | with the line-drawing set the letters for corners, tees, crossing and lines are drawn as the box characters |
| `Dispatch.Print` | src/vt/vt_dispatch.c:16-24 | the whole engine after a character, a dropped control or a combining mark is the one the printing function gives |
| `Dispatch.Execute` | src/vt/vt_dispatch.c:26-38 | the whole engine after line feeds, return, backspace, tab and shifts; every other control changes nothing |
| `Dispatch.SaveCursor` | src/vt/vt_dispatch.c:40-44 | the cursor is kept for this screen, with origin mode; nothing else changes |
| `Dispatch.RestoreCursor` | src/vt/vt_dispatch.c:46-54 | the cursor kept for this screen is back, inside the grid without any clamp biting |
| `Dispatch.EscPlain` | src/vt/vt_dispatch.c:70-83 | the whole engine after line feeds both ways, save, restore, tab stop and reset; any other escape changes nothing |
| `Dispatch.Esc` | src/vt/vt_dispatch.c:56-84 | charsets are selected, the alignment test fills the screen, any other or over-long escape changes nothing |
| `Dispatch.Sgr` | src/vt/vt_dispatch.c:88-140 | the pen is the fold of all parameters, extended colors taking two or four more, a malformed one ending it; nothing else changes. What each parameter does is stated from the bytes on in Sequences |
| `Dispatch.DecMode` | src/vt/vt_dispatch.c:149-180 | the whole engine after one mode: screens switched and cleared, cursors saved and restored around them, origin mode homing, flags |
| `Dispatch.SetModes` | src/vt/vt_dispatch.c:149-186 | the modes take effect one parameter after the other |
| `Dispatch.Repeat` | src/vt/vt_dispatch.c:288-305 | the character before the cursor is printed n times more with its mark, at most a row of columns often; nothing after an empty cell |
| `Dispatch.Edit` | src/vt/vt_dispatch.c:279-287 | the whole engine after erasing, inserting, deleting and scrolling, with the lines handed to the scrollback |
| `Dispatch.CsiPlain` | src/vt/vt_dispatch.c:266-322 | the whole engine after any sequence without marker is the one of the function whose answers, sequence by sequence, are what Sequences, Editing and Switches state from the bytes on |
| `Dispatch.CsiRest` | src/vt/vt_dispatch.c:288-321 | the same for those that neither move the cursor nor edit |
| `Dispatch.Csi` | src/vt/vt_dispatch.c:238-264 | ? sets and resets the private modes; another marker or intermediates change nothing; plain sequences as above |
| `Engine.StepActionsOk` | src/vt/vt_parser.c:94-243 | every sequence the parser dispatches is within the bounds of its buffers |
| `Engine.Acted` | src/vt/vt_dispatch.c:16-322 | every action of the parser keeps cursors in the grid, the region well-formed, both grids in shape and the mark cell in range |
| `Engine.FedSplit` | src/vt/vt_parser.c:256-262 | what bytes make of the engine does not depend on how they are cut into reads |
| `Engine.TextFed` | src/vt/vt_parser.c:94-262 | printable bytes fed to an idle parser are typed on the sheet, and the parser stays idle |
| `Engine.BytesShow` | src/vt/vt_parser.c:94-262 | bytes of text that fit the rest of the row are there to read after they are fed, no other row changes, and the cursor is behind them |
| `Wrapping.TextFlows` | src/vt/vt_screen.c:176-243 | text of any length flows on from the cursor: on the page made of the lines handed to the scrollback and the screen below them, each character stands in the row and column that counting on gives; nothing scrolls before the last row is reached, and rows above and below are as they were |
| `Wrapping.BytesFlow` | src/vt/vt_screen.c:176-243 | the same for bytes fed to an idle parser |
| `Wrapping.WideWraps` | src/vt/vt_screen.c:187-203 | a wide character due in the last column goes to the start of the next row and leaves a blank |
| `Sequences.ControlRun` | src/vt/vt_parser.c:30-52 | ESC [, numbers up to 9999999 in decimal with semicolons between them, and a final byte dispatch one sequence that holds exactly those numbers, and the parser is idle again |
| `Sequences.CursorTo` | src/vt/vt_dispatch.c:275-277 | ESC [ r ; c H, and f, fed to an idle parser leave the cursor at (min(r, rows) - 1, min(c, cols) - 1), in origin mode within the region and counted from its top; grids, pen, modes and region are unchanged |
| `Sequences.CursorHome` | src/vt/vt_dispatch.c:275-277 | without parameters the cursor goes home |
| `Sequences.CursorBy` | src/vt/vt_dispatch.c:268-278 | ESC [ n A to G and d: n rows up or down, n columns on or back, to the start of the n-th row below or above, to column or row n, kept on the screen or, in origin mode, in the region; no parameter and 0 stand for 1; nothing else changes |
| `Sequences.PenReset` | src/vt/vt_dispatch.c:88-140 | ESC [ m and ESC [ 0 m leave default colors and no style |
| `Sequences.StyleOn` | src/vt/vt_dispatch.c:88-140 | 1 to 5 and 7 to 9 add bold, dim, italic, underline, blink, reverse, invisible and strike, each alone |
| `Sequences.StyleOff` | src/vt/vt_dispatch.c:88-140 | 23 to 25 and 27 to 29 take the same away, 22 both bold and dim |
| `Sequences.IndexedColor` | src/vt/vt_dispatch.c:88-140 | 38;5;n and 48;5;n set foreground and background to color n of 256 |
| `Sequences.DirectColor` | src/vt/vt_dispatch.c:88-140 | 38;2;r;g;b and 48;2;r;g;b set them to that color, red highest and blue lowest |
| `Sequences.BasicColor` | src/vt/vt_dispatch.c:88-140 | 30 to 37, 40 to 47, 90 to 97 and 100 to 107 set the eight colors and their bright forms, 39 and 49 the default |
| `Sequences.SgrSplits` | src/vt/vt_dispatch.c:88-140 | parameters in one sequence do what they do in two, one after the other, unless the cut goes through a color |
| `Editing.EraseFed` | src/vt/vt_dispatch.c:279-280 | ESC [ n J and K make blank, in the background of the pen, exactly the cells from the cursor on, up to it, or all of them; nothing else changes |
| `Editing.CharsFed` | src/vt/vt_dispatch.c:283-285 | ESC [ n @, P and X push n blanks in at the cursor, pull n cells out, or blank n cells, cell by cell of the row; no other row changes |
| `Editing.LinesFed` | src/vt/vt_dispatch.c:281-287 | ESC [ n L, M, S and T move the rows from the cursor, or of the region, down or up by n, row by row, with blank ones coming in; lines that leave the top of the primary screen are handed out in order; outside the region L and M do nothing |
| `Editing.RegionFed` | src/vt/vt_screen.c:330-338 | ESC [ t ; b r sets rows t to b and homes the cursor, or does nothing if that is no region of two rows or more |
| `Editing.RowControls` | src/vt/vt_dispatch.c:26-38 | CR goes to column 0, BS one back or out of a held wrap, HT to the next tab stop with none skipped; nothing else changes |
| `Editing.LineControls` | src/vt/vt_dispatch.c:26-83 | LF, VT, FF and ESC D go down in the same column, ESC E to the first, ESC M up; at the edge of the region its rows move by one instead, and the line that leaves the top of the primary screen is handed out |
| `Editing.RepeatFed` | src/vt/vt_dispatch.c:288-305 | ESC [ n b behind a character leaves the engine exactly as typing that character n times more does, a thousand times at most |
| `Switches.OriginFed` | src/vt/vt_dispatch.c:149-180 | ESC [ ? 6 h and l set origin mode and home the cursor |
| `Switches.FlagFed` | src/vt/vt_dispatch.c:149-180 | ESC [ ? 7 and 25 h and l set autowrap and whether the cursor is shown, and nothing else |
| `Switches.InsertFed` | src/vt/vt_dispatch.c:182-188 | ESC [ 4 h and l set insert mode, and nothing else |
| `Switches.SavedComesBack` | src/vt/vt_dispatch.c:40-54 | the cursor saved by ESC 7 or ESC [ s comes back with ESC 8 or ESC [ u, with its pen, character sets and origin mode, whatever came between on the same screen that saved no other |
| `Switches.OscRun` | src/vt/vt_parser.c:54-66 | ESC ] text BEL hands over that text, cut at 4095 bytes and marked so, and leaves the parser idle |
| `Switches.DcsFed` | src/vt/vt_parser.c:205-226 | a device control string that is neither cut nor cancelled changes nothing |
| `AltScreen.BytesAside` | src/vt/vt_screen.c:340-358 | bytes fed while the alternate screen is shown leave the primary grid, its saved cursor and the scrollback alone, unless they reset the terminal or turn the alternate screen off |
| `AltScreen.EntersFed` | src/vt/vt_dispatch.c:149-180 | ESC [ ? 1049 h keeps the cursor of the primary screen and shows a blank alternate one |
| `AltScreen.ScreenComesBack` | src/vt/vt_dispatch.c:149-180 | ESC [ ? 1049 h, any bytes that do not leave the alternate screen, ESC [ ? 1049 l: every cell of the primary screen, the scrollback and the cursor with pen, character sets and origin mode are as before |
| `Dispatch.FeedVt` | src/vt/vt_parser.c:256-262 | for any bytes the whole engine ends up as the run of the parser over them acted out by the function of the engine; no mark of damage is lost, and only damage clearing moves the reference picture |
| `Dispatch.Terminal.Play` | src/vt/vt_screen.c:22-35 | after any history of bytes, resizes and damage clears, a visible row reported clean has exactly the cells it had when damage was last cleared |
| `Picture.EmissionExact` | src/daemon/composite.c:123-150 | a row is drawn exactly as wide as its pane if and only if its drawn left halves and spacers balance |
| `Picture.PairedWidth` | src/daemon/composite.c:123-150 | in a row with wide pairs intact they do balance |
| `Composite.PartialIsFull` | src/daemon/composite.c:172-207 | on every screen line where panes keep apart and rows are of exact width, a frame that repaints only dirty rows leaves the client the picture of a full repaint |
| `Composite.LaidOutApart` | src/daemon/composite.c:152-207 | a reflow that left room for every divider keeps panes and dividers apart on every line |
| `Composite.ZoomedApart` | src/daemon/composite.c:194-207 | a zoomed pane is drawn alone, so distinct ids suffice |
| `Composite.ZoomedGone` | src/daemon/session.c:514-554 | a pane that exits while it is zoomed leaves a zoom on nothing: with panes left every frame draws no pane until the zoom is dropped |
| `Overlap.ReliableIffApart` | src/daemon/composite.c:172-207 | a geometry leaves a screen line as a full repaint would, for all contents with rows of exact width and all frames of dirty rows, if and only if no two panes, and no pane and divider, overlap there |
| `Overruns.SplitPairOverruns` | src/daemon/composite.c:123-150 | the premise on widths is needed, with two live panes laid out and apart: erasing the right half of a wide character makes a partial frame run over the divider |
| `Overruns.CrampedOverpaints` | src/daemon/session.c:1102-1105 | so is the premise that panes keep apart: in a view shrunk below what the tree needs a letter printed overpaints a divider that a full frame shows |
| `Composite.FullIgnoresDamage` | src/daemon/composite.c:172-207 | a full frame does not depend on what is marked |
| `Compositor.EmitPaneRow` | src/daemon/composite.c:123-150 | the columns of a row as the emission function has them: spacers none, left halves two, a clipped one a space, padding to the pane width; which cell shows in which column is Repaint.RowShown |
| `Compositor.EmitDividers` | src/daemon/composite.c:152-170 | a run for every stacked node, a cell a row for every other, found through the first child |
| `Compositor.CompositeFrame` | src/daemon/composite.c:172-207 | the frame is the rows of all drawn panes, all or the dirty ones, then on a full frame the dividers |
| `Compositor.FeedPane` | src/daemon/session.c:617-640 | of a pane that was fed every row that changed is dirty, and no dirty row became clean |
| `Compositor.ResizeAll` | src/daemon/session.c:655-676 | exactly the panes whose rectangle has another size are resized to it |
| `Compositor.LiveCounted` | src/daemon/composite.c:106-111 | panes are counted one by one: the count is the number of live slots, and two make a session composite |
| `Clients.FrameShows` | src/daemon/session.c:579-596 | a full frame, or a partial one to a client in step, leaves the client the picture of a full repaint on every line that could be trusted since its last full frame |
| `Clients.SentAllShow` | src/daemon/session.c:579-596 | one frame to clients with different histories: all show a full repaint and are in step once damage is cleared |
| `Clients.UndamagedShown` | src/daemon/session.c:598-608 | with nothing dirty nothing need be sent: every client in step shows a full repaint already |
| `Clients.FedStillSynced` | src/daemon/session.c:617-640 | output of any pane leaves every client in step, however long ago its last frame was |
| `Clients.SettledTrusted` | src/daemon/composite.c:172-207 | in a view laid out with room, or zoomed, every line with rows of exact width can be trusted |
| `Repaint.RowShown` | src/daemon/composite.c:123-150 | in a row with pairs intact every drawn cell shows in its own column with its code point, mark, colors and style: an empty one as a space, a spacer as the right half, a left half in the last column as a space in its colors; spaces follow up to the pane width |
| `Repaint.FullShowsLine` | src/daemon/composite.c:123-207 | on a line where panes keep apart and pairs are intact a full repaint shows, at every column, the cell of the pane that is there, else the dim line of a divider that is drawn there, else nothing |
| `Repaint.ShowsCells` | src/daemon/session.c:579-596 | so does every client that shows a full repaint on a line that can be trusted |
| `Repaint.SettledCells` | src/daemon/session.c:579-596 | in a settled view that is every line with rows of exact width since the last full frame and pairs intact now |
| `Views.PlanSettles` | src/daemon/session.c:655-676 | panes where a reflow with room puts the leaves make such a view |
| `Views.JoinsSynced` | src/daemon/session.c:926-989 | a client that attaches with a full frame is in step without any damage cleared, and the others are as before |
| `Views.View.constructor` | src/daemon/session.c:306-324 | a view with one pane and nobody attached |
| `Views.View.Feed` | src/daemon/session.c:617-651 | output of a pane changes no other pane, and all clients stay in step |
| `Views.View.Rearrange` | src/daemon/session.c:655-676 | panes have their new rectangles and a full repaint is due |
| `Views.View.Open` | src/daemon/session.c:734-799 | a new pane with an engine of its own in the free slot; a full repaint is due |
| `Views.View.Shut` | src/daemon/session.c:514-554 | the pane is gone, with the zoom dropped or kept as the caller has it; a full repaint is due exactly if there are still two panes |
| `Views.View.LeaveComposite` | src/daemon/session.c:707-724 | with one pane left no repaint is due |
| `Views.View.Join` | src/daemon/session.c:926-989 | at two panes or more the newcomer alone gets a full frame and shows a full repaint; damage stands |
| `Views.View.CompositeOne` | src/daemon/session.c:579-596 | afterwards every client, whenever it attached, shows a full repaint of the panes, and damage is counted from there; without damage nothing is sent |
| `Views.View.ApplyLayout` | src/daemon/session.c:655-676 | panes get the rectangles of their leaves, a zoomed one the whole view; with room for every divider the view is settled |
| `Views.View.Play` | src/daemon/session.c:579-997 | any run of output, layout changes, zooming, panes opened and closed, clients coming and going and frames: whenever a frame went out every attached client shows a full repaint on every line that could be trusted since its last full frame, and with it every cell of every pane, in its column with its code point, mark, colors and style, and the dividers; in a run that keeps the view settled those are all lines with rows of exact width and pairs intact |
| `SessionPanes.SearchEnds` | src/daemon/session.c:752-758 | more candidate ids than pane slots cannot all be live |
| `SessionPanes.Session.constructor` | src/daemon/session.c:306-324 | a new session has pane 0 in slot 0, active, filling the view |
| `SessionPanes.Session.ActivePane` | src/daemon/session.c:113-122 | the active pane if it lives, else the one in the first slot in use |
| `SessionPanes.Session.PaneById` | src/daemon/session.c:124-129 | the live pane of that id, 255 meaning the active one |
| `SessionPanes.Session.NextFreeId` | src/daemon/session.c:752-758 | the search ends on the first id from the next one on, 1 to 254 round and round, that no live pane holds, and goes on behind it |
| `SessionPanes.Session.SplitPane` | src/daemon/session.c:734-799 | done exactly if the target lives, a slot is free, there is room for both halves and the child starts; then the leaf of the target is split, the new pane is in the first free slot under an id of its own and active; refused or rolled back at any step with slots, tree and active pane unchanged |
| `SessionPanes.Session.Remove` | src/daemon/session.c:514-554 | the last pane ends the session; else its slot is free, its leaf closed, and if it was active the pane active before it is, if that is another live one, else pane 0 if that lives, else the one in the first slot in use |
| `SessionPanes.Session.ClosePane` | src/daemon/session.c:801-828 | exactly a known pane is closed, 255 meaning the active one: its slot is free, its leaf closed, and all other slots are as they were; if it was active the pane active before it is, if that is another live one, else pane 0 if that lives, else the one in the first slot in use |
| `SessionPanes.Session.Reap` | src/daemon/session.c:514-554 | a reaped pane leaves its slot and its leaf, its id is live no more, and if it was active the same pane is active as after a close |
| `SessionPanes.PaneInDirection` | src/daemon/session.c:830-869 | the pane nearest in a direction, by edge distance and then by offset, the first of several, or none |
| `SessionPanes.KeyOrder` | src/daemon/session.c:830-869 | the key compares edge distances first and offsets of centers only between equal ones, as long as no offset reaches 4096 |
| `SessionPanes.BeyondConverse` | src/daemon/session.c:830-869 | above and below, right and left are converse to each other, and a pane that way shares no cell |
| `SessionPanes.Session.Cycle` | src/daemon/session.c:900-908 | next and previous come to the first live pane that way, another one if there is one |
| `SessionPanes.Session.SelectPane` | src/daemon/session.c:871-915 | by id, last, next, previous or direction exactly the pane meant is selected; the one left is remembered and the zoom dropped; zooming toggles on the active pane and does nothing with one pane; a request that fails changes nothing |
| `Tables.Daemon.SessionDetach` | src/daemon/session.c:991-997 | no entry of the table names the client, all others stand |
| `Tables.Daemon.Disconnect` | src/daemon/server.c:98-106 | no table of any session names the client afterwards, and nobody else is touched |
| `Tables.Daemon.Broadcast` | src/daemon/session.c:579-590 | output of a session reaches every client left in its table and only connections that asked for this very session, through any slot reuse |
| `Tables.Daemon.FreeSlot` | src/daemon/session.c:326-348 | no connected client points at a freed session, and only its own clients were disconnected |
| `Tables.Daemon.Accept` | src/daemon/server.c:619-655 | the first free slot under a number of its own, attached to nothing, or none if all are taken |
| `Tables.Daemon.NewSession` | src/daemon/session.c:306-324 | made exactly if the name is free, there is a slot and the child starts; then in the first free slot with an empty table |
| `Tables.Daemon.SessionAttach` | src/daemon/session.c:926-989 | the client stays and is in the table if it was there or a hole was, unless its socket fails; with a full table it is turned away |
| `Tables.Daemon.HandleNew` | src/daemon/server.c:343-363 | the creator leaves its old session and has asked for the new one, which is made as the reference says |
| `Tables.Daemon.HandleAttach` | src/daemon/server.c:365-389 | the client has asked for the session of the name it gave, and no other; without one nothing changes |
| `Tables.Daemon.HandleDetach` | src/daemon/server.c:448-450 | a detached client has asked for nothing |
| `Tables.Daemon.HandleKill` | src/daemon/server.c:391-401 | the session of that name is gone with exactly its clients |
| `Tables.Daemon.ChildExit` | src/daemon/session.c:514-534 | so is one whose last child exited |
| `Tables.Daemon.StdinData` | src/daemon/server.c:451-453 | input goes to the session the connection asked for, and is recorded there; to none if detached |
| `Relay.RunKeepsTo` | src/daemon/server.c:343-453 | until a connection asks again, all it hears and all it types concerns the one session it asked for, and nothing at all if it is detached, in every run of the reference |
| `Relay.RunUnmixed` | src/daemon/server.c:619-655 | numbers of connections and sessions are never shared, and a connection just made has asked for nothing |
| `Tables.Daemon.Play` | src/daemon/server.c:98-453 | over any run of events the tables with their reused slots relay output and input exactly as the reference does, in which connections and sessions are told apart by numbers never given out twice |
| `Stdin.PaneInput.Stage` | src/daemon/session.c:1006-1027 | staged bytes are the old ones and as much of the new as the limit allows |
| `Stdin.PaneInput.Drain` | src/daemon/session.c:1033-1049 | exactly as many staged bytes as the terminal takes are written, in order; room is watched for exactly while bytes are staged |
| `Stdin.AfterConserves` | src/daemon/session.c:1051-1076 | written then staged grow by a prefix of the call, and what was written stays written |
| `Stdin.LossMeansFull` | src/daemon/session.c:1006-1027 | a call loses bytes only if the staging buffer filled up to its 256 KiB meanwhile |
| `Stdin.RunConserves` | src/daemon/session.c:1006-1076 | over any run of calls and wake-ups written then staged is a prefix of every call, one behind the other, and proper only where the buffer was full |
| `Stdin.PaneInput.Type` | src/daemon/session.c:1051-1076 | what is written and staged after a call is what the specification says for these answers of the terminal |
| `Stdin.PaneInput.Session` | src/daemon/session.c:1006-1076 | over any calls, wake-ups and short writes, written then staged is the in-order concatenation of a prefix of each call, proper only for calls that filled the 256 KiB |
| `ByteRing.MaskWraps` | src/common/ring.c:41-53 | masking with a power of two less one wraps an index once |
| `ByteRing.QueuesIffPow2` | src/common/ring.c:41-53 | writes append for every buffer of a size if and only if the size is a power of two |
| `ByteRing.CeilingSound` | src/common/ring.c:8-21 | the first allocation is a power of two exactly for the ceilings named; a power-of-two ceiling is never exceeded by growth |
| `ByteRing.Ring.constructor` | src/common/ring.c:14-21 | an empty ring within its ceiling |
| `ByteRing.Ring.Grow` | src/common/ring.c:28-39 | growth keeps the contents and the ceiling |
| `ByteRing.Ring.Write` | src/common/ring.c:41-53 | appended whole or refused whole, refused exactly past the ceiling |
| `ByteRing.Ring.Peek` | src/common/ring.c:55-62 | the front of the contents |
| `ByteRing.Ring.Consume` | src/common/ring.c:70-75 | the front is gone, the rest stands |
| `ByteRing.Ring.Read` | src/common/ring.c:64-68 | what is read and what is left are the contents |
| `Framing.ParseEncoded` | src/common/proto.c:27-51 | any list of frames encoded in a row parses to that list with nothing left |
| `Framing.FrameBytes` | src/common/proto.c:27-38 | a frame on the wire is the length of its payload in four bytes, lowest first, its kind, and the payload |
| `Framing.ParseSplit` | src/common/proto.c:40-51 | parsing what came so far, then the rest behind what was left over, is parsing it all |
| `Framing.RestBounded` | src/common/proto.c:40-51 | what is left over is less than a largest frame |
| `Framing.WriteFrame` | src/common/proto.c:27-38 | the whole frame or nothing, refused exactly for size or ceiling |
| `Framing.ReadFrame` | src/common/proto.c:40-51 | a whole frame off the front, or nothing taken |
| `Framing.TakeReads` | src/daemon/server.c:556-581 | all reads of a wake-up go into the ring, or the connection ends, exactly past 64 bytes before HELLO and 2 MiB after it |
| `Framing.DispatchFrames` | src/daemon/server.c:583-591 | the frames off the ring are those of its parse; before the greeting any other first frame ends the connection |
| `Framing.ServesIffWelcome` | src/daemon/server.c:556-597 | the daemon dispatches the parse of everything sent, and stands where it ends, if and only if the bursts fit and the first frame greets |
| `Framing.ServesIffFits` | src/daemon/server.c:556-597 | for a greeted client frames and violation are those of the whole stream if and only if no burst, with what was left over before it, exceeds 2 MiB |
| `Framing.OverrunLoses` | src/daemon/server.c:556-597 | more unparsed bytes than fit always hold a whole frame or a violation, so dropping them costs something |
| `Framing.FastSenderDropped` | src/daemon/server.c:556-597 | valid empty frames that come in faster than the socket is emptied, 2 MiB and one read, are all lost |
| `Framing.ServeBursts` | src/daemon/server.c:556-597 | the loops of the daemon over any run of wake-ups and reads serve what the specification says |
| `Framing.Decoder.NextFrame` | app/tauri/src-tauri/crates/at-proto/src/stream.rs:41-64 | the front of the buffer; after a violation the same one for ever |
| `Framing.DecodeChunks` | app/tauri/src-tauri/crates/at-proto/src/stream.rs:32-64 | the Rust decoder gives the same frames and the same violation as the C reader under any chunking |
| `LineText.DecodeEncoded` | src/vt/vt_utf8.c:27-33 | an encoded code point decodes to itself and leaves the automaton ready |
| `LineText.AcceptsExactly` | src/vt/vt_utf8.c:27-33 | bytes are one character to the automaton if and only if they are the UTF-8 form of a scalar value, which is the code point it computes: overlong forms, surrogates and what lies beyond the last plane are rejected |
| `LineText.StripPieces` | src/client/pager.c:187-215 | stripping a line of whole pieces leaves exactly its encoded code points |
| `LineText.LineCodePoints` | src/common/scrollback.c:87-164 | the code points among the pieces of a line are the text of its cells |
| `LineText.LineReadsBack` | src/common/scrollback.c:87-164 | what the pager leaves of a serialized line decodes to the text of its cells, at a cap to a prefix of it in whole code points |
| `LineText.PagerReadsLine` | src/client/pager.c:187-215 | end to end: a line serialized within 8192 bytes and stripped into the pager's buffer decodes to the text of its cells, or where the line was cut to a prefix in whole code points |
| `LineText.SerializeLine` | src/common/scrollback.c:87-164 | the line is its pieces as far as they fit; what the engine reads out of them is LineReplay.LineReadBack |
| `LineReplay.DecodedRun` | src/vt/vt_parser.c:94-120 | text that decodes is printed by the parser code point after code point, and the parser is idle at its end |
| `LineReplay.PenReadsBack` | src/common/scrollback.c:111-126 | the sequences a pen is written in leave the engine with that pen, less blinking and invisible, whatever pen it had |
| `LineReplay.LineReadBack` | src/common/scrollback.c:87-164 | a line kept whole, fed to an idle parser at the start of a row without wide characters, puts its cells back in their columns with code point, mark, colors and style less blinking and invisible, right halves behind left ones; the rest of the row, other rows, modes and region are as before and the pen is plain |
| `LineReplay.FreshReady` | src/vt/vt_screen.c:401-424 | a fresh screen is such a place for every line no longer than its rows |
| `LineText.StripAnsi` | src/client/pager.c:187-215 | the stripped text, clipped to the buffer |
| `Scan.RunConserves` | src/client/scan.c:15-77 | bytes out and still held are the bytes held before and consumed, less exactly a completed chord |
| `Scan.OutputBound` | src/client/scan.c:15-77 | at most the input and three bytes come out |
| `Scan.TwiceIffLongEnough` | src/client/scan.h:43-49 | the header's bound of twice the input holds for all inputs of a length if and only if the length is 0 or at least the bytes held |
| `Scan.TraceSplit` | src/client/scan.c:15-77 | cutting the input anywhere changes neither bytes nor actions |
| `Scan.RunTraces` | src/client/scan.c:15-77 | one call gives the start of the trace, the input it left the rest |
| `Scan.Chord.Flush` | src/client/scan.c:8-13 | the bytes held come out in order |
| `Scan.Chord.ScanInput` | src/client/scan.c:15-77 | the loop that steps back ends and computes that run |
| `Scan.ChordBytes` | src/client/scan.c:15-77 | the chord of each action is its own bytes and no others: Ctrl-\ and Ctrl-D, [, ", %, o, ;, x or z, or Ctrl-\ and an arrow key |
| `Scan.ChordRuns` | src/client/scan.c:15-77 | typed on their own those bytes do what they stand for and nothing of them is let through |
| `Backfill.Machine.OnOutput` | app/tauri/src/terminal/backfill.ts:105-109 | live output is shown at once or held in order |
| `Backfill.Machine.OnSnapshot` | app/tauri/src/terminal/backfill.ts:111-129 | a repaint when live; during a fetch it replaces the one stashed; the first one begins the fetch, whose first request starts at 0 if at most 25000 lines are announced, else 25000 before their end |
| `Backfill.Machine.OnScrollback` | app/tauri/src/terminal/backfill.ts:131-150 | exactly the lines of the page below the announced total are written; then the fetch is over or the next request starts where the page ended; a late page changes nothing |
| `Backfill.Machine.OnStall` | app/tauri/src/terminal/backfill.ts:153-155 | a stall ends the fetch |
| `Backfill.Machine.Finish` | app/tauri/src/terminal/backfill.ts:201-211 | the calls go on with one pad exactly if there was history, then the latest repaint, then all held output in order |
| `Backfill.Machine.OnDispose` | app/tauri/src/terminal/backfill.ts:188-193 | after disposal no output and no snapshot is held |
| `Backfill.AscendingPairs` | app/tauri/src/terminal/backfill.ts:131-150 | ascending means every earlier line has the lower number, all within bounds |
| `Backfill.WholeHistory` | app/tauri/src/terminal/backfill.ts:111-150 | in every run that begins with a first snapshot of n lines, where every page starts where asked and is not empty, with no stall or disposal before the view is live: the history so far is the last 25000 lines, or all, as far as the pages reach, each once and in order with the texts the pages carried, and the view is live as soon as they are all there |
| `Backfill.HistoryNumbers` | app/tauri/src/terminal/backfill.ts:111-150 | that history is then min(n, 25000) lines, numbered up to n - 1 |
| `Backfill.Machine.Play` | app/tauri/src/terminal/backfill.ts:105-211 | over every interleaving the one trace of calls is history, ascending below the total, then the pad if there was any, then the repaint of the last snapshot before going live, then all later output and repaints in the order they came, output held meanwhile first; undisturbed, the history is all of the last 25000 lines |
| `Usage.TotalRemove` | app/tauri/src-tauri/crates/claude-watch/src/lib.rs:166-192 | the sum over messages does not depend on order |
| `Usage.InsertSorts` | app/tauri/src-tauri/crates/claude-watch/src/lib.rs:194-216 | sorting in one more bucket gives the same buckets in order |
| `Usage.GrownNewest` | app/tauri/src-tauri/crates/claude-watch/src/lib.rs:194-216 | crediting a new minute keeps exactly the newest 30 ever credited |
| `Usage.Retracted` | app/tauri/src-tauri/crates/claude-watch/src/lib.rs:218-225 | retraction hits the bucket the tokens went into and it holds at least those |
| `Usage.AddedNew` | app/tauri/src-tauri/crates/claude-watch/src/lib.rs:194-216 | a bucket made anew is exact: its minute was never counted in, or it is evicted at once |
| `Usage.SumsWithout` | app/tauri/src-tauri/crates/claude-watch/src/lib.rs:143-156 | no total underflows when a message is retracted |
| `Transcript.Accumulator.BucketAdd` | app/tauri/src-tauri/crates/claude-watch/src/lib.rs:194-216 | buckets stay the newest and exact |
| `Transcript.Accumulator.BucketSub` | app/tauri/src-tauri/crates/claude-watch/src/lib.rs:218-225 | buckets stay the newest and exact, without saturating |
| `Transcript.SeenLatest` | app/tauri/src-tauri/crates/claude-watch/src/lib.rs:166-192 | the usage counted for a message is that of its latest event |
| `Transcript.SeenSince` | app/tauri/src-tauri/crates/claude-watch/src/lib.rs:166-192 | it is counted under the timestamp of the event that brought this usage: before it the message had another or none, after it no other |
| `Transcript.Accumulator.Apply` | app/tauri/src-tauri/crates/claude-watch/src/lib.rs:166-192 | totals, message count and buckets are those of the fold over all events: a repeated usage counts nothing, any other is counted under its own timestamp |
| `Transcript.Accumulator.Feed` | app/tauri/src-tauri/crates/claude-watch/src/lib.rs:158-164 | a line adds its event, or a malformed count, or nothing |
| `Transcript.SplitOn` | app/tauri/src-tauri/crates/claude-watch/src/lib.rs:240-248 | lines do not depend on where the text was cut |
| `Transcript.Cursor.FeedChunk` | app/tauri/src-tauri/crates/claude-watch/src/lib.rs:240-248 | exactly the lines whose newline has come are fed |
| `Transcript.Digest` | app/tauri/src-tauri/crates/claude-watch/src/lib.rs:228-255 | a transcript read in any chunks gives totals over the counted events of its whole lines, and the newest thirty of the minutes they were counted under, each exact |

## Left out

- Sockets, the poll loop, PTYs, signals, lock files, paths and process handoff: only their outcomes appear, as parameters
  (what a write took, where a file was cut, whether a spawn worked).
- Disk write errors and a torn older log: writes succeed except for a crash cut of what was being appended.
- Scrollback.Store.Push: requires the next number to be below 2^64, since the counter's wrap-around is not modelled, and
  the text to be within the limit that serialization caps every line at (`LineText.FitBound`).
- The byte counter of sb_fetch_stats; the sweep counter is modelled.
- Buffers of the scrollback, the parser and staged input are sequence fields, grids are sequences of rows: pointers into
  them and allocation failure are not modelled. Ring buffers and the layout's nodes are arrays.
- Reports, titles, bells and OSC passthrough: a finished OSC string and a request for a report change no screen state.
- The width tables of src/vt/vt_width.c are parameters; assumed of them is only that what has width is printable and that
  combining marks start at U+0300. Fields of the cell are 16-bit where the source has them so.
- vt_snapshot as a whole: only the replay of unfinished sequences at its end.
- LineReplay.LineReadBack: for lines that were kept whole; of one cut at the cap `LineText.LineReadsBack` says which text is
  left.
- Wrapping.TextFlows: for characters one column wide on a primary screen that scrolls as a whole.
- Editing.RepeatFed: for a plain ASCII character without a mark; `Dispatch.Repeat` is about all of them.
- Composite.PartialIsFull: client terminals are taken to draw a wide character in two columns and all else in one; pen
  bytes, modes and the cursor at the end of a frame are not part of the picture.
- Compositor.EmitDividers: takes no divider for a node whose first child is no node of the array, which no layout has.
- session_resize of a single pane does not reflow the tree; minimum sizes are stated on the layout with current
  rectangles. Views.View takes nodes and rectangles of every layout change as given, as Layout computes them.
- Views.View.Join: the client had a place in the table (Tables is about that); snapshots and raw output of a session with
  one pane are not part of the picture.
- SessionPanes.Session.SelectPane: takes the panes' rectangles as given.
- SessionPanes.Session.Reap: does not claim that the zoomed pane is live, since this path does not drop the zoom.
- Tables.Daemon.SessionAttach: claims membership, not that a client appears once in a table. Relay takes from the tables
  which clients a failing socket or a full table disconnected.
- Stdin.PaneInput.Drain: for a pane whose terminal is open; a closed one drops what is staged.
- ByteRing.Ring.constructor: for no ceiling or a power of two; the other ceilings are what QueuesIffPow2 and CeilingSound
  are about.
- Framing.ServeBursts: what a handler does with a dispatched frame, such as disconnecting, and the end of the stream are
  left out.
- Backfill.Machine.OnScrollback: pages start no earlier than what was asked for; the stall timer is an event that may come
  at any time.
- Transcript.Accumulator.Apply: counters are unbounded, and the model name and newest timestamp are left out; timestamps
  are sequences of characters, so cutting one inside a multi-byte character is not modelled.
- Usage.InsertSorts: the library sort is taken as insertion of the one bucket that may be out of place, which this lemma
  justifies.
- JSON parsing of transcript lines is a parameter, as are CRC strength and Unicode tables.
- The pager beyond stripping, message codecs other than frames, the history viewer, panels and themes: easier members.
