# Constellate, modelled in Dafny

Constellate shows the terminals of many machines in one browser workspace. An agent on each machine owns
the shells; it parses their output into an in-memory screen, keeps a bounded scrollback, and sends
run-length coded snapshots to a hub. The hub keeps the session records across connection drops and agent
restarts, and the browser arranges sessions in split panes and windows.

This project models the parts of that system that carry the hard invariants, and proves what they promise:

- **The terminal emulator.** `Terminal`, `Utf8`, `CsiParser`, `Sgr`, `Buffers`, `FrontEnd` and
  `EmulatorModel` give the emulator as a value and a step per byte. `ParserMachine`, `ScreenBuffer` and
  `Emulator` are the mutable objects of the source (fixed buffers with fill counts, row arrays that
  scrolling moves and replaces, two screens and a reference to the active one), proved to compute that step.
  `SequenceForms`, `ControlMeaning`, `EventMeaning` and `SgrMeaning` say outright, in numbers, cells and fields,
  what every sequence of bytes is and does. `Utf8Stream`, `CsiRoundTrip`, `ControlSequences`, `SgrRoundTrip`,
  `ScreenLaws`, `RegionLaws`, `EmulatorSafety`, `EmulatorRuns`, `Revision` and `AltScreen` hold the theorems over
  all byte streams and all runs. `Basics` is shared by all parts.
- **The snapshot pipeline.** `SnapshotEncoder` is the run-length coder, `SnapshotProducer` the
  change-gated cache over live emulators, `SnapshotTick` the whole tick.
- **Scrollback.** `Scrollback` is the bounded buffer, refining an unbounded log; `ScrollbackReaders` is its
  concurrent use by blocking readers.
- **Panes and windows.** `PaneTree`, `PaneSplitClose`, `PaneSplitShape`, `PaneGeometry`, `PaneTouch` and
  `PaneBindings` are the pane tree and its laws; `Workspace`, `WorkspaceInvariant`, `WorkspaceRuns`,
  `WorkspaceTrees`, `WorkspaceView` and `WorkspaceStore` are the windows and the store's actions.
- **Sessions.** `SessionStore` is the record store and the restart reconciliation, `SessionLifecycle` the
  connect, drop and restart protocol, `SessionMeaning` what each of its steps leaves in every record,
  `SessionSteps` the same protocol call by call.
- **Two small pieces.** `Overview` is the gate that turns snapshot production on and off, `RateLimiter` the
  login limiter.

`dafny verify dfyconfig.toml` checks the whole project.

## Findings

Some promises of the source are false as worded. Each has a lemma with a concrete input, or for all inputs
of the failing kind, and the exact condition under which the promise does hold.

- ED 1 and EL 1 index past the row while a wrap is pending, and a cursor move by a parameter that overflows
  64 bits leaves the grid. These are the only two faults (`EmulatorSafety.StepFaultIff`); both can be reached
  (`EraseFaultReachable`, `MoveFaultReachable`).
- The emulator's comment says that the revision advances whenever the visible grid changes. From a state on that
  is so exactly when nothing is waiting to be rendered there: a second change before a render does not move it
  (`Revision.RevTellsIff`, `SecondLetterHidden`). Renders with equal revisions still show equal screens.
- The limiter's comment promises at most `max` requests in any window. For a window of positive length that is so
  exactly for `max` one: a lower `max` still lets one request through, and for a higher one the sharp bound is
  one less than twice `max` (`RateLimiter.PromisedIff`, `GrantBound`, `WorstReaches`). Waiting exactly the
  advertised time is still refused (`RetryAfterExact`).
- A restart is reported once per change of the instance id exactly when no empty id stands between two
  different ones (`SessionLifecycle.RestartOncePerChange`, `HiddenRestart`).
- The fallback of the restart reconciliation is meant to leave no session behind, but it skips those that
  are to be relaunched (`SessionStore.SweepLeavesIff`).
- A teardown's two calls with a handshake between them leave live sessions disconnected under a live
  connection, and an open with a teardown inside leaves a session running without one (`SessionSteps.RaceStrands`,
  `OpenStrands`). Status follows the connection throughout a run exactly when every call comes in time, a
  condition on the state each call meets (`SessionSteps.InterleavedIff`).
- Closing a pane that was split off with a session returns the focus exactly when it was not put before a
  pane that has a left neighbour (`PaneSplitClose.CloseUndoesSplitWithSession`).
- The overview's viewer count is the number of subscribers exactly as long as nobody joins twice and nobody is
  dropped that had already left while another stays (`Overview.CountedIff`); two threads can turn the gate off
  under a watcher (`WatcherUnserved`), and the exact condition for the gate is `TellingIff`.
- Directional focus claims to match the rendered layout. Edges always meet, but the pane it names lies beside
  this one in every layout exactly under a condition on the tree (`PaneTouch.TouchesIff`, `LowerLeft`).
- Reloading a pane that does not exist is the one action that leaves a stale reload counter
  (`WorkspaceRuns.TidyIff`).

## Model

| member | source | states |
|---|---|---|
| `Utf8.Encode` | internal/agent/adapter/secondary/vt/emulator.go:166-181 | the encoding of section 3 of RFC 3629: one to four bytes, one exactly for ASCII, all others continuations |
| `Utf8.EncodeIs` | internal/agent/adapter/secondary/vt/emulator.go:166-181 | the bits of the rune, six to a continuation byte, and how many bytes it takes |
| `Utf8.DecodeEncode` | internal/agent/adapter/secondary/vt/emulator.go:136-181 | decoding inverts encoding, and the lead byte promises exactly the encoded length |
| `Utf8.EncodeDecode` | internal/agent/adapter/secondary/vt/emulator.go:136-164 | an accepted byte string is the only encoding of its rune |
| `Utf8.PrefixIncomplete` | internal/agent/adapter/secondary/vt/emulator.go:136-164 | a strict prefix of an encoding is never taken for a rune and still asks for more bytes |
| `FrontEnd.Step` | internal/agent/adapter/secondary/vt/emulator.go:98-164 | the buffered UTF-8 length stays below the length its lead byte promises; only scalars are printed |
| `FrontEnd.EventsAppend` | internal/agent/adapter/secondary/vt/emulator.go:98-164 | two writes make the same events and leave the same parser and buffer as one |
| `Utf8Stream.PrefixBuffered` | internal/agent/adapter/secondary/vt/emulator.go:120-164 | a partial encoding is buffered whole and prints nothing |
| `Utf8Stream.HighByte` | internal/agent/adapter/secondary/vt/emulator.go:120-181 | any byte above ASCII, malformed sequences included: what is buffered with it is printed if and only if it spells a scalar, else kept while shorter than its lead byte promises and dropped when not |
| `Utf8Stream.RoundTrip` | internal/agent/adapter/secondary/vt/emulator.go:118-181 | from ground, the encoding of any printable scalars prints exactly those scalars and leaves the front end idle |
| `Utf8Stream.ChunksAreOneWrite` | internal/agent/adapter/secondary/vt/emulator.go:92-164 | any sequence of Write calls equals one Write of the concatenation |
| `Utf8Stream.PrintsExactly` | internal/agent/adapter/secondary/vt/emulator.go:118-181 | under any chunking, the encoded text leaves the screens as printing those scalars one by one |
| `Utf8Stream.PrintsNeverFault` | internal/agent/adapter/secondary/vt/emulator.go:363-376 | printing can never leave the invariant |
| `CsiParser.Feed` | internal/agent/adapter/secondary/vt/parser.go:69-267 | every byte in every state keeps the accumulators within the source's fixed buffers |
| `CsiParser.FeedC0` | internal/agent/adapter/secondary/vt/parser.go:270-319 | the same for C0 bytes in every state |
| `ParserMachine.ParserMachine.FeedByte` | internal/agent/adapter/secondary/vt/parser.go:69-267 | the mutable parser with its three buffers takes exactly the step of the state machine and stores nothing out of range |
| `ParserMachine.ParserMachine.HandleC0` | internal/agent/adapter/secondary/vt/parser.go:270-319 | the same for the C0 handler |
| `ParserMachine.ParserMachine.FeedCsiByte` | internal/agent/adapter/secondary/vt/parser.go:135-227 | the same inside a control sequence, with its one unguarded store |
| `ParserMachine.ParseParamsLoop` | internal/agent/adapter/secondary/vt/parser.go:361-384 | the accumulator loop, wrapping at every digit, yields each field's decimal value reduced to 64 bits |
| `CsiRoundTrip.ParseRender` | internal/agent/adapter/secondary/vt/parser.go:361-384 | parsing the decimal rendering of any parameters gives them back, reduced to 64 bits |
| `CsiRoundTrip.EmbeddedC0` | internal/agent/adapter/secondary/vt/parser.go:270-319 | outside OSC and DCS strings, C0 bytes other than ESC, CAN and SUB inserted anywhere change neither the path nor the sequences recognised |
| `CsiRoundTrip.FeedParams` | internal/agent/adapter/secondary/vt/parser.go:135-193 | parameter bytes accumulate up to 31 and the rest are dropped |
| `CsiRoundTrip.RoundTrip` | internal/agent/adapter/secondary/vt/parser.go:69-227 | section 5.4 of ECMA-48: a rendered sequence of at most 31 parameter bytes, from any state and with C0 bytes inserted, yields exactly one action with those parameters and returns to ground |
| `CsiRoundTrip.OscRoundTrip` | internal/agent/adapter/secondary/vt/parser.go:235-348 | from any state, an operating system command of at most 511 bytes, ended by BEL or ESC \, yields exactly one action with that payload and returns to ground |
| `SequenceForms.EscForm` | internal/agent/adapter/secondary/vt/parser.go:87-133 | from any state, ESC, intermediates and a final byte are one action with at most three of the intermediates; the string terminator delivers what an OSC string had accumulated |
| `SequenceForms.CsiForm` | internal/agent/adapter/secondary/vt/parser.go:135-227 | from any state and with C0 bytes inserted, a control sequence with any private marker, digits, semicolons and colons, and intermediates is one action with at most three of marker and intermediates and the parameters of the first 31 bytes |
| `SequenceForms.MalformedSkipped` | internal/agent/adapter/secondary/vt/parser.go:135-233 | a byte out of place spoils the control sequence, which is skipped up to its final byte |
| `SequenceForms.ParamsOf` | internal/agent/adapter/secondary/vt/parser.go:359-384 | semicolons separate the parameters, an empty one is zero, and no bytes are no parameter |
| `SequenceForms.OscForm` | internal/agent/adapter/secondary/vt/parser.go:235-348 | an OSC string of any length with either ending is one action with the first 511 of its bytes that are not C0 |
| `SequenceForms.DcsForm` | internal/agent/adapter/secondary/vt/parser.go:250-264 | a device control string ends at its first backslash and is one discarded action |
| `SequenceForms.Cancels` | internal/agent/adapter/secondary/vt/parser.go:87-297 | CAN and SUB abort in every state; DEL is ignored inside a sequence, except that it ends an escape sequence after an intermediate |
| `SequenceForms.Controls` | internal/agent/adapter/secondary/vt/parser.go:270-319 | which C0 bytes are executed, ignored, swallowed in strings, or end one |
| `ControlSequences.WriteDispatches` | internal/agent/adapter/secondary/vt/emulator.go:98-116 | writing the bytes of a control sequence has exactly the effect of dispatching it, whatever was pending |
| `ControlMeaning.EditsMean` | internal/agent/adapter/secondary/vt/emulator.go:706-775 | ED, EL, IL, DL, SU, SD, DCH, ICH and ECH, for every screen and parameter list: what each final byte makes of each cell, that cursor, pen, region and the other screen stay, the dirty mark, and the only faults |
| `ControlMeaning.MovesMean` | internal/agent/adapter/secondary/vt/emulator.go:635-749 | every cursor move with all 64-bit parameters: where the cursor goes, when it would leave the grid, and that nothing else changes |
| `ControlMeaning.PenMeans` | internal/agent/adapter/secondary/vt/emulator.go:750-752 | SGR changes the pen and nothing else |
| `ControlMeaning.RegionMeans` | internal/agent/adapter/secondary/vt/emulator.go:753-768 | DECSTBM sets both margins, brought onto the screen, and homes the cursor, or does nothing when they are not in order |
| `ControlMeaning.SlotMeans` | internal/agent/adapter/secondary/vt/emulator.go:769-772 | CSI s fills the slot of the active screen with position and pen, CSI u brings them back onto the screen |
| `ControlMeaning.OthersIgnored` | internal/agent/adapter/secondary/vt/emulator.go:616-793 | every other final byte, and every other use of intermediates, changes nothing |
| `EventMeaning.C0Means` | internal/agent/adapter/secondary/vt/emulator.go:380-416 | each C0 byte on cursor and cells, from the byte: return, line feed with its scroll, tab, backspace, nothing |
| `EventMeaning.EscMeans` | internal/agent/adapter/secondary/vt/emulator.go:458-541 | ESC 7, 8, M and c from their bytes: save, restore, reverse index with its scroll, and the reset of both screens that keeps saved cursors and the choice of screen; every other escape sequence changes nothing |
| `EventMeaning.ModeMeans` | internal/agent/adapter/secondary/vt/emulator.go:780-825 | set and reset of modes 25, 47, 1047 and 1049, field by field; every other mode does nothing |
| `EventMeaning.ModesInTurn` | internal/agent/adapter/secondary/vt/emulator.go:780-792 | the modes of one sequence take effect in order |
| `EventMeaning.MarkMeans` | internal/agent/adapter/secondary/vt/emulator.go:545-560 | from the bytes of an OSC string of ASCII from space up, of any length and with either ending: marks A, B and D mean at the prompt, C running, and nothing else changes |
| `EventMeaning.NewTermMeans` | internal/agent/adapter/secondary/vt/emulator.go:70-88 | a new terminal: both screens blank, at least one row and column, nothing to render |
| `EventMeaning.ResizeMeans` | internal/agent/adapter/secondary/vt/emulator.go:186-320 | a resize refits both screens, the one in view and the other, cell by cell; at the current size it changes nothing |
| `Sgr.Apply` | internal/agent/adapter/secondary/vt/sgr.go:38-127 | every parameter list leaves a pen with valid colours and only documented attribute bits |
| `Sgr.ExtendedColor` | internal/agent/adapter/secondary/vt/sgr.go:148-178 | the colour after 38 or 48 is always valid, and never more parameters are taken than there are |
| `Sgr.TruecolorRoundTrip` | internal/agent/adapter/secondary/vt/sgr.go:148-188 | the three components can be read back from an encoded colour, which collides with no palette index |
| `Sgr.ApplyLoop` | internal/agent/adapter/secondary/vt/sgr.go:38-127 | the index loop with its skips computes the left-to-right reading of the list |
| `SgrMeaning.AttributesMean` | internal/agent/adapter/secondary/vt/sgr.go:52-84 | codes 1 to 9, 22 to 25 and 27 to 29: which attribute bit each sets or clears, in numbers, leaving the rest of the pen alone |
| `SgrMeaning.ColoursMean` | internal/agent/adapter/secondary/vt/sgr.go:86-125 | every other code: 30 to 37, 39, 90 to 97 on the foreground, 40 to 47, 49, 100 to 107 on the background, 0 on all three fields, the rest nothing |
| `SgrMeaning.ExtendedMeans` | internal/agent/adapter/secondary/vt/sgr.go:91-178 | 38 sets the foreground and 48 the background to the colour that follows, complete or cut short, and the list goes on after it |
| `SgrMeaning.ListMeans` | internal/agent/adapter/secondary/vt/sgr.go:38-46 | the list is read from left to right, and an empty one is a reset |
| `Sgr.ParseExtendedColor` | internal/agent/adapter/secondary/vt/sgr.go:148-178 | colour and number of parameters taken, as the reading of the rest of the list says |
| `Sgr.CodesCompose` | internal/agent/adapter/secondary/vt/sgr.go:38-127 | one list or two: cutting where no extended colour is cut changes nothing |
| `Sgr.ResetForgets` | internal/agent/adapter/secondary/vt/sgr.go:38-135 | a reset at top level forgets every earlier code and the pen |
| `SgrRoundTrip.PenRoundTrip` | internal/agent/adapter/secondary/vt/sgr.go:38-188 | section 8.3.117 of ECMA-48: every valid pen can be written as a list of codes, and applying them to whatever pen gives it back |
| `ScreenLaws.GrowAndShrink` | internal/agent/adapter/secondary/vt/emulator.go:294-320 | growing a screen and shrinking it back changes no cell; only a pending wrap and the scroll region are given up |
| `ScreenLaws.ResizedCell` | internal/agent/adapter/secondary/vt/emulator.go:294-320 | after any resize, a cell both sizes have keeps its content and every other cell is blank |
| `Buffers.ScrolledUpRow` | internal/agent/adapter/secondary/vt/emulator.go:420-434 | which old row each row of the scrolled screen is |
| `Buffers.ScrolledDownRow` | internal/agent/adapter/secondary/vt/emulator.go:438-454 | the same downwards |
| `Buffers.ErasedRow` | internal/agent/adapter/secondary/vt/emulator.go:829-856 | which rows each mode of ED clears, and what becomes of the cursor's row |
| `Buffers.InsertBySteps` | internal/agent/adapter/secondary/vt/emulator.go:896-917 | inserting is moving the tail right and blanking the gap, and nothing at a pending wrap |
| `Buffers.DeleteBySteps` | internal/agent/adapter/secondary/vt/emulator.go:919-940 | deleting is moving the tail left and blanking the end, and nothing at a pending wrap |
| `Buffers.Control` | internal/agent/adapter/secondary/vt/emulator.go:616-791 | every control sequence on a screen keeps the screen invariant and its size, or is one of the two faults |
| `ScreenLaws.PrintsParagraph` | internal/agent/adapter/secondary/vt/emulator.go:363-434 | text of any length, printed from wherever the cursor is down to the scroll region's bottom, fills its lines in reading order, cell for cell; what does not fit scrolls, and the rows of the region show the last lines, the rows that were there, or blanks |
| `ScreenLaws.PrintsBelow` | internal/agent/adapter/secondary/vt/emulator.go:363-416 | below the scroll region text of any length is written over the one row, which ends with the last rune that came to each column |
| `ScreenLaws.TextAppears` | internal/agent/adapter/secondary/vt/emulator.go:92-164 | the UTF-8 bytes of a text of any length, in whatever chunks they come, show it that way, down to the cells and the cursor an observer sees |
| `ScreenLaws.IndexBack` | internal/agent/adapter/secondary/vt/emulator.go:405-478 | reverse index takes back a line feed that did not scroll |
| `ScreenLaws.TabStop` | internal/agent/adapter/secondary/vt/emulator.go:380-401 | the least multiple of eight to the right, or the last column |
| `ScreenLaws.MovesPlainly` | internal/agent/adapter/secondary/vt/emulator.go:635-749 | parameters that do not overflow move the cursor by plain arithmetic, stopped at the edges |
| `RegionLaws.OutputSpares` | internal/agent/adapter/secondary/vt/emulator.go:405-791 | output of any length that only scrolls and moves the cursor leaves every row outside the scroll region as it is |
| `RegionLaws.RegionConfines` | internal/agent/adapter/secondary/vt/emulator.go:753-768 | the same from the bytes of DECSTBM on: the region they set is the one that confines |
| `ScreenLaws.ErasedCell` | internal/agent/adapter/secondary/vt/emulator.go:867-884 | which cells each mode of EL erases, and that nothing else changes |
| `ScreenLaws.ErasedChar` | internal/agent/adapter/secondary/vt/emulator.go:886-894 | which cells ECH erases, and that nothing else changes |
| `ScreenLaws.SaveRestore` | internal/agent/adapter/secondary/vt/emulator.go:482-518 | on the same screen at the same size, with the slot not written again, restoring brings back the saved pen and position, clamped, and changes no cell |
| `ScreenBuffer.CopyWithin` | internal/agent/adapter/secondary/vt/emulator.go:896-940 | an overlapping copy inside a row moves the old cells, whichever way it overlaps |
| `ScreenBuffer.ScreenBuffer.Resize` | internal/agent/adapter/secondary/vt/emulator.go:294-320 | the new grid of fresh, pairwise distinct rows is the resized screen |
| `ScreenBuffer.ScreenBuffer.ScrollUp` | internal/agent/adapter/secondary/vt/emulator.go:420-434 | moving and replacing row arrays scrolls the contents, and no two rows end up the same array |
| `ScreenBuffer.ScreenBuffer.ScrollDown` | internal/agent/adapter/secondary/vt/emulator.go:438-454 | the same downwards |
| `ScreenBuffer.ScreenBuffer.LineFeed` | internal/agent/adapter/secondary/vt/emulator.go:405-416 | the row arrays after a line feed show the line-fed screen |
| `ScreenBuffer.ScreenBuffer.Print` | internal/agent/adapter/secondary/vt/emulator.go:363-376 | the rune lands in the one cell, after the pending wrap |
| `ScreenBuffer.ScreenBuffer.EraseInLine` | internal/agent/adapter/secondary/vt/emulator.go:867-884 | panics exactly for mode 1 at a pending wrap, and otherwise erases as the screen function says |
| `ScreenBuffer.ScreenBuffer.EraseInDisplay` | internal/agent/adapter/secondary/vt/emulator.go:829-856 | the same for the display, replacing whole rows |
| `ScreenBuffer.ScreenBuffer.EraseChars` | internal/agent/adapter/secondary/vt/emulator.go:886-894 | erases in place to the end of the row at most |
| `ScreenBuffer.ScreenBuffer.InsertChars` | internal/agent/adapter/secondary/vt/emulator.go:896-917 | the in-place shift computes the inserted row |
| `ScreenBuffer.ScreenBuffer.DeleteChars` | internal/agent/adapter/secondary/vt/emulator.go:919-940 | the in-place shift computes the deleted row |
| `ScreenBuffer.ScreenBuffer.MoveCursor` | internal/agent/adapter/secondary/vt/emulator.go:635-749 | relative and absolute moves with Go's wrapping arithmetic; a cursor outside the grid is reported |
| `ScreenBuffer.ScreenBuffer.SetRegion` | internal/agent/adapter/secondary/vt/emulator.go:753-768 | the scroll region is set only when it is a region of the screen |
| `ScreenBuffer.ScreenBuffer.Control` | internal/agent/adapter/secondary/vt/emulator.go:616-791 | the whole switch computes the screen function, fault for fault |
| `Emulator.Emulator.constructor` | internal/agent/adapter/secondary/vt/emulator.go:70-88 | a new emulator has two blank screens that share no row |
| `Emulator.Emulator.PrintRune` | internal/agent/adapter/secondary/vt/emulator.go:363-376 | prints on the active screen, leaves the other one and its rows alone, and marks the emulator dirty |
| `Emulator.Emulator.ExecuteC0` | internal/agent/adapter/secondary/vt/emulator.go:380-401 | every C0 byte has the effect the model says |
| `Emulator.Emulator.SaveCursor` | internal/agent/adapter/secondary/vt/emulator.go:482-490 | saves position and pen in the slot of the active screen |
| `Emulator.Emulator.RestoreCursor` | internal/agent/adapter/secondary/vt/emulator.go:492-518 | restores them, clamped to the grid |
| `Emulator.Emulator.HardReset` | internal/agent/adapter/secondary/vt/emulator.go:520-541 | resets both screens; saved cursors and the choice of screen survive |
| `Emulator.Emulator.SwitchAltScreen` | internal/agent/adapter/secondary/vt/emulator.go:814-825 | the reference to the active screen always matches the flag |
| `Emulator.Emulator.SetDecModes` | internal/agent/adapter/secondary/vt/emulator.go:780-812 | the modes of one sequence are set in order |
| `Emulator.Emulator.DispatchCsi` | internal/agent/adapter/secondary/vt/emulator.go:616-791 | every control sequence with every parameter list does what the model says, or faults where it says |
| `Emulator.Emulator.DispatchEsc` | internal/agent/adapter/secondary/vt/emulator.go:458-478 | the same for escape sequences |
| `Emulator.Emulator.HandleOsc` | internal/agent/adapter/secondary/vt/emulator.go:545-563 | OSC 133 marks set the prompt state and nothing else |
| `Emulator.Emulator.FeedUtf8` | internal/agent/adapter/secondary/vt/emulator.go:120-164 | the inner loop consumes at least one byte and equals that many byte steps |
| `Emulator.Emulator.Write` | internal/agent/adapter/secondary/vt/emulator.go:92-164 | the nested loops over a chunk are the fold of the byte step, faults included; both screens stay well formed and share no row |
| `Emulator.Emulator.Resize` | internal/agent/adapter/secondary/vt/emulator.go:186-204 | both screens take the new size |
| `Emulator.Emulator.Rev` | internal/agent/adapter/secondary/vt/emulator.go:210-220 | one more than the last rendered revision exactly when dirty |
| `Emulator.Emulator.Render` | internal/agent/adapter/secondary/vt/emulator.go:224-250 | the row-by-row copy is the visible screen, with the revision it now has |
| `EmulatorModel.Run` | internal/agent/adapter/secondary/vt/emulator.go:98-164 | a stream that does not fault ends in a well-formed emulator: both grids rows by cols, cursors and scroll regions inside, every cell valid |
| `EmulatorModel.RunAppend` | internal/agent/adapter/secondary/vt/emulator.go:98-164 | Write is a fold: writing p then q leaves exactly the full state of writing p + q |
| `EmulatorModel.RunIsEvents` | internal/agent/adapter/secondary/vt/emulator.go:98-164 | the screens depend on the bytes only through the events they make |
| `EmulatorModel.StepHigh` | internal/agent/adapter/secondary/vt/emulator.go:120-164 | what a byte above ASCII does: the partial sequence is kept, dropped or printed, and never faults |
| `EmulatorSafety.MoveFaultIff` | internal/agent/adapter/secondary/vt/emulator.go:635-749 | a cursor move leaves the grid if and only if its 64-bit parameter is in the escaping range |
| `EmulatorSafety.StepFaultIff` | internal/agent/adapter/secondary/vt/emulator.go:616-940 | for every state and byte: each fault happens if and only if its own condition holds |
| `EmulatorSafety.RunsIff` | internal/agent/adapter/secondary/vt/emulator.go:98-164 | a stream runs to its end if and only if every byte is harmless where it comes |
| `EmulatorSafety.ShortFieldsFit` | internal/agent/adapter/secondary/vt/parser.go:361-384 | fields of at most 18 digits never overflow |
| `EmulatorSafety.TameRuns` | internal/agent/adapter/secondary/vt/emulator.go:98-164 | every stream with short fields and no ED 1 or EL 1 at a pending wrap runs to its end within the invariant |
| `EmulatorSafety.EraseFaultReachable` | internal/agent/adapter/secondary/vt/emulator.go:867-884 | one character on a one-column screen, then EL 1, indexes past the row |
| `EmulatorSafety.MoveFaultReachable` | internal/agent/adapter/secondary/vt/emulator.go:635-749 | a cursor-up by 2^63 + 1 from the top row leaves the grid |
| `EmulatorRuns.AliveIff` | internal/agent/adapter/secondary/vt/emulator.go:92-250 | a run of writes, resizes and renders stays within the invariant if and only if every byte is harmless |
| `EmulatorRuns.TameLives` | internal/agent/adapter/secondary/vt/emulator.go:92-250 | every run of writes that keep the two rules, with any resizes and renders between them, ends within the invariant |
| `Revision.RunHonest` | internal/agent/adapter/secondary/vt/emulator.go:363-940 | no output changes what is visible without leaving the dirty mark, nor clears it, nor moves the revision |
| `Revision.ResizeHonest` | internal/agent/adapter/secondary/vt/emulator.go:186-204 | the same for resizes |
| `Revision.RevPredictsRender` | internal/agent/adapter/secondary/vt/emulator.go:206-250 | Rev is what an immediately following Render returns, and rendering twice shows the same |
| `Revision.RevisionSound` | internal/agent/adapter/secondary/vt/emulator.go:206-250 | in every run revisions never decrease and two renders with one revision show the same cells, cursor and size |
| `Revision.SameRevSameScreen` | internal/agent/adapter/secondary/vt/emulator.go:206-250 | after a Render, as long as Rev does not move over any writes, resizes and renders, the screen is the one that was rendered |
| `Revision.RevTellsIff` | internal/agent/adapter/secondary/vt/emulator.go:206-220 | from a state on, Rev moves whenever what is visible has changed, in every run, if and only if nothing is waiting to be rendered there |
| `Revision.SecondLetterHidden` | internal/agent/adapter/secondary/vt/emulator.go:206-220 | two letters on a new screen: the second changes what is visible and not Rev |
| `AltScreen.ApplyIsolated` | internal/agent/adapter/secondary/vt/emulator.go:616-825 | no event other than RIS that stays on the alternate screen touches the primary one or its saved cursor |
| `AltScreen.Isolated` | internal/agent/adapter/secondary/vt/emulator.go:795-825 | the same for every byte stream |
| `AltScreen.EnterLeave` | internal/agent/adapter/secondary/vt/emulator.go:482-825 | the bytes of mode 1049 set, any output that stays there, and mode 1049 reset give back the primary screen with its cursor clamped to the last column |
| `Scrollback.LookAt` | internal/agent/domain/terminal/scrollback.go:98-133 | a reader gets the log from its cursor or from the oldest retained byte, waits only at the end, and sees end of stream exactly when closed there |
| `Scrollback.Scrollback.constructor` | internal/agent/domain/terminal/scrollback.go:20-29 | an empty log |
| `Scrollback.Scrollback.WithData` | internal/agent/domain/terminal/scrollback.go:86-94 | a log that starts with the preloaded data |
| `Scrollback.Scrollback.Write` | internal/agent/domain/terminal/scrollback.go:32-52 | the buffer stays exactly the last max bytes of everything written, and offsets stay absolute |
| `Scrollback.Scrollback.Close` | internal/agent/domain/terminal/scrollback.go:55-62 | closes and hands over the channel to be closed |
| `Scrollback.Scrollback.Oldest` | internal/agent/domain/terminal/scrollback.go:66-71 | the absolute offset of the oldest retained byte |
| `Scrollback.Scrollback.Snapshot` | internal/agent/domain/terminal/scrollback.go:75-82 | the retained tail of the log |
| `Scrollback.Scrollback.ReadLocked` | internal/agent/domain/terminal/scrollback.go:98-133 | the locked section answers as the log says |
| `ScrollbackReaders.StepKeeps` | internal/agent/domain/terminal/scrollback.go:32-133 | every step of any writer, closer or reader keeps the invariant of channels and readers: a reader's first slice starts where it asked, later ones where the last ended, or at the oldest byte not evicted |
| `ScrollbackReaders.AlwaysSafe` | internal/agent/domain/terminal/scrollback.go:32-133 | in every interleaving each reader gets increasing, non-overlapping log slices from the cursor it asked from on and skips only evicted bytes, and no channel is closed twice |
| `ScrollbackReaders.NoLostWakeup` | internal/agent/domain/terminal/scrollback.go:98-133 | a reader blocked on a channel neither closed nor about to be holds the current one, at the end of an open buffer |
| `ScrollbackReaders.OwedSteps` | internal/agent/domain/terminal/scrollback.go:32-133 | a blocked reader with something to learn is served by at most three steps already owed to it: its channel's closing, its wakeup and its look |
| `ScrollbackReaders.EofOnlyAtEnd` | internal/agent/domain/terminal/scrollback.go:98-133 | end of stream is told only by a closed buffer, to a reader whose last slice ends at the end of the log, or that asked for nothing before it |
| `ScrollbackReaders.ReceivedIsLog` | internal/agent/domain/terminal/scrollback.go:98-133 | without gaps, what a reader received is one contiguous piece of the log |
| `ScrollbackReaders.WriteStep` | internal/agent/domain/terminal/scrollback.go:32-52 | the buffer's write is the write step of the concurrent model: the bytes appended, the replaced channel owed its closing |
| `ScrollbackReaders.CloseStep` | internal/agent/domain/terminal/scrollback.go:55-62 | the buffer's close is the close step: closed, and the replaced channel owed its closing |
| `ScrollbackReaders.LookStep` | internal/agent/domain/terminal/scrollback.go:98-133 | the locked section is the look step: its answer is the slice, the end or the channel that the reader then has |
| `SnapshotEncoder.EncodeRow` | internal/agent/adapter/primary/hubclient/snapshot_encode.go:17-73 | the run accumulator yields a lossless encoding with different neighbours and no trailing blank run |
| `SnapshotEncoder.DropTrailing` | internal/agent/adapter/primary/hubclient/snapshot_encode.go:62-70 | the trailing-drop loop removes at most one run |
| `SnapshotEncoder.Minimal` | internal/agent/adapter/primary/hubclient/snapshot_encode.go:17-73 | no other encoding of the row has fewer runs |
| `SnapshotEncoder.Canonical` | internal/agent/adapter/primary/hubclient/snapshot_encode.go:17-73 | the encoding of a row is unique |
| `SnapshotEncoder.Lossless` | internal/agent/adapter/primary/hubclient/snapshot_encode.go:17-73 | runs and row length determine the row |
| `SnapshotEncoder.EncodeSnapshot` | internal/agent/adapter/primary/hubclient/snapshot_encode.go:17-89 | every line encodes its row; cursor, size, revision and ids are copied |
| `SnapshotEncoder.EncodeLocalRow` | internal/agent/adapter/primary/localhost/server.go:155-196 | the second copy's loop meets the same specification |
| `SnapshotEncoder.EncodeLocalSnapshot` | internal/agent/adapter/primary/localhost/server.go:152-214 | every line encodes its row; the machine id is left empty |
| `SnapshotEncoder.EncodeTwice` | internal/agent/adapter/primary/localhost/server.go:152-214 | on every screen the two copies give the same snapshot but for the machine id |
| `SnapshotEncoder.CopiesAgree` | internal/agent/adapter/primary/hubclient/snapshot_encode.go:17-89 | any two snapshots of one screen agree on everything but the machine id |
| `SnapshotEncoder.SnapshotLossless` | internal/agent/adapter/primary/hubclient/snapshot_encode.go:17-89 | a snapshot determines the screen it was made from |
| `SnapshotEncoder.ViewRoundTrip` | internal/agent/adapter/primary/hubclient/snapshot_encode.go:17-89 | drawing a snapshot, runs in order and blanks after them, gives back size, cursor and every cell of the screen it was made from |
| `SnapshotProducer.Producer.SetEnabled` | internal/agent/app/snapshot/producer.go:52-60 | enabling forgets every recorded revision |
| `SnapshotProducer.SendAllSends` | internal/agent/app/snapshot/producer.go:99-115 | over distinct sessions, a tick sends in order exactly those that were due when it began and could be rendered |
| `SnapshotProducer.SendAllRecords` | internal/agent/app/snapshot/producer.go:99-115 | and records the revision of each snapshot it sent, leaving every other record alone |
| `SnapshotProducer.Producer.RunOnce` | internal/agent/app/snapshot/producer.go:78-124 | nothing while disabled; otherwise exactly those snapshots, those records, entry by entry, and the gone sessions forgotten |
| `SnapshotTick.WholeTickIsRunOnce` | internal/agent/app/snapshot/producer.go:78-124 | reading, locking, the turns of the loop and pruning, uninterrupted, send and record exactly what RunOnce does |
| `SnapshotProducer.Producer.PruneLoop` | internal/agent/app/snapshot/producer.go:117-123 | exactly the sessions that are gone are forgotten |
| `SnapshotProducer.StepKeeps` | internal/agent/app/snapshot/producer.go:52-124 | output, resizes, opens, exits, toggles and the steps of a tick keep the cache invariant, in any order |
| `SnapshotProducer.Agreement` | internal/agent/app/snapshot/producer.go:78-124 | whenever the recorded revision is the emulator's, the last snapshot sent since the last enable is exactly the current screen |
| `SnapshotProducer.EveryoneServed` | internal/agent/app/snapshot/producer.go:78-124 | after a tick every session it saw has a snapshot since the last enable |
| `SnapshotProducer.NeverResent` | internal/agent/app/snapshot/producer.go:78-124 | snapshots of one session between two enables carry strictly increasing revisions, so nothing unchanged is sent again |
| `PaneTree.FindParent` | web/src/features/terminal/paneTree.ts:59-74 | what is found is a split with the node among its direct children |
| `PaneTree.FindNode` | web/src/features/terminal/paneTree.ts:37-46 | finds a node with the id exactly when the tree has one |
| `PaneTree.ContainsId` | web/src/features/terminal/paneTree.ts:110-116 | true exactly for the ids of the tree |
| `PaneTree.MapChild` | web/src/features/terminal/paneTree.ts:48-57 | with unique ids, mapping a node changes exactly the child that holds it |
| `PaneTree.RemoveLeaf` | web/src/features/terminal/paneTree.ts:79-108 | every split keeps at least two children, and the focus offered is a leaf of what remains |
| `PaneTree.ClosePane` | web/src/features/terminal/paneTree.ts:160-173 | the same, with a fresh leaf for the last pane; the focus is always a leaf |
| `PaneSplitClose.AddBesideIsSplitAt` | web/src/features/terminal/paneTree.ts:125-158 | finding the parent and mapping is a single descent that joins a group of the same direction and wraps otherwise |
| `PaneSplitClose.SplitInOrder` | web/src/features/terminal/paneTree.ts:125-158 | a split puts exactly one leaf into the visual order, right after (or before) the pane that was split |
| `PaneSplitShape.SplitDraws` | web/src/features/terminal/paneTree.ts:125-158 | in every layout of the new tree the new pane is drawn right after (or before) the old one in the direction asked for, with the same extent across; a new split node comes in if and only if the pane was in no split of that direction, and holds the two alone |
| `PaneSplitShape.RemoveAtParent` | web/src/features/terminal/paneTree.ts:79-108 | closing a pane shortens its parent, which a last sibling replaces, and changes nothing else; the focus goes to the first pane in visual order of the sibling to the left, or of the next one |
| `PaneSplitShape.FirstInOrder` | web/src/features/terminal/paneTree.ts:118-123 | the first leaf is the first in the visual order |
| `PaneSplitClose.RemoveUndoesSplit` | web/src/features/terminal/paneTree.ts:79-108 | removing the new leaf gives back the tree, node for node |
| `PaneSplitClose.CloseUndoesSplit` | web/src/features/terminal/paneTree.ts:125-173 | closing the leaf a split made gives back the tree, with the focus on the pane that was split |
| `PaneSplitClose.ClearKeepsShape` | web/src/features/terminal/paneTree.ts:186-191 | clearing a session changes no id and no split |
| `PaneSplitClose.CloseUndoesSplitWithSession` | web/src/features/terminal/paneTree.ts:208-245 | the same up to clearing the session; the focus returns if and only if the leaf was not put before a pane with a left neighbour in its group |
| `PaneGeometry.Climb` | web/src/features/terminal/paneTree.ts:361-371 | one turn of the climb: the parent answers, or passes the question one level up |
| `PaneGeometry.MovePaneFocus` | web/src/features/terminal/paneTree.ts:350-372 | the climbing loop terminates with the answer of the walk from the root; on every placement that is nothing exactly at the edge moved to, and otherwise a pane that begins (left, up: ends) where this one ends (begins); nothing for an unknown pane |
| `PaneGeometry.EdgeLeafAtEdge` | web/src/features/terminal/paneTree.ts:333-338 | the edge leaf is a leaf of the subtree and has the subtree's own near edge |
| `PaneGeometry.FocusMatches` | web/src/features/terminal/paneTree.ts:340-372 | in every tiling: no answer if and only if the pane's edge lies on the workspace's edge, and otherwise a leaf that begins where the pane ends, and across the movement no later than the pane |
| `PaneGeometry.PlacementTiles` | web/src/features/terminal/paneTree.ts:12-23 | sharing out each split in proportion to any positive sizes tiles the workspace |
| `PaneGeometry.FocusAgreesWithLayout` | web/src/features/terminal/paneTree.ts:340-372 | left, right, up and down, on the edges of the rectangles, for every positive assignment of sizes: no answer exactly at that edge of the workspace, and otherwise the two panes touch there; they lie beside each other exactly when this one begins, across the movement, before the other ends |
| `PaneTouch.TouchesIff` | web/src/features/terminal/paneTree.ts:340-372 | the named pane lies beside this one in every layout if and only if, where the walk turns, this pane is first across the movement or the neighbour is not split across it |
| `PaneTouch.LowerLeft` | web/src/features/terminal/paneTree.ts:328-338 | two columns of two: to the right of the lower left pane the walk names the upper right one, which that condition excludes |
| `PaneBindings.BindLeaf` | web/src/features/terminal/paneTree.ts:175-201 | binding or detaching changes the one leaf's session and nothing else |
| `PaneBindings.ClearBindings` | web/src/features/terminal/paneTree.ts:186-191 | clearing removes exactly the bindings of that session |
| `PaneBindings.LayoutKeeps` | web/src/features/terminal/paneTree.ts:251-259 | recording a layout changes no id, leaf or binding |
| `PaneBindings.LayoutRecorded` | web/src/features/terminal/paneTree.ts:251-259 | the split with that id has the layout, and every other node is as it was; a leaf or unknown id takes none |
| `PaneBindings.ClearSameTree` | web/src/features/terminal/paneTree.ts:186-193 | clearing a session changes no node, direction, layout or order |
| `PaneBindings.BindSameTree` | web/src/features/terminal/paneTree.ts:178-206 | nor does binding or detaching |
| `PaneBindings.SplitPaneGrows` | web/src/features/terminal/paneTree.ts:125-158 | ids stay unique, one leaf is added and every binding is kept |
| `PaneBindings.RemoveShrinks` | web/src/features/terminal/paneTree.ts:79-108 | exactly that leaf and its binding go |
| `PaneBindings.ClosePaneShrinks` | web/src/features/terminal/paneTree.ts:160-173 | the same for closing, with a fresh empty leaf in place of the last one |
| `Workspace.LeafOfSession` | web/src/features/terminal/paneTree.ts:299-306 | a leaf bound to the session, or nothing exactly when there is none |
| `Workspace.WindowOfSession` | web/src/features/terminal/windowList.ts:62-71 | a window and leaf showing the session, or nothing exactly when no window does |
| `WorkspaceInvariant.FindLeafExact` | web/src/features/terminal/paneTree.ts:285-289 | answers for leaves and only for them, with the session the leaf is bound to |
| `WorkspaceInvariant.OwnerExact` | web/src/features/terminal/windowList.ts:58-60 | an owner is found exactly for the leaves of the workspace, and owns the leaf |
| `WorkspaceInvariant.UpdateIsReplace` | web/src/features/terminal/windowList.ts:75-94 | with distinct window ids, an update replaces exactly the one window |
| `WorkspaceInvariant.ClearFrame` | web/src/features/terminal/windowList.ts:99-107 | clearing everywhere keeps every window and pane and removes exactly that session's bindings |
| `WorkspaceInvariant.RetainBindings` | web/src/store/index.ts:430-447 | reconciling with the server keeps exactly the bindings of the sessions it listed |
| `WorkspaceInvariant.ReorderMoves` | web/src/features/terminal/windowList.ts:162-175 | the moved window stands at the clamped index and the others keep their order |
| `WorkspaceRuns.CloseWindowBecomes` | web/src/features/terminal/windowList.ts:130-149 | the window's panes and bindings go, and the active window is one that stays, or a fresh one |
| `WorkspaceRuns.AssignBecomes` | web/src/store/index.ts:741-755 | the session moves to the pane out of every other pane of every window, and the pane gives up what it showed |
| `WorkspaceRuns.SplitOffBecomes` | web/src/store/index.ts:791-813 | the session moves to the new leaf out of every window |
| `WorkspaceRuns.StepMeaning` | web/src/store/index.ts:430-847 | every action keeps the workspace invariant, and changes panes and bindings exactly as its abstract effect says |
| `WorkspaceTrees.StepTrees` | web/src/store/index.ts:430-847 | after every action: each window's tree, node by node, and place in the list, the value of every reload counter, and the list of sessions |
| `WorkspaceTrees.DroppedTree` | web/src/store/index.ts:791-813 | a session dropped on an edge: left and right put the new pane before and after the target horizontally, top and bottom vertically, in every layout |
| `WorkspaceTrees.OpenTargetIs` | web/src/store/index.ts:822-847 | a new shell goes to the pane, unless the session it shows runs; then to the first pane of its window in visual order that shows nothing |
| `WorkspaceTrees.FirstEmptyIs` | web/src/features/terminal/paneTree.ts:308-317 | the empty pane found is the first without a session in visual order |
| `WorkspaceTrees.RunningIff` | web/src/store/index.ts:764-772 | a tree shows a running session if and only if one of its bindings is to a session listed as running |
| `WorkspaceRuns.AlwaysSound` | web/src/store/index.ts:632-847 | after every sequence of actions: windows non-empty, the active one exists, each focus is a leaf of its own window, ids unique across windows, splits have two children or more, each session in at most one leaf |
| `WorkspaceView.StepSeen` | web/src/store/index.ts:632-847 | after every action: which window is active, which pane it focuses, for a closed pane the one closePane offers, and that no other window's focus moves; an unknown pane changes nothing |
| `WorkspaceRuns.TidyIff` | web/src/store/index.ts:641-725 | no reload counter outlives its pane, except by reloading a pane that does not exist |
| `WorkspaceRuns.DiveShows` | web/src/store/index.ts:778-789 | after a dive the focused pane of the active window shows the session |
| `WorkspaceRuns.OpenKeepsRunning` | web/src/store/index.ts:815-847 | opening a new shell never takes a pane from a running session |
| `WorkspaceRuns.StoreCloseUndoesSplit` | web/src/store/index.ts:683-705 | closing the pane a split made puts the workspace back, with that window active and that pane focused |
| `WorkspaceStore.Reconcile` | web/src/store/index.ts:437-446 | the loop over windows and bound sessions keeps exactly the bindings to known sessions |
| `WorkspaceStore.DropCounters` | web/src/store/index.ts:647-652 | exactly the listed panes' counters are deleted |
| `WorkspaceStore.Store.NewWindow` | web/src/store/index.ts:632-635 | the fresh window is active with its one pane focused; every other window, pane and binding is as it was |
| `WorkspaceStore.Store.RemoveOne` | web/src/store/index.ts:641-654 | the window's panes, bindings and reload counters go, dropped one by one; its left neighbour becomes active if it was |
| `WorkspaceStore.Store.SetActive` | web/src/store/index.ts:660-663 | the window becomes active and nothing else moves; an unknown id is ignored |
| `WorkspaceStore.Store.Reorder` | web/src/features/terminal/windowList.ts:162-175 | the splice moves one window; no pane, binding, focus or active window changes |
| `WorkspaceStore.Store.Focus` | web/src/store/index.ts:674-681 | the pane's window comes to the front with the pane focused; a stale pane id changes nothing |
| `WorkspaceStore.Store.Split` | web/src/store/index.ts:683-691 | one empty pane more, drawn right after the pane in the direction asked for, focused, in the pane's window, which comes to the front; no binding and no other window changes |
| `WorkspaceStore.Store.Close` | web/src/store/index.ts:693-705 | the pane, its binding and its counter go; its window comes to the front with a live focus |
| `WorkspaceStore.Store.DetachOne` | web/src/store/index.ts:710-718 | the pane gives up its session and takes its window's focus; the active window stays |
| `WorkspaceStore.Store.Reload` | web/src/store/index.ts:722-725 | the pane's counter is one more, and nothing else moves |
| `WorkspaceStore.Store.SetLayoutOf` | web/src/store/index.ts:730-736 | the split has the layout; no pane, binding or focus moves, over every window |
| `WorkspaceStore.Store.AssignTo` | web/src/store/index.ts:741-755 | the session leaves every other pane of every window for this one, whose window comes to the front |
| `WorkspaceStore.Store.AssignSidebar` | web/src/store/index.ts:764-772 | the same, refused while the active window shows a running session |
| `WorkspaceStore.Store.DiveTo` | web/src/store/index.ts:778-789 | the window that shows the session comes to the front on that pane, or the session moves to the focused pane |
| `WorkspaceStore.Store.SplitBySession` | web/src/store/index.ts:791-813 | the session leaves every window for a new focused pane on the named side of the target |
| `WorkspaceStore.Store.OpenIn` | web/src/store/index.ts:822-847 | the new shell lands in the pane, or in the first empty one of its window if that runs something, or nowhere |
| `WorkspaceStore.Store.Refresh` | web/src/store/index.ts:430-447 | exactly the bindings to listed sessions stay, and those are the sessions known; nothing else moves |
| `WorkspaceStore.Store.EndSession` | web/src/store/index.ts:541-549 | the session no longer runs; nothing else moves |
| `WorkspaceStore.Store.Delete` | web/src/store/index.ts:551-578 | exactly that session and its bindings go; nothing else moves |
| `SessionStore.Store.SetExited` | internal/hub/adapter/secondary/memory/session_store.go:103-114 | that record is exited with its code and time; an unknown id is an error and changes nothing |
| `SessionStore.Store.SetRunning` | internal/hub/adapter/secondary/memory/session_store.go:169-180 | that record runs, its time untouched |
| `SessionStore.Store.SetLost` | internal/hub/adapter/secondary/memory/session_store.go:184-196 | that record is lost at that time, its other fields kept |
| `SessionStore.Store.Delete` | internal/hub/app/sessions/usecase.go:121-156 | a live session is refused unless forced; otherwise exactly that record goes |
| `SessionStore.Store.MarkRunningLost` | internal/hub/adapter/secondary/memory/session_store.go:120-132 | in any order of iteration: exactly the machine's live sessions without auto-relaunch become lost |
| `SessionStore.Store.MarkRunningDisconnected` | internal/hub/adapter/secondary/memory/session_store.go:137-149 | exactly the machine's running sessions become disconnected |
| `SessionStore.Store.MarkDisconnectedRunning` | internal/hub/adapter/secondary/memory/session_store.go:154-165 | exactly the machine's disconnected sessions run again |
| `SessionStore.Store.AutoRelaunchSessions` | internal/hub/adapter/secondary/memory/session_store.go:73-84 | exactly the machine's live sessions with auto-relaunch, each once |
| `SessionStore.Store.ReconcileMachineRestart` | internal/hub/app/sessions/usecase.go:178-210 | an uninterrupted reconciliation leaves each live session of the machine running if and only if it is auto-relaunched and was reopened, otherwise lost, and touches nothing else |
| `SessionStore.SweepLeavesIff` | internal/hub/app/sessions/usecase.go:181-187 | the fallback sweep leaves no live session if and only if none is to be relaunched, and does not touch those |
| `SessionLifecycle.AlwaysConsistent` | internal/hub/adapter/primary/wsagent/inbound.go:58-109 | in every run a live session is running exactly while its machine is connected |
| `SessionLifecycle.HelloExact` | internal/hub/adapter/primary/wsagent/inbound.go:79-109 | a handshake leaves none of the machine's sessions disconnected, loses a session exactly on a restart that did not reopen it, and touches no other machine and no ended session |
| `SessionMeaning.StepRecords` | internal/hub/adapter/primary/wsagent/inbound.go:58-109 | every record after every step, field by field: status, time, exit code, auto-relaunch; which records come and go |
| `SessionMeaning.StepRegistry` | internal/hub/adapter/secondary/agentlink/registry.go:126-151 | connections and instances change only by a handshake, and by the teardown of the live connection |
| `SessionMeaning.LostIff` | internal/hub/app/sessions/usecase.go:178-210 | a session is lost after a handshake if and only if it was before, or the machine comes back as another instance and the session was live and not both to be relaunched and reopened |
| `SessionLifecycle.NeverLost` | internal/hub/app/registry/usecase.go:52-72 | while a machine keeps one non-empty instance id, none of its sessions becomes lost in any run |
| `SessionLifecycle.BlipRoundTrip` | internal/hub/app/sessions/usecase.go:212-224 | after a drop and a handshake of the same instance every session is as it was, but for the time stamp |
| `SessionLifecycle.NeverBack` | internal/hub/adapter/secondary/agentlink/registry.go:126-151 | a connection that was replaced or removed is never the live one again |
| `SessionLifecycle.ReplacedTeardown` | internal/hub/adapter/primary/wsagent/inbound.go:58-77 | the teardown of a replaced connection, however late, changes nothing |
| `SessionLifecycle.RestartsAreSwitches` | internal/hub/app/registry/usecase.go:56-72 | restarts found in a run are the places where a known id is followed at once by another |
| `SessionLifecycle.RestartOncePerChange` | internal/hub/app/registry/usecase.go:56-72 | never more restarts than changes of the non-empty ids, and exactly as many if and only if no empty id stands between two different ones |
| `SessionLifecycle.HiddenRestart` | internal/hub/app/registry/usecase.go:61-63 | handshakes as "a", without an id, and as "b": one change, and no restart found |
| `SessionSteps.CallIff` | internal/hub/adapter/primary/wsagent/inbound.go:58-109 | call by call (connect, restore, fetch, relaunch, sweep, remove, mark, accept, write a record): each keeps status and connection in line, up to what is under way, if and only if it comes in time |
| `SessionSteps.InterleavedIff` | internal/hub/adapter/primary/wsagent/inbound.go:58-109 | over every interleaving of those calls: status follows the connection throughout if and only if every call comes in time |
| `SessionSteps.QuietSettled` | internal/hub/adapter/primary/wsagent/inbound.go:58-109 | with nothing under way, in line up to what is under way is exactly the consistency of the one-step protocol |
| `SessionSteps.TeardownAtOnce` | internal/hub/adapter/primary/wsagent/inbound.go:60-77 | made at once, the two calls of a teardown are the one-step teardown and in time |
| `SessionSteps.HelloAtOnce` | internal/hub/adapter/primary/wsagent/inbound.go:79-109 | the same for a handshake of the same instance |
| `SessionSteps.RestartAtOnce` | internal/hub/app/sessions/usecase.go:178-210 | the same for a restart with its reconciliation, in whatever order it takes the sessions |
| `SessionSteps.OpenAtOnce` | internal/hub/app/sessions/usecase.go:56-86 | the same for an open |
| `SessionSteps.RaceStrands` | internal/hub/adapter/primary/wsagent/inbound.go:60-77 | a handshake of the same instance between the two calls of a teardown leaves every live session disconnected although the machine is connected |
| `SessionSteps.OpenStrands` | internal/hub/app/sessions/usecase.go:66-81 | a teardown between the agent's answer and the record of an open leaves a session running that no connection can reach |
| `SessionLifecycle.ControlPlane.RemoveIf` | internal/hub/adapter/secondary/agentlink/registry.go:143-151 | removes exactly the live connection, and says whether it did |
| `SessionLifecycle.ControlPlane.Register` | internal/hub/app/registry/usecase.go:56-72 | records the instance, and reports a restart exactly when both ids are non-empty and differ |
| `SessionLifecycle.ControlPlane.HandleHello` | internal/hub/adapter/primary/wsagent/inbound.go:58-109 | the handshake step of the protocol |
| `SessionLifecycle.ControlPlane.HandleClosed` | internal/hub/adapter/primary/wsagent/inbound.go:60-77 | the teardown step of the protocol |
| `SessionLifecycle.ControlPlane.OpenSession` | internal/hub/app/sessions/usecase.go:56-86 | a running record, or none when the agent cannot be reached |
| `SessionLifecycle.ControlPlane.MarkExited` | internal/hub/app/sessions/usecase.go:161-170 | an exit report for an unknown session is ignored |
| `Overview.Gate` | internal/hub/app/overview/overview.go:73-92 | under every interleaving: control calls alternate starting with on; with no call pending the last one is the recorded state; with nobody between changing the viewers and the end of applyGate, on exactly when the viewer count is positive |
| `Overview.TellingIff` | internal/hub/app/overview/overview.go:97-193 | throughout a run the count is positive exactly while somebody is subscribed, if and only if every leave and drop counts off less than the count exactly when somebody stays |
| `Overview.GateServes` | internal/hub/app/overview/overview.go:73-193 | in such runs the gate, at rest, is on exactly when somebody is subscribed |
| `Overview.StepInv` | internal/hub/app/overview/overview.go:73-193 | every step of every thread keeps the lock, the recorded state and the alternation |
| `Overview.JoinCountedIff` | internal/hub/app/overview/overview.go:140-149 | joining keeps the viewer count right exactly when the subscriber is new |
| `Overview.LeaveCounted` | internal/hub/app/overview/overview.go:178-188 | leaving always keeps it right |
| `Overview.DropCountedIff` | internal/hub/app/overview/overview.go:122-131 | dropping keeps it right exactly when all the dropped were subscribed, or nobody is left |
| `Overview.CountedIff` | internal/hub/app/overview/overview.go:97-193 | throughout a run the count is the number of subscribers if and only if nobody joins twice and nobody is dropped that had gone while another stays |
| `Overview.WatcherUnserved` | internal/hub/app/overview/overview.go:97-136 | two threads: one copies two subscribers, one of them leaves, the first drops it again; the gate ends off while the other watches |
| `Overview.UseCase.ApplyGate` | internal/hub/app/overview/overview.go:77-92 | without interruption: at most one call, only to change the state, and then the state is right |
| `Overview.UseCase.Join` | internal/hub/app/overview/overview.go:140-149 | the subscriber and the count |
| `Overview.UseCase.Leave` | internal/hub/app/overview/overview.go:178-193 | the subscriber and the count, and whether it was there |
| `Overview.UseCase.FanOut` | internal/hub/app/overview/overview.go:114-120 | exactly the subscribers that refused the send, each once |
| `Overview.UseCase.Drop` | internal/hub/app/overview/overview.go:122-131 | all of them go, and the count falls by as many, to zero at the least |
| `RateLimiter.RetryAfterExact` | internal/hub/adapter/primary/httpapi/ratelimit.go:59-72 | a refused key is refused again up to and including the advertised time, and granted after it |
| `RateLimiter.EvictionTransparent` | internal/hub/adapter/primary/httpapi/ratelimit.go:50-81 | with a clock that does not go back, sweeping never changes an answer |
| `RateLimiter.GrantsWithinPotential` | internal/hub/adapter/primary/httpapi/ratelimit.go:50-72 | what a key can still be granted in an interval of one window, from any table |
| `RateLimiter.GrantBound` | internal/hub/adapter/primary/httpapi/ratelimit.go:50-81 | a key gets at most one less than twice the budget in any interval of one window's length |
| `RateLimiter.WorstReaches` | internal/hub/adapter/primary/httpapi/ratelimit.go:50-72 | and there are requests that reach it, for every budget and window |
| `RateLimiter.PromisedIff` | internal/hub/adapter/primary/httpapi/ratelimit.go:20-23 | the promise of at most max in any window holds exactly for max one, or for a window of no length and max above one |
| `RateLimiter.Limiter.Evict` | internal/hub/adapter/primary/httpapi/ratelimit.go:75-81 | exactly the elapsed entries go, in any order of iteration |
| `RateLimiter.Limiter.Allow` | internal/hub/adapter/primary/httpapi/ratelimit.go:50-72 | who is granted, the wait of those who are not, the entry it leaves, and that only every hundredth call drops the other elapsed entries |

## Left out

- Emulator.Emulator.Write: says nothing about the object after a fault. The source panics at the first kind; after the second the cursor lies outside the grid and a later index may panic.
- ScreenLaws.ResizedCell: screens are at most 2^47 columns and rows, more than Go can allocate; larger sizes are not modelled.
- Revision.RevisionSound: the revision is an unbounded number; its wrap after 2^64 dirty renders is not modelled.
- ScreenBuffer.ScreenBuffer.ScrollUp: the methods that the source puts on the emulator and applies to its active screen are methods of the screen here.
- SnapshotEncoder.EncodeRow: the text of a run is its sequence of runes, not its UTF-8 bytes.
- SnapshotProducer.StepKeeps: sends succeed and session ids are not reused.
- ScrollbackReaders.AlwaysSafe: a channel is a number that is never used twice; offsets are unbounded.
- WorkspaceRuns.AlwaysSound: starts from any sound workspace and takes the ids an action draws to be new. Window names, the selection set, the parsing and the pruning of stored workspaces and the storage itself are not modelled.
- SessionLifecycle.AlwaysConsistent: a teardown, a handshake with its reconciliation and an open are one step each; SessionSteps.InterleavedIff takes them apart. Store calls succeed in both.
- SessionLifecycle.ControlPlane.HandleHello: failures of the machine store and the checks on the first message are not modelled.
- Overview.Gate: which sends fail is free, among the subscribers copied; the cached snapshots themselves are not modelled.
- RateLimiter.GrantBound: time is counted in whole ticks, and a key is an opaque id; how it is made from a client's address is not modelled.
- The transport: WebSocket, yamux streams, the Unix socket and the frame codec.
- SQLite stores and migrations; the memory stores give the meaning of the bulk updates.
- Processes and pseudo-terminals, system metrics, installation and the command line.
- Keys, one-time codes, passkeys and tokens.
- The tail text for notifications, the dashboard, audit, projects and name generation: they would only add easy members.
- The user interface: components, touch layouts and the service worker.
