# rusty-chat: the client's interaction and viewport logic in Dafny

rusty-chat is a two-party terminal chat. Each side holds one TCP connection, a
log of lines of the form `sender: text`, and a text pane that shows part of
that log above an input row. This project models the `App` of `src/app.rs`
apart from the terminal and the network:

- the state: the input buffer, the mode (`Normal` or `Editing`), the message
  log, the first shown entry `show_idx`, the cursor `(line, col)` and the
  closed flag (`Chat.App`);
- the key dispatch of the event loop: `i`, `q`, `y` and arrows in Normal mode,
  characters, Backspace, Enter and Esc in Editing mode (`Chat.App.HandleKey`);
- cursor movement with its row-length clamps (`Cursor.Move`,
  `Chat.App.MoveCursor`) over `get_selected_line` / `get_selected_line_len`;
- the arithmetic of `ui`: the scroll update, the rows drawn in the pane, the
  "more above" / "more below" markers and the cursor's screen row
  (`Viewport`, `Chat.App.UpdateViewport`, `Chat.App.CursorY`, `Chat.App.Ui`);
- one iteration of the receiver's loop, which appends `peer: line`
  (`Chat.App.AppendRemote`), and the event loop as a sequence of ticks
  (`Chat.App.Run`).

What goes to the peer and to the clipboard is recorded in ghost fields:
`sent` (texts passed to `send`), `copied` (texts written to the clipboard)
and `shutDown` (whether the connection was closed). Lengths are UTF-8 byte
counts, as Rust's `String::len`; `trim` uses Rust's notion of whitespace
(the Unicode White_Space property).

Modules: `Optional` (Option), `Text` (byte length, trim, line format, the
copied substring), `Keys` (key codes), `Cursor`, `Viewport`, `Chat`.

The main results:

- every arrow key keeps the cursor on the log or the input row, and a cursor
  on a position of its row stays on one (`Cursor.MoveAllStaysInBounds`);
- Enter sends the trimmed input once, appends exactly `You: <trimmed>` and
  clears the input, and does nothing for blank input (`Chat.App.HandleKey`);
  copying that echo line gives back the text sent (`Text.CopyLocalEcho`);
- after a Normal-mode frame with a pane of at least three rows the cursor is
  drawn on the row that shows its own entry, or on the input row
  (`Viewport.NormalCursorOnItsRow`, `Chat.App.Ui`); in Editing mode it is on
  the input row, the last row drawn, right below the last shown entry, which
  is the pane's last row when the log does not fit
  (`Viewport.EditingCursorOnInputRow`);
- with at least three rows on every frame, the Normal-mode update never hits
  its `line - 1` underflow (`Chat.App.Run`, through the `Settled` / `Ready`
  invariants); with a two-row pane it can (see Findings).

Behaviour of the code worth knowing:

- the initial mode is Editing (app.rs:58), and there are only two modes;
- the input row's length for cursor movement is always 5, the length of
  `"You: "`, whatever has been typed (app.rs:319);
- being on a position of its row is not an invariant of the cursor: an
  Editing frame puts the cursor at column `input.len() + 5` on the input row
  (app.rs:219), past that row's movement length of 5, so when Normal mode
  begins Right does nothing and it takes one more Left than the input has
  bytes to come back onto the row (`Cursor.EditingCursorOffRow`); that is
  why `Cursor.MoveAllStaysInBounds` only keeps a cursor on its row if it
  started on it;
- Editing mode shows the log's tail only when the log does not fit; when it
  fits, it keeps a scroll position left over from Normal mode
  (`Viewport.EditingKeepsStaleScroll`);
- the tail Editing mode shows is one entry short: `show_idx` leaves exactly
  as many entries from it as the pane has entry rows, but the "more above"
  marker takes the first of those rows, so entry `show_idx` is not drawn
  (`Viewport.EditingTailOneShort`);
- Normal mode scrolls down only as far as needed to keep the cursor off the
  pane's last row, leaving it on the last entry row, and scrolls up to one
  entry above the cursor (app.rs:224-230);
- the peer's name is whatever the connection object holds, here a
  constructor parameter.

## Model

| member | source | states |
|---|---|---|
| `Text.Utf8Len` | src/app.rs:219 | the byte length of a string lies between its character count and four times it |
| `Text.Utf8LenAscii` | src/app.rs:317 | on ASCII text the byte length used for cursor columns is the character count |
| `Text.TrimStartDrops` | src/app.rs:109 | trimming the start leaves a suffix that does not start with whitespace, and everything dropped is whitespace |
| `Text.TrimEndDrops` | src/app.rs:109 | trimming the end leaves a prefix that does not end with whitespace, and everything dropped is whitespace |
| `Text.TrimStart` | src/app.rs:109 | trimming the start (`str::trim_start`) never lengthens the text |
| `Text.TrimEnd` | src/app.rs:109 | trimming the end (`str::trim_end`) never lengthens the text |
| `Text.Trim` | src/app.rs:109 | the trimmed text has no whitespace at either end |
| `Text.TrimSplits` | src/app.rs:109 | the trimmed text is a slice of the input with only whitespace before and after it |
| `Text.TrimOf` | src/app.rs:109 | whitespace, then a text without whitespace at its ends, then whitespace, trims to exactly that text: trim is the unique such middle part |
| `Text.TrimIdempotent` | src/app.rs:109 | trimming twice is trimming once |
| `Text.TrimEmptyIffBlank` | src/app.rs:109-110 | the trimmed input is empty exactly when the input is all whitespace, so only whitespace-only input is refused by Enter |
| `Text.FormatLine` | src/app.rs:164-166 | a log line is the sender, then `": "`, then the text |
| `Text.LocalEcho` | src/app.rs:112-114 | the echo of a sent text is `"You: "` followed by exactly that text |
| `Text.AfterFirstSpace` | src/app.rs:98-103 | what `y` copies is the text after the first space; there is none exactly when the line has no space |
| `Text.CopyFormatted` | src/app.rs:164-166 | copying a received line gives back the received text when the sender's name has no space |
| `Text.CopyLocalEcho` | src/app.rs:98-114 | copying the echo of a sent message gives back exactly the text sent |
| `Text.FormattedHasSpace` | src/app.rs:100 | every log line holds a space, so the copy's `unwrap` never fails on the log |
| `Cursor.SelectedLine` | src/app.rs:307-313 | the selected entry exists exactly when the cursor line is inside the log, and is the entry at that line |
| `Cursor.RowLen` | src/app.rs:315-320 | a row's length is its entry's byte length, or 5 for the input row; at least 1 on a well-formed log |
| `Cursor.Move` | src/app.rs:322-358 | one arrow key never takes the cursor past the input row, keeps a cursor that is on a position of its row on one, and a move that changes the line never moves the cursor right |
| `Cursor.MoveEffect` | src/app.rs:322-358 | Left decrements the column exactly when it is positive and Right increments it exactly when it is below the row's last position, neither moving the line; Up and Down move the line by one exactly when not at line 0 or at the input row; other keys change nothing |
| `Cursor.VerticalClamp` | src/app.rs:334-355 | a move that changes the line is Up or Down, and sets the column to the old column clamped to the new row's last position, never to the right of where it was |
| `Cursor.MoveAllStaysInBounds` | src/app.rs:322-358 | after any sequence of keys the line is still at most the input row, and a cursor on a position of its row is still on one |
| `Cursor.LeftRepeated` | src/app.rs:324-328 | n presses of Left reach column max(col - n, 0) on the same line |
| `Cursor.PastInputRow` | src/app.rs:315-332 | a cursor k positions past the end of the input row is off its row, Right leaves it there, k presses of Left leave it off the row and k + 1 bring it back onto it |
| `Cursor.EditingCursorOffRow` | src/app.rs:219 | where an Editing frame leaves the cursor, at the end of the typed text on the input row, it is off its row: Right does nothing, and the typed text's byte length plus one presses of Left bring it back |
| `Cursor.DownRepeated` | src/app.rs:344-355 | n presses of Down reach line min(line + n, log length) and never increase the column |
| `Cursor.UpRepeated` | src/app.rs:334-343 | n presses of Up reach line max(line - n, 0) and never increase the column |
| `Cursor.NoPreferredColumn` | src/app.rs:338-353 | Down over a short row and back Up loses the column: no preferred column is remembered |
| `Viewport.Scroll` | src/app.rs:224-230 | the Normal-mode scroll with the underflowing subtraction saturated; with a pane of two rows or more the first shown entry is never below the cursor |
| `Viewport.ScrollAsWritten` | src/app.rs:224-230 | the Normal-mode scroll as the source writes it, defined only where `line - 1` does not underflow; with two rows or more the first shown entry is never below the cursor, and the window moves up only for a cursor at or above its first entry |
| `Viewport.ScrollAgrees` | src/app.rs:224-230 | wherever the source's subtraction is defined, the saturated scroll equals the source's |
| `Viewport.SmallPaneUnderflow` | src/app.rs:224-225 | with a two-row pane, Esc, a frame and Up reach line 0 under show_idx 1, where the source subtracts 1 from 0 |
| `Viewport.ScrollShowsCursor` | src/app.rs:224-230 | with at least three rows, after the update the cursor lies inside the window of shown entries and below the "more above" marker |
| `Viewport.ScrollIdempotent` | src/app.rs:224-230 | a second frame without a key press does not scroll again |
| `Viewport.ScrollDirection` | src/app.rs:224-230 | the window moves up only for a cursor at or above its first entry, down only for a cursor within two rows of its bottom, and not at all for a cursor strictly inside |
| `Viewport.EditingKeepsStaleScroll` | src/app.rs:214-217 | Editing mode keeps a Normal-mode scroll position when the log fits, so a marker can hide entries that would fit |
| `Viewport.EditingShowIdx` | src/app.rs:214-217 | in Editing mode, when the log is longer than the pane's entry rows, `show_idx` is set so that exactly that many entries remain from it (the "more above" marker then takes the first of those rows); otherwise the first shown entry stays as it was |
| `Viewport.EditingTailOneShort` | src/app.rs:214-246 | in Editing mode with a log that does not fit, the pane shows the marker, the last `height - 2` entries and the input row, and entry `show_idx` is not drawn |
| `Viewport.MoreBelowFull` | src/app.rs:264-265 | the "more below" marker is drawn exactly when, outside Editing mode, the entries fill every row above it |
| `Viewport.WindowRows` | src/app.rs:233-280 | the pane's rows start with the "more above" marker when it is scrolled and end with the "more below" marker or the input row, as the bottom condition says |
| `Viewport.RenderRows` | src/app.rs:233-280 | the rows the source's loop builds, with its early stop at the end of the log, are exactly the window rows: marker, entries from show_idx on, then marker or input row |
| `Viewport.WindowRowsShape` | src/app.rs:233-280 | row j shows entry show_idx + j, always inside the log; the first row is the "more above" marker exactly when the pane is scrolled; the last is the "more below" marker or the input row; with two rows or more the list fits the pane |
| `Viewport.CursorRow` | src/app.rs:287-298 | the cursor's screen row is the offset of its line from the first shown entry, or 0 for a cursor at or above it; the line moves up by one only when the "more below" marker is drawn |
| `Viewport.NormalCursorOnItsRow` | src/app.rs:287-298 | in Normal mode, after the update, the cursor is drawn on the row showing its own entry, or on the input row, and the cursor_y corrections leave the line alone |
| `Viewport.EditingCursorOnInputRow` | src/app.rs:214-298 | in Editing mode, whenever the old scroll position is inside the log, the cursor is drawn on the input row, the last row drawn, right below the last shown entry; when the log does not fit, that is the pane's last row |
| `Chat.NextMode` | src/app.rs:89-129 | the mode changes exactly on `i` in Normal mode and on Esc in Editing mode |
| `Chat.App.constructor` | src/app.rs:55-65 | a new client is in Editing mode with empty input and log, show_idx 0, the cursor at (0, 0) and the closed flag down |
| `Chat.App.MoveCursor` | src/app.rs:322-358 | the cursor moves as `Move` says and nothing else changes |
| `Chat.App.HandleKey` | src/app.rs:89-129 | per mode and key: `i` starts editing, `q` shuts the connection and raises the closed flag, `y` copies the selected entry's text, other Normal keys move the cursor; a character is appended, Backspace drops the last one (no-op when empty), Enter sends and echoes the trimmed input and clears it unless it is blank, Esc stops editing; the log only grows; a settled state stays ready |
| `Chat.App.AppendRemote` | src/app.rs:159-172 | a non-empty received line is appended as `peer: line` and nothing else changes; an empty line or an error appends nothing and raises the closed flag |
| `Chat.App.UpdateViewport` | src/app.rs:209-231 | Editing mode shows the log's tail when it does not fit and puts the cursor at the input's end on the input row; Normal mode scrolls as `Scroll`, which from a ready state is the source's formula with no underflow, and with three rows or more leaves the state settled |
| `Chat.App.CursorY` | src/app.rs:287-298 | the cursor's screen row is its line minus show_idx, pulled up one line when it would sit on the "more below" marker |
| `Chat.App.Ui` | src/app.rs:209-298 | a frame sets `show_idx` as Editing mode's tail rule or as `Scroll`, puts the cursor where `CursorRow` says (at the input's end on the input row in Editing mode, its old position in Normal mode), and draws the rows `WindowRows` gives; from a ready state with three rows or more it leaves the state settled and draws the cursor on the row that shows its entry or on the input row |
| `Chat.App.Run` | src/app.rs:84-133 | the loop stops early only once the closed flag is up; the log and the sent texts only grow; with three rows or more on every frame the state stays ready, so no Normal-mode update underflows |

## Findings

| source | as written | input that shows it | evidently intended | confidence | as-written member | corrected member |
|---|---|---|---|---|---|---|
| src/app.rs:224-225 | in Normal mode, when `line <= show_idx && show_idx > 0`, sets `show_idx = usize::from(line) - 1` | a message pane of two rows (a terminal four rows high), one log entry: a frame in Editing mode puts the cursor on line 1; after Esc a Normal frame scrolls to show_idx 1; Up moves the cursor to line 0; the next frame computes 0 - 1 on a `usize` (a panic in a debug build, a wrap in a release build) | scroll to the top of the log, show_idx 0 | medium, not executed | `Viewport.SmallPaneUnderflow`, `Viewport.ScrollAsWritten` | `Viewport.Scroll` |

The model's `Chat.App.UpdateViewport` uses `Viewport.Scroll`. With a pane
of at least three rows on every frame, the case never arises and the two
agree (`Viewport.ScrollAgrees`, `Chat.App.Run`).

## Left out

- `src/network.rs`: connecting, accepting and shutting down sockets, and
  reading and writing them, are socket I/O. The peer's name is a constructor
  parameter. `send` is a recorded effect that always succeeds, so its
  `unwrap` panic is not modelled. `close` is recorded in `shutDown`.
- `src/main.rs`: a driver with no logic.
- The receiver thread and the locks around the log and the closed flag are
  concurrency. `Chat.App.Run` applies at most one receiver step per tick,
  after the key. In the source the step can happen at any point outside a
  frame, which only changes how appends interleave with keys.
- Terminal setup and teardown, the 100 ms poll, cursor shapes, the status
  line texts and all widget construction and styling (including the bold
  sender name split at the first space) are terminal library calls.
  Non-key events and key modifiers are not modelled either.
- The clipboard is an external library. Its writes are recorded in
  `copied`, and its failures are not modelled.
- `Chat.App.UpdateViewport`: positions are unbounded naturals. The source
  keeps the cursor in `u16` and casts `show_idx` and the input's byte length
  to `u16`. So it wraps or panics once the log nears 65534 entries or the
  input nears 65531 bytes. The model does not capture that.
- `Chat.App.CursorY`: the same `u16` limits are not modelled.
- `Cursor.RowLen`: entries longer than 65535 bytes, which the source
  truncates with `as u16`, are not modelled.
- `Viewport.RenderRows`: the `try_into().unwrap()` panic for a log of 65536
  entries or more is not modelled.
- `Chat.App.UpdateViewport`: requires a message pane of at least one row.
  On a terminal under three rows high the layout can give the pane zero
  rows, and then `chunks[0].height - 1` (app.rs:211) underflows a `u16`: a
  panic in a debug build. That case is not modelled.
- `Chat.App.Ui`: the same zero-row pane is excluded, for the same reason.
- `Chat.App.Run`: every tick's pane must have at least one row; a frame on
  a terminal under three rows high may not have one and is not modelled.
- `Chat.App.CursorY`, `Viewport.WindowRows`, `Viewport.RenderRows` and
  `Viewport.CursorRow`: the same zero-row pane is excluded.
