/**
 * The chat client's state and its event handling (`App` in src/app.rs):
 * the input buffer, the mode, the message log, the scroll position and
 * the cursor, with the key dispatch of `run`, the arithmetic of `ui`,
 * `check_move_cursor` and one iteration of the receiver's loop.
 *
 * The peer connection is not modelled; what the client hands to it is
 * recorded in ghost fields: the texts sent, the texts copied to the
 * clipboard and whether the connection was shut down.
 */
module Chat {
  import opened Optional
  import opened Text
  import opened Keys
  import opened Cursor
  import opened Viewport

  datatype InputMode = Normal | Editing

  /** What one call of `recieve` on the receiver's side yields. */
  datatype Received = Line(text: string) | Failed

  /** The mode after a key: `i` in Normal mode starts editing, Esc in
      Editing mode stops it (app.rs:91-92, 124-125). */
  function NextMode(mode: InputMode, key: KeyCode): (m: InputMode)
    ensures m != mode <==> (mode == Normal && key == Char('i')) || (mode == Editing && key == Esc)
  {
    match mode
    case Normal => if key == Char('i') then Editing else Normal
    case Editing => if key == Esc then Normal else Editing
  }

  /** One pass of the event loop: a frame of the given pane height is drawn,
      then a key (if one came within the poll timeout) is handled, then the
      receiver may have appended a line or stopped. */
  datatype Tick = Tick(height: nat, key: Option<KeyCode>, incoming: Option<Received>)

  class App {
    var input: string
    var mode: InputMode
    var messages: seq<string>
    var showIdx: nat
    var cursor: Point
    var closed: bool
    /** The remote side's name (`Peer::get_name`). */
    const peerName: string

    ghost var sent: seq<string>
    ghost var copied: seq<string>
    ghost var shutDown: bool

    ghost predicate Valid()
      reads this
    {
      WellFormedLog(messages) && cursor.line <= |messages|
    }

    /** Holds after every frame drawn with a pane of at least three rows:
        the first shown entry is above the cursor, unless it is the first
        entry of the log. */
    ghost predicate Settled()
      reads this
    {
      showIdx == 0 || showIdx < cursor.line
    }

    /** Holds before every frame: one key press after a settled frame can
        have moved the cursor up onto the first shown entry, and no further. */
    ghost predicate Ready()
      reads this
    {
      Settled() || (mode == Normal && showIdx == cursor.line)
    }

    /** `App::new` (app.rs:55-65). */
    constructor (peerName: string)
      ensures input == [] && mode == Editing && messages == []
      ensures showIdx == 0 && cursor == Point(0, 0) && !closed
      ensures this.peerName == peerName
      ensures sent == [] && copied == [] && !shutDown
      ensures Valid() && Settled()
    {
      input := [];
      mode := Editing;
      messages := [];
      closed := false;
      this.peerName := peerName;
      showIdx := 0;
      cursor := Point(0, 0);
      sent, copied, shutDown := [], [], false;
    }

    /** `check_move_cursor` (app.rs:322-358). */
    method MoveCursor(key: KeyCode)
      requires Valid()
      modifies this`cursor
      ensures Valid()
      ensures cursor == Move(messages, old(cursor), key)
    {
      match key
      case Left =>
        if cursor.col > 0 {
          cursor := cursor.(col := cursor.col - 1);
        }
      case Right =>
        if cursor.col < RowLen(messages, cursor.line) - 1 {
          cursor := cursor.(col := cursor.col + 1);
        }
      case Up =>
        if cursor.line > 0 {
          cursor := cursor.(line := cursor.line - 1);
          cursor := cursor.(col := Min(cursor.col, RowLen(messages, cursor.line) - 1));
        }
      case Down =>
        if cursor.line < |messages| {
          cursor := cursor.(line := cursor.line + 1);
          cursor := cursor.(col := Min(cursor.col, RowLen(messages, cursor.line) - 1));
        }
      case _ =>
    }

    /** The key dispatch of `run` (app.rs:89-129). */
    method HandleKey(key: KeyCode)
      requires Valid()
      modifies this
      ensures Valid()
      ensures mode == NextMode(old(mode), key)
      ensures closed == (old(closed) || (old(mode) == Normal && key == Char('q')))
      ensures shutDown == (old(shutDown) || (old(mode) == Normal && key == Char('q')))
      ensures showIdx == old(showIdx)
      ensures cursor == if old(mode) == Normal then Move(old(messages), old(cursor), key) else old(cursor)
      ensures copied == old(copied) +
        if old(mode) == Normal && key == Char('y') && old(cursor.line) < |old(messages)|
        then [AfterFirstSpace(old(messages)[old(cursor.line)]).value]
        else []
      ensures old(mode) == Normal ==>
        input == old(input) && messages == old(messages) && sent == old(sent)
      ensures old(mode) == Editing && key == Enter ==>
        var text := Trim(old(input));
        if text == [] then
          input == old(input) && messages == old(messages) && sent == old(sent)
        else
          input == [] && messages == old(messages) + [LocalEcho(text)] && sent == old(sent) + [text]
      ensures old(mode) == Editing && key != Enter ==> messages == old(messages) && sent == old(sent)
      ensures old(mode) == Editing && key.Char? ==> input == old(input) + [key.c]
      ensures old(mode) == Editing && key == Backspace ==>
        input == if old(input) == [] then [] else old(input)[..|old(input)| - 1]
      ensures old(mode) == Editing && !key.Char? && key !in {Enter, Backspace} ==> input == old(input)
      ensures old(Settled()) ==> Ready()
    {
      if mode == Normal {
        if key == Char('i') {
          mode := Editing;
        } else if key == Char('q') {
          shutDown := true;
          closed := true;
        } else if key == Char('y') {
          var selected := SelectedLine(messages, cursor.line);
          if selected.Some? {
            var text := AfterFirstSpace(selected.value);
            copied := copied + [text.value];
          }
        } else {
          MoveCursor(key);
        }
      } else {
        match key
        case Enter =>
          var text := Trim(input);
          if text != [] {
            sent := sent + [text];
            FormattedHasSpace("You", text);
            messages := messages + [LocalEcho(text)];
            input := [];
          }
        case Char(c) =>
          input := input + [c];
        case Backspace =>
          if input != [] {
            input := input[..|input| - 1];
          }
        case Esc =>
          mode := Normal;
        case _ =>
      }
    }

    /** One iteration of the receiver's loop (app.rs:159-172): a non-empty
        line is appended as "peer: line"; an empty line or an error ends the
        loop, and the thread then raises the closed flag. */
    method AppendRemote(received: Received) returns (more: bool)
      requires Valid()
      modifies this`messages, this`closed
      ensures Valid()
      ensures more == (received.Line? && received.text != [])
      ensures messages == old(messages) + if more then [FormatLine(peerName, received.text)] else []
      ensures closed == (old(closed) || !more)
      ensures Settled() == old(Settled()) && Ready() == old(Ready())
    {
      if received.Line? && received.text != [] {
        FormattedHasSpace(peerName, received.text);
        messages := messages + [FormatLine(peerName, received.text)];
        more := true;
      } else {
        closed := true;
        more := false;
      }
    }

    /** The update of `show_idx` and of the cursor at the start of `ui`
        (app.rs:209-231). Editing mode shows the tail of the log and puts the
        cursor at the end of the input row; Normal mode scrolls towards the
        cursor. The Normal-mode `line - 1` saturates at 0 (see `Scroll`);
        from a Ready state it never has to, and the update is the source's. */
    method UpdateViewport(height: nat)
      requires Valid() && height >= 1
      modifies this`showIdx, this`cursor
      ensures Valid()
      ensures mode == Editing ==>
        showIdx == EditingShowIdx(|messages|, height - 1, old(showIdx))
        && cursor == Point(|messages|, Utf8Len(input) + 5)
      ensures mode == Normal ==>
        showIdx == Scroll(old(cursor.line), old(showIdx), height) && cursor == old(cursor)
      ensures old(Ready()) ==> ScrollDefined(old(cursor.line), old(showIdx))
      ensures old(Ready()) && mode == Normal ==>
        showIdx == ScrollAsWritten(old(cursor.line), old(showIdx), height)
      ensures old(Ready()) && height >= 3 ==> Settled()
    {
      ghost var ready := Ready();
      var chunkSize := height - 1;
      if mode == Editing {
        if chunkSize < |messages| {
          showIdx := |messages| - chunkSize;
        }
        cursor := Point(|messages|, Utf8Len(input) + 5);
      } else {
        if cursor.line <= showIdx && showIdx > 0 {
          showIdx := if cursor.line == 0 then 0 else cursor.line - 1;
        } else if cursor.line + 2 >= showIdx + height {
          showIdx := showIdx + (cursor.line + 2 - height - showIdx);
        }
        if ready {
          ScrollAgrees(old(cursor.line), old(showIdx), height);
        }
        if height >= 3 {
          ScrollShowsCursor(old(cursor.line), old(showIdx), height);
        }
      }
    }

    /** The screen row of the cursor (app.rs:287-298); on the "more below"
        marker the cursor is pulled up one line. */
    method CursorY(height: nat) returns (y: nat)
      requires Valid() && height >= 1
      modifies this`cursor
      ensures Valid()
      ensures var f := CursorRow(old(cursor.line), showIdx, |messages|, height, mode == Editing);
        y == f.y && cursor == Point(f.line, old(cursor.col))
    {
      y := 0;
      if cursor.line > showIdx {
        y := cursor.line - showIdx;
        // The source's `added_sep == 1 && cursor_y < 1` case cannot arise: y >= 1 here.
        if MoreBelow(|messages|, showIdx, height, mode == Editing) && y == height - 1 {
          y := y - 1;
          cursor := cursor.(line := cursor.line - 1);
        }
      }
    }

    /** The part of `ui` that does not draw (app.rs:209-298): the update, the
        rows of the pane and the cursor's screen row. After a frame drawn
        from a Ready state with at least three rows, the cursor is on the
        row that shows its own entry (or on the input row), and the state is
        Settled. */
    method Ui(height: nat) returns (rows: seq<Row>, y: nat)
      requires Valid() && height >= 1
      modifies this`showIdx, this`cursor
      ensures Valid()
      ensures showIdx == if mode == Editing then EditingShowIdx(|messages|, height - 1, old(showIdx))
                         else Scroll(old(cursor.line), old(showIdx), height)
      ensures var line := if mode == Editing then |messages| else old(cursor.line);
        var col := if mode == Editing then Utf8Len(input) + 5 else old(cursor.col);
        var f := CursorRow(line, showIdx, |messages|, height, mode == Editing);
        y == f.y && cursor == Point(f.line, col)
      ensures rows == WindowRows(|messages|, showIdx, height, mode == Editing)
      ensures old(Ready()) && height >= 3 ==>
        && Settled()
        && cursor.line == (if mode == Editing then |messages| else old(cursor.line))
        && y < |rows|
        && rows[y] == (if cursor.line < |messages| then Entry(cursor.line) else InputRow)
    {
      ghost var ready := Ready();
      ghost var line0, show0 := cursor.line, showIdx;
      UpdateViewport(height);
      rows := RenderRows(|messages|, showIdx, height, mode == Editing);
      ghost var line1 := cursor.line;
      y := CursorY(height);
      if ready && height >= 3 {
        if mode == Editing {
          EditingCursorOnInputRow(|messages|, show0, height);
        } else {
          NormalCursorOnItsRow(|messages|, line0, show0, height);
        }
      }
    }

    /** The event loop of `run` (app.rs:84-133), driven by a sequence of
        ticks: while the closed flag is down, draw a frame, handle the key
        polled, then let the receiver append. Returns the number of ticks
        used. The log and the sent texts only grow. When every frame has a
        pane of at least three rows, every state before a frame is Ready,
        so every Normal-mode update is the source's own, without underflow. */
    method Run(ticks: seq<Tick>) returns (used: nat)
      requires Valid() && Ready()
      requires forall i :: 0 <= i < |ticks| ==> ticks[i].height >= 1
      modifies this
      ensures Valid()
      ensures (forall i :: 0 <= i < |ticks| ==> ticks[i].height >= 3) ==> Ready()
      ensures used <= |ticks| && (used < |ticks| ==> closed)
      ensures old(messages) <= messages && old(sent) <= sent
    {
      ghost var roomy := forall i :: 0 <= i < |ticks| ==> ticks[i].height >= 3;
      used := 0;
      while used < |ticks| && !closed
        invariant used <= |ticks|
        invariant Valid()
        invariant roomy ==> Ready()
        invariant old(messages) <= messages && old(sent) <= sent
      {
        var tick := ticks[used];
        var rows, y := Ui(tick.height);
        if tick.key.Some? {
          HandleKey(tick.key.value);
        }
        if tick.incoming.Some? {
          var more := AppendRemote(tick.incoming.value);
        }
        used := used + 1;
      }
    }
  }
}
