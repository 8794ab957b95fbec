/**
 * The arithmetic of the message pane drawn by `ui` in src/app.rs:
 * which entry is shown first (`show_idx`), which rows are drawn, and
 * on which screen row the cursor sits (`cursor_y`).
 *
 * `height` is the height of the message pane, `chunks[0].height`; its last
 * row is kept for the input row, so `height - 1` rows (`chunk_size`) are
 * left for log entries. `count` is the number of log entries.
 */
module Viewport {
  import opened Keys
  import opened Cursor

  /** Editing mode (app.rs:215-217): when the log does not fit, show its tail;
      otherwise keep the first shown entry as it was. */
  function EditingShowIdx(count: nat, chunk: nat, showIdx: nat): (r: nat)
    ensures chunk < count ==> r + chunk == count
    ensures chunk >= count ==> r == showIdx
  {
    if chunk < count then count - chunk else showIdx
  }

  /** Whether the source's `usize::from(line) - 1` in the Normal-mode update
      (app.rs:224-225) is defined, i.e. does not underflow. */
  predicate ScrollDefined(line: nat, showIdx: nat) {
    line <= showIdx && showIdx > 0 ==> line >= 1
  }

  /** Normal mode as written (app.rs:224-230): a cursor at or above the first
      shown entry scrolls up to one line above it; a cursor at or below the
      last two rows of the pane scrolls down so that it is two rows above the
      bottom edge. */
  function ScrollAsWritten(line: nat, showIdx: nat, height: nat): (r: nat)
    requires ScrollDefined(line, showIdx)
    ensures height >= 2 ==> r <= line
    ensures r < showIdx ==> line <= showIdx
  {
    if line <= showIdx && showIdx > 0 then line - 1
    else if line + 2 >= showIdx + height then line + 2 - height
    else showIdx
  }

  /** The Normal-mode update with the subtraction saturating at 0: for a
      cursor on line 0 under a scrolled pane it shows the top of the log. */
  function Scroll(line: nat, showIdx: nat, height: nat): (r: nat)
    ensures height >= 2 ==> r <= line
  {
    if line <= showIdx && showIdx > 0 then (if line == 0 then 0 else line - 1)
    else if line + 2 >= showIdx + height then line + 2 - height
    else showIdx
  }

  /** Where the source's update is defined, `Scroll` is exactly the source's. */
  lemma ScrollAgrees(line: nat, showIdx: nat, height: nat)
    requires ScrollDefined(line, showIdx)
    ensures Scroll(line, showIdx, height) == ScrollAsWritten(line, showIdx, height)
  {
  }

  /** Editing mode keeps a scroll position left over from Normal mode when
      the log fits the pane: with four entries and a pane of five rows, a
      Normal frame with the cursor on the input row scrolls to 1, and
      Editing then stays at 1 although all four entries would fit from 0. */
  lemma EditingKeepsStaleScroll()
    ensures Scroll(4, 0, 5) == 1
    ensures EditingShowIdx(4, 4, Scroll(4, 0, 5)) == 1
    ensures WindowRows(4, 1, 5, true) == [Marker, Entry(2), Entry(3), InputRow]
  {
    assert Entries(2, 4) == [Entry(2), Entry(3)];
  }

  /** A pane of two rows breaks the source's update. One entry in the log,
      Editing mode: a frame leaves `show_idx` at 0 and puts the cursor on
      the input row, line 1. After Esc, a Normal frame scrolls to
      `show_idx == 1` and leaves the cursor line alone. Up puts the cursor on
      line 0, and the next frame takes the branch whose `line - 1`
      underflows. */
  lemma SmallPaneUnderflow()
    ensures var log := ["A: x"];
      var s := ScrollAsWritten(1, EditingShowIdx(1, 1, 0), 2);
      && WellFormedLog(log)
      && EditingShowIdx(1, 1, 0) == 0
      && s == 1
      && CursorRow(1, s, |log|, 2, false).line == 1
      && Move(log, Point(1, 4), Up).line == 0
      && !ScrollDefined(Move(log, Point(1, 4), Up).line, s)
  {
    assert "A: x"[2] == ' ';
  }

  /** With a pane of at least three rows the cursor ends up inside the window
      of entries the pane shows, and below the "more above" marker when
      there is one. */
  lemma ScrollShowsCursor(line: nat, showIdx: nat, height: nat)
    requires height >= 3
    ensures var r := Scroll(line, showIdx, height);
      r <= line < r + height - 1 && (r > 0 ==> r < line)
  {
  }

  /** A second frame without a key press does not scroll again. */
  lemma ScrollIdempotent(line: nat, showIdx: nat, height: nat)
    requires height >= 3
    ensures Scroll(line, Scroll(line, showIdx, height), height) == Scroll(line, showIdx, height)
  {
    ScrollShowsCursor(line, showIdx, height);
  }

  /** Scrolling moves the window towards the cursor only: up when the cursor
      is at or above the first shown entry, down when it reaches the last
      two rows of the pane, not at all otherwise. */
  lemma ScrollDirection(line: nat, showIdx: nat, height: nat)
    ensures var r := Scroll(line, showIdx, height);
      && (r < showIdx ==> line <= showIdx)
      && (r > showIdx ==> line + 2 > showIdx + height)
      && (showIdx < line && line + 2 < showIdx + height ==> r == showIdx)
  {
  }

  /** One row of the list drawn in the pane. */
  datatype Row =
    | Marker          // "~ ~ ~": more entries above or below
    | Entry(index: nat)
    | InputRow        // "You: " and the input buffer

  /** Whether the bottom row is the "more below" marker (app.rs:264-265). */
  predicate MoreBelow(count: nat, showIdx: nat, height: nat, editing: bool) {
    showIdx + height <= count + 1 && !editing
  }

  /** The "more below" marker is drawn exactly when, outside Editing mode,
      the entries (after the "more above" marker, if any) fill every row
      above it, so that the first row not shown is an entry or the input
      row: entry `showIdx + height - 1` is where the list stops. */
  lemma MoreBelowFull(count: nat, showIdx: nat, height: nat, editing: bool)
    requires height >= 1
    ensures MoreBelow(count, showIdx, height, editing) <==>
      !editing && Min(showIdx + Min(height - 1, count), count) == showIdx + height - 1
  {
  }

  /** The entries `lo`, ..., `hi - 1`. */
  function Entries(lo: nat, hi: nat): (r: seq<Row>)
    ensures |r| == if lo <= hi then hi - lo else 0
    decreases hi
  {
    if lo < hi then Entries(lo, hi - 1) + [Entry(hi - 1)] else []
  }

  lemma {:induction false} EntriesAt(lo: nat, hi: nat)
    ensures forall j :: 0 <= j < |Entries(lo, hi)| ==> Entries(lo, hi)[j] == Entry(lo + j)
    decreases hi
  {
    if lo < hi {
      EntriesAt(lo, hi - 1);
    }
  }

  /** The rows drawn in the pane (app.rs:233-280): the "more above" marker in
      place of entry `showIdx` when the pane is scrolled, then entries up to
      `chunk_size` rows or the end of the log, then the "more below" marker
      or the input row. */
  function WindowRows(count: nat, showIdx: nat, height: nat, editing: bool): (r: seq<Row>)
    requires height >= 1
    ensures |r| >= (if showIdx > 0 then 2 else 1)
    ensures showIdx > 0 ==> r[0] == Marker
    ensures r[|r| - 1] == (if MoreBelow(count, showIdx, height, editing) then Marker else InputRow)
  {
    var sep := if showIdx > 0 then 1 else 0;
    var lo := showIdx + sep;
    var hi := Min(showIdx + Min(height - 1, count), count);
    (if showIdx > 0 then [Marker] else [])
    + Entries(lo, hi)
    + [if MoreBelow(count, showIdx, height, editing) then Marker else InputRow]
  }

  /** The rows as the source builds them, with its `for` loop over
      `added_sep..min(chunk_size, len)` that stops at the end of the log. */
  method RenderRows(count: nat, showIdx: nat, height: nat, editing: bool) returns (rows: seq<Row>)
    requires height >= 1
    ensures rows == WindowRows(count, showIdx, height, editing)
  {
    var chunk := height - 1;
    var addedSep := 0;
    rows := [];
    if showIdx > 0 {
      rows := [Marker];
      addedSep := 1;
    }
    var top := rows;
    var end := Min(chunk, count);
    var i := addedSep;
    while i < end
      invariant addedSep <= i
      invariant i == addedSep || (i <= end && showIdx + i <= count)
      invariant rows == top + Entries(showIdx + addedSep, showIdx + i)
    {
      if showIdx + i >= count {
        break;
      }
      rows := rows + [Entry(showIdx + i)];
      i := i + 1;
    }
    if MoreBelow(count, showIdx, height, editing) {
      rows := rows + [Marker];
    } else {
      rows := rows + [InputRow];
    }
  }

  /** Row `j` of the pane shows entry `showIdx + j`, inside the log; the
      first row is the "more above" marker exactly when the pane is
      scrolled; the last row is the "more below" marker or the input row;
      with two rows or more the list fits the pane. */
  lemma WindowRowsShape(count: nat, showIdx: nat, height: nat, editing: bool)
    requires height >= 1
    ensures var rows := WindowRows(count, showIdx, height, editing);
      && (showIdx > 0 <==> |rows| > 1 && rows[0] == Marker)
      && (forall j :: 0 <= j < |rows| - 1 && rows[j].Entry? ==>
            rows[j].index == showIdx + j && rows[j].index < count)
      && (forall j :: 0 < j < |rows| - 1 ==> rows[j].Entry?)
      && (height >= 2 ==> |rows| <= height)
  {
    var sep := if showIdx > 0 then 1 else 0;
    var lo := showIdx + sep;
    var hi := Min(showIdx + Min(height - 1, count), count);
    EntriesAt(lo, hi);
  }

  /** Where the cursor is drawn and the cursor line it leaves (app.rs:287-298). */
  datatype CursorFix = CursorFix(y: nat, line: nat)

  /** The source's first adjustment, `added_sep == 1 && cursor_y < 1`, is
      left out: on this path `cursor_y == line - show_idx >= 1`, so it never
      applies. The second pulls the cursor up off the "more below" marker. */
  function CursorRow(line: nat, showIdx: nat, count: nat, height: nat, editing: bool): (r: CursorFix)
    requires height >= 1
    ensures line <= showIdx ==> r == CursorFix(0, line)
    ensures line > showIdx ==> showIdx <= r.line && r.y == r.line - showIdx
    ensures r.line == line || (r.line + 1 == line && MoreBelow(count, showIdx, height, editing))
  {
    if line > showIdx then
      var y := line - showIdx;
      if MoreBelow(count, showIdx, height, editing) && y == height - 1 then CursorFix(y - 1, line - 1)
      else CursorFix(y, line)
    else CursorFix(0, line)
  }

  /** Normal mode: after the update, the cursor is drawn on the row that
      shows its own entry, or on the input row when it is there, and the
      `cursor_y` adjustments leave the cursor line alone. */
  lemma NormalCursorOnItsRow(count: nat, line: nat, showIdx: nat, height: nat)
    requires height >= 3 && line <= count
    ensures var s := Scroll(line, showIdx, height);
      var f := CursorRow(line, s, count, height, false);
      var rows := WindowRows(count, s, height, false);
      && f == CursorFix(line - s, line)
      && f.y < |rows|
      && rows[f.y] == (if line < count then Entry(line) else InputRow)
  {
    var s := Scroll(line, showIdx, height);
    ScrollShowsCursor(line, showIdx, height);
    var sep := if s > 0 then 1 else 0;
    var lo := s + sep;
    var hi := Min(s + Min(height - 1, count), count);
    EntriesAt(lo, hi);
    if line < count {
      assert lo <= line < hi;
      assert Entries(lo, hi)[line - lo] == Entry(line);
    } else {
      assert hi == count;
    }
  }

  /** Editing mode: the cursor is drawn on the input row, the last row drawn,
      right below the last shown entry, provided the first shown entry is
      not past the log. When the log does not fit, the rows fill the pane,
      so that is the pane's last row; when it fits, the list can be shorter
      than the pane. */
  lemma EditingCursorOnInputRow(count: nat, showIdx: nat, height: nat)
    requires height >= 2
    requires showIdx == 0 || showIdx < count
    ensures var s := EditingShowIdx(count, height - 1, showIdx);
      var f := CursorRow(count, s, count, height, true);
      var rows := WindowRows(count, s, height, true);
      && f.line == count
      && f.y == |rows| - 1
      && rows[f.y] == InputRow
      && (count > height - 1 ==> f.y == height - 1)
  {
    var s := EditingShowIdx(count, height - 1, showIdx);
    var sep := if s > 0 then 1 else 0;
    var lo := s + sep;
    var hi := Min(s + Min(height - 1, count), count);
    EntriesAt(lo, hi);
  }

  /** Editing mode with a log longer than the pane's `height - 1` entry
      rows: `show_idx` leaves exactly `height - 1` entries from it, but the
      "more above" marker takes the first of those rows, so only the last
      `height - 2` entries are drawn and entry `show_idx` is hidden. */
  lemma EditingTailOneShort(count: nat, showIdx: nat, height: nat)
    requires height >= 2 && count > height - 1
    ensures var s := EditingShowIdx(count, height - 1, showIdx);
      var rows := WindowRows(count, s, height, true);
      && s == count - height + 1
      && rows == [Marker] + Entries(count - height + 2, count) + [InputRow]
      && Entry(s) !in rows
  {
    var s := EditingShowIdx(count, height - 1, showIdx);
    var rows := WindowRows(count, s, height, true);
    EntriesAt(count - height + 2, count);
    assert Min(s + Min(height - 1, count), count) == count;
  }
}
