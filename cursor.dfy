/**
 * The cursor over the message log (`get_selected_line`,
 * `get_selected_line_len` and `check_move_cursor` in src/app.rs).
 * Row `|messages|` is the input row below the log.
 */
module Cursor {
  import opened Optional
  import opened Text
  import opened Keys

  /** The label drawn in front of the input row. */
  const InputLabel: string := "You: "

  datatype Point = Point(line: nat, col: nat)

  /** Every log entry has the form "sender: text", so holds a space. */
  predicate WellFormedLog(messages: seq<string>) {
    forall k :: 0 <= k < |messages| ==> ' ' in messages[k]
  }

  /** `get_selected_line`: the log entry under the cursor, if the cursor is on the log. */
  function SelectedLine(messages: seq<string>, line: nat): (r: Option<string>)
    ensures r.Some? <==> line < |messages|
    ensures r.Some? ==> r.value == messages[line]
  {
    if line < |messages| then Some(messages[line]) else None
  }

  /** `get_selected_line_len`: the byte length of the selected entry, or
      that of the label "You: " on the input row (whatever has been typed). */
  function RowLen(messages: seq<string>, line: nat): (n: nat)
    ensures line < |messages| ==> n == Utf8Len(messages[line])
    ensures line >= |messages| ==> n == 5
    ensures WellFormedLog(messages) ==> n >= 1
  {
    match SelectedLine(messages, line)
    case Some(entry) => Utf8Len(entry)
    case None => Utf8Len(InputLabel)
  }

  function Min(a: int, b: int): (m: int)
    ensures m <= a && m <= b && (m == a || m == b)
  {
    if a <= b then a else b
  }

  /** `check_move_cursor`: where one arrow key puts the cursor. */
  function Move(messages: seq<string>, p: Point, key: KeyCode): (r: Point)
    requires WellFormedLog(messages)
    ensures p.line <= |messages| ==> r.line <= |messages|
    ensures InBounds(messages, p) ==> InBounds(messages, r)
    ensures r.line == p.line || r.col <= p.col
  {
    match key
    case Left =>
      if p.col > 0 then p.(col := p.col - 1) else p
    case Right =>
      if p.col < RowLen(messages, p.line) - 1 then p.(col := p.col + 1) else p
    case Up =>
      if p.line > 0 then
        Point(p.line - 1, Min(p.col, RowLen(messages, p.line - 1) - 1))
      else p
    case Down =>
      if p.line < |messages| then
        Point(p.line + 1, Min(p.col, RowLen(messages, p.line + 1) - 1))
      else p
    case _ => p
  }

  /** The effect of each key on its own: Left and Right move the column by
      one within the row and keep the line; Up and Down move the line by
      one within the log and the input row; every other key does nothing. */
  lemma MoveEffect(messages: seq<string>, p: Point, key: KeyCode)
    requires WellFormedLog(messages)
    ensures var r := Move(messages, p, key);
      && (key == Left ==> r.line == p.line && (r.col == p.col - 1 <==> p.col > 0)
                          && (r.col != p.col - 1 ==> r.col == p.col))
      && (key == Right ==> r.line == p.line
                           && (r.col == p.col + 1 <==> p.col < RowLen(messages, p.line) - 1)
                           && (r.col != p.col + 1 ==> r.col == p.col))
      && (key == Up ==> (r.line == p.line - 1 <==> p.line > 0) && (p.line == 0 ==> r == p))
      && (key == Down ==> (r.line == p.line + 1 <==> p.line < |messages|)
                          && (p.line >= |messages| ==> r == p))
      && (key !in {Left, Right, Up, Down} ==> r == p)
  {
  }

  /** After a move that changes the line, the column is the old column
      clamped to the last position of the new row: no preferred column is
      remembered, and a vertical move never moves the cursor right. */
  lemma VerticalClamp(messages: seq<string>, p: Point, key: KeyCode)
    requires WellFormedLog(messages)
    requires Move(messages, p, key).line != p.line
    ensures var r := Move(messages, p, key);
      && key in {Up, Down}
      && r.col == Min(p.col, RowLen(messages, r.line) - 1)
      && r.col <= p.col
      && r.col < RowLen(messages, r.line)
  {
  }

  /** The cursor is on the log or the input row, and on a position of its row. */
  predicate InBounds(messages: seq<string>, p: Point) {
    p.line <= |messages| && p.col < RowLen(messages, p.line)
  }

  /** The cursor after a sequence of keys. */
  function MoveAll(messages: seq<string>, p: Point, keys: seq<KeyCode>): (r: Point)
    requires WellFormedLog(messages)
    decreases |keys|
  {
    if keys == [] then p else MoveAll(messages, Move(messages, p, keys[0]), keys[1..])
  }

  /** No sequence of keys moves the cursor past the input row, and a cursor
      on a position of its row stays on one. */
  lemma {:induction false} MoveAllStaysInBounds(messages: seq<string>, p: Point, keys: seq<KeyCode>)
    requires WellFormedLog(messages)
    ensures p.line <= |messages| ==> MoveAll(messages, p, keys).line <= |messages|
    ensures InBounds(messages, p) ==> InBounds(messages, MoveAll(messages, p, keys))
    decreases |keys|
  {
    if keys != [] {
      MoveAllStaysInBounds(messages, Move(messages, p, keys[0]), keys[1..]);
    }
  }

  /** Pressing Left `n` times walks `n` positions towards the start of the
      row and stops at column 0; the line never changes. */
  lemma {:induction false} LeftRepeated(messages: seq<string>, p: Point, n: nat)
    requires WellFormedLog(messages)
    ensures MoveAll(messages, p, Repeat(Left, n)) == p.(col := if p.col >= n then p.col - n else 0)
    decreases n
  {
    if n > 0 {
      var q := Move(messages, p, Left);
      assert Repeat(Left, n)[1..] == Repeat(Left, n - 1);
      LeftRepeated(messages, q, n - 1);
    }
  }

  /** A cursor `extra` positions past the end of the input row: Right does
      nothing, and it takes `extra + 1` presses of Left to come back onto the row. */
  lemma PastInputRow(messages: seq<string>, extra: nat)
    requires WellFormedLog(messages)
    ensures var p := Point(|messages|, extra + 5);
      && !InBounds(messages, p)
      && Move(messages, p, Right) == p
      && !InBounds(messages, MoveAll(messages, p, Repeat(Left, extra)))
      && InBounds(messages, MoveAll(messages, p, Repeat(Left, extra + 1)))
  {
    var p := Point(|messages|, extra + 5);
    assert RowLen(messages, |messages|) == 5;
    LeftRepeated(messages, p, extra);
    LeftRepeated(messages, p, extra + 1);
  }

  /** Being on a position of the row is not an invariant of the client. An
      Editing frame puts the cursor at the end of the typed text on the
      input row, whose length for movement is that of the label alone. So
      when Normal mode begins the cursor is past the row's end: Right does
      nothing there, and it takes one more Left than the typed text has
      bytes to come back onto the row. */
  lemma EditingCursorOffRow(messages: seq<string>, input: string)
    requires WellFormedLog(messages)
    ensures var p := Point(|messages|, Utf8Len(input) + 5);
      && !InBounds(messages, p)
      && Move(messages, p, Right) == p
      && !InBounds(messages, MoveAll(messages, p, Repeat(Left, Utf8Len(input))))
      && InBounds(messages, MoveAll(messages, p, Repeat(Left, Utf8Len(input) + 1)))
  {
    var k := Utf8Len(input);
    PastInputRow(messages, k);
    assert Point(|messages|, Utf8Len(input) + 5) == Point(|messages|, k + 5);
  }

  function Repeat(key: KeyCode, n: nat): (r: seq<KeyCode>)
    ensures |r| == n && forall i :: 0 <= i < n ==> r[i] == key
  {
    if n == 0 then [] else [key] + Repeat(key, n - 1)
  }

  /** Pressing Down `n` times walks `n` lines towards the input row and
      stops there; the column never grows. */
  lemma {:induction false} DownRepeated(messages: seq<string>, p: Point, n: nat)
    requires WellFormedLog(messages)
    requires p.line <= |messages|
    ensures MoveAll(messages, p, Repeat(Down, n)).line == Min(p.line + n, |messages|)
    ensures MoveAll(messages, p, Repeat(Down, n)).col <= p.col
    decreases n
  {
    if n > 0 {
      var q := Move(messages, p, Down);
      assert Repeat(Down, n)[1..] == Repeat(Down, n - 1);
      DownRepeated(messages, q, n - 1);
    }
  }

  /** Pressing Up `n` times walks `n` lines towards the top and stops at
      line 0; the column never grows. */
  lemma {:induction false} UpRepeated(messages: seq<string>, p: Point, n: nat)
    requires WellFormedLog(messages)
    ensures MoveAll(messages, p, Repeat(Up, n)).line == if p.line >= n then p.line - n else 0
    ensures MoveAll(messages, p, Repeat(Up, n)).col <= p.col
    decreases n
  {
    if n > 0 {
      var q := Move(messages, p, Up);
      assert Repeat(Up, n)[1..] == Repeat(Up, n - 1);
      UpRepeated(messages, q, n - 1);
    }
  }

  /** Passing over a short row loses the column: Down then Up does not
      return to where the cursor was. */
  lemma NoPreferredColumn()
    ensures var log := ["A: long line", "A: x", "A: long line"];
      WellFormedLog(log) && MoveAll(log, Point(0, 8), [Down, Up]) == Point(0, 3)
  {
    var log := ["A: long line", "A: x", "A: long line"];
    assert ' ' in log[0] && ' ' in log[1] && ' ' in log[2] by {
      assert log[0][2] == ' ' && log[1][2] == ' ' && log[2][2] == ' ';
    }
    assert Utf8Len(log[1]) == 4 by { Utf8LenAscii(log[1]); }
  }
}
