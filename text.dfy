/**
 * String helpers the chat client relies on: Rust's byte length of a
 * `String`, `str::trim`, the "sender: text" log line format and the
 * substring that the `y` key copies out of a log line.
 * Strings are sequences of Unicode scalar values, as Rust `char`s are.
 */
module Text {
  import opened Optional

  /** Number of bytes the UTF-8 encoding of `c` takes. */
  function Utf8Width(c: char): (w: nat)
    ensures 1 <= w <= 4
    ensures (c as int < 0x80) <==> w == 1
  {
    var n := c as int;
    if n < 0x80 then 1 else if n < 0x800 then 2 else if n < 0x10000 then 3 else 4
  }

  /** Rust's `String::len`: the length of the UTF-8 encoding in bytes. */
  function Utf8Len(s: string): (n: nat)
    ensures |s| <= n <= 4 * |s|
  {
    if s == [] then 0 else Utf8Width(s[0]) + Utf8Len(s[1..])
  }

  /** On ASCII text the byte length is the character count. */
  lemma {:induction false} Utf8LenAscii(s: string)
    requires forall i :: 0 <= i < |s| ==> s[i] as int < 0x80
    ensures Utf8Len(s) == |s|
  {
    if s != [] {
      Utf8LenAscii(s[1..]);
    }
  }

  /** The characters with the Unicode White_Space property. */
  const WhiteSpace: set<char> := {
    '\t', '\n', '\U{000B}', '\U{000C}', '\r', ' ', '\U{0085}', '\U{00A0}', '\U{1680}',
    '\U{2000}', '\U{2001}', '\U{2002}', '\U{2003}', '\U{2004}', '\U{2005}',
    '\U{2006}', '\U{2007}', '\U{2008}', '\U{2009}', '\U{200A}',
    '\U{2028}', '\U{2029}', '\U{202F}', '\U{205F}', '\U{3000}'
  }

  /** Rust's `char::is_whitespace`. */
  predicate IsWhitespace(c: char) {
    c in WhiteSpace
  }

  predicate Blank(s: string) {
    forall i :: 0 <= i < |s| ==> IsWhitespace(s[i])
  }

  /** True of a string with no whitespace at either end. */
  predicate Trimmed(s: string) {
    s == [] || (!IsWhitespace(s[0]) && !IsWhitespace(s[|s| - 1]))
  }

  /** Rust's `str::trim_start`. */
  function TrimStart(s: string): (r: string)
    ensures |r| <= |s|
  {
    if s != [] && IsWhitespace(s[0]) then TrimStart(s[1..]) else s
  }

  /** Rust's `str::trim_end`. */
  function TrimEnd(s: string): (r: string)
    ensures |r| <= |s|
  {
    if s != [] && IsWhitespace(s[|s| - 1]) then TrimEnd(s[..|s| - 1]) else s
  }

  /** `TrimStart` drops the leading whitespace and nothing else. */
  lemma {:induction false} TrimStartDrops(s: string)
    ensures var r := TrimStart(s);
      && |r| <= |s| && r == s[|s| - |r|..]
      && Blank(s[..|s| - |r|])
      && (r == [] || !IsWhitespace(r[0]))
  {
    if s != [] && IsWhitespace(s[0]) {
      var r := TrimStart(s[1..]);
      TrimStartDrops(s[1..]);
      assert s[..|s| - |r|] == [s[0]] + s[1..][..|s| - 1 - |r|];
    }
  }

  /** `TrimEnd` drops the trailing whitespace and nothing else. */
  lemma {:induction false} TrimEndDrops(s: string)
    ensures var r := TrimEnd(s);
      && |r| <= |s| && r == s[..|r|]
      && Blank(s[|r|..])
      && (r == [] || !IsWhitespace(r[|r| - 1]))
  {
    if s != [] && IsWhitespace(s[|s| - 1]) {
      var r := TrimEnd(s[..|s| - 1]);
      TrimEndDrops(s[..|s| - 1]);
      assert s[|r|..] == s[..|s| - 1][|r|..] + [s[|s| - 1]];
    }
  }

  /** Rust's `str::trim`. */
  function Trim(s: string): (r: string)
    ensures Trimmed(r)
  {
    TrimStartDrops(s);
    TrimEndDrops(TrimStart(s));
    TrimEnd(TrimStart(s))
  }

  /** A string that is whitespace, then `m`, then whitespace, trims to `m`
      exactly when `m` has no whitespace at its ends: `Trim` is the
      unique such middle part. */
  lemma {:induction false} TrimStartOf(a: string, m: string)
    requires Blank(a)
    requires m == [] || !IsWhitespace(m[0])
    ensures TrimStart(a + m) == m
  {
    if a != [] {
      assert (a + m)[1..] == a[1..] + m;
      TrimStartOf(a[1..], m);
    }
  }

  lemma {:induction false} TrimEndOf(m: string, b: string)
    requires Blank(b)
    requires m == [] || !IsWhitespace(m[|m| - 1])
    ensures TrimEnd(m + b) == m
  {
    if b != [] {
      assert (m + b)[..|m + b| - 1] == m + b[..|b| - 1];
      TrimEndOf(m, b[..|b| - 1]);
    }
  }

  lemma TrimOf(a: string, m: string, b: string)
    requires Blank(a) && Blank(b) && Trimmed(m)
    ensures Trim(a + m + b) == m
  {
    assert a + m + b == a + (m + b);
    if m == [] {
      assert m + b == [] + b;
      TrimStartOf(a + b, []);
      assert a + b + [] == a + m + b;
    } else {
      TrimStartOf(a, m + b);
    }
    TrimEndOf(m, b);
  }

  /** `Trim` removes whitespace from the two ends only: the result is a
      slice of the input with only whitespace before and after it. */
  lemma TrimSplits(s: string)
    ensures var r := Trim(s); var lo := |s| - |TrimStart(s)|;
      && lo + |r| <= |s| && r == s[lo..lo + |r|]
      && Blank(s[..lo]) && Blank(s[lo + |r|..])
  {
    var t := TrimStart(s);
    var r := TrimEnd(t);
    var lo := |s| - |t|;
    TrimStartDrops(s);
    TrimEndDrops(t);
    assert t[|r|..] == s[lo + |r|..];
  }

  lemma TrimIdempotent(s: string)
    ensures Trim(Trim(s)) == Trim(s)
  {
    var r := Trim(s);
    assert [] + r + [] == r;
    TrimOf([], r, []);
  }

  /** Trimming yields nothing exactly when the input is all whitespace. */
  lemma TrimEmptyIffBlank(s: string)
    ensures Trim(s) == [] <==> Blank(s)
  {
    TrimSplits(s);
    if Trim(s) == [] {
      var lo := |s| - |TrimStart(s)|;
      assert s == s[..lo] + s[lo..];
    }
    if Blank(s) {
      assert s + [] + [] == s;
      TrimOf(s, [], []);
    }
  }

  /** The log line `format!("{}: {}", sender, text)`. */
  function FormatLine(sender: string, text: string): (r: string)
    ensures |r| == |sender| + 2 + |text|
    ensures r[..|sender|] == sender && r[|sender| + 2..] == text
    ensures r[|sender|] == ':' && r[|sender| + 1] == ' '
  {
    sender + ": " + text
  }

  /** The log line of a message the local user sent. */
  function LocalEcho(text: string): (r: string)
    ensures |r| == 5 + |text| && r[..5] == "You: " && r[5..] == text
  {
    FormatLine("You", text)
  }

  /** What the `y` key copies: the text after the first space of a log line.
      `None` where the source's `find(' ').unwrap()` would panic. */
  function AfterFirstSpace(s: string): (r: Option<string>)
    ensures r.None? <==> ' ' !in s
    ensures r.Some? ==>
      (|r.value| < |s| && s[|s| - |r.value| - 1] == ' '
       && ' ' !in s[..|s| - |r.value| - 1] && s[|s| - |r.value|..] == r.value)
  {
    if s == [] then None
    else if s[0] == ' ' then Some(s[1..])
    else
      var r := AfterFirstSpace(s[1..]);
      if r.Some? then
        assert s[..|s| - |r.value| - 1] == [s[0]] + s[1..][..|s| - 1 - |r.value| - 1];
        r
      else
        assert s == [s[0]] + s[1..];
        r
  }

  /** Copying a log line gives back the text that was formatted into it,
      as long as the sender's name has no space. */
  lemma {:induction false} CopyFormatted(sender: string, text: string)
    requires ' ' !in sender
    ensures AfterFirstSpace(FormatLine(sender, text)) == Some(text)
  {
    if sender == [] {
      assert FormatLine(sender, text) == [':', ' '] + text;
    } else {
      assert FormatLine(sender, text)[1..] == FormatLine(sender[1..], text);
      CopyFormatted(sender[1..], text);
    }
  }

  /** Copying the echo of a sent message gives back exactly the text sent. */
  lemma CopyLocalEcho(text: string)
    ensures AfterFirstSpace(LocalEcho(text)) == Some(text)
  {
    CopyFormatted("You", text);
  }

  /** Every log line contains a space, so copying it never fails. */
  lemma FormattedHasSpace(sender: string, text: string)
    ensures ' ' in FormatLine(sender, text)
  {
    assert FormatLine(sender, text)[|sender| + 1] == ' ';
  }
}
