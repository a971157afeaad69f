/** What the console's cursor arithmetic needs to know about text: the width
    of a line in the 10x20 monospaced font, and how Rust's `str::lines` splits
    the message. */
module Text {

  /** Advance of one glyph of FONT_10X20. The font is monospaced and has no
      character spacing, so every glyph, including the replacement glyph drawn
      for characters outside the font, is 10 pixels wide. */
  function GlyphWidth(c: char): (w: nat)
    ensures w > 0
  {
    10
  }

  /** Width of the bounding box of `s` drawn on one line: the sum of its glyph
      advances (0 for the empty line). */
  function TextWidth(s: string): nat
  {
    if s == [] then 0 else TextWidth(s[..|s| - 1]) + GlyphWidth(s[|s| - 1])
  }

  /** Number of occurrences of `c` in `s`. */
  function Occurrences(c: char, s: string): nat
  {
    if s == [] then 0
    else Occurrences(c, s[..|s| - 1]) + (if s[|s| - 1] == c then 1 else 0)
  }

  /** The text after the last '\n' of `s` (all of `s` when it has none): the
      line the cursor is on. */
  function LastSegment(s: string): string
  {
    if s == [] then []
    else if s[|s| - 1] == '\n' then []
    else LastSegment(s[..|s| - 1]) + [s[|s| - 1]]
  }

  /** `s.lines().last().unwrap_or("")`: `lines` splits at "\n" and "\r\n" and
      does not yield an empty segment after a final line ending, so for
      "A\n" the last line is "A", not "". */
  function LinesLast(s: string): string
  {
    if s == [] then []
    else if s[|s| - 1] == '\n' then
      var line := LastSegment(s[..|s| - 1]);
      if |line| > 0 && line[|line| - 1] == '\r' then line[..|line| - 1] else line
    else LastSegment(s)
  }

  /** LastSegment is the longest suffix of `s` without '\n': it is a
      suffix, holds no '\n', and is either all of `s` or preceded by '\n'. */
  lemma {:induction false} LastSegmentIsLastLine(s: string)
    ensures var r := LastSegment(s);
      && Occurrences('\n', r) == 0
      && |r| <= |s| && r == s[|s| - |r|..]
      && (|r| < |s| ==> s[|s| - |r| - 1] == '\n')
  {
    if s != [] && s[|s| - 1] != '\n' {
      var init := s[..|s| - 1];
      LastSegmentIsLastLine(init);
      var r0 := LastSegment(init);
      var r := r0 + [s[|s| - 1]];
      assert r[..|r| - 1] == r0;
      assert s == init + [s[|s| - 1]];
      assert s[|s| - |r|..] == init[|init| - |r0|..] + [s[|s| - 1]];
      if |r| < |s| {
        assert s[|s| - |r| - 1] == init[|init| - |r0| - 1];
      }
    }
  }

  /** A character that occurs nowhere is at no index. */
  lemma {:induction false} NoOccurrenceAt(c: char, s: string, i: nat)
    requires Occurrences(c, s) == 0 && i < |s|
    ensures s[i] != c
  {
    if i < |s| - 1 {
      NoOccurrenceAt(c, s[..|s| - 1], i);
    }
  }

  /** In the 10x20 font a line of n characters is 10n pixels wide. */
  lemma {:induction false} TextWidthMonospaced(s: string)
    ensures TextWidth(s) == 10 * |s|
  {
    if s != [] {
      TextWidthMonospaced(s[..|s| - 1]);
    }
  }

  /** Without '\r' in `s`, the last line `lines` reports is the last segment
      of `s`, or, when `s` ends with '\n', the segment before that final
      '\n': the line above the (empty) line the cursor is on. */
  lemma LinesLastWithoutCarriageReturn(s: string)
    requires Occurrences('\r', s) == 0
    ensures s != [] && s[|s| - 1] == '\n' ==> LinesLast(s) == LastSegment(s[..|s| - 1])
    ensures (s == [] || s[|s| - 1] != '\n') ==> LinesLast(s) == LastSegment(s)
  {
    if s != [] && s[|s| - 1] == '\n' {
      var line := LastSegment(s[..|s| - 1]);
      if |line| > 0 {
        assert line[|line| - 1] == s[..|s| - 1][|s| - 2];
        assert s[..|s| - 1][|s| - 2] == s[|s| - 2];
        NoOccurrenceAt('\r', s, |s| - 2);
      }
    }
  }

  /** The two notions part ways exactly after a final '\n': there the cursor's
      line is empty while `lines` reports the line above it. */
  lemma LinesLastSkipsTrailingEmptyLine()
    ensures LastSegment("A\n") == ""
    ensures LinesLast("A\n") == "A"
    ensures LinesLast("A") == LastSegment("A") == "A"
  {
    assert "A\n"[..1] == "A";
    assert "A"[..0] == "";
  }
}
