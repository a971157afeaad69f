/** The console: every keyboard byte is an edit of the message typed so
    far, drawn straight onto the display with no frame buffer, so each edit
    erases the caret, draws or erases at most one glyph, moves the cursor and
    draws the caret again. */
module Terminal {
  import opened Device
  import opened Text

  /** Left margin: x of the cursor at the start of a line. */
  const Margin: int := 30
  /** y of the first line's baseline. */
  const FirstBaseline: int := 30
  /** Line height of FONT_10X20. */
  const LineHeight: int := 20
  /** The caret's top edge is this far above the cursor. */
  const CaretRaise: int := 15
  const CaretWidth: nat := 2
  const CaretHeight: nat := 20

  const BackspaceByte: U8 := 0x08
  const CarriageReturnByte: U8 := 0x0D

  datatype Point = Point(x: int, y: int)

  datatype Color = Black | White | DarkGray

  /** The drawing calls made on the display: a filled rectangle (the caret,
      drawn in dark gray and erased in black) or a text run at a position. */
  datatype DrawOp =
    | FillRect(topLeft: Point, width: nat, height: nat, color: Color)
    | DrawText(text: string, at: Point, color: Color)

  /** What a nonzero byte asks for. */
  datatype Command = Backspace | NewLine | Append(c: char)

  /** The console's state: the message, the cursor (the baseline point where
      the next glyph goes), and the top-left corner of the caret rectangle. */
  datatype Screen = Screen(message: string, cursor: Point, caret: Point)

  /** `cursor_tl`: where the caret rectangle goes for a cursor. */
  function CaretAt(cursor: Point): Point
  {
    Point(cursor.x, cursor.y - CaretRaise)
  }

  function CaretRect(topLeft: Point, color: Color): DrawOp
  {
    FillRect(topLeft, CaretWidth, CaretHeight, color)
  }

  /** The state before the first byte: empty message, cursor at (30, 30). */
  const Initial: Screen := Screen([], Point(Margin, FirstBaseline), CaretAt(Point(Margin, FirstBaseline)))

  /** The drawing done before the loop: the caret at its first place. */
  const InitialOps: seq<DrawOp> := [CaretRect(Initial.caret, DarkGray)]

  /** Decoding of a nonzero byte: 0x08 is backspace, 0x0D is newline, and
      any other byte is the character with that code (`byte as char`). */
  function Decode(b: U8): (cmd: Command)
    requires b != 0
    ensures cmd == Backspace <==> b == BackspaceByte
    ensures cmd == NewLine <==> b == CarriageReturnByte
    ensures cmd.Append? ==> cmd.c as int == b
  {
    if b == BackspaceByte then Backspace
    else if b == CarriageReturnByte then NewLine
    else Append(b as char)
  }

  /** The byte that the keyboard sends for a command, when there is one. */
  predicate Typeable(cmd: Command)
  {
    cmd.Append? ==> 0 < cmd.c as int < 256 && cmd.c as int != BackspaceByte && cmd.c as int != CarriageReturnByte
  }

  function Encode(cmd: Command): (b: U8)
    requires Typeable(cmd)
    ensures b != 0
  {
    match cmd
    case Backspace => BackspaceByte
    case NewLine => CarriageReturnByte
    case Append(c) => c as int
  }

  /** Every nonzero byte decodes to a command that encodes back to it. */
  lemma DecodeThenEncode(b: U8)
    requires b != 0
    ensures Typeable(Decode(b)) && Encode(Decode(b)) == b
  {
  }

  /** Every command a byte can express decodes back from its byte. */
  lemma EncodeThenDecode(cmd: Command)
    requires Typeable(cmd)
    ensures Decode(Encode(cmd)) == cmd
  {
  }

  /** The position `Text::draw` returns after drawing the one-character
      text `[c]` at `at`: one glyph further right; for '\n', which the text
      renderer treats as a line break, the start of the next line at the
      same x. */
  function NextPosition(c: char, at: Point): Point
  {
    if c == '\n' then Point(at.x, at.y + LineHeight)
    else Point(at.x + GlyphWidth(c), at.y)
  }

  /** The edit a command makes to the message and the cursor (the caret is
      moved separately). */
  function Edit(s: Screen, cmd: Command): Screen
  {
    match cmd
    case Backspace => EraseLast(s)
    case NewLine => BreakLine(s)
    case Append(c) => Insert(s, c)
  }

  /** Backspace: nothing on an empty message; over a '\n', the cursor goes
      to the margin plus the width of the last line `lines` reports, one line
      up; over a glyph, one glyph left. */
  function EraseLast(s: Screen): Screen
  {
    if s.message == [] then s
    else
      var last := s.message[|s.message| - 1];
      var rest := s.message[..|s.message| - 1];
      if last == '\n' then
        Screen(rest, Point(TextWidth(LinesLast(rest)) + Margin, s.cursor.y - LineHeight), s.caret)
      else
        Screen(rest, Point(s.cursor.x - GlyphWidth(last), s.cursor.y), s.caret)
  }

  /** Carriage return: a '\n' is appended and the cursor goes to the margin
      of the next line. */
  function BreakLine(s: Screen): Screen
  {
    Screen(s.message + ['\n'], Point(Margin, s.cursor.y + LineHeight), s.caret)
  }

  /** Any other byte: its character is appended and drawn at the cursor,
      which moves to where the drawing ends. */
  function Insert(s: Screen, c: char): Screen
  {
    Screen(s.message + [c], NextPosition(c, s.cursor), s.caret)
  }

  /** The text drawing an edit does: a backspace over a glyph draws that glyph
      in black at the new cursor, an appended character is drawn in white at
      the old cursor, and nothing else draws text. */
  function EditOps(s: Screen, cmd: Command): seq<DrawOp>
  {
    match cmd
    case Backspace =>
      if s.message == [] || s.message[|s.message| - 1] == '\n' then []
      else
        var last := s.message[|s.message| - 1];
        [DrawText([last], Point(s.cursor.x - GlyphWidth(last), s.cursor.y), Black)]
    case NewLine => []
    case Append(c) => [DrawText([c], s.cursor, White)]
  }

  /** A read is acted on only when it succeeded with a nonzero byte. */
  predicate Processed(r: Read)
  {
    r.Received? && r.b != 0
  }

  /** One iteration of the console loop on the state. */
  function Handle(s: Screen, r: Read): Screen
  {
    if !Processed(r) then s
    else
      var e := Edit(s, Decode(r.b));
      e.(caret := CaretAt(e.cursor))
  }

  /** The drawing one iteration of the console loop does. */
  function HandleOps(s: Screen, r: Read): seq<DrawOp>
  {
    if !Processed(r) then []
    else
      [CaretRect(s.caret, Black)] + EditOps(s, Decode(r.b))
      + [CaretRect(Handle(s, r).caret, DarkGray)]
  }

  /** A run of iterations. */
  function Replay(s: Screen, rs: seq<Read>): Screen
  {
    if rs == [] then s else Handle(Replay(s, rs[..|rs| - 1]), rs[|rs| - 1])
  }

  // ---- Invariants ----

  /** What holds of every state the console reaches: the cursor's line is
      the number of newlines typed; the cursor is never left of the end of
      the text on its line; the caret sits at the cursor; and the message
      holds no '\r' (byte 0x0D becomes '\n'). */
  ghost predicate Inv(s: Screen)
  {
    && Occurrences('\r', s.message) == 0
    && s.cursor.y == FirstBaseline + LineHeight * Occurrences('\n', s.message)
    && s.cursor.x >= Margin + TextWidth(LastSegment(s.message))
    && s.caret == CaretAt(s.cursor)
  }

  /** The cursor is exactly at the end of the text on its line. */
  ghost predicate Aligned(s: Screen)
  {
    s.cursor.x == Margin + TextWidth(LastSegment(s.message))
  }

  lemma InitialInv()
    ensures Inv(Initial) && Aligned(Initial)
  {
  }

  /** Growing the message by one character. */
  lemma Snoc(m: string, c: char)
    ensures (m + [c])[..|m|] == m
    ensures Occurrences('\n', m + [c]) == Occurrences('\n', m) + (if c == '\n' then 1 else 0)
    ensures Occurrences('\r', m + [c]) == Occurrences('\r', m) + (if c == '\r' then 1 else 0)
    ensures LastSegment(m + [c]) == if c == '\n' then [] else LastSegment(m) + [c]
    ensures c != '\n' ==> TextWidth(LastSegment(m + [c])) == TextWidth(LastSegment(m)) + GlyphWidth(c)
  {
    assert (m + [c])[..|m|] == m;
    if c != '\n' {
      var l := LastSegment(m);
      assert (l + [c])[..|l|] == l;
    }
  }

  /** Every iteration keeps Inv. */
  lemma HandleKeepsInv(s: Screen, r: Read)
    requires Inv(s)
    ensures Inv(Handle(s, r))
  {
    // Each case needs the counts and last line of the edited message.
    if Processed(r) {
      var m := s.message;
      match Decode(r.b)
      case Backspace =>
        if m != [] {
          Snoc(m[..|m| - 1], m[|m| - 1]);
        }
      case NewLine =>
        Snoc(m, '\n');
      case Append(c) =>
        Snoc(m, c);
    }
  }

  /** Hence every state the loop reaches from the start satisfies Inv. */
  lemma {:induction false} ReplayKeepsInv(s: Screen, rs: seq<Read>)
    requires Inv(s)
    ensures Inv(Replay(s, rs))
  {
    if rs != [] {
      ReplayKeepsInv(s, rs[..|rs| - 1]);
      HandleKeepsInv(Replay(s, rs[..|rs| - 1]), rs[|rs| - 1]);
    }
  }

  /** A failed read or a zero byte changes nothing and draws nothing. */
  lemma IgnoredRead(s: Screen, r: Read)
    requires r == Failed || r == Received(0)
    ensures Handle(s, r) == s && HandleOps(s, r) == []
  {
  }

  /** A processed byte first erases the caret where it was, and last draws
      it at the new cursor; that is the only caret drawing it does, so one
      caret is left on screen, at the cursor. */
  lemma CaretFollowsCursor(s: Screen, r: Read)
    requires Processed(r)
    ensures HandleOps(s, r)[0] == CaretRect(s.caret, Black)
    ensures HandleOps(s, r)[|HandleOps(s, r)| - 1] == CaretRect(CaretAt(Handle(s, r).cursor), DarkGray)
    ensures forall i :: 0 < i < |HandleOps(s, r)| - 1 ==> HandleOps(s, r)[i].DrawText?
    ensures Handle(s, r).caret == CaretAt(Handle(s, r).cursor)
  {
  }

  /** Appending a character that is not a control byte pushes exactly that
      character and moves the cursor one glyph right on the same line; a
      backspace right after it restores the state exactly. */
  lemma AppendThenBackspace(s: Screen, b: U8)
    requires Inv(s)
    requires b != 0 && b != BackspaceByte && b != CarriageReturnByte && b != 0x0A
    ensures Handle(s, Received(b)).message == s.message + [b as char]
    ensures Handle(s, Received(b)).cursor == Point(s.cursor.x + GlyphWidth(b as char), s.cursor.y)
    ensures Handle(Handle(s, Received(b)), Received(BackspaceByte)) == s
  {
    var c := b as char;
    assert (s.message + [c])[..|s.message|] == s.message;
  }

  /** Newline appends '\n' and moves the cursor to the margin of the next
      line; a backspace right after it restores the state when the cursor
      was at the end of its line's text and the message did not end in '\n'
      (the cursor's line is the first or is non-empty). */
  lemma NewLineThenBackspace(s: Screen)
    requires Inv(s)
    ensures Handle(s, Received(CarriageReturnByte)).message == s.message + ['\n']
    ensures Handle(s, Received(CarriageReturnByte)).cursor == Point(Margin, s.cursor.y + LineHeight)
    ensures Aligned(s) && (s.message == [] || s.message[|s.message| - 1] != '\n') ==>
              Handle(Handle(s, Received(CarriageReturnByte)), Received(BackspaceByte)) == s
  {
    var m := s.message;
    assert (m + ['\n'])[..|m|] == m;
    LinesLastWithoutCarriageReturn(m);
  }

  /** Backspace on an empty message leaves message and cursor as they were
      (the caret is still erased and redrawn in place). */
  lemma BackspaceOnEmpty(s: Screen)
    requires Inv(s) && s.message == []
    ensures Handle(s, Received(BackspaceByte)) == s
    ensures HandleOps(s, Received(BackspaceByte)) == [CaretRect(s.caret, Black), CaretRect(s.caret, DarkGray)]
  {
  }

  /** Backspace over a final '\n': the '\n' goes, the cursor goes one line
      up, and x is the margin plus the width of the last line `lines`
      reports for the rest, which is the line above when the rest itself
      ends with '\n'. */
  lemma BackspaceOverNewLine(s: Screen)
    requires Inv(s) && s.message != [] && s.message[|s.message| - 1] == '\n'
    ensures var m := s.message[..|s.message| - 1];
      && Handle(s, Received(BackspaceByte)).message == m
      && Handle(s, Received(BackspaceByte)).cursor.y == s.cursor.y - LineHeight
      && Handle(s, Received(BackspaceByte)).cursor.x == Margin + TextWidth(LinesLast(m))
      && (m == [] || m[|m| - 1] != '\n' ==>
            Handle(s, Received(BackspaceByte)).cursor.x == Margin + TextWidth(LastSegment(m)))
      && (m != [] && m[|m| - 1] == '\n' ==>
            Handle(s, Received(BackspaceByte)).cursor.x == Margin + TextWidth(LastSegment(m[..|m| - 1])))
  {
    var m := s.message[..|s.message| - 1];
    assert forall i :: 0 <= i < |m| ==> m[i] == s.message[i];
    LinesLastWithoutCarriageReturn(m);
  }

  /** A backspace that removes the '\n' of an empty last line after another
      '\n': the one case of the backspace branch that can put the cursor
      away from the end of its line. */
  predicate BackspaceToEmptyLine(s: Screen, r: Read)
  {
    && r == Received(BackspaceByte)
    && |s.message| >= 2
    && s.message[|s.message| - 1] == '\n'
    && s.message[|s.message| - 2] == '\n'
  }

  /** The cursor stays at the end of the text on its line, except after a
      backspace to an empty line and after byte 0x0A (appended as '\n' with
      x kept). */
  lemma HandleKeepsAligned(s: Screen, r: Read)
    requires Inv(s) && Aligned(s)
    requires !BackspaceToEmptyLine(s, r) && r != Received(0x0A)
    ensures Aligned(Handle(s, r))
  {
    if Processed(r) {
      var m := s.message;
      match Decode(r.b)
      case Backspace =>
        if m != [] {
          var rest := m[..|m| - 1];
          var last := m[|m| - 1];
          assert m == rest + [last];
          Snoc(rest, last);
          if last == '\n' && rest != [] {
            assert rest[|rest| - 1] == m[|m| - 2];
          }
        }
      case NewLine =>
        Snoc(m, '\n');
      case Append(c) =>
        Snoc(m, c);
    }
  }

  /** Both exceptions are real: from "A\n\n" with the cursor at the start of
      the third line, a backspace leaves the cursor at x = 40 on the empty
      second line; from "A" with the cursor after it, byte 0x0A leaves it at
      x = 40 on the empty second line. */
  lemma AlignmentCounterexamples()
    ensures var s := Screen("A\n\n", Point(30, 70), Point(30, 55));
      && Inv(s) && Aligned(s)
      && Handle(s, Received(BackspaceByte)).cursor == Point(40, 50)
      && !Aligned(Handle(s, Received(BackspaceByte)))
    ensures var s := Screen("A", Point(40, 30), Point(40, 15));
      && Inv(s) && Aligned(s)
      && Handle(s, Received(0x0A)).cursor == Point(40, 50)
      && !Aligned(Handle(s, Received(0x0A)))
  {
    var s := Screen("A\n\n", Point(30, 70), Point(30, 55));
    assert "A\n\n"[..2] == "A\n" && "A\n"[..1] == "A" && "A"[..0] == "";
    TextWidthMonospaced("A");
    var t := Screen("A", Point(40, 30), Point(40, 15));
    assert "A" + ['\n'] == "A\n";
  }

  /** Typing "Hi" from the start puts the cursor after both glyphs; two
      backspaces return to the initial state. */
  lemma TypeHiThenErase()
    ensures var hi := Handle(Handle(Initial, Received('H' as int)), Received('i' as int));
      && hi.message == "Hi"
      && hi.cursor == Point(Margin + GlyphWidth('H') + GlyphWidth('i'), FirstBaseline)
      && Handle(Handle(hi, Received(BackspaceByte)), Received(BackspaceByte)) == Initial
  {
    InitialInv();
    AppendThenBackspace(Initial, 'H' as int);
    var s1 := Handle(Initial, Received('H' as int));
    HandleKeepsInv(Initial, Received('H' as int));
    AppendThenBackspace(s1, 'i' as int);
    assert [] + ['H'] + ['i'] == "Hi";
  }

  /** Typing 'A', newline, backspace: the newline is gone and the cursor is
      back after the 'A' on the first line. */
  lemma ANewLineBackspace()
    ensures var a := Handle(Initial, Received('A' as int));
      && Handle(Handle(a, Received(CarriageReturnByte)), Received(BackspaceByte))
           == Screen("A", Point(Margin + GlyphWidth('A'), FirstBaseline),
                     CaretAt(Point(Margin + GlyphWidth('A'), FirstBaseline)))
  {
    InitialInv();
    var a := Handle(Initial, Received('A' as int));
    AppendThenBackspace(Initial, 'A' as int);
    HandleKeepsInv(Initial, Received('A' as int));
    assert a.message == "A" && "A"[..0] == [];
    HandleKeepsAligned(Initial, Received('A' as int));
    NewLineThenBackspace(a);
  }

  /** The console: message, cursor and caret rectangle as the loop in
      `main` keeps them, and a ghost log of the drawing done on the display. */
  class Console {
    var message: string
    var cursor: Point
    var caretTopLeft: Point
    ghost var log: seq<DrawOp>

    function State(): Screen
      reads this
    {
      Screen(message, cursor, caretTopLeft)
    }

    ghost predicate Valid()
      reads this
    {
      Inv(State())
    }

    /** Set-up before the loop: empty message, cursor at (30, 30), caret
        drawn. */
    constructor ()
      ensures Valid() && State() == Initial && log == InitialOps
    {
      message := [];
      cursor := Point(Margin, FirstBaseline);
      caretTopLeft := CaretAt(Point(Margin, FirstBaseline));
      log := [CaretRect(CaretAt(Point(Margin, FirstBaseline)), DarkGray)];
    }

    method DrawCaret(color: Color)
      modifies this`log
      ensures log == old(log) + [CaretRect(caretTopLeft, color)]
    {
      log := log + [CaretRect(caretTopLeft, color)];
    }

    /** `Text::new([c], at).draw(...)`: draws and returns the position after
        the text. */
    method DrawChar(c: char, at: Point, color: Color) returns (next: Point)
      modifies this`log
      ensures log == old(log) + [DrawText([c], at, color)]
      ensures next == NextPosition(c, at)
    {
      log := log + [DrawText([c], at, color)];
      next := NextPosition(c, at);
    }

    /** The backspace branch. */
    method EraseLastChar()
      modifies this`message, this`cursor, this`log
      ensures Screen(message, cursor, caretTopLeft) == EraseLast(old(State()))
      ensures log == old(log) + EditOps(old(State()), Backspace)
    {
      if message != [] {
        var c := message[|message| - 1];
        if c == '\n' {
          var rest := message[..|message| - 1];
          var lastLine := LinesLast(rest);
          cursor := Point(TextWidth(lastLine) + Margin, cursor.y - LineHeight);
          message := rest;
        } else {
          cursor := cursor.(x := cursor.x - GlyphWidth(c));
          var _ := DrawChar(c, cursor, Black);
          message := message[..|message| - 1];
        }
      }
    }

    /** The carriage-return branch. */
    method BreakLineAtCursor()
      modifies this`message, this`cursor
      ensures Screen(message, cursor, caretTopLeft) == BreakLine(old(State()))
    {
      message := message + ['\n'];
      cursor := Point(Margin, cursor.y + LineHeight);
    }

    /** The branch for every other byte. */
    method InsertChar(c: char)
      modifies this`message, this`cursor, this`log
      ensures Screen(message, cursor, caretTopLeft) == Insert(old(State()), c)
      ensures log == old(log) + EditOps(old(State()), Append(c))
    {
      message := message + [c];
      cursor := DrawChar(c, cursor, White);
    }

    /** The edit for one nonzero byte, between erasing and redrawing the
        caret. */
    method HandleByte(b: U8)
      requires b != 0
      modifies this
      ensures State() == Handle(old(State()), Received(b))
      ensures log == old(log) + HandleOps(old(State()), Received(b))
    {
      DrawCaret(Black);
      if b == BackspaceByte {
        EraseLastChar();
      } else if b == CarriageReturnByte {
        BreakLineAtCursor();
      } else {
        InsertChar(b as char);
      }
      caretTopLeft := CaretAt(cursor);
      DrawCaret(DarkGray);
    }

    /** One iteration of the loop: act on a successful read of a nonzero
        byte, do nothing otherwise. */
    method Poll(r: Read)
      requires Valid()
      modifies this
      ensures Valid()
      ensures State() == Handle(old(State()), r)
      ensures log == old(log) + HandleOps(old(State()), r)
    {
      HandleKeepsInv(State(), r);
      if r.Received? && r.b > 0 {
        HandleByte(r.b);
      }
    }
  }
}
