# Backlight dimmer and keyboard console of a handheld board, in Dafny

The firmware in `src/main.rs` drives a small LCD board. Two parts of it hold
state and logic, and this project models both and proves properties of them.

- **The backlight dimmer** (`set_brightness`). The backlight driver has one
  control line and no read-back. Each low-to-high pulse lowers the brightness
  one position on a ring of 16 positions, wrapping from the lowest to the
  highest. Holding the line low switches the backlight off. The firmware
  records the last level it set (`DISPLAY_LEVEL`, initially 16). To reach a
  level from 1 to 16 it sends `(current - level) rem_euclid 16` pulses. It
  raises the line and waits 30 µs, then sends each pulse as low, high and a
  30 µs wait, then waits 3 ms to settle. Level 0 drives the line low and waits
  3 ms. A request above 16 fails an assertion before the line is touched.
- **The console** (the body of `main`'s `loop`). Each iteration reads one
  byte from the keyboard over I2C. A failed read or a zero byte means "no
  key". Any other byte erases the 2×20 caret rectangle, makes one edit, and
  redraws the caret at `cursor - (0, 15)`. Byte 0x08 deletes the last
  character. Byte 0x0D appends `'\n'` and moves the cursor to (30, y + 20).
  Every other byte is appended as `byte as char` and drawn, and the cursor
  moves to where the drawing ends.

Files:
- `device.dfy` (module `Device`): the `u8` type and the outcome of an I2C read.
- `backlight.dfy` (module `Backlight`): the pulse arithmetic and a reference
  model of the decrement ring. It also defines the line/delay trace that a
  request emits and the `Dimmer` class, whose `SetBrightness` method is
  proved against those functions.
- `text.dfy` (module `Text`): glyph and line widths for the 10×20 monospaced
  font, plus `LinesLast`, which is `str::lines().last().unwrap_or("")`.
- `terminal.dfy` (module `Terminal`): the console state (`Screen`), the byte
  decoding, one loop iteration as functions (`Handle`, `HandleOps`), the
  invariants and lemmas, and the `Console` class, whose `Poll` method is one
  iteration of the loop.

The state of each class is tied to its pure functions by the method
contracts. For an accepted request (requested ≤ 16), `Dimmer.SetBrightness`
ensures `trace == old(trace) + Train(old(level), requested)`; a refused one
changes nothing. `Console.Poll` ensures `State() ==
Handle(old(State()), r)` and that the drawing log grows by
`HandleOps(old(State()), r)`. The lemmas then prove the properties about
`Train` and `Handle`.

The `lines()` quirk is modelled as written. `str::lines` yields no empty
segment after a final line ending. So when a backspace removes the second
`'\n'` of a message ending in `"\n\n"`, the cursor goes to the end of the
line *above* the empty line it is now on. Example: for "A\n\n" the cursor
ends at x = 40 on the empty second line. The model proves three things:
- `Inv` holds always: y tracks the number of newlines, x is never left of the
  end of its line's text, the caret sits at the cursor, and the message never
  holds `'\r'`.
- `HandleKeepsAligned`: x equals the end of the line's text, except in that
  backspace case and for byte 0x0A.
- `AlignmentCounterexamples`: both exceptions really happen.

Two consequences of the code are worth spelling out:
- A backspace on an empty message still erases and redraws the caret in
  place. The erase and the redraw sit outside the `match`, at lines 123 and
  160-161 (`BackspaceOnEmpty`).
- After a level-0 request the recorded level is 0, not 16. The pulse formula
  then treats 0 as ring position 16 (`RingPosition`).

The model takes one thing about the backlight hardware on trust:
- a backlight held low comes back at full brightness, the top of the ring,
  when pulsed again. `RingPosition(0) == 16` states this, and what
  `StepsReachLevel` says for a recorded level of 0 depends on it. The firmware
  makes the same assumption: it drives the line low at line 64 and still
  records 16 at line 169.

The model takes two things about embedded-graphics on trust; that library is
not part of this model:
- `Text::draw` returns the point after the drawn text. A one-character text
  `"\n"`, which byte 0x0A produces, is drawn as a line break, so the returned
  point is (x, y + 20) (`NextPosition`).
- the bounding box of a line in FONT_10X20 is 10 pixels per character
  (`GlyphWidth`, `TextWidthMonospaced`).

## Model

| member | source | states |
|---|---|---|
| Backlight.Steps | src/main.rs:182-183 | the pulse count is in 0..15, and it is 0 exactly when the request equals the recorded level or goes from 0 to 16 |
| Backlight.StepsReachLevel | src/main.rs:182-183 | reference ring model: Steps pulses from the recorded level's ring position reach the requested level, and no smaller count does |
| Backlight.RingClosure | src/main.rs:182-183 | sixteen pulses go exactly once around the ring: after 16 the position is back, and after 1..15 it is not |
| Backlight.DecrementTimesFormula | src/main.rs:182-183 | n pulses from position p end at ((p - 1 - n) mod 16) + 1 |
| Backlight.PulseTrain | src/main.rs:185-191 | the raise-and-pulse part of a request for n pulses has 2 + 3n events; its counts and end are stated by PulseTrainCounts and PulseTrainEnd |
| Backlight.Train | src/main.rs:178-193 | no contract of its own; characterised by TrainShape, and tied to the Dimmer's trace by SetBrightness |
| Backlight.PulseTrainCounts | src/main.rs:185-191 | the raise-and-pulse part of a request holds exactly n low-to-high pulses and n lows, and no settle delay |
| Backlight.PulseTrainEnd | src/main.rs:185-191 | the raise-and-pulse part leaves the line high and ends with a 30 µs wait |
| Backlight.TrainShape | src/main.rs:178-193 | level 0 emits one low, no high and no pulse; a nonzero level emits exactly Steps pulses and Steps lows and leaves the line high; every request ends with exactly one 3 ms settle delay |
| Backlight.StartUpPulses | src/main.rs:83-93 | from the initial 16, requesting 15 costs one pulse and then 13 costs two |
| Backlight.Dimmer.constructor | src/main.rs:169 | the recorded level starts at 16 and the trace is empty |
| Backlight.Dimmer.SetHigh | src/main.rs:185-189 | `bl.set_high()`: the line becomes high, the level is kept, and the trace grows by exactly one LineHigh |
| Backlight.Dimmer.SetLow | src/main.rs:179-188 | `bl.set_low()`: the line becomes low, the level is kept, and the trace grows by exactly one LineLow |
| Backlight.Dimmer.WaitUs | src/main.rs:186-190 | `delay_us(us)`: the trace grows by exactly one DelayUs(us) and nothing else changes |
| Backlight.Dimmer.WaitMs | src/main.rs:180-192 | `delay_ms(ms)`: the trace grows by exactly one DelayMs(ms) and nothing else changes |
| Backlight.Dimmer.SetBrightness | src/main.rs:171-196 | a request above 16 is refused before anything changes; otherwise the emitted trace is Train(old level, request), the line ends high exactly for a nonzero level, and the recorded level becomes the request |
| Backlight.StartUp | src/main.rs:83-93 | the two start-up requests leave level 13 and emit Train(16, 15) then Train(15, 13) |
| Text.GlyphWidth | src/main.rs:132-139 | every glyph of the font has a positive width; TextWidthMonospaced fixes it at 10 |
| Text.TextWidth | src/main.rs:132-134 | no contract of its own; characterised by TextWidthMonospaced |
| Text.LinesLast | src/main.rs:131 | no contract of its own; characterised by LinesLastWithoutCarriageReturn and LinesLastSkipsTrailingEmptyLine |
| Text.TextWidthMonospaced | src/main.rs:132-134 | a line of n characters in the 10×20 font is 10n pixels wide |
| Text.LastSegmentIsLastLine | src/main.rs:131 | the cursor's line is the longest suffix of the message without '\n' |
| Text.LinesLastWithoutCarriageReturn | src/main.rs:131 | without '\r', the last line that lines() reports is the last segment, or the segment before a final '\n' |
| Text.LinesLastSkipsTrailingEmptyLine | src/main.rs:131 | for "A\n", lines() reports "A" while the cursor's line is empty |
| Terminal.CaretRect | src/main.rs:119-123 | no contract of its own; the 2×20 caret rectangle at a top-left corner in a colour, characterised by CaretFollowsCursor and BackspaceOnEmpty |
| Terminal.Initial | src/main.rs:114-119 | no contract of its own; the empty message with the cursor at (30, 30) and the caret at (30, 15), characterised by InitialInv |
| Terminal.InitialOps | src/main.rs:119-120 | no contract of its own; the one caret draw before the loop, which the Console constructor puts in the log |
| Terminal.Edit | src/main.rs:125-159 | no contract of its own; the `match` on the byte, dispatching to EraseLast, BreakLine and Insert, characterised by the lemmas about Handle |
| Terminal.CaretAt | src/main.rs:116 | no contract of its own; characterised by CaretFollowsCursor and the caret clause of Inv (HandleKeepsInv) |
| Terminal.Processed | src/main.rs:122 | no contract of its own; characterised by IgnoredRead |
| Terminal.NextPosition | src/main.rs:155-157 | no contract of its own; characterised by AppendThenBackspace, HandleKeepsAligned and AlignmentCounterexamples |
| Terminal.EraseLast | src/main.rs:126-146 | no contract of its own; characterised by BackspaceOnEmpty, BackspaceOverNewLine, AppendThenBackspace and NewLineThenBackspace |
| Terminal.BreakLine | src/main.rs:147-152 | no contract of its own; characterised by NewLineThenBackspace |
| Terminal.Insert | src/main.rs:153-158 | no contract of its own; characterised by AppendThenBackspace |
| Terminal.EditOps | src/main.rs:126-158 | no contract of its own; characterised by CaretFollowsCursor and BackspaceOnEmpty |
| Terminal.Handle | src/main.rs:121-161 | no contract of its own; characterised by HandleKeepsInv, HandleKeepsAligned, IgnoredRead and the edit lemmas, and tied to Console by Poll |
| Terminal.HandleOps | src/main.rs:123-161 | no contract of its own; characterised by CaretFollowsCursor, IgnoredRead and BackspaceOnEmpty, and tied to Console by Poll |
| Terminal.Replay | src/main.rs:121-165 | no contract of its own; characterised by ReplayKeepsInv |
| Terminal.Decode | src/main.rs:124-153 | 0x08 is backspace, 0x0D is newline, and any other nonzero byte appends the character with that code |
| Terminal.DecodeThenEncode | src/main.rs:124-153 | each nonzero byte decodes to a command a byte can express, and that command encodes back to the same byte |
| Terminal.EncodeThenDecode | src/main.rs:124-153 | decoding undoes encoding on every command a byte can express |
| Terminal.IgnoredRead | src/main.rs:122 | a failed read or a zero byte changes neither message, cursor nor caret, and draws nothing |
| Terminal.InitialInv | src/main.rs:114-120 | the initial state satisfies the invariant, with the cursor at the end of its line |
| Terminal.HandleKeepsInv | src/main.rs:114-161 | every iteration keeps y == 30 + 20 × (number of '\n'), keeps x at or right of the end of the line's text, keeps the caret at (x, y - 15), and keeps '\r' out of the message |
| Terminal.ReplayKeepsInv | src/main.rs:121-165 | every state reached by a run of iterations satisfies the invariant |
| Terminal.CaretFollowsCursor | src/main.rs:116-161 | a processed byte first erases the caret at its old place, then draws only text, and last draws the caret at (x, y - 15) of the new cursor |
| Terminal.AppendThenBackspace | src/main.rs:137-157 | a non-control byte appends exactly its character and moves x by its width with y unchanged; a backspace right after it restores the state |
| Terminal.NewLineThenBackspace | src/main.rs:129-152 | byte 0x0D appends '\n' and moves the cursor to (30, y + 20); a backspace right after it restores the state when the cursor was at the end of its line's text and the message did not end in '\n' (the cursor's line is the first or is non-empty) |
| Terminal.BackspaceOnEmpty | src/main.rs:123-161 | backspace on an empty message leaves the state unchanged and only erases and redraws the caret in place |
| Terminal.BackspaceOverNewLine | src/main.rs:129-136 | backspace over a final '\n' removes it, moves y up 20, and sets x to 30 plus the width of lines().last() of the rest, which is the line above when the rest ends with '\n' |
| Terminal.HandleKeepsAligned | src/main.rs:129-157 | x stays at 30 plus the width of the text after the last '\n', except for a backspace onto an empty line after another '\n' and for byte 0x0A |
| Terminal.AlignmentCounterexamples | src/main.rs:131-136 | both exceptions happen: "A\n\n" then backspace, and "A" then 0x0A, each leave x = 40 on an empty line |
| Terminal.TypeHiThenErase | src/main.rs:137-157 | typing "Hi" puts x at 30 + width('H') + width('i'), and two backspaces return to the initial state |
| Terminal.ANewLineBackspace | src/main.rs:124-152 | 'A', newline, backspace leaves message "A" and the cursor at (30 + width('A'), 30) |
| Terminal.Console.constructor | src/main.rs:114-120 | the console starts with an empty message, the cursor at (30, 30) and the caret drawn at (30, 15) |
| Terminal.Console.DrawCaret | src/main.rs:160-161 | `cursor_rect.draw_styled`: the log grows by exactly one caret rectangle at the current caret corner, in the given colour |
| Terminal.Console.DrawChar | src/main.rs:155-157 | `Text::new(..).draw(..)`: the log grows by exactly one one-character text draw at the given point, and the returned point is NextPosition |
| Terminal.Console.EraseLastChar | src/main.rs:126-146 | the backspace branch changes message and cursor as EraseLast says and draws the erased glyph in black |
| Terminal.Console.BreakLineAtCursor | src/main.rs:147-152 | the carriage-return branch changes message and cursor as BreakLine says |
| Terminal.Console.InsertChar | src/main.rs:153-158 | the default branch appends the character, draws it in white at the cursor, and moves the cursor to where the drawing ends |
| Terminal.Console.HandleByte | src/main.rs:123-161 | one nonzero byte changes the state as Handle says and draws exactly HandleOps |
| Terminal.Console.Poll | src/main.rs:121-163 | one loop iteration: the new state is Handle(old state, read), the log grows by HandleOps, and the invariant is kept |

## Left out

- Peripheral bring-up is not modelled (src/main.rs:39-103): `Peripherals::take`, the SPI and I2C drivers, display initialisation, orientation, colour inversion and `display.clear`. It is linear set-up with no logic. `enable_peripheral` (src/main.rs:198-200) is left out for the same reason.
- The `Mutex` around `DISPLAY_LEVEL` is left out (src/main.rs:169, 176). The program has a single thread, so the level is a plain field of `Dimmer`. The panic that `lock().unwrap()` raises on a poisoned lock is not modelled.
- Delays are trace events only. No time passes. The 100 ms wait at the end of each loop iteration (src/main.rs:164) is not recorded.
- `.unwrap()` on pin writes and draw calls can panic; here those operations never fail. A failed keyboard read is not unwrapped. It is `Read.Failed`, which the loop ignores like a zero byte (src/main.rs:122). A failed assertion in `set_brightness` is modelled as `accepted == false` with nothing changed, not as a process abort.
- Pixel rendering is not modelled. Drawing is a log of rectangle and text calls, and text measurement is width arithmetic.
- The loop in `main` never ends, so there is no method that runs it. `Console.Poll` is one iteration. `Replay` is a finite run of iterations as a function, and `ReplayKeepsInv` is stated over it.
- Cursor coordinates are Rust `i32` and widths are `u32`; the model uses unbounded integers. The y coordinate would overflow after about 1.07×10^8 line breaks (20 pixels each) and x after about 2.1×10^8 characters on one line (10 pixels each). In a debug build that overflow panics; in a release build it wraps. Neither is modelled.
- Logging, `println!` and the empty `cxx::bridge` module (src/main.rs:34-37) are left out. So is `build.rs`, which only runs the build tooling.
