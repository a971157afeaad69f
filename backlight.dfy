/** The backlight dimmer. The backlight driver has a single control line and
    no read-back: each low-to-high pulse on the line lowers the brightness by
    one position on a ring of 16 positions (from the lowest it wraps to the
    highest), and holding the line low switches the backlight off. The
    software therefore keeps the last level it set and reaches a new level by
    counting pulses down the ring. */
module Backlight {
  import opened Device

  /** The maximum brightness; 0 is off. */
  const MaxLevel: int := 16
  /** The level DISPLAY_LEVEL assumes at power-on. */
  const InitialLevel: int := 16
  /** Number of positions on the decrement ring. */
  const RingSize: int := 16
  /** Wait after raising the line and after each pulse, in microseconds. */
  const PulseDelayUs: nat := 30
  /** Settle wait at the end of every request, in milliseconds. */
  const SettleDelayMs: nat := 3

  type Level = l: int | 0 <= l <= MaxLevel

  /** What happens on the control line and the delay provider, in order. */
  datatype Event = LineHigh | LineLow | DelayUs(us: nat) | DelayMs(ms: nat)

  /** `(current as i8 - level as i8).rem_euclid(16)`: the number of pulses
      that take the backlight from the recorded level to a nonzero `level`.
      Both operands are at most 16, so the `i8` arithmetic does not wrap,
      and `rem_euclid` with a positive modulus is Dafny's `%`. */
  function Steps(current: Level, level: Level): (n: nat)
    requires level != 0
    ensures n < RingSize
    ensures n == 0 <==> current == level || (current == 0 && level == MaxLevel)
  {
    (current - level) % RingSize
  }

  // ---- The decrement ring, as an independent reference for Steps ----

  /** Where on the ring the formula places a recorded level: each of 1..16
      is its own position, and "off" (0) is taken as 16, i.e. the backlight
      is assumed to come back at full brightness. */
  function RingPosition(level: Level): (p: int)
    ensures 1 <= p <= RingSize
    ensures p % RingSize == level % RingSize
  {
    if level == 0 then MaxLevel else level
  }

  /** One pulse: one position down, from 1 wrapping to 16. */
  function Decrement(p: int): int
    requires 1 <= p <= RingSize
  {
    if p == 1 then RingSize else p - 1
  }

  /** The position after `n` pulses from position `p`. */
  function DecrementTimes(p: int, n: nat): (q: int)
    requires 1 <= p <= RingSize
    ensures 1 <= q <= RingSize
  {
    if n == 0 then p else Decrement(DecrementTimes(p, n - 1))
  }

  /** Closed form of `n` pulses. */
  lemma {:induction false} DecrementTimesFormula(p: int, n: nat)
    requires 1 <= p <= RingSize
    ensures DecrementTimes(p, n) == (p - 1 - n) % RingSize + 1
  {
    if n > 0 {
      DecrementTimesFormula(p, n - 1);
      var q := DecrementTimes(p, n - 1);
      var a := p - n;
      assert q == a % 16 + 1;
      assert (a % 16 - 1) % 16 == (a - 1) % 16 by {
        assert a == (a / 16) * 16 + a % 16;
        ModShift(a % 16 - 1, a / 16);
      }
    }
  }

  /** Adding a multiple of 16 does not change the residue. */
  lemma ModShift(x: int, k: int)
    ensures (x + k * 16) % 16 == x % 16
    decreases if k > 0 then k else -k
  {
    if k > 0 {
      ModShift(x, k - 1);
      assert x + k * 16 == (x + (k - 1) * 16) + 16;
    } else if k < 0 {
      ModShift(x, k + 1);
      assert x + k * 16 == (x + (k + 1) * 16) - 16;
    }
  }

  /** Steps is the shortest pulse count that brings the ring from the
      recorded level's position to the requested level. */
  lemma StepsReachLevel(current: Level, level: Level)
    requires level != 0
    ensures DecrementTimes(RingPosition(current), Steps(current, level)) == level
    ensures forall k: nat :: k < Steps(current, level) ==>
              DecrementTimes(RingPosition(current), k) != level
  {
    var p := RingPosition(current);
    var s := Steps(current, level);
    SmallMod(current - level);
    DecrementTimesFormula(p, s);
    SmallMod(p - 1 - s);
    forall k: nat | k < s
      ensures DecrementTimes(p, k) != level
    {
      DecrementTimesFormula(p, k);
      SmallMod(p - 1 - k);
    }
  }

  /** `%` by 16 on a small range, without division. */
  lemma SmallMod(x: int)
    requires -32 <= x < 32
    ensures x % 16 == if x < -16 then x + 32 else if x < 0 then x + 16 else if x < 16 then x else x - 16
  {
  }

  /** Sixteen pulses go once around the ring. */
  lemma RingClosure(p: int)
    requires 1 <= p <= RingSize
    ensures DecrementTimes(p, RingSize) == p
    ensures forall k: nat :: 0 < k < RingSize ==> DecrementTimes(p, k) != p
  {
    DecrementTimesFormula(p, RingSize);
    SmallMod(p - 1 - RingSize);
    forall k: nat | 0 < k < RingSize
      ensures DecrementTimes(p, k) != p
    {
      DecrementTimesFormula(p, k);
      SmallMod(p - 1 - k);
    }
  }

  // ---- The pulse trains set_brightness emits ----

  /** Raise the line and wait, then `n` pulses (low, high, wait). */
  function PulseTrain(n: nat): (t: seq<Event>)
    ensures |t| == 2 + 3 * n
  {
    if n == 0 then [LineHigh, DelayUs(PulseDelayUs)]
    else PulseTrain(n - 1) + [LineLow, LineHigh, DelayUs(PulseDelayUs)]
  }

  /** Everything one accepted request emits, from recorded level `current`. */
  function Train(current: Level, level: Level): seq<Event>
  {
    if level == 0 then [LineLow, DelayMs(SettleDelayMs)]
    else PulseTrain(Steps(current, level)) + [DelayMs(SettleDelayMs)]
  }

  /** Number of decrement pulses in a trace: a LineLow immediately followed
      by a LineHigh. */
  function Pulses(t: seq<Event>): nat
  {
    if |t| < 2 then 0
    else Pulses(t[..|t| - 1]) + (if t[|t| - 2] == LineLow && t[|t| - 1] == LineHigh then 1 else 0)
  }

  /** Number of occurrences of `e` in a trace. */
  function Count(t: seq<Event>, e: Event): nat
  {
    if t == [] then 0 else Count(t[..|t| - 1], e) + (if t[|t| - 1] == e then 1 else 0)
  }

  /** Level of the control line after a trace, starting from `high`. */
  function LineAfter(t: seq<Event>, high: bool): bool
  {
    if t == [] then high
    else if t[|t| - 1] == LineHigh then true
    else if t[|t| - 1] == LineLow then false
    else LineAfter(t[..|t| - 1], high)
  }

  /** Appending one pulse to a raise-and-pulse train. */
  lemma PulseTrainStep(n: nat)
    requires n > 0
    ensures var p, t := PulseTrain(n - 1), PulseTrain(n);
      && t[..|t| - 1] == p + [LineLow, LineHigh]
      && (p + [LineLow, LineHigh])[..|p| + 1] == p + [LineLow]
      && (p + [LineLow])[..|p|] == p
  {
  }

  /** Counting over one more event. */
  lemma CountSnoc(t: seq<Event>, x: Event, e: Event)
    ensures Count(t + [x], e) == Count(t, e) + (if x == e then 1 else 0)
  {
    assert (t + [x])[..|t|] == t;
  }

  /** Counting pulses over one more event. */
  lemma PulsesSnoc(t: seq<Event>, x: Event)
    requires t != []
    ensures Pulses(t + [x]) == Pulses(t) + (if t[|t| - 1] == LineLow && x == LineHigh then 1 else 0)
  {
    assert (t + [x])[..|t|] == t;
  }

  /** One more pulse (low, high, wait) adds one pulse to the count. */
  lemma PulsesAppendStep(t: seq<Event>)
    requires t != []
    ensures Pulses(t + [LineLow, LineHigh, DelayUs(PulseDelayUs)]) == Pulses(t) + 1
  {
    var t1 := t + [LineLow];
    var t2 := t1 + [LineHigh];
    assert t + [LineLow, LineHigh, DelayUs(PulseDelayUs)] == t2 + [DelayUs(PulseDelayUs)];
    PulsesSnoc(t, LineLow);
    PulsesSnoc(t1, LineHigh);
    PulsesSnoc(t2, DelayUs(PulseDelayUs));
  }

  /** One more pulse (low, high, wait) adds its own events to every count. */
  lemma CountAppendStep(t: seq<Event>, e: Event)
    ensures Count(t + [LineLow, LineHigh, DelayUs(PulseDelayUs)], e)
      == Count(t, e) + (if e == LineLow then 1 else 0) + (if e == LineHigh then 1 else 0)
         + (if e == DelayUs(PulseDelayUs) then 1 else 0)
  {
    var t1 := t + [LineLow];
    var t2 := t1 + [LineHigh];
    assert t + [LineLow, LineHigh, DelayUs(PulseDelayUs)] == t2 + [DelayUs(PulseDelayUs)];
    CountSnoc(t, LineLow, e);
    CountSnoc(t1, LineHigh, e);
    CountSnoc(t2, DelayUs(PulseDelayUs), e);
  }

  /** A raise-and-pulse train holds `n` pulses and `n` lows and no settle
      delay. */
  lemma {:induction false} PulseTrainCounts(n: nat)
    ensures Pulses(PulseTrain(n)) == n
    ensures Count(PulseTrain(n), LineLow) == n
    ensures Count(PulseTrain(n), DelayMs(SettleDelayMs)) == 0
  {
    if n == 0 {
      var t := PulseTrain(0);
      assert t == [] + [LineHigh] + [DelayUs(PulseDelayUs)];
      CountSnoc([], LineHigh, LineLow);
      CountSnoc([LineHigh], DelayUs(PulseDelayUs), LineLow);
      CountSnoc([], LineHigh, DelayMs(SettleDelayMs));
      CountSnoc([LineHigh], DelayUs(PulseDelayUs), DelayMs(SettleDelayMs));
      PulsesSnoc([LineHigh], DelayUs(PulseDelayUs));
    } else {
      PulseTrainCounts(n - 1);
      var p := PulseTrain(n - 1);
      PulsesAppendStep(p);
      CountAppendStep(p, LineLow);
      CountAppendStep(p, DelayMs(SettleDelayMs));
    }
  }

  /** A raise-and-pulse train leaves the line high and ends with a pulse
      delay. */
  lemma PulseTrainEnd(n: nat, high: bool)
    ensures LineAfter(PulseTrain(n), high)
    ensures PulseTrain(n)[|PulseTrain(n)| - 1] == DelayUs(PulseDelayUs)
  {
    var t := PulseTrain(n);
    if n == 0 {
      assert t[..1] == [LineHigh];
    } else {
      PulseTrainStep(n);
    }
  }

  /** What one accepted request emits. Off: the line goes low, one settle
      delay, no pulse. Otherwise: exactly Steps pulses (and as many lows),
      the line left high, and one settle delay at the very end. */
  lemma TrainShape(current: Level, level: Level, high: bool)
    ensures level == 0 ==> (Pulses(Train(current, level)) == 0
                            && Count(Train(current, level), LineLow) == 1
                            && Count(Train(current, level), LineHigh) == 0)
    ensures level != 0 ==> (Pulses(Train(current, level)) == Steps(current, level)
                            && Count(Train(current, level), LineLow) == Steps(current, level))
    ensures Count(Train(current, level), DelayMs(SettleDelayMs)) == 1
    ensures Train(current, level)[|Train(current, level)| - 1] == DelayMs(SettleDelayMs)
    ensures LineAfter(Train(current, level), high) <==> level != 0
  {
    var t := Train(current, level);
    if level == 0 {
      assert t[..1] == [LineLow] && t[..1][..0] == [];
      assert Count(t[..1], LineLow) == 1 && Count(t[..1], LineHigh) == 0;
      assert Count(t[..1], DelayMs(SettleDelayMs)) == 0;
    } else {
      var n := Steps(current, level);
      PulseTrainCounts(n);
      PulseTrainEnd(n, high);
      assert t[..|t| - 1] == PulseTrain(n);
    }
  }

  /** The two requests made at start-up: from the initial 16, 15 costs one
      pulse and 13 then costs two. */
  lemma StartUpPulses()
    ensures Steps(InitialLevel, 15) == 1 && Steps(15, 13) == 2
    ensures Pulses(Train(InitialLevel, 15)) == 1 && Pulses(Train(15, 13)) == 2
  {
    TrainShape(InitialLevel, 15, false);
    TrainShape(15, 13, true);
  }

  /** The dimmer: the recorded level (DISPLAY_LEVEL), the level last driven
      onto the backlight control line, and a ghost trace of what was done to
      the line and the delay provider. */
  class Dimmer {
    var level: int
    var lineHigh: bool
    ghost var trace: seq<Event>

    ghost predicate Valid()
      reads this
    {
      0 <= level <= MaxLevel
    }

    /** Power-on: level 16 recorded; the control line starts low, as `main`
        drives it low before the first request. */
    constructor ()
      ensures Valid() && level == InitialLevel && !lineHigh && trace == []
    {
      level := InitialLevel;
      lineHigh := false;
      trace := [];
    }

    method SetHigh()
      modifies this
      ensures lineHigh && level == old(level) && trace == old(trace) + [LineHigh]
    {
      lineHigh := true;
      trace := trace + [LineHigh];
    }

    method SetLow()
      modifies this
      ensures !lineHigh && level == old(level) && trace == old(trace) + [LineLow]
    {
      lineHigh := false;
      trace := trace + [LineLow];
    }

    method WaitUs(us: nat)
      modifies this`trace
      ensures trace == old(trace) + [DelayUs(us)]
    {
      trace := trace + [DelayUs(us)];
    }

    method WaitMs(ms: nat)
      modifies this`trace
      ensures trace == old(trace) + [DelayMs(ms)]
    {
      trace := trace + [DelayMs(ms)];
    }

    /** `set_brightness(requested)`. A request above 16 fails the assertion
        before the lock is taken or the line is touched: nothing changes and
        `accepted` is false. Otherwise the train for the recorded level is
        emitted and the request becomes the recorded level. */
    method SetBrightness(requested: U8) returns (accepted: bool)
      requires Valid()
      modifies this
      ensures Valid()
      ensures accepted <==> requested <= MaxLevel
      ensures accepted ==> (level == requested && lineHigh == (requested != 0)
                            && trace == old(trace) + Train(old(level), requested))
      ensures !accepted ==> (level == old(level) && lineHigh == old(lineHigh)
                             && trace == old(trace))
    {
      if requested > MaxLevel {
        return false;
      }
      if requested == 0 {
        SetLow();
        WaitMs(SettleDelayMs);
      } else {
        var numSteps := Steps(level, requested);
        SetHigh();
        WaitUs(PulseDelayUs);
        for i := 0 to numSteps
          invariant lineHigh && level == old(level)
          invariant trace == old(trace) + PulseTrain(i)
        {
          SetLow();
          SetHigh();
          WaitUs(PulseDelayUs);
        }
        WaitMs(SettleDelayMs);
      }
      level := requested;
      return true;
    }
  }

  /** The two requests `main` makes while the display starts: 15, then 13. */
  method StartUp(d: Dimmer)
    requires d.Valid() && d.level == InitialLevel
    modifies d
    ensures d.Valid() && d.level == 13 && d.lineHigh
    ensures d.trace == old(d.trace) + Train(InitialLevel, 15) + Train(15, 13)
  {
    var ok := d.SetBrightness(15);
    ok := d.SetBrightness(13);
  }
}
