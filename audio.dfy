/** Tone output: a note is a period in microseconds; the speaker pin is driven
    high and low in a busy loop until the note's duration is used up. A note
    of 0 is a rest. */
module Audio {
  import opened Bits

  /** Note periods in microseconds, in the firmware's table order:
      A B C D D# E F F# G A#, then a b c d e f g one octave higher. */
  const NOTES: seq<uint32> :=
    [2272, 2024, 3816, 3401, 3215, 3030, 2865, 2703, 2551, 2146,
     1136, 1012, 1912, 1703, 1517, 1432, 1275]

  /** One level of the speaker pin, held for `holdUs` microseconds. */
  datatype PinStep = PinStep(high: bool, holdUs: nat)

  /** `n` square-wave cycles, each the pin high for `highUs` and then low for
      `lowUs`: the steps alternate, starting high. */
  function SquareWave(highUs: nat, lowUs: nat, n: nat): (w: seq<PinStep>)
    ensures |w| == 2 * n
    ensures forall k :: 0 <= k < 2 * n ==>
              w[k] == if k % 2 == 0 then PinStep(true, highUs) else PinStep(false, lowUs)
  {
    if n == 0 then [] else SquareWave(highUs, lowUs, n - 1) + [PinStep(true, highUs), PinStep(false, lowUs)]
  }

  /** Total time the steps hold the pin, in microseconds. */
  function HoldTime(w: seq<PinStep>): nat {
    if w == [] then 0 else HoldTime(w[..|w| - 1]) + w[|w| - 1].holdUs
  }

  /** `n` cycles of a square wave last `n` times one high plus one low hold. */
  lemma {:induction false} SquareWaveTime(highUs: nat, lowUs: nat, n: nat)
    ensures HoldTime(SquareWave(highUs, lowUs, n)) == n * (highUs + lowUs)
  {
    if n > 0 {
      var w := SquareWave(highUs, lowUs, n);
      var w1 := SquareWave(highUs, lowUs, n - 1) + [PinStep(true, highUs)];
      assert w[..|w| - 1] == w1;
      assert w1[..|w1| - 1] == SquareWave(highUs, lowUs, n - 1);
      SquareWaveTime(highUs, lowUs, n - 1);
    }
  }

  function CeilDiv(a: nat, b: nat): nat
    requires b > 0
  {
    (a + b - 1) / b
  }

  /** CeilDiv(a, b) is the least count of b-steps that reaches a. */
  lemma CeilDivIsLeast(a: nat, b: nat)
    requires b > 0
    ensures CeilDiv(a, b) * b >= a
    ensures CeilDiv(a, b) > 0 ==> (CeilDiv(a, b) - 1) * b < a
  {
    var q := (a + b - 1) / b;
    var r := (a + b - 1) % b;
    assert a + b - 1 == q * b + r;
  }

  /** Loop counter bound of a note, in microseconds (`durationMs * 1000`). */
  function BudgetUs(durationMs: uint32): nat {
    durationMs * 1000
  }

  /** Plays one note. A rest waits `durationMs` milliseconds and never touches
      the pin. A tone runs the loop `t += note` while `t < durationMs * 1000`,
      that is, ceil(durationMs * 1000 / note) times; each pass drives the pin
      high and then low, holding each level `note / 4` microseconds. The
      firmware's `uint32_t` counter and bound must not overflow, which the
      precondition states. */
  method PlayNote(note: uint32, durationMs: uint32) returns (cycles: nat, wave: seq<PinStep>, restMs: nat)
    requires note > 0 ==> BudgetUs(durationMs) + note <= TWO_32
    ensures note == 0 ==> cycles == 0 && wave == [] && restMs == durationMs
    ensures note > 0 ==> cycles == CeilDiv(BudgetUs(durationMs), note)
    ensures note > 0 ==> wave == SquareWave(note / 4, note / 4, cycles) && restMs == 0
  {
    cycles, wave, restMs := 0, [], 0;
    if note > 0 {
      var budget: uint32 := durationMs * 1000;
      var t: uint32 := 0;
      while t < budget
        invariant t == cycles * note
        invariant cycles > 0 ==> (cycles - 1) * note < budget
        invariant wave == SquareWave(note / 4, note / 4, cycles)
        decreases budget - t
      {
        wave := wave + [PinStep(true, note / 4)];
        wave := wave + [PinStep(false, note / 4)];
        t := t + note;
        cycles := cycles + 1;
      }
      CeilIsUnique(budget, note, cycles);
    } else {
      restMs := durationMs;
    }
  }

  /** The count the loop stops at is CeilDiv. */
  lemma CeilIsUnique(a: nat, b: nat, n: nat)
    requires b > 0
    requires n * b >= a && (n > 0 ==> (n - 1) * b < a)
    ensures n == CeilDiv(a, b)
  {
    CeilDivIsLeast(a, b);
    var c := CeilDiv(a, b);
    if c > 0 {
      FactorLess(c - 1, n, b);
    }
    if n > 0 {
      FactorLess(n - 1, c, b);
    }
  }

  /** A (2272 us) held for 500 ms runs 221 cycles. */
  lemma ExampleCycles()
    ensures CeilDiv(BudgetUs(500), NOTES[0]) == 221
  {
  }

  /** As written, a tone holds the pin for only about half the requested
      duration: every cycle waits `2 * (note / 4)` microseconds while the
      counter advances a full `note`, so the cycles add up to less than half
      of the duration plus one period. */
  lemma {:induction false} ToneIsShort(note: uint32, durationMs: uint32)
    requires note > 0
    ensures var n := CeilDiv(BudgetUs(durationMs), note);
            2 * HoldTime(SquareWave(note / 4, note / 4, n)) < BudgetUs(durationMs) + note
  {
    var budget := BudgetUs(durationMs);
    var n := CeilDiv(budget, note);
    CeilDivIsLeast(budget, note);
    SquareWaveTime(note / 4, note / 4, n);
    QuarterCycles(n, note / 4, note, budget);
  }

  /** Arithmetic core of ToneIsShort: `n` cycles of two quarter periods,
      with `n` the least count of periods reaching the budget. */
  lemma QuarterCycles(n: nat, h: nat, note: nat, budget: nat)
    requires note > 0 && 4 * h <= note
    requires n > 0 ==> (n - 1) * note < budget
    ensures 2 * (n * (h + h)) < budget + note
  {
    MulMono(n, 4 * h, note);
    assert 2 * (n * (h + h)) == n * (4 * h);
    if n > 0 {
      assert n * note == (n - 1) * note + note;
    }
  }

  /** A (2272 us, 440 Hz) asked for 500 ms sounds for 251056 us with a
      1136 us period, that is about 880 Hz. */
  lemma ToneIsShortExample()
    ensures var w := SquareWave(NOTES[0] / 4, NOTES[0] / 4, CeilDiv(BudgetUs(500), NOTES[0]));
            HoldTime(w) == 251056 && w[0].holdUs + w[1].holdUs == 1136
  {
    ExampleCycles();
    SquareWaveTime(568, 568, 221);
  }

  lemma MulMono(n: nat, a: nat, b: nat)
    requires a <= b
    ensures n * a <= n * b
  {
    assert n * b - n * a == n * (b - a);
  }

  /** Plays one note with the evident intent of the firmware: each cycle
      holds the pin high for half the period and low for the rest, so a
      cycle takes exactly `note` microseconds, the counter tracks the time
      actually waited, and the tone lasts the requested duration. */
  method PlayNoteCorrected(note: uint32, durationMs: uint32) returns (cycles: nat, wave: seq<PinStep>, restMs: nat)
    requires note > 0 ==> BudgetUs(durationMs) + note <= TWO_32
    ensures note == 0 ==> cycles == 0 && wave == [] && restMs == durationMs
    ensures note > 0 ==> cycles == CeilDiv(BudgetUs(durationMs), note)
    ensures note > 0 ==> wave == SquareWave(note / 2, note - note / 2, cycles) && restMs == 0
    ensures note > 0 ==> BudgetUs(durationMs) <= HoldTime(wave) < BudgetUs(durationMs) + note
  {
    cycles, wave, restMs := 0, [], 0;
    if note > 0 {
      var budget: uint32 := durationMs * 1000;
      var t: uint32 := 0;
      while t < budget
        invariant t == cycles * note
        invariant cycles > 0 ==> (cycles - 1) * note < budget
        invariant wave == SquareWave(note / 2, note - note / 2, cycles)
        decreases budget - t
      {
        wave := wave + [PinStep(true, note / 2)];
        wave := wave + [PinStep(false, note - note / 2)];
        t := t + note;
        cycles := cycles + 1;
      }
      CeilIsUnique(budget, note, cycles);
      SquareWaveTime(note / 2, note - note / 2, cycles);
    } else {
      restMs := durationMs;
    }
  }
}
