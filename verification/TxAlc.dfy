/** The closed loop of transmit power control (end of MT7601_AsicTxAlcGetAutoAgcOffset in chips/mt7601.c). */
module TxAlc {
  const HALF_STEP: int := 2048
  const STEP: int := 4096
  const WORD: nat := 0x1_0000_0000

  // ---- One correction ------------------------------------------------------------------------------

  /** Saturation of the detector: its reading and its offset rule out corrections upwards or downwards. */
  function Unsaturated(reading: int, dc: int, diff: int): int {
    if reading > 126 && diff > 0 then 0 else if reading - dc < 1 && diff < 0 then 0 else diff
  }

  predicate InBand(diff: int) {
    -STEP < diff < STEP
  }

  /** The exclusive-or of two words is negative: they differ in sign, zero counting as positive. */
  predicate SignsDiffer(a: int, b: int) {
    (a < 0) != (b < 0)
  }

  predicate Damped(pre: int, diff: int) {
    && SignsDiffer(pre, diff) && InBand(diff) && InBand(pre)
    && ((diff > 0 && diff + pre >= 0) || (diff < 0 && diff + pre < 0))
  }

  /** C's division: towards zero. */
  function Quotient(a: int, b: int): int
    requires b > 0
  {
    if a >= 0 then a / b else -(-a / b)
  }

  function Rounded(diff: int): int {
    Quotient(diff + if diff > 0 then HALF_STEP else -HALF_STEP, STEP)
  }

  /** The six-bit two's complement field of a register word. */
  function Field(word: nat): int {
    var f := word % 64;
    if f > 31 then f - 64 else f
  }

  function Clamp(p: int): int {
    if p > 31 then 31 else if p < -32 then -32 else p
  }

  /** The word with another field. */
  function WithField(word: nat, p: int): (w: nat)
    requires -32 <= p <= 31
  {
    word / 64 * 64 + (if p < 0 then p + 64 else p)
  }

  /** What the loop keeps between rounds: PowerDiffPre and the register TX_ALC_CFG_1. */
  datatype Loop = Loop(pre: int, word: nat)

  function Correct(s: Loop, diff: int): Loop {
    var pre := if Damped(s.pre, diff) then s.pre else diff;
    var applied := if Damped(s.pre, diff) then 0 else diff;
    Loop(pre, WithField(s.word, Clamp(Field(s.word) + Rounded(applied))))
  }

  class PowerLoop {
    var powerDiffPre: int
    var txAlcCfg1: nat

    ghost function State(): Loop
      reads this
    {
      Loop(powerDiffPre, txAlcCfg1)
    }

    /** The routine from the detector's reading on: `target` and `measured` are the powers it compares. */
    method Adjust(reading: int, dc: int, target: int, measured: int)
      requires txAlcCfg1 < WORD
      modifies this
      ensures State() == Correct(old(State()), Unsaturated(reading, dc, target - measured)) && txAlcCfg1 < WORD
    {
      var powerDiff := target - measured;
      if reading > 126 && powerDiff > 0 {
        powerDiff := 0;
      } else if reading - dc < 1 && powerDiff < 0 {
        powerDiff := 0;
      }
      if SignsDiffer(powerDiffPre, powerDiff) && InBand(powerDiff) && InBand(powerDiffPre) {
        if powerDiff > 0 && powerDiff + powerDiffPre >= 0 {
          powerDiff := 0;
        } else if powerDiff < 0 && powerDiff + powerDiffPre < 0 {
          powerDiff := 0;
        } else {
          powerDiffPre := powerDiff;
        }
      } else {
        powerDiffPre := powerDiff;
      }
      ApplyDiff(powerDiff);
    }

    /** Rounds the difference to steps and adds it to the register's field. */
    method ApplyDiff(diff: int)
      requires txAlcCfg1 < WORD
      modifies this`txAlcCfg1
      ensures txAlcCfg1 == WithField(old(txAlcCfg1), Clamp(Field(old(txAlcCfg1)) + Rounded(diff))) < WORD
    {
      var powerDiff := diff + if diff > 0 then HALF_STEP else -HALF_STEP;
      powerDiff := Quotient(powerDiff, STEP);
      var currentPower: int := txAlcCfg1 % 64;
      if currentPower > 31 {
        currentPower := currentPower - 64;
      }
      powerDiff := powerDiff + currentPower;
      if powerDiff > 31 {
        powerDiff := 31;
      }
      if powerDiff < -32 {
        powerDiff := -32;
      }
      FieldFits(txAlcCfg1, powerDiff);
      txAlcCfg1 := WithField(txAlcCfg1, powerDiff);
    }
  }

  // ---- What one correction does ---------------------------------------------------------------------

  lemma FieldFits(word: nat, p: int)
    requires word < WORD && -32 <= p <= 31
    ensures WithField(word, p) < WORD
  {
    assert word / 64 <= 0x3FF_FFFF;
  }

  /** Writing a field and reading it back gives it, and no other bit of the word moves. */
  lemma FieldWritten(word: nat, p: int)
    requires -32 <= p <= 31
    ensures Field(WithField(word, p)) == p && WithField(word, p) / 64 == word / 64
  {
  }

  /** The quotient is the nearest whole number of steps; halves go away from zero. */
  lemma RoundsHalfAway(diff: int)
    ensures var r := Rounded(diff);
            if diff >= 0 then STEP * r - HALF_STEP <= diff < STEP * r + HALF_STEP
            else STEP * r - HALF_STEP < diff <= STEP * r + HALF_STEP
    ensures Rounded(-diff) == -Rounded(diff)
  {
  }

  /** The field becomes the old one plus the rounded correction, clamped to six bits; nothing else of the
      register moves; a damped correction moves nothing at all. */
  lemma CorrectionExact(s: Loop, diff: int)
    ensures var s' := Correct(s, diff);
            && s'.word / 64 == s.word / 64 && -32 <= Field(s'.word) <= 31
            && Field(s'.word) == (if Damped(s.pre, diff) then Field(s.word) else Clamp(Field(s.word) + Rounded(diff)))
            && (Damped(s.pre, diff) ==> s' == s)
            && (!Damped(s.pre, diff) ==> s'.pre == diff)
  {
    FieldWritten(s.word, Clamp(Field(s.word) + Rounded(diff)));
    FieldWritten(s.word, Clamp(Field(s.word) + Rounded(0)));
    assert Rounded(0) == 0;
  }

  /** A correction is taken back exactly when it and the last one are both under a step, point in opposite directions,
      and it would overshoot: upwards by as much as the last one went down, or downwards by more than it went up. */
  lemma DampedExactly(pre: int, diff: int)
    ensures Damped(pre, diff) <==>
              && -4096 < pre < 4096 && -4096 < diff < 4096
              && ((pre < 0 < diff && diff >= -pre) || (diff < 0 <= pre && -diff > pre))
  {
  }

  /** One round of the loop in terms of the powers compared. A detector at its top lets no correction up, one at its
      bottom none down; such a round moves nothing. Otherwise, unless it is taken back, the difference rounded to the
      nearest step is added to the field, which stops at its ends. */
  lemma AdjustmentOutcome(s: Loop, reading: int, dc: int, target: int, measured: int)
    ensures var diff := target - measured;
            var s' := Correct(s, Unsaturated(reading, dc, diff));
            var field := Field(s.word);
            if (reading > 126 && diff > 0) || (reading - dc < 1 && diff < 0) then s' == s.(pre := 0)
            else if -4096 < s.pre < 4096 && -4096 < diff < 4096
                    && ((s.pre < 0 < diff && diff >= -s.pre) || (diff < 0 <= s.pre && -diff > s.pre)) then s' == s
            else && s'.pre == diff && s'.word / 64 == s.word / 64
                 && exists steps: int :: Nearest(diff, steps)
                      && Field(s'.word) == if field + steps > 31 then 31 else if field + steps < -32 then -32 else field + steps
  {
    var diff := target - measured;
    DampedExactly(s.pre, Unsaturated(reading, dc, diff));
    CorrectionExact(s, Unsaturated(reading, dc, diff));
    if (reading > 126 && diff > 0) || (reading - dc < 1 && diff < 0) {
      assert Rounded(0) == 0;
      SameField(s.word);
    } else {
      RoundsHalfAway(diff);
      assert Nearest(diff, Rounded(diff));
    }
  }

  /** Within half a step of the difference. */
  predicate Nearest(diff: int, steps: int) {
    4096 * steps - 2048 <= diff <= 4096 * steps + 2048 && (diff == 2048 ==> steps == 1) && (diff == -2048 ==> steps == -1)
  }

  // ---- No endless oscillation -------------------------------------------------------------------------

  function Abs(x: int): nat {
    if x < 0 then -x else x
  }

  /** An accepted correction against the sign of the last one, in the band, is not larger, and smaller when it
      turns positive. */
  lemma AlternationShrinks(pre: int, diff: int)
    requires SignsDiffer(pre, diff) && InBand(diff) && InBand(pre) && !Damped(pre, diff)
    ensures Abs(diff) <= Abs(pre) && (diff >= 0 ==> Abs(diff) < Abs(pre))
  {
  }

  /** A stretch of in-band corrections, each against the sign of the last accepted one. */
  ghost predicate Alternating(pre: int, diffs: seq<int>)
    decreases |diffs|
  {
    diffs == [] || (SignsDiffer(pre, diffs[0]) && InBand(diffs[0]) && InBand(pre)
                    && Alternating(if Damped(pre, diffs[0]) then pre else diffs[0], diffs[1..]))
  }

  /** How often the register changes. */
  function Moves(s: Loop, diffs: seq<int>): nat
    decreases |diffs|
  {
    if diffs == [] then 0
    else (if Correct(s, diffs[0]).word != s.word then 1 else 0) + Moves(Correct(s, diffs[0]), diffs[1..])
  }

  /** The most changes a stretch can make: none below half a step, then one for each accepted size and sign. */
  function Most(pre: int): nat {
    if Abs(pre) < HALF_STEP then 0 else 2 * (Abs(pre) - HALF_STEP) + if pre >= 0 then 1 else 0
  }

  lemma MoveCosts(s: Loop, diff: int)
    requires SignsDiffer(s.pre, diff) && InBand(diff) && InBand(s.pre)
    ensures var s' := Correct(s, diff);
            (if s'.word != s.word then 1 else 0) + Most(s'.pre) <= Most(s.pre)
  {
    CorrectionExact(s, diff);
    if !Damped(s.pre, diff) {
      AlternationShrinks(s.pre, diff);
      RoundsHalfAway(diff);
      if Abs(diff) < HALF_STEP {
        SameField(s.word);
      }
    }
  }

  lemma SameField(word: nat)
    ensures WithField(word, Clamp(Field(word))) == word
  {
  }

  /** However long a stretch is, the power changes only so many times within it. */
  lemma {:induction false} StopsMoving(s: Loop, diffs: seq<int>)
    requires Alternating(s.pre, diffs)
    ensures Moves(s, diffs) <= Most(s.pre)
    decreases |diffs|
  {
    if diffs != [] {
      MoveCosts(s, diffs[0]);
      CorrectionExact(s, diffs[0]);
      StopsMoving(Correct(s, diffs[0]), diffs[1..]);
    }
  }

  /** The stretch that shrinks as slowly as the damping allows. */
  function Slowest(pre: int): seq<int>
    decreases Most(pre)
  {
    if Most(pre) == 0 then []
    else
      var next := if pre >= 0 then -pre else -pre - 1;
      [next] + Slowest(next)
  }

  /** The bound is reached, wherever the field has room for the first change. */
  lemma {:induction false} SlowestMovesMost(s: Loop)
    requires InBand(s.pre) && if s.pre >= 0 then Field(s.word) > -32 else Field(s.word) < 31
    ensures Alternating(s.pre, Slowest(s.pre)) && Moves(s, Slowest(s.pre)) == Most(s.pre)
    decreases Most(s.pre)
  {
    if Most(s.pre) > 0 {
      var next := if s.pre >= 0 then -s.pre else -s.pre - 1;
      var s' := Correct(s, next);
      CorrectionExact(s, next);
      RoundsHalfAway(next);
      assert Rounded(next) == if next > 0 then 1 else -1;
      assert Field(s'.word) == Field(s.word) + Rounded(next);
      SlowestMovesMost(s');
      assert Slowest(s.pre)[1..] == Slowest(next);
    }
  }

  function Play(s: Loop, diffs: seq<int>): Loop
    decreases |diffs|
  {
    if diffs == [] then s else Play(Correct(s, diffs[0]), diffs[1..])
  }

  /** Over every run of corrections nothing of the register moves but its six-bit field. */
  lemma {:induction false} RunKeepsRegister(s: Loop, diffs: seq<int>)
    ensures Play(s, diffs).word / 64 == s.word / 64
    decreases |diffs|
  {
    if diffs != [] {
      CorrectionExact(s, diffs[0]);
      RunKeepsRegister(Correct(s, diffs[0]), diffs[1..]);
    }
  }
}
