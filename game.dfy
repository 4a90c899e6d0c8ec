/** A game session: five rounds, each a random wait, a visual stimulus and a
    measured reaction time, followed by a summary of the average time and the
    best time on record. This module is the value-level specification the
    session loop in module Reflex is proved against. */
module Game {
  import opened Bits
  import ScoreStore

  const ROUNDS: nat := 5
  /** Shortest wait before the stimulus, in milliseconds. */
  const MIN_DELAY_MS: nat := 500
  /** Number of distinct random additions to the shortest wait. */
  const DELAY_SPREAD_MS: nat := 3000

  /** Wait before the stimulus from one `rand()` result: `rand() % 3000 + 500`,
      so between 500 and 3499 ms inclusive. */
  function RandomDelay(rand: nat): (ms: uint32)
    ensures MIN_DELAY_MS <= ms < MIN_DELAY_MS + DELAY_SPREAD_MS
    ensures rand < DELAY_SPREAD_MS ==> ms == rand + MIN_DELAY_MS
  {
    rand % DELAY_SPREAD_MS + MIN_DELAY_MS
  }

  /** The new-record rule: faster than the best so far, or no best yet (a
      stored 0). */
  predicate IsRecord(elapsedMs: uint32, highMs: uint16) {
    elapsedMs < highMs || highMs == 0
  }

  /** What the environment supplies to one round: the light reading taken for
      the theme, the `rand()` result, and the timer value read once Center is
      pressed. */
  datatype RoundInput = RoundInput(light: uint32, rand: nat, reactionMs: uint32)

  /** What one round produced. */
  datatype RoundOutcome = RoundOutcome(delayMs: uint32, elapsedMs: uint32, isNewRecord: bool)

  /** Running state of a session: the outcomes so far, the local best
      (`highScoreMs`) and the running `uint32` total (`totalTime`). */
  datatype Tally = Tally(outcomes: seq<RoundOutcome>, highMs: uint16, totalMs: uint32)

  /** What the summary screen shows, with the outcomes that led to it. */
  datatype Summary = Summary(outcomes: seq<RoundOutcome>, averageMs: uint32, bestMs: uint16)

  /** One round. On a record the best becomes the elapsed time truncated to
      `uint16`; the total wraps in `uint32`. */
  function PlayRound(t: Tally, r: RoundInput): Tally {
    var record := IsRecord(r.reactionMs, t.highMs);
    Tally(t.outcomes + [RoundOutcome(RandomDelay(r.rand), r.reactionMs, record)],
          if record then ToUint16(r.reactionMs) else t.highMs,
          ToUint32(t.totalMs + r.reactionMs))
  }

  /** The rounds played in order from a starting best. */
  function PlayRounds(highMs: uint16, rs: seq<RoundInput>): (t: Tally)
    ensures |t.outcomes| == |rs|
    decreases |rs|
  {
    if rs == [] then Tally([], highMs, 0)
    else PlayRound(PlayRounds(highMs, rs[..|rs| - 1]), rs[|rs| - 1])
  }

  /** The session summary: the total divided by five (integer division) and
      the best after the last round. */
  function Session(highMs: uint16, rs: seq<RoundInput>): Summary {
    var t := PlayRounds(highMs, rs);
    Summary(t.outcomes, t.totalMs / ROUNDS, t.highMs)
  }

  /** Sum of the measured times. */
  function TotalTime(rs: seq<RoundInput>): nat
    decreases |rs|
  {
    if rs == [] then 0 else TotalTime(rs[..|rs| - 1]) + rs[|rs| - 1].reactionMs
  }

  /** Smallest measured time (of a non-empty run). */
  function FastestTime(rs: seq<RoundInput>): uint32
    requires rs != []
    decreases |rs|
  {
    var last := rs[|rs| - 1].reactionMs;
    if |rs| == 1 then last
    else var m := FastestTime(rs[..|rs| - 1]); if last < m then last else m
  }

  /** Round `i` waited RandomDelay of its own `rand()`, reports its own
      measured time, and is a record exactly when the record rule holds
      against the best left by the rounds before it. */
  lemma {:induction false} OutcomesFollowRule(highMs: uint16, rs: seq<RoundInput>, i: nat)
    requires i < |rs|
    ensures var o := PlayRounds(highMs, rs).outcomes[i];
            && o.delayMs == RandomDelay(rs[i].rand)
            && o.elapsedMs == rs[i].reactionMs
            && o.isNewRecord == IsRecord(rs[i].reactionMs, PlayRounds(highMs, rs[..i]).highMs)
    decreases |rs|
  {
    var init := rs[..|rs| - 1];
    if i < |rs| - 1 {
      OutcomesFollowRule(highMs, init, i);
      assert init[..i] == rs[..i];
    } else {
      assert rs[..i] == init;
    }
  }

  /** The running total is the sum of the measured times, wrapped to `uint32`. */
  lemma {:induction false} TotalIsWrappedSum(highMs: uint16, rs: seq<RoundInput>)
    ensures PlayRounds(highMs, rs).totalMs == ToUint32(TotalTime(rs))
    decreases |rs|
  {
    if rs != [] {
      var init := rs[..|rs| - 1];
      TotalIsWrappedSum(highMs, init);
      ToUint32Absorbs(TotalTime(init), rs[|rs| - 1].reactionMs);
    }
  }

  /** When the times add up to less than 2^32 the reported average is their
      sum divided by five, rounded down. */
  lemma AverageIsMean(highMs: uint16, rs: seq<RoundInput>)
    requires TotalTime(rs) < TWO_32
    ensures Session(highMs, rs).averageMs == TotalTime(rs) / ROUNDS
  {
    TotalIsWrappedSum(highMs, rs);
  }

  /** With a best on record and times that are neither 0 nor beyond `uint16`,
      the best after the session is the smaller of the old best and the
      fastest round. */
  lemma {:induction false} BestIsMinimum(highMs: uint16, rs: seq<RoundInput>)
    requires highMs != 0 && rs != []
    requires forall i :: 0 <= i < |rs| ==> 0 < rs[i].reactionMs < TWO_16
    ensures var f := FastestTime(rs);
            PlayRounds(highMs, rs).highMs == if f < highMs then f else highMs
    decreases |rs|
  {
    if |rs| > 1 {
      BestIsMinimum(highMs, rs[..|rs| - 1]);
    }
  }

  /** With no best on record (a stored 0) the first round always sets one, and
      the best after the session is the fastest round. */
  lemma {:induction false} FirstSessionBestIsFastest(rs: seq<RoundInput>)
    requires rs != []
    requires forall i :: 0 <= i < |rs| ==> 0 < rs[i].reactionMs < TWO_16
    ensures PlayRounds(0, rs).highMs == FastestTime(rs)
    decreases |rs|
  {
    if |rs| > 1 {
      FirstSessionBestIsFastest(rs[..|rs| - 1]);
    }
  }

  /** The stored-zero rule at work: a round measured as 0 ms becomes the
      best, and because 0 also means "no best yet", the next round replaces
      it whatever its time. */
  lemma ZeroBestIsReplaced(highMs: uint16, a: RoundInput, b: RoundInput)
    requires a.reactionMs == 0 && 0 < b.reactionMs < TWO_16
    ensures PlayRounds(highMs, [a, b]).highMs == b.reactionMs
  {
    assert [a, b][..1] == [a];
    assert [a][..0] == [];
  }

  /** After either reset path stores 9999, every time below 9999 is a record. */
  lemma RecordAfterReset(cells: seq<uint8>, elapsedMs: uint32)
    requires ScoreStore.HoldsScore(cells)
    requires elapsedMs < ScoreStore.RESET_SCORE
    ensures IsRecord(elapsedMs, ScoreStore.Load(ScoreStore.Store(cells, ScoreStore.RESET_SCORE)))
  {
    ScoreStore.LoadStore(cells, ScoreStore.RESET_SCORE);
  }

  /** The record rule on sample pairs (best, time). */
  lemma RecordRuleExamples()
    ensures IsRecord(500, 0)
    ensures IsRecord(250, 300)
    ensures !IsRecord(400, 300)
    ensures IsRecord(9000, 9999)
  {
  }

  /** A session with times 300, 250, 400, 200 and 350 ms after a reset
      averages 300 ms and ends with a best of 200 ms. */
  lemma ExampleSession(l: uint32, n: nat)
    ensures var rs := [RoundInput(l, n, 300), RoundInput(l, n, 250), RoundInput(l, n, 400),
                       RoundInput(l, n, 200), RoundInput(l, n, 350)];
            Session(ScoreStore.RESET_SCORE, rs).averageMs == 300 &&
            Session(ScoreStore.RESET_SCORE, rs).bestMs == 200
  {
    var rs := [RoundInput(l, n, 300), RoundInput(l, n, 250), RoundInput(l, n, 400),
               RoundInput(l, n, 200), RoundInput(l, n, 350)];
    assert rs[..1] == [rs[0]] && rs[..1][..0] == [];
    assert rs[..1][0].reactionMs == 300;
    assert TotalTime(rs[..1]) == 300;
    assert FastestTime(rs[..1]) == 300;
    assert rs[..2][..1] == rs[..1];
    assert TotalTime(rs[..2]) == 550;
    assert FastestTime(rs[..2]) == 250;
    assert rs[..3][..2] == rs[..2];
    assert TotalTime(rs[..3]) == 950;
    assert FastestTime(rs[..3]) == 250;
    assert rs[..4][..3] == rs[..3];
    assert TotalTime(rs[..4]) == 1150;
    assert FastestTime(rs[..4]) == 200;
    assert rs[..|rs| - 1] == rs[..4];
    AverageIsMean(ScoreStore.RESET_SCORE, rs);
    BestIsMinimum(ScoreStore.RESET_SCORE, rs);
  }
}
