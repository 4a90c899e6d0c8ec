/** The firmware's state and its stateful routines. The globals of the
    program (menu selection, tilt record, theme colours) and the EEPROM cells
    are the fields of one object; sensor readings, joystick samples, `rand()`
    results and measured times arrive as parameters. */
module Firmware {
  import opened Bits
  import ScoreStore
  import opened Theme
  import Tilt
  import Menu
  import Game

  /** The inputs one pass of the menu loop reads: the joystick bits, the
      accelerometer sample and the light reading. */
  datatype MenuPoll = MenuPoll(joy: bv8, acc: Tilt.Axes, light: uint32)

  /** The joystick column of a run of menu polls. */
  function Joys(polls: seq<MenuPoll>): (joys: seq<bv8>)
    ensures |joys| == |polls|
    ensures forall k :: 0 <= k < |polls| ==> joys[k] == polls[k].joy
  {
    seq(|polls|, k requires 0 <= k < |polls| => polls[k].joy)
  }

  /** Whether some poll of the run reads as tilted under the given offsets
      (TiltSeenIffSome states this outright). */
  predicate TiltSeen(offset: Tilt.Axes, polls: seq<MenuPoll>)
    decreases |polls|
  {
    polls != [] &&
    (TiltSeen(offset, polls[..|polls| - 1]) || Tilt.Tilted(Tilt.Adjust(offset, polls[|polls| - 1].acc)))
  }

  /** How many polls of a menu run went through the tilt and theme checks:
      all of them, or those before the poll where an item was chosen. */
  function Checked(o: Menu.Outcome, polls: seq<MenuPoll>): nat {
    if o.Chosen? then o.poll else |polls|
  }

  /** EEPROM after the tilt checks of the first `n` polls of a menu run:
      the reset score once any of them read as tilted. */
  function MenuCells(cells: seq<uint8>, offset: Tilt.Axes, polls: seq<MenuPoll>, n: nat): seq<uint8>
    requires ScoreStore.HoldsScore(cells) && n <= |polls|
  {
    if TiltSeen(offset, polls[..n]) then ScoreStore.Store(cells, ScoreStore.RESET_SCORE) else cells
  }

  /** Tilt record after the first `n` polls: the last checked poll's
      corrected reading. */
  function MenuTilt(tilt: Tilt.TiltState, polls: seq<MenuPoll>, n: nat): Tilt.TiltState
    requires n <= |polls|
  {
    if n == 0 then tilt else Tilt.TiltState(tilt.offset, Tilt.Adjust(tilt.offset, polls[n - 1].acc))
  }

  /** Palette after the first `n` polls: the last checked poll's theme. */
  function MenuPalette(palette: Palette, polls: seq<MenuPoll>, n: nat): Palette
    requires n <= |polls|
  {
    if n == 0 then palette else PaletteFor(polls[n - 1].light)
  }

  /** What a menu item did when chosen. */
  datatype ItemResult =
    | Played(summary: Game.Summary)
    | ScoreReset
    | ShownScore(highMs: uint16)
    | CreditsShown
    | Exited

  datatype Option<T> = None | Some(value: T)

  /** Busy-waits on joystick samples until one has Center pressed. The test is
      on the level, not on an edge: a Center press still held from before
      ends the wait at once. Returns how many samples were read before the
      pressed one, or, if the run holds no press, the whole run's length. */
  method WaitForCenterClick(samples: seq<bv8>) returns (waited: nat, clicked: bool)
    ensures waited <= |samples|
    ensures forall k :: 0 <= k < waited ==> !Menu.Pressed(samples[k], Menu.JOYSTICK_CENTER)
    ensures clicked <==> waited < |samples|
    ensures clicked ==> Menu.Pressed(samples[waited], Menu.JOYSTICK_CENTER)
  {
    waited := 0;
    while waited < |samples| && samples[waited] & Menu.JOYSTICK_CENTER == 0
      invariant waited <= |samples|
      invariant forall k :: 0 <= k < waited ==> !Menu.Pressed(samples[k], Menu.JOYSTICK_CENTER)
    {
      waited := waited + 1;
    }
    clicked := waited < |samples|;
  }

  class Reflex {
    var selectedIndex: nat
    var tilt: Tilt.TiltState
    var fontColor: Color
    var backgroundColor: Color
    /** The EEPROM cells. */
    var eeprom: seq<uint8>

    ghost predicate Valid()
      reads this
    {
      selectedIndex < Menu.MENU_ITEM_COUNT && ScoreStore.HoldsScore(eeprom)
    }

    function CurrentPalette(): Palette
      reads this
    {
      Palette(fontColor, backgroundColor)
    }

    /** Power-on state: the globals zero-initialised (so both colours are the
        zero colour, black, until the first theme update) and the EEPROM
        holding whatever it held. */
    constructor (cells: seq<uint8>)
      requires ScoreStore.HoldsScore(cells)
      ensures Valid()
      ensures selectedIndex == 0 && tilt == Tilt.UNCALIBRATED
      ensures fontColor == Black && backgroundColor == Black
      ensures eeprom == cells
    {
      selectedIndex := 0;
      tilt := Tilt.UNCALIBRATED;
      fontColor, backgroundColor := Black, Black;
      eeprom := cells;
    }

    /** Writes `value` big-endian into the high-score cell and touches no
        other cell. */
    method SetHighScore(value: uint16)
      requires Valid()
      modifies this`eeprom
      ensures Valid()
      ensures eeprom == ScoreStore.Store(old(eeprom), value)
      ensures ScoreStore.Load(eeprom) == value
    {
      var buf := new uint8[ScoreStore.SCORE_BYTES];
      buf[0] := value / TWO_8;   // (value & 0xFF00) >> 8
      buf[1] := value % TWO_8;   // value & 0x00FF
      eeprom := eeprom[..ScoreStore.SCORE_OFFSET] + buf[..] +
                eeprom[ScoreStore.SCORE_OFFSET + ScoreStore.SCORE_BYTES..];
      ScoreStore.LoadStore(old(eeprom), value);
    }

    /** Reads the high-score cell back as `(b0 << 8) | b1`. */
    method ReadHighScore() returns (highMs: uint16)
      requires Valid()
      ensures highMs == ScoreStore.Load(eeprom)
    {
      var readBuf := new uint8[ScoreStore.SCORE_BYTES];
      readBuf[0], readBuf[1] := eeprom[ScoreStore.SCORE_OFFSET], eeprom[ScoreStore.SCORE_OFFSET + 1];
      highMs := readBuf[0] * TWO_8 + readBuf[1];   // (b0 << 8) | b1
    }

    /** Picks the palette for a light reading and reports whether the text
        colour changed. */
    method AdjustTheme(reading: uint32) returns (changed: bool)
      modifies this`fontColor, this`backgroundColor
      ensures CurrentPalette() == PaletteFor(reading)
      ensures fontColor != backgroundColor
      ensures changed <==> fontColor != old(fontColor)
    {
      var prevFontColor := fontColor;
      if reading < DARK_THRESHOLD {
        fontColor := White;
        backgroundColor := Black;
      } else {
        fontColor := Black;
        backgroundColor := White;
      }
      changed := fontColor != prevFontColor;
    }

    /** Takes one accelerometer sample as the level reference: the sample is
        kept as the current reading and the offsets are computed from it. */
    method InitTiltCalibration(level: Tilt.Axes)
      modifies this`tilt
      ensures tilt == Tilt.TiltState(Tilt.Calibrate(level), level)
      ensures !Tilt.Tilted(Tilt.Adjust(tilt.offset, level))
    {
      var offset := Tilt.Axes(ToInt8(-(level.x as int)), ToInt8(-(level.y as int)), ToInt8(Tilt.LEVEL_Z - level.z));
      tilt := Tilt.TiltState(offset, level);
    }

    /** Reads a sample, corrects it in place by the stored offsets and tests it
        against the deadband. */
    method IsBoardTilted(reading: Tilt.Axes) returns (tilted: bool)
      modifies this`tilt
      ensures tilt.offset == old(tilt.offset)
      ensures tilt.current == Tilt.Adjust(tilt.offset, reading)
      ensures tilted == Tilt.Tilted(tilt.current)
    {
      var off := tilt.offset;
      var x := ToInt8(reading.x + off.x);
      var y := ToInt8(reading.y + off.y);
      var z := ToInt8(reading.z + off.z);
      tilt := Tilt.TiltState(off, Tilt.Axes(x, y, z));
      tilted := x > Tilt.DEADBAND || x < -Tilt.DEADBAND || y > Tilt.DEADBAND || y < -Tilt.DEADBAND;
    }

    /** Start-up as the firmware runs it: theme from the light sensor, tilt
        calibration at the end of the start-up animation, then the welcome
        screen showing the stored best until Center is pressed. */
    method Boot(light: uint32, level: Tilt.Axes, joys: seq<bv8>) returns (shownMs: uint16, waited: nat)
      requires Valid()
      modifies this`fontColor, this`backgroundColor, this`tilt
      ensures Valid()
      ensures CurrentPalette() == PaletteFor(light)
      ensures tilt == Tilt.TiltState(Tilt.Calibrate(level), level)
      ensures shownMs == ScoreStore.Load(eeprom)
      ensures waited <= |joys| && forall k :: 0 <= k < waited ==> !Menu.Pressed(joys[k], Menu.JOYSTICK_CENTER)
      ensures waited < |joys| ==> Menu.Pressed(joys[waited], Menu.JOYSTICK_CENTER)
    {
      var _ := AdjustTheme(light);
      InitTiltCalibration(level);
      shownMs := ReadHighScore();
      var clicked;
      waited, clicked := WaitForCenterClick(joys);
    }

    /** The joystick half of one menu poll: a new Down or Up press moves the
        selection with wrap-around (Down first); otherwise a new Center press
        chooses the selected item. */
    method NavigateOnce(prev: bv8, joy: bv8) returns (chosen: bool)
      requires Valid()
      modifies this`selectedIndex
      ensures Valid()
      ensures var e := Menu.EventOf(prev, joy);
              chosen == (e == Menu.Select) && selectedIndex == Menu.NextIndex(old(selectedIndex), e)
    {
      chosen := false;
      if joy & Menu.JOYSTICK_DOWN != 0 && prev & Menu.JOYSTICK_DOWN == 0 {
        selectedIndex := (selectedIndex + 1) % Menu.MENU_ITEM_COUNT;
      } else if joy & Menu.JOYSTICK_UP != 0 && prev & Menu.JOYSTICK_UP == 0 {
        selectedIndex := (selectedIndex - 1 + Menu.MENU_ITEM_COUNT) % Menu.MENU_ITEM_COUNT;
      } else if joy & Menu.JOYSTICK_CENTER != 0 && prev & Menu.JOYSTICK_CENTER == 0 {
        chosen := true;
      }
    }

    /** The background half of a menu poll that chose nothing: the tilt
        easter egg stores the reset score while the board is tilted, then the
        theme follows the light reading. */
    method CheckTiltAndTheme(poll: MenuPoll)
      requires Valid()
      modifies this`tilt, this`eeprom, this`fontColor, this`backgroundColor
      ensures Valid()
      ensures tilt == Tilt.TiltState(old(tilt.offset), Tilt.Adjust(old(tilt.offset), poll.acc))
      ensures eeprom == if Tilt.Tilted(tilt.current)
                        then ScoreStore.Store(old(eeprom), ScoreStore.RESET_SCORE) else old(eeprom)
      ensures CurrentPalette() == PaletteFor(poll.light)
    {
      var tilted := IsBoardTilted(poll.acc);
      if tilted {
        SetHighScore(ScoreStore.RESET_SCORE);
      }
      var _ := AdjustTheme(poll.light);
    }

    /** One pass of the menu loop's body: navigate, and unless an item was
        chosen, run the tilt and theme checks. */
    method PollOnce(prev: bv8, poll: MenuPoll) returns (chosen: bool)
      requires Valid()
      modifies this
      ensures Valid()
      ensures var e := Menu.EventOf(prev, poll.joy);
              chosen == (e == Menu.Select) && selectedIndex == Menu.NextIndex(old(selectedIndex), e)
      ensures chosen ==> eeprom == old(eeprom) && tilt == old(tilt) && CurrentPalette() == old(CurrentPalette())
      ensures !chosen ==>
                && tilt == Tilt.TiltState(old(tilt.offset), Tilt.Adjust(old(tilt.offset), poll.acc))
                && eeprom == (if Tilt.Tilted(tilt.current)
                              then ScoreStore.Store(old(eeprom), ScoreStore.RESET_SCORE) else old(eeprom))
                && CurrentPalette() == PaletteFor(poll.light)
    {
      chosen := NavigateOnce(prev, poll.joy);
      if !chosen {
        CheckTiltAndTheme(poll);
      }
    }

    /** The menu loop over a finite run of polls: each poll navigates; a poll
        that chose nothing then runs the tilt and theme checks. When the polls
        run out nothing has been chosen. */
    method HandleMenu(polls: seq<MenuPoll>) returns (outcome: Menu.Outcome)
      requires Valid()
      modifies this
      ensures Valid()
      ensures outcome == Menu.Navigate(old(selectedIndex), Menu.NO_PREVIOUS, Joys(polls))
      ensures selectedIndex == outcome.index
      ensures var n := Checked(outcome, polls);
              && n <= |polls|
              && eeprom == MenuCells(old(eeprom), old(tilt.offset), polls, n)
              && tilt == MenuTilt(old(tilt), polls, n)
              && CurrentPalette() == MenuPalette(old(CurrentPalette()), polls, n)
    {
      ghost var joys := Joys(polls);
      ghost var start := selectedIndex;
      ghost var offset := tilt.offset;
      ghost var cells := eeprom;
      ghost var tilt0 := tilt;
      ghost var palette0 := CurrentPalette();
      var prev: bv8 := Menu.NO_PREVIOUS;
      var i := 0;
      while i < |polls|
        invariant 0 <= i <= |polls|
        invariant Valid()
        invariant Menu.Navigate(start, Menu.NO_PREVIOUS, joys) ==
                  Menu.Offset(Menu.Navigate(selectedIndex, prev, joys[i..]), i)
        invariant tilt.offset == offset
        invariant eeprom == MenuCells(cells, offset, polls, i)
        invariant tilt == MenuTilt(tilt0, polls, i)
        invariant CurrentPalette() == MenuPalette(palette0, polls, i)
      {
        ghost var index := selectedIndex;
        NavigateStep(index, prev, joys, i);
        var chosen := PollOnce(prev, polls[i]);
        if chosen {
          outcome := Menu.Chosen(selectedIndex, i);
          return;
        }
        prev := polls[i].joy;
        MenuCellsStep(cells, offset, polls, i);
        i := i + 1;
      }
      assert joys[i..] == [];
      outcome := Menu.Pending(selectedIndex, prev);
    }

    /** One choice of the main menu: Start game plays a session, Reset score
        stores 9999, High score shows the stored best, Credits and Exit leave
        the modelled state as it is. */
    method Dispatch(item: Menu.MenuItem, rounds: seq<Game.RoundInput>) returns (result: ItemResult)
      requires Valid() && |rounds| == Game.ROUNDS
      modifies this
      ensures Valid()
      ensures item == Menu.StartGame ==>
                && result == Played(Game.Session(ScoreStore.Load(old(eeprom)), rounds))
                && eeprom == ScoreStore.Store(old(eeprom), result.summary.bestMs)
                && CurrentPalette() == PaletteFor(rounds[Game.ROUNDS - 1].light)
      ensures item != Menu.StartGame ==> CurrentPalette() == old(CurrentPalette())
      ensures item == Menu.ResetScore ==>
                result == ScoreReset && eeprom == ScoreStore.Store(old(eeprom), ScoreStore.RESET_SCORE)
      ensures item == Menu.ShowHighScore ==>
                result == ShownScore(ScoreStore.Load(old(eeprom))) && eeprom == old(eeprom)
      ensures item == Menu.Credits ==> result == CreditsShown && eeprom == old(eeprom)
      ensures item == Menu.Exit ==> result == Exited && eeprom == old(eeprom)
      ensures selectedIndex == old(selectedIndex) && tilt == old(tilt)
    {
      match item
      case StartGame =>
        var summary := StartGame(rounds);
        result := Played(summary);
      case ResetScore =>
        SetHighScore(ScoreStore.RESET_SCORE);
        result := ScoreReset;
      case ShowHighScore =>
        var highMs := ReadHighScore();
        result := ShownScore(highMs);
      case Credits =>
        result := CreditsShown;
      case Exit =>
        result := Exited;
    }

    /** One pass of the main-menu loop: navigate until an item is chosen, then
        run it. When the polls run out before a choice nothing is run. */
    method MenuPass(polls: seq<MenuPoll>, rounds: seq<Game.RoundInput>)
      returns (outcome: Menu.Outcome, result: Option<ItemResult>)
      requires Valid() && |rounds| == Game.ROUNDS
      modifies this
      ensures Valid()
      ensures outcome == Menu.Navigate(old(selectedIndex), Menu.NO_PREVIOUS, Joys(polls))
      ensures outcome.Pending? <==> result == None
      ensures var n := Checked(outcome, polls);
              && n <= |polls|
              && var cells := MenuCells(old(eeprom), old(tilt.offset), polls, n);
              && var palette := MenuPalette(old(CurrentPalette()), polls, n);
              && ScoreStore.HoldsScore(cells)
              && tilt == MenuTilt(old(tilt), polls, n)
              && (outcome.Pending? ==> eeprom == cells && CurrentPalette() == palette)
              && (outcome.Chosen? ==>
                    match Menu.ItemAt(outcome.index)
                    case StartGame =>
                      && result == Some(Played(Game.Session(ScoreStore.Load(cells), rounds)))
                      && eeprom == ScoreStore.Store(cells, result.value.summary.bestMs)
                      && CurrentPalette() == PaletteFor(rounds[Game.ROUNDS - 1].light)
                    case ResetScore =>
                      result == Some(ScoreReset) && eeprom == ScoreStore.Store(cells, ScoreStore.RESET_SCORE)
                      && CurrentPalette() == palette
                    case ShowHighScore =>
                      result == Some(ShownScore(ScoreStore.Load(cells))) && eeprom == cells
                      && CurrentPalette() == palette
                    case Credits =>
                      result == Some(CreditsShown) && eeprom == cells && CurrentPalette() == palette
                    case Exit =>
                      result == Some(Exited) && eeprom == cells && CurrentPalette() == palette)
      ensures selectedIndex == outcome.index
    {
      outcome := HandleMenu(polls);
      if outcome.Pending? {
        return outcome, None;
      }
      var item := Menu.ItemAt(outcome.index);
      var r := Dispatch(item, rounds);
      result := Some(r);
    }

    /** One pass of the session loop's body: re-theme, draw the random wait,
        add the measured time to the `uint32` total and, on a record, store
        the time truncated to `uint16` as the new best. `outcomes` stands for
        the rounds already played. */
    method PlayRoundOnce(r: Game.RoundInput, highMs: uint16, totalMs: uint32,
                         ghost cells: seq<uint8>, ghost outcomes: seq<Game.RoundOutcome>)
      returns (outcome: Game.RoundOutcome, highMs': uint16, totalMs': uint32)
      requires Valid() && ScoreStore.HoldsScore(cells) && eeprom == ScoreStore.Store(cells, highMs)
      modifies this
      ensures Valid()
      ensures Game.PlayRound(Game.Tally(outcomes, highMs, totalMs), r) ==
              Game.Tally(outcomes + [outcome], highMs', totalMs')
      ensures eeprom == ScoreStore.Store(cells, highMs')
      ensures CurrentPalette() == PaletteFor(r.light)
      ensures selectedIndex == old(selectedIndex) && tilt == old(tilt)
    {
      var _ := AdjustTheme(r.light);
      var randomDelay := r.rand % 3000 + 500;
      var reactionTimeMs := r.reactionMs;
      totalMs' := ToUint32(totalMs + reactionTimeMs);
      var record := reactionTimeMs < highMs || highMs == 0;
      highMs' := highMs;
      if record {
        SetHighScore(ToUint16(reactionTimeMs));
        ScoreStore.StoreStore(cells, highMs, ToUint16(reactionTimeMs));
        highMs' := ToUint16(reactionTimeMs);
      }
      outcome := Game.RoundOutcome(randomDelay, reactionTimeMs, record);
    }

    /** A five-round session. Each round updates the theme, waits
        `rand() % 3000 + 500` ms, takes the measured time, adds it to the
        `uint32` total and, on a record, stores the time (truncated to
        `uint16`) as the new best. The summary holds the total divided by
        five and the best read back from the EEPROM. */
    method StartGame(rounds: seq<Game.RoundInput>) returns (summary: Game.Summary)
      requires Valid() && |rounds| == Game.ROUNDS
      modifies this
      ensures Valid()
      ensures summary == Game.Session(ScoreStore.Load(old(eeprom)), rounds)
      ensures eeprom == ScoreStore.Store(old(eeprom), summary.bestMs)
      ensures summary.bestMs == ScoreStore.Load(eeprom)
      ensures CurrentPalette() == PaletteFor(rounds[Game.ROUNDS - 1].light)
      ensures selectedIndex == old(selectedIndex) && tilt == old(tilt)
    {
      ghost var cells := eeprom;
      var round := 0;
      var totalTime: uint32 := 0;
      var highScoreMs := ReadHighScore();
      ghost var startMs := highScoreMs;
      var outcomes: seq<Game.RoundOutcome> := [];
      ScoreStore.StoreLoad(cells);
      while round < Game.ROUNDS
        invariant 0 <= round <= Game.ROUNDS
        invariant Valid()
        invariant Game.PlayRounds(startMs, rounds[..round]) == Game.Tally(outcomes, highScoreMs, totalTime)
        invariant eeprom == ScoreStore.Store(cells, highScoreMs)
        invariant round > 0 ==> CurrentPalette() == PaletteFor(rounds[round - 1].light)
        invariant selectedIndex == old(selectedIndex) && tilt == old(tilt)
      {
        var outcome;
        outcome, highScoreMs, totalTime := PlayRoundOnce(rounds[round], highScoreMs, totalTime, cells, outcomes);
        outcomes := outcomes + [outcome];
        assert rounds[..round + 1][..round] == rounds[..round];
        round := round + 1;
      }
      assert rounds[..round] == rounds;
      var bestMs := ReadHighScore();
      ScoreStore.LoadStore(cells, highScoreMs);
      summary := Game.Summary(outcomes, totalTime / Game.ROUNDS, bestMs);
    }
  }

  /** The poll at `i` either chooses the selected item there, or hands
      navigation on to the rest of the run. */
  lemma NavigateStep(index: nat, prev: bv8, joys: seq<bv8>, i: nat)
    requires index < Menu.MENU_ITEM_COUNT && i < |joys|
    ensures var e := Menu.EventOf(prev, joys[i]);
            Menu.Offset(Menu.Navigate(index, prev, joys[i..]), i) ==
              if e == Menu.Select then Menu.Chosen(index, i)
              else Menu.Offset(Menu.Navigate(Menu.NextIndex(index, e), joys[i], joys[i + 1..]), i + 1)
  {
    assert joys[i..][0] == joys[i] && joys[i..][1..] == joys[i + 1..];
  }


  /** The tilt check of one more poll stores the reset score over the
      EEPROM left by the earlier polls when that poll reads as tilted. */
  lemma MenuCellsStep(cells: seq<uint8>, offset: Tilt.Axes, polls: seq<MenuPoll>, i: nat)
    requires ScoreStore.HoldsScore(cells) && i < |polls|
    ensures var before := MenuCells(cells, offset, polls, i);
            && ScoreStore.HoldsScore(before)
            && MenuCells(cells, offset, polls, i + 1) ==
               if Tilt.Tilted(Tilt.Adjust(offset, polls[i].acc))
               then ScoreStore.Store(before, ScoreStore.RESET_SCORE) else before
  {
    ScoreStore.StoreStore(cells, ScoreStore.RESET_SCORE, ScoreStore.RESET_SCORE);
    assert polls[..i + 1][..i] == polls[..i];
  }

  /** TiltSeen holds exactly when some poll of the run reads as tilted. */
  lemma {:induction false} TiltSeenIffSome(offset: Tilt.Axes, polls: seq<MenuPoll>)
    ensures TiltSeen(offset, polls) <==>
              exists j :: 0 <= j < |polls| && Tilt.Tilted(Tilt.Adjust(offset, polls[j].acc))
    decreases |polls|
  {
    if polls != [] {
      var init := polls[..|polls| - 1];
      TiltSeenIffSome(offset, init);
      if TiltSeen(offset, init) {
        var j :| 0 <= j < |init| && Tilt.Tilted(Tilt.Adjust(offset, init[j].acc));
        assert polls[j] == init[j];
      }
      if j :| 0 <= j < |polls| && Tilt.Tilted(Tilt.Adjust(offset, polls[j].acc)) {
        if j < |init| {
          assert init[j] == polls[j];
        }
      }
    }
  }

}
