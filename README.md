# Reflex: a verified model of the reaction-time game firmware

Reflex is a reaction-time game for an LPC1343 board with an OLED display, a joystick, an accelerometer, a light sensor, an LED bar, a speaker and an EEPROM. After start-up the firmware does four things in order:

- it picks a theme from the ambient light;
- it calibrates the accelerometer while the board lies level;
- it shows the best time stored in the EEPROM;
- it runs a five-item menu.

"Start game" plays five rounds. Each round waits a random time, shows a filled circle and measures how long the player takes to press Center. A round faster than the stored best (or any round when the stored best is 0) becomes the new best. Two things store 9999 as the best: tilting the board while the menu is shown, and the "Reset score" item.

This project models that logic in Dafny and proves properties of it:

| module | file | what it holds |
|---|---|---|
| `Bits` | `bits.dfy` | `uint8_t`, `uint16_t`, `uint32_t` and `int8_t` as subset types, with explicit wrap-around conversions |
| `ScoreStore` | `score_store.dfy` | the big-endian two-byte high-score cell at EEPROM offset 8 |
| `Theme` | `theme.dfy` | the light-threshold palette choice |
| `Tilt` | `tilt.dfy` | calibration offsets and the ±30 deadband tilt test, in `int8_t` arithmetic |
| `Menu` | `menu.dfy` | edge-detected joystick events and the wrap-around menu selection, as a function over a run of joystick samples |
| `Audio` | `audio.dfy` | the note table and the square wave `play_note` emits |
| `Display` | `display.dfy` | the LED-bar mask, the centred-text offset, and `fill_circle`: its pixel test and the sequence of pixels its two nested scans paint |
| `Game` | `game.dfy` | a session as a function of its inputs: delays, record rule, running total, average, best |
| `Firmware` | `firmware.dfy` | the firmware's globals and EEPROM as one `Reflex` object, and its stateful routines as methods proved against the functions above |

The environment arrives as parameters: light readings, accelerometer samples, joystick samples, `rand()` results and measured reaction times. The firmware's endless loops become loops over finite runs of such inputs.

## Model

| member | source | states |
|---|---|---|
| Bits.ToInt8 | src/main.c:174-176 | conversion to `int8_t` is congruent modulo 256 and is the identity on values already in range |
| Bits.ToUint8 | src/main.c:452 | conversion to `uint8_t` is congruent modulo 256 and is the identity on values already in range |
| Bits.ToUint16 | src/main.c:561-565 | conversion to `uint16_t` is congruent modulo 65536 and is the identity on values already in range |
| Bits.ToUint32 | src/main.c:550 | conversion to `uint32_t` is congruent modulo 2^32 and is the identity on values already in range |
| ScoreStore.Encode | src/main.c:387-393 | the high byte / low byte split of a `uint16_t` gives two bytes that decode back to the value |
| ScoreStore.EncodeDecode | src/main.c:404-409 | every byte pair read back as `(b0 << 8) \| b1` re-encodes to the same pair, so the codec is a bijection |
| ScoreStore.Store | src/main.c:387-393 | writing a score changes exactly the two cells at offsets 8 and 9 to the encoded value; every other cell and the EEPROM size are unchanged |
| ScoreStore.LoadStore | src/main.c:387-409 | reading the score after writing `v` gives `v` |
| ScoreStore.StoreLoad | src/main.c:387-409 | writing back the score already stored leaves the EEPROM unchanged |
| ScoreStore.StoreStore | src/main.c:387-393 | a second write of the score fully replaces the first |
| Theme.PaletteFor | src/main.c:200-209 | white text on black exactly when the reading is below 125, otherwise black on white; text and background always differ |
| Theme.ChangeIffCrossing | src/main.c:196-215 | a theme update reports a change exactly when the old and new readings lie on different sides of 125; otherwise the palette is identical |
| Tilt.Adjust | src/main.c:173-176 | correcting a reading by zero offsets leaves it unchanged |
| Tilt.Calibrate | src/main.c:266-272 | the offsets `-x`, `-y`, `64 - z` (wrapped to `int8_t`) correct the calibration sample itself to (0, 0, 64) |
| Tilt.TiltedIffDeviation | src/main.c:170-184 | after calibration a reading is corrected to its wrapped difference from the level sample, and it is tilted exactly when that difference on X or on Y leaves ±30; Z plays no part |
| Tilt.NearLevelIsNotTilted | src/main.c:178-183 | a sample within 30 of the level sample on X and Y is not tilted |
| Tilt.FarFromLevelIsTilted | src/main.c:178-183 | a sample whose X differs from the level sample's by more than 30, with the difference still inside the `int8_t` range (-128..127), is tilted; a larger difference wraps and may read as level |
| Menu.IndexOf | src/main.c:47-53 | menu positions and menu items correspond one to one |
| Menu.EventOf | src/main.c:601-621 | at most one event per poll, each caused by a released-to-pressed edge of its own button; a repeated state and the first poll after entry (previous state 0xFF) fire nothing |
| Menu.Priority | src/main.c:607-619 | Down wins over Up, and Up wins over Center, when edges arrive together |
| Menu.NextIndex | src/main.c:607-614 | Down and Up move the selection with wrap-around within the five items; any other event keeps it |
| Menu.UpDownInverse | src/main.c:607-614 | Up undoes Down and Down undoes Up |
| Menu.Navigate | src/main.c:600-635 | the selection stays a valid item; a choice happens at a poll of the run; a run that ends without a choice remembers its last joystick state |
| Menu.HoldingFiresNothing | src/main.c:601-621 | holding the joystick in one state, however long, neither moves the selection nor chooses an item |
| Menu.HeldOnEntryFiresNothing | src/main.c:601 | buttons already held when the menu is entered fire nothing while they stay held |
| Menu.HeldPressActsOnce | src/main.c:601-621 | a press held over many polls acts once: it moves the selection once or chooses on its first poll |
| Menu.NavigateAppend | src/main.c:603-621 | navigation over two consecutive runs continues from where the first run left off |
| Menu.DownTapsAdvance | src/main.c:607-610 | `k` taps of Down from item `i` select item `(i + k) mod 5` |
| Audio.SquareWave | src/main.c:366-369 | `n` cycles are `2n` pin steps alternating high and low, starting high, with the given hold times |
| Audio.SquareWaveTime | src/main.c:366-369 | `n` cycles hold the pin for `n` times one high plus one low hold |
| Audio.CeilDivIsLeast | src/main.c:364-371 | the cycle count is the least number of note periods reaching the duration |
| Audio.PlayNote | src/main.c:361-376 | a rest waits the duration and never touches the pin; a tone runs exactly ceil(durationMs·1000 / note) high/low cycles, each level held `note / 4` µs |
| Audio.ExampleCycles | src/main.c:84 | note A (2272 µs) held 500 ms runs 221 cycles |
| Audio.ToneIsShort | src/main.c:364-371 | as written, twice the time a tone holds the pin is less than the requested duration plus one period |
| Audio.ToneIsShortExample | src/main.c:364-371 | as written, note A asked for 500 ms holds the pin 251056 µs with a 1136 µs period |
| Audio.PlayNoteCorrected | src/main.c:361-376 | with a half period high and the rest low, a tone runs ceil(durationMs·1000 / note) cycles of exactly `note` µs and lasts at least the duration and less than one period more |
| Display.LedMask | src/main.c:116-121 | the LED-bar pattern has exactly one bit set, the bit at the round's position |
| Display.CDiv | src/main.c:452 | C integer division truncates toward zero, also for negative dividends |
| Display.CenteredX | src/main.c:449-454 | text that fits gets left and right margins differing by at most one pixel; text up to 83 characters too wide wraps to a column right of the display |
| Display.DiscInBoundingBox | src/main.c:338-347 | every pixel the disc test accepts lies in the `-r..r` square the loops scan |
| Display.FillCircle | src/main.c:338-348 | the nested scans paint, in row order, the centre plus each offset of the `-radius..radius` square that passes the disc test |
| Display.InRowPixels | src/main.c:341-346 | one row scan paints exactly the offsets of that row, left of the current column, that pass the disc test |
| Display.InDiscPixels | src/main.c:340-347 | the rows scanned so far paint exactly the offsets of those rows that pass the disc test |
| Display.PaintedIsDisc | src/main.c:338-348 | `fill_circle` paints an offset exactly when it passes the disc test: the whole disc and nothing else |
| Game.RandomDelay | src/main.c:543 | the wait before the stimulus is between 500 and 3499 ms |
| Game.PlayRounds | src/main.c:526-568 | a session's rounds produce one outcome each |
| Game.OutcomesFollowRule | src/main.c:543-568 | round `i` waited its own random delay, reports its own time, and is a record exactly when it beats the best left by the earlier rounds or that best is 0 |
| Game.TotalIsWrappedSum | src/main.c:528-550 | the running total is the sum of the measured times modulo 2^32 |
| Game.AverageIsMean | src/main.c:578 | without overflow the average shown is the sum of the five times divided by five, rounded down |
| Game.BestIsMinimum | src/main.c:561-565 | with a best on record and every time in 1..65535 ms, the best after a session is the smaller of the old best and the fastest round (a 0 ms round or a time truncated to `uint16_t` breaks this) |
| Game.FirstSessionBestIsFastest | src/main.c:561-565 | with no best on record (0) and every time in 1..65535 ms, the best after a session is its fastest round |
| Game.ZeroBestIsReplaced | src/main.c:561-565 | a 0 ms round becomes the best, and the next round then replaces it whatever its time |
| Game.RecordAfterReset | src/main.c:561-565 | after a reset stored 9999, every time below 9999 is a record |
| Game.RecordRuleExamples | src/main.c:561 | the record rule on sample pairs, including the stored-0 case |
| Game.ExampleSession | src/main.c:526-588 | times 300, 250, 400, 200, 350 after a reset average 300 ms with best 200 ms |
| Firmware.WaitForCenterClick | src/main.c:283-287 | the wait ends at the first sample with Center pressed (a level, not an edge) and no earlier sample had it; a run without a press waits through all of it |
| Firmware.Reflex.constructor | src/main.c:65-105 | power-on state: selection 0, zero tilt record, both colours black, the EEPROM as found |
| Firmware.Reflex.SetHighScore | src/main.c:387-393 | the EEPROM becomes `Store(old, value)` and then holds `value` |
| Firmware.Reflex.ReadHighScore | src/main.c:404-409 | returns the score the EEPROM holds |
| Firmware.Reflex.AdjustTheme | src/main.c:196-216 | the palette becomes the one for the reading, and the result reports whether the text colour changed |
| Firmware.Reflex.InitTiltCalibration | src/main.c:266-272 | stores the calibration offsets and the sample; that sample reads as not tilted |
| Firmware.Reflex.IsBoardTilted | src/main.c:170-184 | keeps the offsets, stores the corrected reading, and returns the tilt test on it |
| Firmware.Reflex.Boot | src/main.c:753-760 | start-up leaves the theme for the light reading and the calibrated tilt record, shows the stored best, and waits for the first sample with Center pressed |
| Firmware.Reflex.NavigateOnce | src/main.c:603-619 | one poll moves the selection by `NextIndex` of the poll's event and chooses exactly on a Center edge |
| Firmware.Reflex.CheckTiltAndTheme | src/main.c:621-632 | a poll that chose nothing updates the tilt reading, stores 9999 when tilted, and re-themes |
| Firmware.Reflex.PollOnce | src/main.c:603-633 | one pass of the menu loop's body: the selection moves by `NextIndex` of the poll's event; a Center edge chooses and leaves EEPROM, tilt and palette alone; otherwise the tilt reading is updated, 9999 stored when tilted, and the theme follows the light |
| Firmware.TiltSeenIffSome | src/main.c:624-627 | the easter egg has fired during a run exactly when some poll of the run read as tilted |
| Firmware.Reflex.HandleMenu | src/main.c:600-635 | the menu loop's outcome is `Navigate` from the current selection with previous state 0xFF; the EEPROM is rewritten with 9999 exactly when some checked poll was tilted, and is otherwise unchanged; tilt and palette come from the last checked poll |
| Firmware.Reflex.Dispatch | src/main.c:647-692 | each menu item does what the main menu's switch does: Start game plays `Session` of the stored best, stores the session's best and leaves the last round's theme; Reset score stores 9999; High score shows the stored best; Credits and Exit leave the EEPROM alone; every item but Start game keeps the palette, and none touches selection or tilt |
| Firmware.Reflex.MenuPass | src/main.c:647-654 | one pass of the main menu runs an item exactly when one was chosen; the result, EEPROM and palette are those of the chosen item, applied to the state the menu loop left (9999 stored if a checked poll was tilted, the last checked poll's theme and tilt reading) |
| Firmware.Reflex.PlayRoundOnce | src/main.c:530-568 | one pass of the session loop's body advances the running best, total and outcomes exactly as `Game.PlayRound` does, keeps the EEPROM holding the running best, and leaves the round's theme |
| Firmware.Reflex.StartGame | src/main.c:526-588 | the summary is `Session` of the stored best and the rounds; the EEPROM ends holding the summary's best; the theme follows the last round's reading; selection and tilt are untouched |

## Left out

- Display output is not modelled: `draw_menu`, `draw_circle`, `oled_putString`, screen clearing, the splash screen and the start-up animation frames. `fill_circle` is modelled by its two nested scans and the sequence of pixels they paint, not by the drawing itself. Text centring is modelled only by its column.
- Tones are not modelled as part of other routines: the theme-change chime, the menu click, the record fanfare, the exit melody and `play_star_wars_theme`. `play_note` itself is modelled.
- The LED bar driver, `clear_led_bar` and the 7-segment digit are not modelled. Only the single-LED mask is.
- `measure_reaction_time` is not modelled. Timer32 set-up and the timer count read after the Center press come from hardware, so the measured time is an input of each round.
- `rand`, `srand` and every sensor read are inputs. Delays are not performed. `PlayNote` reports the waits it makes as data; the other routines' `delay32Ms` pauses are not modelled.
- Peripheral initialisation in `main` (GPIO, I2C, SSP, OLED, sensors, amplifier pins) is not modelled.
- The firmware's loops run forever. The menu loop and the center-click wait are modelled over finite runs of samples, and a run that ends is reported as such.
- `Firmware.Reflex.StartGame`: the waits for a Center click between rounds and after the summary do not change any modelled state, so they are not performed.
- The `sprintf` into the 5-byte `reactionTimeMsString` in `start_game` can write past the buffer for times of 2 digits or more once " ms" is appended. Memory safety of string formatting is outside this model.
- `Audio.PlayNote` requires `durationMs * 1000 + note` to fit in `uint32_t`. Without that, the firmware's bound or counter wraps, and the model does not describe that behaviour.
- `Audio.PlayNote` and `Audio.PlayNoteCorrected` assume `delay32Us` waits exactly its argument in microseconds and that driving the pin takes no time.
- `Display.CenteredX` says nothing about strings of 84 or more characters. None of the firmware's strings come close.
- Joystick bits (Center 0x01, Up 0x02, Down 0x04) come from the board's `joystick.h`, the display width 96 from `oled.h`, and black as the zero colour from the OLED colour enumeration. Those headers are not part of this model, and the values are taken as stated.
- `fill_circle` paints at the centre plus the offset as plain integers. The conversion of the pixel coordinates by the OLED driver, and clipping at the display edge, are not modelled.
- The random wait `rand() % 3000 + 500` is at most 3499 ms.
- `wait_for_joystick_center_click` tests the Center level, not a fresh edge, so a Center press still held from before ends the wait at once.

## Findings

| source | as written | input that shows it | evidently intended | confidence | as-written member | corrected member |
|---|---|---|---|---|---|---|
| src/main.c:364-371 | each cycle waits `note / 4` µs high and `note / 4` µs low (commented as half-period delays) while the counter `t` advances a full `note` | `play_note(2272, 500)`: 221 cycles of 1136 µs, 251056 µs of tone at about 880 Hz | half-period holds, so each cycle lasts `note` µs and the tone lasts 500 ms at 440 Hz | medium, not executed; assumes `delay32Us` waits its argument in µs | Audio.ToneIsShortExample | Audio.PlayNoteCorrected |
