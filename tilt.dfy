/** Tilt monitor: the accelerometer reading is corrected by per-axis offsets
    captured once while the board lies level, and the board counts as tilted
    when the corrected X or Y leaves a +-30 deadband. All arithmetic is on
    int8_t and wraps. */
module Tilt {
  import opened Bits

  /** One accelerometer sample (or one set of offsets), one int8 per axis. */
  datatype Axes = Axes(x: int8, y: int8, z: int8)

  /** The firmware's tilt record: calibration offsets and the last corrected
      reading. */
  datatype TiltState = TiltState(offset: Axes, current: Axes)

  /** Largest corrected X or Y magnitude that still counts as level. */
  const DEADBAND: int := 30
  /** Corrected Z value the calibration assigns to "resting flat". */
  const LEVEL_Z: int8 := 64

  /** The state before any calibration: zero offsets, zero reading. */
  const UNCALIBRATED: TiltState := TiltState(Axes(0, 0, 0), Axes(0, 0, 0))

  /** `tilt.x += tilt.xOffset` and so on: each axis of the reading plus its
      offset, wrapped to int8. */
  function Adjust(offset: Axes, reading: Axes): (adjusted: Axes)
    ensures offset == Axes(0, 0, 0) ==> adjusted == reading
  {
    Axes(ToInt8(reading.x + offset.x), ToInt8(reading.y + offset.y), ToInt8(reading.z + offset.z))
  }

  /** Offsets captured from a sample taken while level: `-x`, `-y` and
      `64 - z`, each wrapped to int8. Correcting that same sample with them
      gives X = Y = 0 and Z = 64. */
  function Calibrate(level: Axes): (offset: Axes)
    ensures Adjust(offset, level) == Axes(0, 0, LEVEL_Z)
  {
    ToInt8Absorbs(level.x, -(level.x as int));
    ToInt8Absorbs(level.y, -(level.y as int));
    ToInt8Absorbs(level.z, LEVEL_Z - level.z);
    Axes(ToInt8(-(level.x as int)), ToInt8(-(level.y as int)), ToInt8(LEVEL_Z - level.z))
  }

  /** Whether one corrected axis lies outside the deadband. */
  predicate OutsideDeadband(v: int) {
    v > DEADBAND || v < -DEADBAND
  }

  /** The tilt test on a corrected reading: X or Y outside the deadband; Z is
      never consulted. */
  predicate Tilted(adjusted: Axes) {
    OutsideDeadband(adjusted.x) || OutsideDeadband(adjusted.y)
  }

  /** After calibrating at `level`, a reading `r` is corrected to its wrapped
      difference from `level` on X and Y (and to that difference plus 64 on Z),
      so the board is tilted exactly when `r` differs from `level` by more than
      the deadband on X or on Y, and the Z reading plays no part. */
  lemma {:induction false} TiltedIffDeviation(level: Axes, r: Axes)
    ensures Adjust(Calibrate(level), r) ==
              Axes(ToInt8(r.x - level.x), ToInt8(r.y - level.y), ToInt8(r.z - level.z + LEVEL_Z))
    ensures Tilted(Adjust(Calibrate(level), r)) <==>
              OutsideDeadband(ToInt8(r.x - level.x)) || OutsideDeadband(ToInt8(r.y - level.y))
  {
    ToInt8Absorbs(r.x, -(level.x as int));
    ToInt8Absorbs(r.y, -(level.y as int));
    ToInt8Absorbs(r.z, LEVEL_Z - level.z);
  }

  /** The sample used for calibration, and every sample within the deadband of
      it on X and Y, reads as level. */
  lemma {:induction false} NearLevelIsNotTilted(level: Axes, r: Axes)
    requires -DEADBAND <= r.x - level.x <= DEADBAND
    requires -DEADBAND <= r.y - level.y <= DEADBAND
    ensures !Tilted(Adjust(Calibrate(level), r))
  {
    TiltedIffDeviation(level, r);
  }

  /** A sample more than the deadband away from the calibration sample on X
      (without leaving the int8 range of differences) reads as tilted. */
  lemma {:induction false} FarFromLevelIsTilted(level: Axes, r: Axes)
    requires DEADBAND < r.x - level.x < 0x80 || -0x80 <= r.x - level.x < -DEADBAND
    ensures Tilted(Adjust(Calibrate(level), r))
  {
    TiltedIffDeviation(level, r);
  }
}
