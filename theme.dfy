/** Ambient-light theme policy: a single threshold on the light sensor's raw
    reading picks one of two palettes. */
module Theme {
  import opened Bits

  /** The two OLED pixel colours. */
  datatype Color = Black | White

  /** Foreground (text) and background colour. */
  datatype Palette = Palette(fg: Color, bg: Color)

  /** Readings strictly below this are "dark". */
  const DARK_THRESHOLD: uint32 := 125

  /** White text on black in the dark ("night"), black text on white otherwise
      ("day"). Either way the text stays readable. */
  function PaletteFor(reading: uint32): (p: Palette)
    ensures p.fg != p.bg
    ensures p.fg == White <==> reading < DARK_THRESHOLD
  {
    if reading < DARK_THRESHOLD then Palette(White, Black) else Palette(Black, White)
  }

  /** Whether a theme update reports a change: the firmware compares only the
      text colour before and after. */
  predicate Changed(before: Palette, after: Palette) {
    before.fg != after.fg
  }

  /** Between two readings the reported change happens exactly when the
      readings lie on different sides of the threshold; a repeated reading on
      the same side therefore reports nothing (the update is idempotent). */
  lemma ChangeIffCrossing(r1: uint32, r2: uint32)
    ensures Changed(PaletteFor(r1), PaletteFor(r2)) <==> ((r1 < DARK_THRESHOLD) != (r2 < DARK_THRESHOLD))
    ensures !Changed(PaletteFor(r1), PaletteFor(r2)) ==> PaletteFor(r1) == PaletteFor(r2)
  {
  }
}
