/** Fixed-width C integer types of the firmware and the conversions into them.
    Dafny integers are unbounded, so every place where the firmware stores a
    value into a narrower type goes through one of the conversion functions below. */
module Bits {

  const TWO_8: int := 0x100
  const TWO_16: int := 0x1_0000
  const TWO_32: int := 0x1_0000_0000

  type uint8 = x: int | 0 <= x < 0x100
  type uint16 = x: int | 0 <= x < 0x1_0000
  type uint32 = x: int | 0 <= x < 0x1_0000_0000
  type int8 = x: int | -0x80 <= x < 0x80

  /** Conversion of an int to int8_t: the unique int8 congruent to v modulo 256
      (the modulo behaviour the firmware's compiler gives this conversion). */
  function ToInt8(v: int): (r: int8)
    ensures (r - v) % TWO_8 == 0
    ensures -0x80 <= v < 0x80 ==> r == v
  {
    (v + 0x80) % TWO_8 - 0x80
  }

  /** Conversion of an int to uint8_t (truncation to the low 8 bits). */
  function ToUint8(v: int): (r: uint8)
    ensures (r - v) % TWO_8 == 0
    ensures 0 <= v < TWO_8 ==> r == v
  {
    v % TWO_8
  }

  /** Conversion of an int to uint16_t (truncation to the low 16 bits). */
  function ToUint16(v: int): (r: uint16)
    ensures (r - v) % TWO_16 == 0
    ensures 0 <= v < TWO_16 ==> r == v
  {
    v % TWO_16
  }

  /** Conversion of an int to uint32_t (truncation to the low 32 bits). */
  function ToUint32(v: int): (r: uint32)
    ensures (r - v) % TWO_32 == 0
    ensures 0 <= v < TWO_32 ==> r == v
  {
    v % TWO_32
  }

  /** Wrapping an intermediate int8 result first changes nothing: the int8 sum
      `a + (int8)b` wraps to the same value as `a + b`. */
  lemma ToInt8Absorbs(a: int, b: int)
    ensures ToInt8(a + ToInt8(b)) == ToInt8(a + b)
  {
    var k := (ToInt8(b) - b) / TWO_8;
    assert ToInt8(b) == b + k * TWO_8;
    ModuloShift(a + b + 0x80, k, TWO_8);
  }

  /** Accumulating in uint32 and truncating once at the end agree. */
  lemma ToUint32Absorbs(a: int, b: int)
    ensures ToUint32(ToUint32(a) + b) == ToUint32(a + b)
  {
    var k := (ToUint32(a) - a) / TWO_32;
    assert ToUint32(a) == a + k * TWO_32;
    ModuloShift(a + b, k, TWO_32);
  }

  lemma ModuloShift(v: int, k: int, m: int)
    requires m > 0
    ensures (v + k * m) % m == v % m
  {
    var q := v / m;
    assert v + k * m == (q + k) * m + v % m;
    DivModUnique(v + k * m, q + k, v % m, m);
  }

  /** Quotient and remainder are determined by any decomposition `q * m + r`
      with `0 <= r < m`. */
  lemma DivModUnique(x: int, q: int, r: int, m: int)
    requires m > 0 && 0 <= r < m && x == q * m + r
    ensures x / m == q && x % m == r
  {
    var d := q - x / m;
    assert d * m == x % m - r;
  }

  /** A positive factor can be cancelled from a strict inequality. */
  lemma FactorLess(x: int, y: int, b: int)
    requires b > 0 && x * b < y * b
    ensures x < y
  {
    assert (y - x) * b > 0;
  }
}
