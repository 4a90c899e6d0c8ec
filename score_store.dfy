/** The persisted best reaction time: one uint16, stored big-endian in two
    EEPROM cells starting at offset 8. The EEPROM itself is a sequence of
    byte cells; these functions say what writing and reading the score does
    to and with it. */
module ScoreStore {
  import opened Bits

  /** EEPROM offset of the high-score cell. */
  const SCORE_OFFSET: nat := 8
  /** Number of bytes in the high-score cell. */
  const SCORE_BYTES: nat := 2
  /** Value written by both reset paths (tilt easter egg and the Reset menu
      item): worse than any realistic reaction time. */
  const RESET_SCORE: uint16 := 9999

  /** An EEPROM image large enough to hold the high-score cell. */
  predicate HoldsScore(cells: seq<uint8>) {
    |cells| >= SCORE_OFFSET + SCORE_BYTES
  }

  /** Splitting a uint16 into its high byte `(v & 0xFF00) >> 8` and its low
      byte `v & 0x00FF`; decoding the pair gives the value back. */
  function Encode(v: uint16): (bytes: seq<uint8>)
    ensures |bytes| == SCORE_BYTES
    ensures Decode(bytes) == v
  {
    [v / TWO_8, v % TWO_8]
  }

  /** Rebuilding a uint16 as `(b0 << 8) | b1`. Every byte pair decodes to a
      value whose encoding is that same pair, so storage that was never
      written simply decodes to whatever its two bytes say. */
  function Decode(bytes: seq<uint8>): (v: uint16)
    requires |bytes| == SCORE_BYTES
  {
    bytes[0] * TWO_8 + bytes[1]
  }

  /** The EEPROM image after writing `v` to the high-score cell. */
  function Store(cells: seq<uint8>, v: uint16): (cells': seq<uint8>)
    requires HoldsScore(cells)
    ensures |cells'| == |cells|
    ensures cells'[SCORE_OFFSET..SCORE_OFFSET + SCORE_BYTES] == Encode(v)
    ensures forall i :: 0 <= i < |cells| && !(SCORE_OFFSET <= i < SCORE_OFFSET + SCORE_BYTES) ==>
              cells'[i] == cells[i]
  {
    cells[..SCORE_OFFSET] + Encode(v) + cells[SCORE_OFFSET + SCORE_BYTES..]
  }

  /** The score an EEPROM image holds. */
  function Load(cells: seq<uint8>): uint16
    requires HoldsScore(cells)
  {
    Decode(cells[SCORE_OFFSET..SCORE_OFFSET + SCORE_BYTES])
  }

  /** Decoding then encoding gives back the same two bytes: together with
      Encode's contract, the codec is a bijection between uint16 and byte pairs. */
  lemma EncodeDecode(bytes: seq<uint8>)
    requires |bytes| == SCORE_BYTES
    ensures Encode(Decode(bytes)) == bytes
  {
    var v := Decode(bytes);
    DivModUnique(v, bytes[0], bytes[1], TWO_8);
    assert v / TWO_8 == bytes[0];
  }

  /** Writing then reading the score returns the value written. */
  lemma LoadStore(cells: seq<uint8>, v: uint16)
    requires HoldsScore(cells)
    ensures Load(Store(cells, v)) == v
  {
  }

  /** Writing back the score that is already stored leaves the EEPROM as it was. */
  lemma StoreLoad(cells: seq<uint8>)
    requires HoldsScore(cells)
    ensures Store(cells, Load(cells)) == cells
  {
    var cell := cells[SCORE_OFFSET..SCORE_OFFSET + SCORE_BYTES];
    EncodeDecode(cell);
    assert cells == cells[..SCORE_OFFSET] + cell + cells[SCORE_OFFSET + SCORE_BYTES..];
  }

  /** A second write replaces the first one entirely. */
  lemma StoreStore(cells: seq<uint8>, v: uint16, w: uint16)
    requires HoldsScore(cells)
    ensures Store(Store(cells, v), w) == Store(cells, w)
  {
    var once := Store(cells, v);
    assert once[..SCORE_OFFSET] == cells[..SCORE_OFFSET];
    assert once[SCORE_OFFSET + SCORE_BYTES..] == cells[SCORE_OFFSET + SCORE_BYTES..];
  }
}
