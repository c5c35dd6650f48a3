/**
 * Layout arithmetic of an UnsafeRow (src/include/access/unsaferow.h).
 *
 * A row is laid out as three back-to-back areas:
 *   1. the null bitmap, a whole number of 64-bit words with one bit per column;
 *   2. the fixed area, one 8-byte slot per column;
 *   3. the variable-length region, whose pieces are each padded to 8 bytes.
 * The accessors over a builder object live in class `UnsafeRow.UnsafeRowBuilder`;
 * this module holds the arithmetic they share.
 */
module UnsafeRowLayout {

  /** UnsafeRowBmpSize: the byte size of the null bitmap for `colcnt` columns. */
  function BmpSize(colcnt: nat): (r: nat)
    // a whole number of 64-bit words
    ensures r % 8 == 0
    // enough bits for every column
    ensures 8 * r >= colcnt
    // and not one word more than needed
    ensures r > 0 ==> 8 * (r - 8) < colcnt
  {
    ((colcnt + 63) / 64) * 8
  }

  /** The number of 64-bit words in the bitmap. */
  function BmpWords(colcnt: nat): (w: nat)
    ensures 8 * w == BmpSize(colcnt)
  {
    BmpSize(colcnt) / 8
  }

  /** The bit of column `i` lies in word `i / 64` of the bitmap. */
  lemma {:induction false} BitmapWordInRange(colcnt: nat, i: nat)
    requires i < colcnt
    ensures i / 64 < BmpWords(colcnt)
  {
    assert 64 * BmpWords(colcnt) >= colcnt;
  }

  /**
   * Where the variable-length region begins in the serialized row: after the
   * bitmap and the fixed slots.
   */
  function VarRegionStart(colcnt: nat): (r: nat)
    ensures r % 8 == 0
    ensures r - 8 * colcnt == BmpSize(colcnt)
  {
    BmpSize(colcnt) + colcnt * 8
  }
}
