/**
 * The UnsafeRow builder (struct UnsafeRowBuilder of src/include/access/unsaferow.h
 * and the operations of src/backend/access/common/unsaferow.c).
 *
 * The builder packs one row column by column into a null bitmap of 64-bit
 * words, one 8-byte slot per column, and a growable variable-length region
 * whose every piece is zero-padded to a multiple of 8 bytes.
 */
module UnsafeRow {
  import opened PgErrors
  import opened DecimalParse
  import opened UnsafeRowLayout
  import opened UnsafeRowCodec

  // ---------------------------------------------------------------------------
  // The null bitmap

  /** `idx & 0x3F`: the position of column `i`'s bit inside its word. */
  function BitIndex(i: nat): (k: bv6)
    ensures k as int == i % 64
  {
    (i % 64) as bv6
  }

  /** `1ULL << k`: the word with only bit `k` set. */
  function Bit(k: bv6): bv64 {
    (1 as bv64) << k
  }

  /** The mask of column `i` inside its word. */
  function Mask(i: nat): bv64 {
    Bit(BitIndex(i))
  }

  /** Column `i` is marked null: bit `i % 64` of word `i / 64` is set. */
  predicate IsNull(bitmap: seq<bv64>, i: nat)
    requires i / 64 < |bitmap|
  {
    bitmap[i / 64] & Mask(i) != 0
  }

  /** Or-ing in a bit sets that bit. */
  lemma BitSets(w: bv64, k: bv6)
    ensures (w | Bit(k)) & Bit(k) != 0
  {
  }

  /** Or-ing in a bit leaves every other bit as it was. */
  lemma BitKeepsOther(w: bv64, k: bv6, l: bv6)
    requires k != l
    ensures (w | Bit(k)) & Bit(l) == w & Bit(l)
  {
  }

  /** Setting the bit of column `i` keeps the bit of every other column of the same word. */
  lemma WordKeepsOtherBits(w: bv64, i: nat, j: nat)
    requires i / 64 == j / 64 && i != j
    ensures ((w | Mask(i)) & Mask(j) != 0) <==> (w & Mask(j) != 0)
  {
    BitKeepsOther(w, BitIndex(i), BitIndex(j));
  }

  lemma {:induction false} SetNullBitKeeps(bitmap: seq<bv64>, i: nat, j: nat)
    requires i / 64 < |bitmap| && j / 64 < |bitmap| && i != j
    ensures IsNull(bitmap[i / 64 := bitmap[i / 64] | Mask(i)], j) <==> IsNull(bitmap, j)
  {
    if j / 64 == i / 64 {
      WordKeepsOtherBits(bitmap[i / 64], i, j);
    }
  }

  /** The bitmap after marking column `i` null: that bit is set and no other bit changes. */
  function SetNullBit(bitmap: seq<bv64>, i: nat): (r: seq<bv64>)
    requires i / 64 < |bitmap|
    ensures |r| == |bitmap|
    ensures IsNull(r, i)
    ensures forall j :: 0 <= j < 64 * |bitmap| && j != i ==> (IsNull(r, j) <==> IsNull(bitmap, j))
  {
    var r := bitmap[i / 64 := bitmap[i / 64] | Mask(i)];
    BitSets(bitmap[i / 64], BitIndex(i));
    forall j | 0 <= j < 64 * |bitmap| && j != i
      ensures IsNull(r, j) <==> IsNull(bitmap, j)
    {
      SetNullBitKeeps(bitmap, i, j);
    }
    r
  }

  // ---------------------------------------------------------------------------
  // Padding of the variable region

  /** `((sz + 7) / 8) * 8`: the least multiple of 8 that holds `sz` bytes. */
  function PaddedLen(sz: nat): (r: nat)
    ensures r % 8 == 0
    ensures sz <= r < sz + 8
  {
    ((sz + 7) / 8) * 8
  }

  /** The bytes one AppendVarData call adds: the data, then zeros up to the padded length. */
  function Padded(data: seq<uint8>): (r: seq<uint8>)
    ensures |r| == PaddedLen(|data|)
    ensures r[..|data|] == data
    ensures forall i :: |data| <= i < |r| ==> r[i] == 0
  {
    data + seq(PaddedLen(|data|) - |data|, _ => 0)
  }

  // ---------------------------------------------------------------------------
  // The builder

  class UnsafeRowBuilder {
    var colCnt: nat
    var bmp: array<bv64>
    var fixedData: array<u64>
    var varData: array<uint8>
    var varDataCurLen: nat
    var varDataMaxLen: nat
    var nextAppendIdx: nat

    /** The invariant of the scalar fields. */
    predicate Sized()
      reads this
    {
      && varDataCurLen <= varDataMaxLen
      && varDataCurLen % 8 == 0
      && nextAppendIdx <= colCnt
    }

    /** The builder invariant: area sizes agree with the column count, slots not yet appended are zero. */
    ghost predicate Valid()
      reads this, fixedData
      // the used part of the variable region lies inside its buffer, and the cursor inside the slots
      ensures Valid() ==> varDataCurLen <= varData.Length && nextAppendIdx <= fixedData.Length
    {
      && Sized()
      && bmp as object != fixedData && bmp as object != varData && fixedData as object != varData
      && bmp.Length == BmpWords(colCnt)
      && fixedData.Length == colCnt
      && varData.Length == varDataMaxLen
      && (forall k :: nextAppendIdx <= k < colCnt ==> fixedData[k] == 0)
    }

    /** The bytes of the variable region written so far. */
    ghost function VarBytes(): seq<uint8>
      reads this, varData
      requires varDataCurLen <= varData.Length
    {
      varData[..varDataCurLen]
    }

    // -- accessors of unsaferow.h

    /** UnsafeRowBmpSize2: the bitmap size for this builder's column count. */
    function BmpSize2(): (r: nat)
      reads this
      ensures r % 8 == 0 && 8 * r >= colCnt
    {
      BmpSize(colCnt)
    }

    /** UnsafeRowFixedDataSize: one 8-byte slot per column. */
    function FixedDataSize(): (r: nat)
      reads this
      ensures r % 8 == 0 && r / 8 == colCnt
    {
      colCnt * 8
    }

    /** UnsafeRowVarDataSize: the bytes of the variable region in use. */
    function VarDataSize(): (r: nat)
      reads this
      ensures Sized() ==> r % 8 == 0 && r <= varDataMaxLen
    {
      varDataCurLen
    }

    /**
     * UnsafeRowSize: the row's total size, bitmap plus slots plus variable
     * region; the variable region starts at VarRegionStart(colCnt).
     */
    function Size(): (r: nat)
      reads this
      ensures r - VarDataSize() == VarRegionStart(colCnt)
      ensures Sized() ==> r % 8 == 0
    {
      BmpSize2() + FixedDataSize() + VarDataSize()
    }

    // -- operations of unsaferow.c

    /** UnsafeRowBuilderInit. */
    constructor Init(colcnt: nat)
      ensures Valid()
      ensures colCnt == colcnt
      ensures fresh(bmp) && fresh(fixedData) && fresh(varData)
      ensures 8 * bmp.Length == BmpSize(colcnt)
      ensures forall k :: 0 <= k < bmp.Length ==> bmp[k] == 0
      ensures fixedData[..] == seq(colcnt, _ => 0)
      ensures varDataCurLen == 0 && varDataMaxLen == 0
      ensures nextAppendIdx == 0
    {
      colCnt := colcnt;
      bmp := new bv64[BmpWords(colcnt)](_ => 0);
      fixedData := new u64[colcnt](_ => 0);
      varData := new uint8[0];
      varDataCurLen := 0;
      varDataMaxLen := 0;
      nextAppendIdx := 0;
    }

    /**
     * UnsafeRowBuilderAppendNull: marks the column at the cursor null. As
     * written, it does not advance the cursor.
     */
    method AppendNull()
      requires Valid()
      requires nextAppendIdx < colCnt
      modifies bmp
      ensures Valid()
      ensures bmp[..] == SetNullBit(old(bmp[..]), nextAppendIdx)
      ensures unchanged(this) && unchanged(fixedData) && unchanged(varData)
    {
      var idx := nextAppendIdx;
      BitmapWordInRange(colCnt, idx);
      var word := idx / 64;
      var mask := Mask(idx);
      var v := bmp[word];
      v := v | mask;
      bmp[word] := v;
    }

    /** repalloc of the variable region to `newMaxLen` bytes: a fresh array holding the old contents. */
    method Grow(newMaxLen: nat)
      requires Valid()
      requires varDataCurLen <= newMaxLen
      modifies this
      ensures Valid()
      ensures colCnt == old(colCnt) && nextAppendIdx == old(nextAppendIdx)
      ensures bmp == old(bmp) && fixedData == old(fixedData)
      ensures varDataCurLen == old(varDataCurLen) && varDataMaxLen == newMaxLen
      ensures fresh(varData)
      ensures VarBytes() == old(VarBytes())
    {
      var grown := Realloc(varData, varDataCurLen, newMaxLen);
      varData := grown;
      varDataMaxLen := newMaxLen;
    }

    /** A fresh array of `newLen` bytes whose first `n` bytes are those of `src`. */
    static method Realloc(src: array<uint8>, n: nat, newLen: nat) returns (grown: array<uint8>)
      requires n <= src.Length && n <= newLen
      ensures fresh(grown) && grown.Length == newLen
      ensures grown[..n] == src[..n]
    {
      grown := new uint8[newLen];
      var k := 0;
      while k < n
        invariant k <= n
        invariant grown[..k] == src[..k]
      {
        grown[k] := src[k];
        k := k + 1;
      }
    }

    /** memcpy of `bytes` into `buf` at position `at`; the bytes before `at` are kept. */
    static method CopyBytes(buf: array<uint8>, at: nat, bytes: seq<uint8>)
      requires at + |bytes| <= buf.Length
      modifies buf
      ensures buf[..at + |bytes|] == old(buf[..at]) + bytes
    {
      var k := 0;
      while k < |bytes|
        invariant k <= |bytes|
        invariant buf[..at + k] == old(buf[..at]) + bytes[..k]
      {
        buf[at + k] := bytes[k];
        assert bytes[..k + 1] == bytes[..k] + [bytes[k]];
        k := k + 1;
      }
      assert bytes[..k] == bytes;
    }

    /**
     * AppendVarData: copies `data` to the end of the variable region, then
     * zero-pads to a multiple of 8, growing the region to exactly what is
     * needed when it is short.
     */
    method AppendVarData(data: seq<uint8>)
      requires Valid()
      modifies this, varData
      ensures Valid()
      ensures colCnt == old(colCnt) && nextAppendIdx == old(nextAppendIdx)
      ensures bmp == old(bmp) && fixedData == old(fixedData)
      ensures varDataCurLen == old(varDataCurLen) + PaddedLen(|data|)
      ensures VarBytes() == old(VarBytes()) + Padded(data)
      ensures if old(varDataMaxLen - varDataCurLen) < PaddedLen(|data|)
              then varDataMaxLen == old(varDataCurLen) + PaddedLen(|data|) && fresh(varData)
              else varDataMaxLen == old(varDataMaxLen) && varData == old(varData)
    {
      var sz := |data|;
      var sz2 := ((sz + 7) / 8) * 8;
      if varDataMaxLen - varDataCurLen < sz2 {
        Grow(varDataCurLen + sz2);
      }
      WritePadded(varData, varDataCurLen, data);
      varDataCurLen := varDataCurLen + sz2;
    }

    /** The data copied to position `at`, then the zero padding; the bytes before `at` are kept. */
    static method WritePadded(buf: array<uint8>, at: nat, data: seq<uint8>)
      requires at + PaddedLen(|data|) <= buf.Length
      modifies buf
      ensures buf[..at + PaddedLen(|data|)] == old(buf[..at]) + Padded(data)
    {
      var sz := |data|;
      var sz2 := PaddedLen(sz);
      CopyBytes(buf, at, data);
      ZeroFill(buf, at + sz, sz2 - sz);
    }

    /** The padding loop: `n` zero bytes written at position `at`; the bytes before `at` are kept. */
    static method ZeroFill(buf: array<uint8>, at: nat, n: nat)
      requires at + n <= buf.Length
      modifies buf
      ensures buf[..at + n] == old(buf[..at]) + seq(n, _ => 0)
    {
      var k := 0;
      while k < n
        invariant k <= n
        invariant buf[..at + k] == old(buf[..at]) + seq(k, _ => 0)
      {
        buf[at + k] := 0;
        k := k + 1;
      }
    }

    /**
     * UnsafeRowBuilderAppend: encodes a non-null value into the slot at the
     * cursor (and the variable region) and advances the cursor; on an error
     * report nothing has been written.
     */
    method Append(attr: Datum, attrdef: AttrDef, backend: Backend) returns (r: Result<()>)
      requires Valid()
      requires nextAppendIdx < colCnt
      requires Fits(attr, attrdef.typid)
      modifies this, fixedData, varData
      ensures Valid()
      ensures colCnt == old(colCnt) && bmp == old(bmp) && fixedData == old(fixedData)
      ensures unchanged(bmp)
      ensures var enc := EncodeColumn(attr, attrdef, backend, old(Size()), old(fixedData[nextAppendIdx]));
        && (enc.Error? ==>
              && r == Error(enc.report)
              && unchanged(this) && unchanged(fixedData) && unchanged(varData))
        && (enc.Ok? ==>
              && r == Ok(())
              && nextAppendIdx == old(nextAppendIdx) + 1
              && fixedData[..] == old(fixedData[..])[old(nextAppendIdx) := enc.value.slot])
        && (enc.Ok? && enc.value.Inline? ==>
              && varData == old(varData) && unchanged(varData)
              && varDataCurLen == old(varDataCurLen) && varDataMaxLen == old(varDataMaxLen))
        && (enc.Ok? && enc.value.OutOfLine? ==>
              VarBytes() == old(VarBytes()) + Padded(enc.value.data))
    {
      var res := EncodeSlot(attr, attrdef, backend);
      if res.Error? {
        return Error(res.report);
      }
      fixedData[nextAppendIdx] := res.value;
      nextAppendIdx := nextAppendIdx + 1;
      r := Ok(());
    }

    /**
     * The type switch of UnsafeRowBuilderAppend: the value for the slot at
     * the cursor, after appending to the variable region what the type
     * stores out of line.
     */
    method EncodeSlot(attr: Datum, attrdef: AttrDef, backend: Backend) returns (r: Result<u64>)
      requires Valid()
      requires nextAppendIdx < colCnt
      requires Fits(attr, attrdef.typid)
      modifies this, varData
      ensures Valid()
      ensures colCnt == old(colCnt) && nextAppendIdx == old(nextAppendIdx)
      ensures bmp == old(bmp) && fixedData == old(fixedData)
      ensures var enc := EncodeColumn(attr, attrdef, backend, old(Size()), fixedData[nextAppendIdx]);
        && (enc.Error? ==> r == Error(enc.report) && unchanged(this) && unchanged(varData))
        && (enc.Ok? ==> r == Ok(enc.value.slot))
        && (enc.Ok? && enc.value.Inline? ==> unchanged(this) && unchanged(varData))
        && (enc.Ok? && enc.value.OutOfLine? ==> VarBytes() == old(VarBytes()) + Padded(enc.value.data))
    {
      var i := nextAppendIdx;
      var typid := attrdef.typid;
      if typid == INT2OID {
        r := Ok(Store16(fixedData[i], attr.i16));
      } else if typid == INT4OID {
        r := Ok(Store32(fixedData[i], attr.i32));
      } else if typid == INT8OID {
        r := Ok(Store64(attr.i64));
      } else if typid == FLOAT4OID {
        r := Ok(StoreBits32(fixedData[i], attr.f4));
      } else if typid == FLOAT8OID {
        r := Ok(attr.f8);
      } else if typid == BYTEAOID {
        var offset := Size();
        var data := attr.payload;
        AppendVarData(data);
        r := Ok(Pack(offset, |data|));
      } else if typid == TEXTOID {
        var offset := Size();
        var data := attr.payload;
        var sz := |data|;
        var data2 := backend.serverToClient(data);
        if data2.Some? {
          sz := StrLen(data2.value);
          AppendVarData(data2.value[..sz]);
        } else {
          AppendVarData(data);
        }
        r := Ok(Pack(offset, sz));
      } else if typid == NUMERICOID {
        r := AppendNumeric(attr.isNaN, attr.intStr, attrdef.typmod, backend);
      } else if typid == DATEOID {
        var v := DateToUnixDays(attr.i32);
        r := Ok(Store32(fixedData[i], v));
      } else if typid == TIMESTAMPTZOID {
        var v := TimestampAdjust(attr.i64);
        r := Ok(Store64(v));
      } else {
        r := Error(UnsupportedType(typid));
      }
    }

    /**
     * The numeric branch of UnsafeRowBuilderAppend: the slot value, after
     * appending the 16 bytes of an int128 to the variable region when the
     * precision calls for them.
     */
    method AppendNumeric(isNaN: bool, intStr: string, typmod: int, backend: Backend) returns (r: Result<u64>)
      requires Valid()
      requires CString(intStr)
      modifies this, varData
      ensures Valid()
      ensures colCnt == old(colCnt) && nextAppendIdx == old(nextAppendIdx)
      ensures bmp == old(bmp) && fixedData == old(fixedData)
      ensures var enc := EncodeNumeric(isNaN, intStr, typmod, backend, old(Size()));
        && (enc.Error? ==> r == Error(enc.report) && unchanged(this) && unchanged(varData))
        && (enc.Ok? ==> r == Ok(enc.value.slot))
        && (enc.Ok? && enc.value.Inline? ==> unchanged(this) && unchanged(varData))
        && (enc.Ok? && enc.value.OutOfLine? ==> VarBytes() == old(VarBytes()) + Padded(enc.value.data))
    {
      if isNaN {
        return Error(NumericNaN);
      }
      if typmod < 0 {
        return Error(NumericWithoutTypmod);
      }
      var p := backend.numericPrecision(typmod);
      if p <= 18 {
        var parsed := Strtoll(intStr);
        if At(intStr, parsed.end) != '\0' {
          return Error(InvalidInt64(intStr));
        }
        r := Ok(Store64(parsed.value));
      } else if p <= 38 {
        if !backend.hasInt128 {
          return Error(NoInt128Support);
        }
        var offset := Size();
        var val := StrToI128(intStr);
        if val.Error? {
          return Error(val.report);
        }
        AppendVarData(Int128Bytes(val.value));
        r := Ok(Pack(offset, 16));
      } else {
        r := Error(PrecisionOutOfRange(p));
      }
    }
  }

  // ---------------------------------------------------------------------------
  // A row built step by step

  /**
   * Three columns: int4 42, a null, then the text "café" (UTF-8, no encoding
   * conversion). The null does not advance the cursor, so the text lands in
   * slot 1, the slot of the column just marked null, and slot 2 stays empty.
   * The text's slot records row size 32 (8 bitmap bytes and 24 slot bytes)
   * and length 5; its bytes are padded to 8.
   */
  method CafeRow() returns (bitmap: seq<bv64>, slots: seq<u64>, bytes: seq<uint8>, cursor: nat)
    ensures bitmap == [2]
    ensures slots == [42, Pack(32, 5), 0]
    ensures bytes == [0x63, 0x61, 0x66, 0xC3, 0xA9, 0, 0, 0]
    ensures cursor == 2
  {
    var backend := Backend(_ => None, _ => 0, true);
    var cafe: seq<uint8> := [0x63, 0x61, 0x66, 0xC3, 0xA9];
    var urb := IntThenNull(backend);
    assert EncodeColumn(VarlenaDatum(cafe), AttrDef(TEXTOID, -1), backend, 32, 0)
      == Ok(OutOfLine(Pack(32, 5), cafe));
    var r := urb.Append(VarlenaDatum(cafe), AttrDef(TEXTOID, -1), backend);
    assert Padded(cafe) == cafe + [0, 0, 0];
    bitmap := urb.bmp[..];
    slots := urb.fixedData[..];
    bytes := urb.varData[..urb.varDataCurLen];
    cursor := urb.nextAppendIdx;
  }

  /** The first two steps of CafeRow: int4 42 into slot 0, then column 1 marked null. */
  method IntThenNull(backend: Backend) returns (urb: UnsafeRowBuilder)
    ensures fresh(urb) && fresh(urb.bmp) && fresh(urb.fixedData) && fresh(urb.varData)
    ensures urb.Valid() && urb.colCnt == 3 && urb.nextAppendIdx == 1
    ensures urb.bmp[..] == [2] && urb.fixedData[..] == [42, 0, 0]
    ensures urb.varDataCurLen == 0 && urb.Size() == 32
  {
    urb := new UnsafeRowBuilder.Init(3);
    assert BmpWords(3) == 1;
    assert EncodeColumn(Int32Datum(42), AttrDef(INT4OID, -1), backend, 32, 0) == Ok(Inline(42)) by {
      assert Store32(0, 42) == 42;
    }
    var r := urb.Append(Int32Datum(42), AttrDef(INT4OID, -1), backend);
    urb.AppendNull();
  }
}
