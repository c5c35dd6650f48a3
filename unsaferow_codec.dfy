/**
 * Per-type encoding of one column value for an UnsafeRow
 * (the type dispatch of UnsafeRowBuilderAppend, src/backend/access/common/unsaferow.c:58-172).
 *
 * A fixed slot is an unsigned 64-bit word. Inline values are written into its
 * low-order bytes as a little-endian machine writes them (`*(int16 *)addr = v`
 * replaces the two lowest bytes and leaves the other six as they were).
 * Variable-length values are handed to the variable region and the slot gets
 * the packed reference `offset << 32 | length`.
 */
module UnsafeRowCodec {
  import opened PgErrors
  import opened DecimalParse

  const TWO16: int := 0x1_0000
  const TWO32: int := 0x1_0000_0000
  const TWO64: int := 0x1_0000_0000_0000_0000
  const TWO128: int := 0x1_0000_0000_0000_0000_0000_0000_0000_0000

  type uint8 = x: int | 0 <= x < 0x100
  type u32 = x: int | 0 <= x < 0x1_0000_0000
  type u64 = x: int | 0 <= x < 0x1_0000_0000_0000_0000
  type int16 = x: int | -0x8000 <= x < 0x8000
  type int32 = x: int | -0x8000_0000 <= x < 0x8000_0000
  type int64 = x: int | -0x8000_0000_0000_0000 <= x < 0x8000_0000_0000_0000

  /** MaxAllocSize: no palloc'd buffer, hence no varlena payload, is larger. */
  const MAX_ALLOC_SIZE: int := 0x3FFF_FFFF
  type AllocBytes = s: seq<uint8> | |s| <= 0x3FFF_FFFF

  // Type OIDs, as PostgreSQL's catalog (catalog/pg_type_d.h) assigns them.
  const BYTEAOID: int := 17
  const INT8OID: int := 20
  const INT2OID: int := 21
  const INT4OID: int := 23
  const TEXTOID: int := 25
  const FLOAT4OID: int := 700
  const FLOAT8OID: int := 701
  const DATEOID: int := 1082
  const TIMESTAMPTZOID: int := 1184
  const NUMERICOID: int := 1700

  // Julian day numbers of the two epochs and microseconds per day (datatype/timestamp.h).
  const POSTGRES_EPOCH_JDATE: int := 2451545
  const UNIX_EPOCH_JDATE: int := 2440588
  const USECS_PER_DAY: int := 86_400_000_000

  /**
   * A column value as the `DatumGet*` accessors deliver it. Dates arrive as
   * `Int32Datum` (DateADT, days since 2000-01-01), timestamps with time zone as
   * `Int64Datum` (microseconds since 2000-01-01). Floats are opaque bit
   * patterns. A varlena is its detoasted payload (VARDATA_ANY for
   * VARSIZE_ANY_EXHDR bytes). A numeric is what `numeric_is_nan` and
   * `numeric_as_intstr` report about it.
   */
  datatype Datum =
    | Int16Datum(i16: int16)
    | Int32Datum(i32: int32)
    | Int64Datum(i64: int64)
    | Float4Datum(f4: u32)
    | Float8Datum(f8: u64)
    | VarlenaDatum(payload: AllocBytes)
    | NumericDatum(isNaN: bool, intStr: string)

  /** The parts of a column's `pg_attribute` row that the encoder reads. */
  datatype AttrDef = AttrDef(typid: int, typmod: int)

  /**
   * Collaborators the encoder calls and that are not part of this model.
   * `serverToClient` is `pg_server_to_client`: None when it hands back the
   * input buffer, Some(buffer) when it allocated a converted, NUL-terminated one.
   * `numericPrecision` is the precision `parse_numeric_typmod` extracts.
   * `hasInt128` says whether the build defines PG_INT128_TYPE.
   */
  datatype Backend = Backend(
    serverToClient: seq<uint8> -> Option<AllocBytes>,
    numericPrecision: int -> int,
    hasInt128: bool)

  /** The datum has the representation its column type gives it. */
  predicate Fits(attr: Datum, typid: int) {
    if typid == INT2OID then attr.Int16Datum?
    else if typid == INT4OID || typid == DATEOID then attr.Int32Datum?
    else if typid == INT8OID || typid == TIMESTAMPTZOID then attr.Int64Datum?
    else if typid == FLOAT4OID then attr.Float4Datum?
    else if typid == FLOAT8OID then attr.Float8Datum?
    else if typid == BYTEAOID || typid == TEXTOID then attr.VarlenaDatum?
    else if typid == NUMERICOID then attr.NumericDatum? && CString(attr.intStr)
    else true
  }

  // ---------------------------------------------------------------------------
  // Inline stores into a slot and the matching reads

  function Int16At(w: u64): int16 {
    var u := w % TWO16;
    if u >= 0x8000 then u - TWO16 else u
  }

  function Int32At(w: u64): int32 {
    var u := w % TWO32;
    if u >= 0x8000_0000 then u - TWO32 else u
  }

  function Int64At(w: u64): int64 {
    if w >= 0x8000_0000_0000_0000 then w - TWO64 else w
  }

  function Bits32At(w: u64): u32 {
    w % TWO32
  }

  /** `*(int16 *)addr = v`: the value reads back and the upper six bytes are kept. */
  function Store16(slot: u64, v: int16): (r: u64)
    ensures Int16At(r) == v
    ensures r / TWO16 == slot / TWO16
  {
    slot - slot % TWO16 + v % TWO16
  }

  /** `*(int32 *)addr = v`: the value reads back and the upper four bytes are kept. */
  function Store32(slot: u64, v: int32): (r: u64)
    ensures Int32At(r) == v
    ensures r / TWO32 == slot / TWO32
  {
    slot - slot % TWO32 + v % TWO32
  }

  /** `*(float4 *)addr = v`: the bit pattern reads back and the upper four bytes are kept. */
  function StoreBits32(slot: u64, bits: u32): (r: u64)
    ensures Bits32At(r) == bits
    ensures r / TWO32 == slot / TWO32
  {
    slot - slot % TWO32 + bits
  }

  /** `*(int64 *)addr = v`: the whole slot takes the two's-complement pattern of v. */
  function Store64(v: int64): (r: u64)
    ensures Int64At(r) == v
  {
    v % TWO64
  }

  /** A value written into a zeroed slot is zero-extended, not sign-extended. */
  lemma StoresZeroExtend(v16: int16, v32: int32, bits: u32)
    ensures Store16(0, v16) == (if v16 < 0 then v16 + TWO16 else v16)
    ensures Store32(0, v32) == (if v32 < 0 then v32 + TWO32 else v32)
    ensures StoreBits32(0, bits) == bits
  {
  }

  // ---------------------------------------------------------------------------
  // Packed references

  /**
   * `offset << 32 | sz` on 64-bit unsigned words: the shift drops the offset's
   * bits above 32, and a length below 2^32 does not overlap the offset.
   */
  function Pack(offset: nat, sz: nat): (w: u64)
    requires sz < TWO32
    ensures PackedLength(w) == sz
    ensures PackedOffset(w) == offset % TWO32
  {
    (offset * TWO32) % TWO64 + sz
  }

  function PackedOffset(w: u64): nat {
    w / TWO32
  }

  function PackedLength(w: u64): nat {
    w % TWO32
  }

  // ---------------------------------------------------------------------------
  // Date and timestamp adjustments

  /** Conversion to int32 in a build that wraps signed overflow (-fwrapv). */
  function Wrap32(v: int): (r: int32)
    ensures (r - v) % TWO32 == 0
    ensures -0x8000_0000 <= v < 0x8000_0000 ==> r == v
  {
    var u := v % TWO32;
    if u >= 0x8000_0000 then u - TWO32 else u
  }

  function Wrap64(v: int): (r: int64)
    ensures (r - v) % TWO64 == 0
    ensures -0x8000_0000_0000_0000 <= v < 0x8000_0000_0000_0000 ==> r == v
  {
    var u := v % TWO64;
    if u >= 0x8000_0000_0000_0000 then u - TWO64 else u
  }

  /**
   * The date adjustment: days since 2000-01-01 become days since 1970-01-01,
   * computed in int32.
   */
  function DateToUnixDays(d: int32): (r: int32)
    ensures d <= 0x7FFF_FFFF - 10957 ==> r == d + 10957
    ensures d > 0x7FFF_FFFF - 10957 ==> r == d + 10957 - TWO32
  {
    Wrap32(d + (POSTGRES_EPOCH_JDATE - UNIX_EPOCH_JDATE))
  }

  /**
   * The timestamptz adjustment as written: the difference of an epoch with
   * itself, so no adjustment at all.
   */
  function TimestampAdjust(v: int64): (r: int64)
    ensures r == v
  {
    Wrap64(v + (POSTGRES_EPOCH_JDATE - POSTGRES_EPOCH_JDATE) * USECS_PER_DAY)
  }

  // ---------------------------------------------------------------------------
  // The 16 bytes of an int128 as a little-endian machine stores them

  function Pow256(n: nat): (p: nat)
    ensures p >= 1
  {
    if n == 0 then 1 else 256 * Pow256(n - 1)
  }

  function LittleEndian(v: nat, n: nat): (bs: seq<uint8>)
    ensures |bs| == n
  {
    if n == 0 then [] else [v % 256] + LittleEndian(v / 256, n - 1)
  }

  function FromLittleEndian(bs: seq<uint8>): (v: nat)
    ensures v < Pow256(|bs|)
  {
    if bs == [] then 0 else bs[0] + 256 * FromLittleEndian(bs[1..])
  }

  /** Decoding the `n` little-endian bytes of `v` gives back `v`. */
  lemma {:induction false} LittleEndianRoundTrip(v: nat, n: nat)
    requires v < Pow256(n)
    ensures FromLittleEndian(LittleEndian(v, n)) == v
  {
    if n > 0 {
      LittleEndianRoundTrip(v / 256, n - 1);
      assert LittleEndian(v, n)[1..] == LittleEndian(v / 256, n - 1);
    }
  }

  lemma {:induction false} Pow256Add(a: nat, b: nat)
    ensures Pow256(a + b) == Pow256(a) * Pow256(b)
  {
    if a > 0 {
      Pow256Add(a - 1, b);
    }
  }

  lemma Pow256Of16()
    ensures Pow256(16) == TWO128
  {
    assert Pow256(2) == TWO16;
    Pow256Add(2, 2);
    Pow256Add(4, 4);
    Pow256Add(8, 8);
  }

  /** The bytes `AppendVarData(urb, (const char *)&val, 16)` copies for an int128. */
  function Int128Bytes(v: int): (bs: seq<uint8>)
    ensures |bs| == 16
  {
    LittleEndian(v % TWO128, 16)
  }

  /** Reading 16 bytes back as a signed 128-bit integer. */
  function Int128FromBytes(bs: seq<uint8>): int
    requires |bs| == 16
  {
    var u := FromLittleEndian(bs);
    if u >= TWO128 / 2 then u - TWO128 else u
  }

  /** An int128 written to the variable region decodes back to the same value. */
  lemma Int128BytesRoundTrip(v: int)
    requires INT128_MIN <= v <= INT128_MAX
    ensures Int128FromBytes(Int128Bytes(v)) == v
  {
    Pow256Of16();
    LittleEndianRoundTrip(v % TWO128, 16);
  }

  // ---------------------------------------------------------------------------
  // Encoding one value

  /** What one append produces: a new slot word, plus bytes for the variable region. */
  datatype Encoded =
    | Inline(slot: u64)
    | OutOfLine(slot: u64, data: seq<uint8>)

  /** strlen over a byte buffer: the index of its first NUL, or its length. */
  function StrLen(bs: seq<uint8>): (n: nat)
    ensures n <= |bs|
    ensures forall i :: 0 <= i < n ==> bs[i] != 0
    ensures n < |bs| ==> bs[n] == 0
  {
    if bs == [] || bs[0] == 0 then 0 else 1 + StrLen(bs[1..])
  }

  /**
   * The bytes a text value contributes: the converted string up to its NUL
   * when the conversion allocated a new buffer, otherwise the original payload.
   */
  function TextBytes(payload: AllocBytes, backend: Backend): (data: AllocBytes)
    ensures backend.serverToClient(payload).None? ==> data == payload
    ensures backend.serverToClient(payload).Some? ==>
      var converted := backend.serverToClient(payload).value;
      && data <= converted
      && (forall i :: 0 <= i < |data| ==> data[i] != 0)
      && (|data| < |converted| ==> converted[|data|] == 0)
  {
    match backend.serverToClient(payload)
    case None => payload
    case Some(converted) => converted[..StrLen(converted)]
  }

  /** The numeric branch of UnsafeRowBuilderAppend. */
  function EncodeNumeric(isNaN: bool, intStr: string, typmod: int, backend: Backend,
                         rowSize: nat): (r: Result<Encoded>)
    // a numeric goes out of line only as the 16 bytes of an int128
    ensures r.Ok? && r.value.OutOfLine? ==>
      |r.value.data| == 16 && PackedLength(r.value.slot) == 16 && backend.hasInt128
    // text strtoll does not consume is reported as invalid int64 text
    ensures r.Error? && r.report.InvalidInt64? ==> r.report.text == intStr && Strtoll(intStr).end < |intStr|
  {
    if isNaN then Error(NumericNaN)
    else if typmod < 0 then Error(NumericWithoutTypmod)
    else
      var p := backend.numericPrecision(typmod);
      if p <= 18 then
        var parsed := Strtoll(intStr);
        if parsed.end < |intStr| then Error(InvalidInt64(intStr))
        else Ok(Inline(Store64(parsed.value)))
      else if p <= 38 then
        if !backend.hasInt128 then Error(NoInt128Support)
        else match ParseInt128(intStr)
          case Error(e) => Error(e)
          case Ok(v) => Ok(OutOfLine(Pack(rowSize, 16), Int128Bytes(v)))
      else Error(PrecisionOutOfRange(p))
  }

  /**
   * The effect of appending `attr` as a column of type `attrdef`, given the
   * row's size so far and the current contents of the target slot.
   */
  function EncodeColumn(attr: Datum, attrdef: AttrDef, backend: Backend,
                        rowSize: nat, slot: u64): (r: Result<Encoded>)
    requires Fits(attr, attrdef.typid)
    // an out-of-line value's slot records its unpadded length
    ensures r.Ok? && r.value.OutOfLine? ==> PackedLength(r.value.slot) == |r.value.data|
    // only numerics and unsupported types are rejected
    ensures r.Error? ==> attrdef.typid == NUMERICOID || !Supported(attrdef.typid)
  {
    var typid := attrdef.typid;
    if typid == INT2OID then Ok(Inline(Store16(slot, attr.i16)))
    else if typid == INT4OID then Ok(Inline(Store32(slot, attr.i32)))
    else if typid == INT8OID then Ok(Inline(Store64(attr.i64)))
    else if typid == FLOAT4OID then Ok(Inline(StoreBits32(slot, attr.f4)))
    else if typid == FLOAT8OID then Ok(Inline(attr.f8))
    else if typid == BYTEAOID then
      Ok(OutOfLine(Pack(rowSize, |attr.payload|), attr.payload))
    else if typid == TEXTOID then
      var data := TextBytes(attr.payload, backend);
      Ok(OutOfLine(Pack(rowSize, |data|), data))
    else if typid == NUMERICOID then
      EncodeNumeric(attr.isNaN, attr.intStr, attrdef.typmod, backend, rowSize)
    else if typid == DATEOID then Ok(Inline(Store32(slot, DateToUnixDays(attr.i32))))
    else if typid == TIMESTAMPTZOID then Ok(Inline(Store64(TimestampAdjust(attr.i64))))
    else Error(UnsupportedType(typid))
  }

  /** The ten supported column types. */
  predicate Supported(typid: int) {
    typid in {INT2OID, INT4OID, INT8OID, FLOAT4OID, FLOAT8OID, BYTEAOID, TEXTOID,
              NUMERICOID, DATEOID, TIMESTAMPTZOID}
  }

  // ---------------------------------------------------------------------------
  // What the encoding promises

  /**
   * Fixed-width values are written inline and read back: integers and float
   * bit patterns unchanged, dates shifted to the Unix epoch in int32,
   * timestamps with time zone unchanged.
   */
  lemma EncodeInlineReadBack(attr: Datum, attrdef: AttrDef, backend: Backend, rowSize: nat, slot: u64)
    requires Fits(attr, attrdef.typid)
    requires attrdef.typid in {INT2OID, INT4OID, INT8OID, FLOAT4OID, FLOAT8OID, DATEOID, TIMESTAMPTZOID}
    ensures EncodeColumn(attr, attrdef, backend, rowSize, slot).Ok?
    ensures EncodeColumn(attr, attrdef, backend, rowSize, slot).value.Inline?
    ensures var w := EncodeColumn(attr, attrdef, backend, rowSize, slot).value.slot;
      && (attrdef.typid == INT2OID ==> Int16At(w) == attr.i16)
      && (attrdef.typid == INT4OID ==> Int32At(w) == attr.i32)
      && (attrdef.typid == INT8OID ==> Int64At(w) == attr.i64)
      && (attrdef.typid == FLOAT4OID ==> Bits32At(w) == attr.f4)
      && (attrdef.typid == FLOAT8OID ==> w == attr.f8)
      && (attrdef.typid == DATEOID ==> Int32At(w) == DateToUnixDays(attr.i32))
      && (attrdef.typid == TIMESTAMPTZOID ==> Int64At(w) == attr.i64)
  {
  }

  /**
   * bytea and text go to the variable region; the slot records the unpadded
   * length and, for rows under 4 GiB, the row size before the write.
   */
  lemma EncodeVarlenaReference(attr: Datum, attrdef: AttrDef, backend: Backend, rowSize: nat, slot: u64)
    requires Fits(attr, attrdef.typid)
    requires attrdef.typid == BYTEAOID || attrdef.typid == TEXTOID
    ensures var e := EncodeColumn(attr, attrdef, backend, rowSize, slot);
      && e.Ok? && e.value.OutOfLine?
      && e.value.data == (if attrdef.typid == BYTEAOID then attr.payload else TextBytes(attr.payload, backend))
      && PackedLength(e.value.slot) == |e.value.data|
      && (rowSize < TWO32 ==> PackedOffset(e.value.slot) == rowSize)
  {
  }

  /** Only numerics and unsupported types are ever rejected. */
  lemma EncodeErrors(attr: Datum, attrdef: AttrDef, backend: Backend, rowSize: nat, slot: u64)
    requires Fits(attr, attrdef.typid)
    ensures !Supported(attrdef.typid) ==>
      && EncodeColumn(attr, attrdef, backend, rowSize, slot) == Error(UnsupportedType(attrdef.typid))
      && EncodeColumn(attr, attrdef, backend, rowSize, slot).report.Code() == InvalidParameterValue
    ensures EncodeColumn(attr, attrdef, backend, rowSize, slot).Error? ==>
      attrdef.typid == NUMERICOID || !Supported(attrdef.typid)
  {
  }

  /**
   * NaN is rejected at any precision, a numeric without typmod is rejected,
   * and precisions above 38 are out of range.
   */
  lemma NumericRejections(isNaN: bool, intStr: string, typmod: int, backend: Backend, rowSize: nat)
    ensures isNaN ==> EncodeNumeric(isNaN, intStr, typmod, backend, rowSize) == Error(NumericNaN)
    ensures !isNaN && typmod < 0 ==>
      EncodeNumeric(isNaN, intStr, typmod, backend, rowSize) == Error(NumericWithoutTypmod)
    ensures !isNaN && typmod >= 0 && backend.numericPrecision(typmod) > 38 ==>
      EncodeNumeric(isNaN, intStr, typmod, backend, rowSize)
      == Error(PrecisionOutOfRange(backend.numericPrecision(typmod)))
    ensures !isNaN && typmod >= 0 && 18 < backend.numericPrecision(typmod) <= 38 && !backend.hasInt128 ==>
      EncodeNumeric(isNaN, intStr, typmod, backend, rowSize) == Error(NoInt128Support)
    // NaN, a missing typmod and int128 are unsupported features; the precision is out of range
    ensures EncodeNumeric(isNaN, intStr, typmod, backend, rowSize).Error? ==>
      var c := EncodeNumeric(isNaN, intStr, typmod, backend, rowSize).report.Code();
      && (isNaN || typmod < 0 ==> c == FeatureNotSupported)
      && (!isNaN && typmod >= 0 && backend.numericPrecision(typmod) > 38 ==> c == NumericValueOutOfRange)
  {
  }

  /**
   * Precision 18 or less: the text is parsed as int64 and stored inline;
   * text that strtoll does not consume whole is rejected.
   */
  lemma NumericInt64Path(intStr: string, typmod: int, backend: Backend, rowSize: nat)
    requires typmod >= 0 && backend.numericPrecision(typmod) <= 18
    ensures var e := EncodeNumeric(false, intStr, typmod, backend, rowSize);
      && (e.Ok? <==> Strtoll(intStr).end == |intStr|)
      && (e.Error? ==> e.report == InvalidInt64(intStr) && e.report.Code() == InvalidTextRepresentation)
      && (e.Ok? ==> e.value.Inline? && Int64At(e.value.slot) == Strtoll(intStr).value)
  {
  }

  /**
   * Precision 19 to 38 with int128 support: the text is parsed by strtoi128;
   * 16 bytes go to the variable region and the slot says so.
   */
  lemma NumericInt128Path(intStr: string, typmod: int, backend: Backend, rowSize: nat)
    requires typmod >= 0 && 18 < backend.numericPrecision(typmod) <= 38 && backend.hasInt128
    ensures var e := EncodeNumeric(false, intStr, typmod, backend, rowSize);
      && (e.Ok? <==> ParseInt128(intStr).Ok?)
      && (e.Error? ==> e.report == InvalidInt128(intStr) && e.report.Code() == InvalidParameterValue)
      && (e.Ok? ==> e.value.OutOfLine? && |e.value.data| == 16 && PackedLength(e.value.slot) == 16
                    && (rowSize < TWO32 ==> PackedOffset(e.value.slot) == rowSize))
  {
  }

  /** On the int128 path, with at most 38 digits, the 16 bytes decode back to the parsed value. */
  lemma NumericInt128Decodes(intStr: string, typmod: int, backend: Backend, rowSize: nat)
    requires typmod >= 0 && 18 < backend.numericPrecision(typmod) <= 38 && backend.hasInt128
    ensures var e := EncodeNumeric(false, intStr, typmod, backend, rowSize);
      e.Ok? && |intStr| - SignLength(intStr) <= 38 ==>
        Int128FromBytes(e.value.data) == ParseInt128(intStr).value
  {
    var e := EncodeNumeric(false, intStr, typmod, backend, rowSize);
    if e.Ok? && |intStr| - SignLength(intStr) <= 38 {
      Int128NoOverflow(intStr);
      Int128BytesRoundTrip(ParseInt128(intStr).value);
    }
  }
}
