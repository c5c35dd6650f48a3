# UnsafeRow builder and leading SQL comment, modelled in Dafny

This project models the part of the database extension that turns one row of
a PostgreSQL query result into an *UnsafeRow*. An UnsafeRow is a compact
binary row made of three areas:

- a null bitmap with one bit per column, in 64-bit words;
- a fixed area with one 8-byte slot per column;
- a growable variable-length region, where each value is padded to 8 bytes.

Fixed-width values (int2, int4, int8, float4, float8, date, timestamptz, and
numerics up to precision 18) are stored in their slot. bytea, text and
numerics of precision 19 to 38 go to the variable region, and their slot
holds the packed reference `offset << 32 | length`.

The project also models the scanner of the leading query comment
`/*ur,idx,*/`, which decides whether the UnsafeRow format is used.

Modules:

- `PgErrors` — the `ereport(ERROR, …)` sites as values of `Report`, with
  their SQLSTATE, plus the `Result` and `Option` wrappers. An error report
  aborts the C operation; in the model it is returned as an `Error`.
- `UnsafeRowLayout` — the layout arithmetic of `unsaferow.h`.
- `DecimalParse` — `strtoll` (reduced to a sign and digits) and the file's
  own `strtoi128`. A specification function is proved against the loop.
- `UnsafeRowCodec` — the per-type encoding of one value. This covers:
  - inline stores into a slot, as a little-endian machine does them;
  - packed references;
  - the date and timestamp adjustments;
  - the 16 bytes of an int128;
  - `EncodeColumn`, the specification of the type switch.
- `UnsafeRow` — class `UnsafeRowBuilder`. Its fields are the C struct's, and
  its arrays are the `bmp`, `fixed_data` and `var_data` buffers. The methods
  `Init`, `AppendNull`, `AppendVarData` and `Append` update them in place.
  `CafeRow` builds a three-column row step by step.
- `SqlCommentScan` — `ParseSqlComment` as a method with its two loops. It is
  proved equal to `ParseSqlCommentSpec`, a definition based on tokens.

Three behaviours of the code look unintended; the model follows the code in
each:

- `AppendNull` sets the bit of the column at the cursor but does not advance
  the cursor. The next `Append` therefore writes into the slot of the column
  that was just marked null. In `CafeRow`, the text lands in slot 1 and
  slot 2 stays zero.
- The offset in a packed reference is `UnsafeRowSize` at the time of the
  append. That is the size of the whole row, bitmap and fixed area included,
  not an offset inside the variable region. The offsets in `CafeRow` start
  at 32.
- The timestamptz adjustment subtracts an epoch from itself, so it is zero.
  `TimestampAdjust` is the identity.

## Model

| member | source | states |
|---|---|---|
| UnsafeRowLayout.BmpSize | src/include/access/unsaferow.h:24-27 | the bitmap is a whole number of 64-bit words, holds a bit for every column, and is never a word larger than needed |
| UnsafeRowLayout.BmpWords | src/include/access/unsaferow.h:24-27 | the bitmap's word count is its byte size divided by 8 |
| UnsafeRowLayout.BitmapWordInRange | src/backend/access/common/unsaferow.c:27-30 | for every column below the column count, the word `idx >> 6` that AppendNull reads lies inside the bitmap |
| UnsafeRowLayout.VarRegionStart | src/include/access/unsaferow.h:40-43 | the variable region starts 8-aligned, and what precedes it beyond the 8-byte slots is exactly the bitmap |
| DecimalParse.ParseInt128 | src/backend/access/common/unsaferow.c:175-196 | strtoi128 succeeds exactly when every character after one optional sign is a digit; an error names the input text |
| DecimalParse.StrToI128 | src/backend/access/common/unsaferow.c:175-196 | the digit loop returns exactly ParseInt128: the signed value of the digits, or the invalid-int128 report at the first non-digit |
| DecimalParse.DecimalValueBound | src/backend/access/common/unsaferow.c:184-192 | n accumulated digits never exceed 10^n - 1 |
| DecimalParse.DecimalRoundTrip | src/backend/access/common/unsaferow.c:190 | accumulating the decimal digits of n gives back n |
| DecimalParse.Int128NoOverflow | src/backend/access/common/unsaferow.c:184-194 | with at most 38 digits, every intermediate value of the accumulator and the result stay inside the int128 range |
| DecimalParse.ParseInt128RoundTrip | src/backend/access/common/unsaferow.c:175-196 | the decimal text of any integer, with a leading '-' for negatives, parses back to that integer |
| DecimalParse.DigitRun | src/backend/access/common/unsaferow.c:123 | the run of digits strtoll consumes is maximal: it ends at the string's end or at a non-digit |
| DecimalParse.Clamp64 | src/backend/access/common/unsaferow.c:123 | an out-of-range strtoll result saturates to the int64 bounds; an in-range one is unchanged |
| DecimalParse.Strtoll | src/backend/access/common/unsaferow.c:123-127 | the value lies in int64, and the end pointer reaches the end exactly when the text is empty or a sign followed by digits only |
| DecimalParse.StrtollAgreesWithInt128 | src/backend/access/common/unsaferow.c:119-138 | for text of at most 18 digits, strtoll consumes everything and agrees with strtoi128 |
| UnsafeRowCodec.Store16 | src/backend/access/common/unsaferow.c:65-66 | the slot reads back the int16, and its upper six bytes are kept |
| UnsafeRowCodec.Store32 | src/backend/access/common/unsaferow.c:67-68 | the slot reads back the int32, and its upper four bytes are kept |
| UnsafeRowCodec.Store64 | src/backend/access/common/unsaferow.c:69-70 | the slot reads back the int64 as its two's-complement pattern |
| UnsafeRowCodec.StoreBits32 | src/backend/access/common/unsaferow.c:71-72 | the slot reads back the float4 bit pattern, and its upper four bytes are kept |
| UnsafeRowCodec.StoresZeroExtend | src/backend/access/common/unsaferow.c:65-72 | a narrow value written into a zeroed slot is zero-extended, not sign-extended |
| UnsafeRowCodec.Pack | src/backend/access/common/unsaferow.c:82 | the packed reference's low word is the length, and its high word is the offset modulo 2^32 |
| UnsafeRowCodec.Wrap32 | src/backend/access/common/unsaferow.c:155 | int32 arithmetic wraps modulo 2^32 and leaves in-range values unchanged |
| UnsafeRowCodec.Wrap64 | src/backend/access/common/unsaferow.c:161 | int64 arithmetic wraps modulo 2^64 and leaves in-range values unchanged |
| UnsafeRowCodec.DateToUnixDays | src/backend/access/common/unsaferow.c:152-157 | a date moves by 10957 days, from the 2000-01-01 epoch to 1970-01-01, and wraps past the int32 maximum |
| UnsafeRowCodec.TimestampAdjust | src/backend/access/common/unsaferow.c:158-163 | the timestamptz adjustment is zero: the value is stored unchanged |
| UnsafeRowCodec.LittleEndian | src/backend/access/common/unsaferow.c:135-137 | n little-endian bytes of a value are n bytes long |
| UnsafeRowCodec.FromLittleEndian | src/backend/access/common/unsaferow.c:135-137 | n bytes decode to less than 256^n |
| UnsafeRowCodec.LittleEndianRoundTrip | src/backend/access/common/unsaferow.c:135-137 | decoding the n little-endian bytes of v gives back v when v < 256^n |
| UnsafeRowCodec.Int128Bytes | src/backend/access/common/unsaferow.c:135-137 | an int128 contributes exactly 16 bytes |
| UnsafeRowCodec.Int128BytesRoundTrip | src/backend/access/common/unsaferow.c:133-138 | the 16 bytes of any int128 decode back to the same signed value |
| UnsafeRowCodec.StrLen | src/backend/access/common/unsaferow.c:93 | strlen is the index of the first NUL, or the buffer length when there is none |
| UnsafeRowCodec.TextBytes | src/backend/access/common/unsaferow.c:86-100 | without conversion the payload is stored as is; after a conversion, the converted buffer is stored up to its first NUL |
| PgErrors.Report.Code | src/backend/access/common/unsaferow.c:109-168 | the SQLSTATE passed to errcode: feature-not-supported exactly for NaN, a missing typmod and missing int128 support; invalid text representation exactly for rejected int64 text; numeric-value-out-of-range exactly for an excess precision |
| UnsafeRowCodec.EncodeNumeric | src/backend/access/common/unsaferow.c:103-150 | a numeric goes out of line only as the 16 bytes of an int128, with a reference of length 16 and only when int128 is available; an invalid-int64 report carries the text, which strtoll did not consume whole |
| UnsafeRowCodec.EncodeColumn | src/backend/access/common/unsaferow.c:65-169 | an out-of-line value's slot records its unpadded length, and only numerics and unsupported types are rejected |
| UnsafeRowCodec.EncodeInlineReadBack | src/backend/access/common/unsaferow.c:65-163 | every fixed-width type is stored inline and reads back: integers and float bits unchanged, dates moved to the Unix epoch, timestamptz unchanged |
| UnsafeRowCodec.EncodeVarlenaReference | src/backend/access/common/unsaferow.c:75-102 | bytea and text go to the variable region; the slot holds the unpadded length and, for rows under 4 GiB, the row size before the append |
| UnsafeRowCodec.EncodeErrors | src/backend/access/common/unsaferow.c:164-169 | an unsupported type is rejected with its OID and the invalid-parameter SQLSTATE, and only numerics and unsupported types are ever rejected |
| UnsafeRowCodec.NumericRejections | src/backend/access/common/unsaferow.c:103-150 | NaN, a missing typmod, a precision above 38, and precisions 19 to 38 without int128 support each raise their own report, in that order; the first two are unsupported features and the third is out of range |
| UnsafeRowCodec.NumericInt64Path | src/backend/access/common/unsaferow.c:119-129 | up to precision 18, a numeric is accepted exactly when strtoll consumes its text, the slot then holds the parsed int64, and a rejection is an invalid text representation |
| UnsafeRowCodec.NumericInt128Path | src/backend/access/common/unsaferow.c:130-138 | for precision 19 to 38, a numeric is accepted exactly when strtoi128 is, and a rejection is an invalid parameter value; 16 bytes are appended and the reference says 16 |
| UnsafeRowCodec.NumericInt128Decodes | src/backend/access/common/unsaferow.c:133-138 | on the int128 path, with at most 38 digits, the 16 appended bytes decode back to the parsed value |
| UnsafeRow.BitIndex | src/backend/access/common/unsaferow.c:29 | `idx & 0x3F` is the column index modulo 64 |
| UnsafeRow.WordKeepsOtherBits | src/backend/access/common/unsaferow.c:29-34 | or-ing in a column's mask leaves the bit of every other column of that word unchanged |
| UnsafeRow.SetNullBitKeeps | src/backend/access/common/unsaferow.c:28-35 | setting one column's bit leaves every other column's null flag as it was, in any word |
| UnsafeRow.SetNullBit | src/backend/access/common/unsaferow.c:27-35 | after marking column i null, column i reads as null, and every other column's null flag is unchanged |
| UnsafeRow.PaddedLen | src/backend/access/common/unsaferow.c:40 | the padded size is a multiple of 8, at least the size, and less than the size plus 8 |
| UnsafeRow.Padded | src/backend/access/common/unsaferow.c:47-51 | the appended bytes are the data followed by zeros up to the padded size |
| UnsafeRow.UnsafeRowBuilder.Valid | src/include/access/unsaferow.h:8-18 | the builder invariant: used length within capacity and 8-aligned, cursor within the columns, areas sized by the column count, slots at or past the cursor zero; it implies the used region lies inside its buffer and the cursor inside the slots |
| UnsafeRow.UnsafeRowBuilder.BmpSize2 | src/include/access/unsaferow.h:28-31 | the builder's bitmap size is word-aligned and covers every column |
| UnsafeRow.UnsafeRowBuilder.FixedDataSize | src/include/access/unsaferow.h:32-35 | the fixed area is one 8-byte slot per column |
| UnsafeRow.UnsafeRowBuilder.VarDataSize | src/include/access/unsaferow.h:36-39 | the used variable region is 8-aligned and within the allocated capacity |
| UnsafeRow.UnsafeRowBuilder.Size | src/include/access/unsaferow.h:40-43 | the row size is the variable region's start plus its used length, and is 8-aligned |
| UnsafeRow.UnsafeRowBuilder.Init | src/backend/access/common/unsaferow.c:13-23 | a fresh builder has a zeroed bitmap of BmpSize bytes, colcnt zeroed slots, an empty variable region and cursor 0 |
| UnsafeRow.UnsafeRowBuilder.AppendNull | src/backend/access/common/unsaferow.c:25-36 | the bitmap becomes SetNullBit of the old bitmap at the cursor; the cursor, slots and variable region are unchanged |
| UnsafeRow.UnsafeRowBuilder.Grow | src/backend/access/common/unsaferow.c:41-46 | the variable region is reallocated to exactly the requested capacity, keeping its used bytes |
| UnsafeRow.UnsafeRowBuilder.Realloc | src/backend/access/common/unsaferow.c:44 | the reallocated buffer is fresh, has the new length, and keeps the old leading bytes |
| UnsafeRow.UnsafeRowBuilder.CopyBytes | src/backend/access/common/unsaferow.c:47 | memcpy places the bytes at the position and keeps the bytes before it |
| UnsafeRow.UnsafeRowBuilder.ZeroFill | src/backend/access/common/unsaferow.c:50-51 | the padding loop writes zero bytes and keeps the bytes before them |
| UnsafeRow.UnsafeRowBuilder.WritePadded | src/backend/access/common/unsaferow.c:47-51 | the copy and the padding together write Padded(data) after the kept prefix |
| UnsafeRow.UnsafeRowBuilder.AppendVarData | src/backend/access/common/unsaferow.c:38-52 | the used region becomes the old bytes followed by Padded(data); capacity grows to exactly the needed size only when short; nothing else changes |
| UnsafeRow.UnsafeRowBuilder.Append | src/backend/access/common/unsaferow.c:58-172 | on an error nothing changes; otherwise the slot at the cursor becomes EncodeColumn's word, out-of-line bytes are appended padded, the cursor advances by one, and the builder invariant holds |
| UnsafeRow.UnsafeRowBuilder.EncodeSlot | src/backend/access/common/unsaferow.c:65-169 | the type switch yields EncodeColumn's slot word or its error, and appends exactly the out-of-line bytes |
| UnsafeRow.UnsafeRowBuilder.AppendNumeric | src/backend/access/common/unsaferow.c:103-151 | the numeric branch yields EncodeNumeric's slot word or its error, and appends the 16 int128 bytes only on the int128 path |
| UnsafeRow.IntThenNull | src/backend/access/common/unsaferow.c:25-36 | after int4 42 and a null in a 3-column row, the bitmap is [2], the slots are [42, 0, 0] and the cursor is 1 |
| UnsafeRow.CafeRow | src/backend/access/common/unsaferow.c:58-172 | int4 42, a null, then text "café": bitmap [2], slots [42, (32, 5), 0], var bytes "café" plus three zeros, cursor 2 |
| SqlCommentScan.FindClose | src/include/utils/sqlcomment.h:22-27 | the position found is the first `*/` from the start position, or the end when there is none |
| SqlCommentScan.IndexOf | src/include/utils/sqlcomment.h:31-37 | the position found is the first comma, or the end when there is none |
| SqlCommentScan.ApplyTokens | src/include/utils/sqlcomment.h:39-48 | applying tokens in order can only raise the unknown-parameter report, and never switches a flag off |
| SqlCommentScan.ParseSqlCommentSpec | src/include/utils/sqlcomment.h:14-51 | the token-based definition of the scanner: a query without the opener gets no options, and the only error is the unknown-parameter report with the invalid-parameter SQLSTATE |
| SqlCommentScan.FirstClose | src/include/utils/sqlcomment.h:22-27 | a position with no `*/` before it, and a `*/` at it or at the end, is FindClose's |
| SqlCommentScan.ScanToClose | src/include/utils/sqlcomment.h:22-27 | the first loop stops exactly at FindClose from position 2 |
| SqlCommentScan.MatchesAtIsPrefix | src/include/utils/sqlcomment.h:39-41 | strncmp on a comma-terminated token is a prefix test on the token |
| SqlCommentScan.MatchStepIsStep | src/include/utils/sqlcomment.h:39-46 | the strncmp chain decides a comma-terminated token exactly as Step does |
| SqlCommentScan.NoCommaNoTokens | src/include/utils/sqlcomment.h:31-37 | a stretch without a comma holds no token |
| SqlCommentScan.TokensAtComma | src/include/utils/sqlcomment.h:31-48 | a comma ends the current token, and the rest of the stretch is tokenised after it |
| SqlCommentScan.ApplyFirstToken | src/include/utils/sqlcomment.h:39-48 | applying a token list applies its first token, then stops on an error or goes on with the rest |
| SqlCommentScan.ScanFromAppliesTokens | src/include/utils/sqlcomment.h:30-49 | the character loop from any state applies exactly the comma-terminated tokens of the rest, in order |
| SqlCommentScan.ScanAtComma | src/include/utils/sqlcomment.h:33-48 | at a comma, the loop applies the finished token and continues with the rest of the stretch |
| SqlCommentScan.ScanTokens | src/include/utils/sqlcomment.h:30-50 | the second loop returns ApplyTokens of the tokens between the opener and the close |
| SqlCommentScan.ParseSqlComment | src/include/utils/sqlcomment.h:14-51 | the scanner returns exactly ParseSqlCommentSpec: no options without an opener or a close, otherwise the tokens applied in order |
| SqlCommentScan.ApplyTokensMeaning | src/include/utils/sqlcomment.h:39-46 | the scan succeeds exactly when every token starts with "ur" or "idx"; otherwise it reports an unknown parameter; a flag ends up on exactly when it was on or some token asks for it |
| SqlCommentScan.TokenOrderIrrelevant | src/include/utils/sqlcomment.h:30-49 | two token lists with the same members give the same outcome |
| SqlCommentScan.UnterminatedTailIgnored | src/include/utils/sqlcomment.h:31-49 | text after the last comma forms no token, whatever it is |
| SqlCommentScan.TailWithoutComma | src/include/utils/sqlcomment.h:31-37 | a comma-free body followed by a comma-free tail holds no token |
| SqlCommentScan.CommaInBody | src/include/utils/sqlcomment.h:31-48 | the first comma of a body is still the first comma once a tail is appended |
| SqlCommentScan.NoCommentNoOptions | src/include/utils/sqlcomment.h:20-29 | a query without the `/*` opener, or with no `*/` after it, gets no options |
| SqlCommentScan.CloseAfterBody | src/include/utils/sqlcomment.h:22-27 | in `/*` body `*/` rest, with no `*/` in the body, the comment closes right after the body |
| SqlCommentScan.CommentBody | src/include/utils/sqlcomment.h:14-51 | for `/*` body `*/` rest, the result is the body's tokens applied in order, and the rest of the query is not read |
| SqlCommentScan.CommentOptions | src/include/utils/sqlcomment.h:14-51 | for `/*` body `*/` rest: Ok exactly when every body token is recognised, with each flag on exactly when some token asks for it |
| SqlCommentScan.TokensCons | src/include/utils/sqlcomment.h:31-48 | a comma-free token followed by a comma is the first token of the text |
| SqlCommentScan.ExampleUnterminatedToken | src/include/utils/sqlcomment.h:30-49 | `/*ur*/` asks for nothing, since a token without a trailing comma is ignored |
| SqlCommentScan.ExampleUnsafeRow | src/include/utils/sqlcomment.h:14-51 | `/*ur,*/select 1` switches on only the UnsafeRow format |
| SqlCommentScan.ExampleEmptyToken | src/include/utils/sqlcomment.h:39-46 | `/*,*/` is rejected: the empty token matches neither option |

## Left out

- The column values come as typed `Datum` values, which are what the `DatumGet*` accessors deliver. Detoasting, `numeric_is_nan` and `numeric_as_intstr` are not part of this model.
- `pg_server_to_client` and `parse_numeric_typmod` are foreign calls. They become functions in the `Backend` parameter.
- `TextBytes`: `Backend.serverToClient` cannot fail, but `pg_server_to_client` (unsaferow.c:90) raises an error when the text cannot be converted to the client encoding. That error exit is not modelled.
- Whether the build defines `PG_INT128_TYPE` is `Backend.hasInt128`.
- float4 and float8 values are opaque bit patterns. No floating-point arithmetic happens in the core.
- Memory management is not modelled:
  - `palloc0` cannot fail;
  - `pfree` of the converted text is left out;
  - `var_data` starts as an empty array rather than NULL.
- Native byte order is modelled as little-endian, both for the inline stores and for the int128 bytes.
- Byte strings are at most `MaxAllocSize` (2^30 - 1) bytes, as palloc guarantees, so a length never overflows into the offset half of a packed reference.
- The column count is a `nat`. A negative `colcnt` and `int` overflow in `colcnt * 8` are not modelled.
- The `Assert(next_append_idx < col_cnt)` checks become preconditions of `AppendNull` and `Append`.
- `Strtoll` models `strtoll` reduced to an optional sign followed by digits. It does not skip leading whitespace, so `Strtoll(" 12")` consumes nothing and the numeric is rejected, where C's `strtoll` accepts it. The model's `intStr` is otherwise unconstrained. `errno` is not modelled; the code does not read it.
- `StrToI128` computes the exact value. From 39 digits on, the C accumulator can overflow (any value above 2^127 - 1), which is undefined behaviour. The model's stored bytes are then the value modulo 2^128, and the round trip is proved only up to 38 digits.
- `ParseSqlComment`: the `int` positions of the scanner are unbounded, so a query longer than 2^31 characters is not modelled.
- The choice of target execution nodes from the comment, and everything that consumes a finished row, are outside the core and are not part of this model.
