/**
 * The error reports raised by the row encoder and the comment scanner.
 *
 * Each `ereport(ERROR, ...)` of the C code aborts the current operation; here
 * it becomes an `Error` value that names which report was raised. `Code()`
 * gives the SQLSTATE class the C code attaches to it.
 */
module PgErrors {

  /** The SQLSTATE codes the core uses. */
  datatype SqlState =
    | FeatureNotSupported
    | InvalidTextRepresentation
    | NumericValueOutOfRange
    | InvalidParameterValue

  /** One value per `ereport(ERROR, ...)` site. */
  datatype Report =
    | NumericNaN                      // "unsaferow does not supoort NaN for numeric"
    | NumericWithoutTypmod            // "... numeric type without percision/scale"
    | InvalidInt64(text: string)      // "invalid int64 value:%s"
    | NoInt128Support                 // "do not support int128 for numeric"
    | PrecisionOutOfRange(precision: int)
    | UnsupportedType(typid: int)     // "unsupported col type(%d) for unsaferow"
    | InvalidInt128(text: string)     // "invalid int128 value:%s"
    | UnknownCommentParameter         // "unknown parameter in sql comment"
  {
    function Code(): (c: SqlState)
      // the reports about what the encoder cannot represent
      ensures c == FeatureNotSupported <==> (NumericNaN? || NumericWithoutTypmod? || NoInt128Support?)
      // only text strtoll rejects is an invalid text representation
      ensures c == InvalidTextRepresentation <==> InvalidInt64?
      ensures c == NumericValueOutOfRange <==> PrecisionOutOfRange?
    {
      match this
      case NumericNaN => FeatureNotSupported
      case NumericWithoutTypmod => FeatureNotSupported
      case InvalidInt64(_) => InvalidTextRepresentation
      case NoInt128Support => FeatureNotSupported
      case PrecisionOutOfRange(_) => NumericValueOutOfRange
      case UnsupportedType(_) => InvalidParameterValue
      case InvalidInt128(_) => InvalidParameterValue
      case UnknownCommentParameter => InvalidParameterValue
    }
  }

  /** The outcome of an operation that may raise an error report. */
  datatype Result<T> = Ok(value: T) | Error(report: Report)

  datatype Option<T> = None | Some(value: T)
}
