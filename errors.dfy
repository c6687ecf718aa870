/** Result types shared by the byte cursor and the record data layer. */
module Errors {

  /** The conventional optional value: `None` is a concrete type declining a record type. */
  datatype Option<+T> = None | Some(value: T)

  /** Why parsing failed: a cursor underrun, or an error of a concrete record
      data type, which this core only carries through. */
  datatype ParseError = UnexpectedEnd | RecordError(code: int)

  datatype ParseResult<+T> = Ok(value: T) | Err(error: ParseError)
}
