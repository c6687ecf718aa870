/** The generic text form of record data, `\# <length> <hex words>`, as the
    zone-file scanner delivers it: already split into the answers of the
    scanner's primitives. How the scanner reads text is not modelled. */
module Master {
  import opened Errors
  import opened Bytes

  /** A failure the scanner itself reports; opaque to this core and passed on unchanged. */
  datatype StreamError = StreamError(code: int)

  /** The answer of one scanner primitive. */
  datatype Scan<+T> = Got(value: T) | Failed(error: StreamError)

  /** One hex word: the bytes decoded from it, in order, each handed to the
      caller's callback, and possibly a fault that ends the word after them. */
  datatype HexWord = HexWord(bytes: seq<Byte>, fault: Option<StreamError>)

  /** The scanner's answers for skipping the `\#` literal and for reading
      the decimal length, the hex words that follow, and the failure it
      reports when asked for a word after the last one. */
  datatype GenericText = GenericText(literal: Scan<()>, length: Scan<U16>, words: seq<HexWord>, end: StreamError)

  datatype SyntaxError = LongGenericData | Stream(error: StreamError)

  datatype Outcome = Pass | Fail(error: SyntaxError)
}
