/**
 * The content operations that the text extractor consumes: the text-showing
 * operators Tj and TJ (section 9.4.3 of ISO 32000-1) and the text-positioning
 * operators Tm and T* (section 9.4.2 of ISO 32000-1). Every other operator of a
 * content stream is collapsed into `Other`, which the extractor ignores.
 */
module Content {

  /** One byte of a PDF string object. */
  newtype Byte = b: int | 0 <= b < 256

  type Bytes = seq<Byte>

  /**
   * The text matrix [a b c d e f] set by Tm. The source holds each entry in a
   * 32-bit float; here they are exact reals.
   */
  datatype Matrix = Matrix(a: real, b: real, c: real, d: real, e: real, f: real)

  /** One element of the array operand of TJ: a string, or a number that only adjusts spacing. */
  datatype AdjustedItem = Text(bytes: Bytes) | Spacing(amount: real)

  datatype Op =
    | TextDraw(text: Bytes)                        // Tj
    | TextDrawAdjusted(items: seq<AdjustedItem>)   // TJ
    | TextNewline                                  // T*
    | SetTextMatrix(matrix: Matrix)                // Tm
    | Other                                        // any other operator

  /**
   * Lossy conversion of string bytes to text. It never fails; the caller
   * supplies it, standing for the library routine the source calls.
   */
  type Decoder = Bytes -> string

  /** The value the extractor compares to detect a new line: the sum d + f. */
  function VerticalOf(m: Matrix): real
  {
    m.d + m.f
  }
}
