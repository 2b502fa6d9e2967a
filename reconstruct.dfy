/**
 * The text-reconstruction pass of `pdf_to_string` as a state machine: a
 * state (the output so far and the last vertical position), one step per
 * content operation, and folds of that step over a page and over a document.
 */
module Reconstruction {
  import opened Wrappers
  import opened Content

  datatype State = State(out: string, lastY: Option<real>)

  /** The state before the first page: empty output, no vertical position seen. */
  const Init: State := State("", None)

  /**
   * The text a TJ array contributes: every `Text` item decoded on its own and
   * appended in order; `Spacing` items contribute nothing.
   */
  function AdjustedText(items: seq<AdjustedItem>, decode: Decoder): string
  {
    if items == [] then ""
    else
      var last := items[|items| - 1];
      AdjustedText(items[..|items| - 1], decode) + (if last.Text? then decode(last.bytes) else "")
  }

  /** The effect of one content operation on the state. */
  function Step(s: State, op: Op, decode: Decoder): (r: State)
    ensures s.out <= r.out
    ensures s.lastY.Some? ==> r.lastY.Some?
    ensures r.lastY == s.lastY || (op.SetTextMatrix? && r.lastY == Some(VerticalOf(op.matrix)))
  {
    match op
    case TextDraw(text) => State(s.out + decode(text), s.lastY)
    case TextNewline => State(s.out + "\n", s.lastY)
    case TextDrawAdjusted(items) => State(s.out + AdjustedText(items, decode), s.lastY)
    case SetTextMatrix(m) =>
      var y := VerticalOf(m);
      if s.lastY.None? || s.lastY.value != y then
        State(if s.lastY.Some? then s.out + "\n" else s.out, Some(y))
      else
        s
    case Other => s
  }

  /** The state after the operations of `ops`, in order, starting from `s`. */
  function RunOps(s: State, ops: seq<Op>, decode: Decoder): State
  {
    if ops == [] then s
    else Step(RunOps(s, ops[..|ops| - 1], decode), ops[|ops| - 1], decode)
  }

  /** The state after every page of `pages`, in order; nothing happens between pages. */
  function RunPages(s: State, pages: seq<seq<Op>>, decode: Decoder): State
  {
    if pages == [] then s
    else RunOps(RunPages(s, pages[..|pages| - 1], decode), pages[|pages| - 1], decode)
  }

  /** The text of a whole document. */
  function Reconstruct(doc: seq<seq<Op>>, decode: Decoder): string
  {
    RunPages(Init, doc, decode).out
  }
}
