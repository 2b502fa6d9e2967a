/**
 * The text extractor as the source runs it: one pass over the pages and their
 * operations that appends to an output string and keeps the last vertical
 * position in a local variable. Each method is proved to compute the
 * corresponding function of the reconstruction model.
 */
module Extract {
  import opened Wrappers
  import opened Content
  import opened Reconstruction

  /** Builds the text of a TJ array item by item into a fresh buffer. */
  method CollectAdjusted(items: seq<AdjustedItem>, decode: Decoder) returns (text: string)
    ensures text == AdjustedText(items, decode)
  {
    text := "";
    for i := 0 to |items|
      invariant text == AdjustedText(items[..i], decode)
    {
      assert items[..i + 1][..i] == items[..i];
      match items[i]
      case Text(t) => text := text + decode(t);
      case Spacing(_) =>
    }
    assert items[..|items|] == items;
  }

  /** The text of a document: every operation of every page, in order, through one state. */
  method PdfToString(doc: seq<seq<Op>>, decode: Decoder) returns (out: string)
    ensures out == Reconstruct(doc, decode)
  {
    out := "";
    var lastY: Option<real> := None;
    for p := 0 to |doc|
      invariant State(out, lastY) == RunPages(Init, doc[..p], decode)
    {
      var page := doc[p];
      ghost var start := RunPages(Init, doc[..p], decode);
      for k := 0 to |page|
        invariant State(out, lastY) == RunOps(start, page[..k], decode)
      {
        assert page[..k + 1][..k] == page[..k];
        match page[k]
        case TextDraw(text) =>
          out := out + decode(text);
        case TextNewline =>
          out := out + "\n";
        case TextDrawAdjusted(items) =>
          var text := CollectAdjusted(items, decode);
          out := out + text;
        case SetTextMatrix(matrix) =>
          var y := matrix.d + matrix.f;
          if lastY.None? || lastY.value != y {
            if lastY.Some? {
              out := out + "\n";
            }
            lastY := Some(y);
          }
        case Other =>
      }
      assert page[..|page|] == page;
      assert doc[..p + 1][..p] == doc[..p];
    }
    assert doc[..|doc|] == doc;
  }
}
