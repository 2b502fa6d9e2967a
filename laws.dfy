/**
 * What the reconstruction pass promises: the effect of each operation kind,
 * the text of a TJ array, and the behaviour of the whole pass over a document.
 */
module ReconstructLaws {
  import opened Wrappers
  import opened Content
  import opened Reconstruction

  // ---------------------------------------------------------------------------
  // Reference definitions, written independently of the step function
  // ---------------------------------------------------------------------------

  /** The byte strings of the `Text` items of a TJ array, in order. */
  function TextRuns(items: seq<AdjustedItem>): seq<Bytes>
  {
    if items == [] then []
    else (if items[0].Text? then [items[0].bytes] else []) + TextRuns(items[1..])
  }

  /** Each byte string decoded on its own, the results concatenated in order. */
  function DecodeRuns(runs: seq<Bytes>, decode: Decoder): string
  {
    if runs == [] then "" else decode(runs[0]) + DecodeRuns(runs[1..], decode)
  }

  /** The byte strings concatenated in order. */
  function Join(runs: seq<Bytes>): Bytes
  {
    if runs == [] then [] else runs[0] + Join(runs[1..])
  }

  /** The text a drawing operation shows; the empty text for every other operation. */
  function DrawnText(op: Op, decode: Decoder): string
  {
    match op
    case TextDraw(text) => decode(text)
    case TextDrawAdjusted(items) => AdjustedText(items, decode)
    case _ => ""
  }

  /** The texts shown by `ops`, concatenated in order. */
  function AllDrawn(ops: seq<Op>, decode: Decoder): string
  {
    if ops == [] then "" else DrawnText(ops[0], decode) + AllDrawn(ops[1..], decode)
  }

  /** The operations of all pages, in document order. */
  function Flatten(pages: seq<seq<Op>>): seq<Op>
  {
    if pages == [] then [] else Flatten(pages[..|pages| - 1]) + pages[|pages| - 1]
  }

  /** The vertical positions of the Tm operations of `ops`, in order. */
  function Verticals(ops: seq<Op>): seq<real>
  {
    if ops == [] then []
    else
      var op := ops[|ops| - 1];
      Verticals(ops[..|ops| - 1]) + (if op.SetTextMatrix? then [VerticalOf(op.matrix)] else [])
  }

  /** The last of `ys`, or `prev` when `ys` is empty. */
  function LastVertical(prev: Option<real>, ys: seq<real>): Option<real>
  {
    if ys == [] then prev else Some(ys[|ys| - 1])
  }

  /** How many elements of `ys` differ from the element before them (`prev` before the first). */
  function Changes(prev: Option<real>, ys: seq<real>): nat
  {
    if ys == [] then 0
    else
      var before := LastVertical(prev, ys[..|ys| - 1]);
      Changes(prev, ys[..|ys| - 1]) + (if before.Some? && before.value != ys[|ys| - 1] then 1 else 0)
  }

  /** The number of line-break characters in `t`. */
  function CountBreaks(t: string): nat
  {
    if t == [] then 0 else (if t[0] == '\n' then 1 else 0) + CountBreaks(t[1..])
  }

  /** `op` puts no line break into the output by itself. */
  predicate WritesNoBreak(op: Op, decode: Decoder)
  {
    !op.TextNewline? && CountBreaks(DrawnText(op, decode)) == 0
  }

  // ---------------------------------------------------------------------------
  // Helper facts about the reference definitions
  // ---------------------------------------------------------------------------

  lemma {:induction false} TextRunsAppend(a: seq<AdjustedItem>, b: seq<AdjustedItem>)
    ensures TextRuns(a + b) == TextRuns(a) + TextRuns(b)
  {
    if a == [] {
      assert a + b == b;
    } else {
      assert (a + b)[1..] == a[1..] + b;
      TextRunsAppend(a[1..], b);
    }
  }

  lemma {:induction false} DecodeRunsAppend(a: seq<Bytes>, b: seq<Bytes>, decode: Decoder)
    ensures DecodeRuns(a + b, decode) == DecodeRuns(a, decode) + DecodeRuns(b, decode)
  {
    if a == [] {
      assert a + b == b;
    } else {
      assert (a + b)[1..] == a[1..] + b;
      DecodeRunsAppend(a[1..], b, decode);
    }
  }

  lemma {:induction false} AllDrawnAppend(a: seq<Op>, b: seq<Op>, decode: Decoder)
    ensures AllDrawn(a + b, decode) == AllDrawn(a, decode) + AllDrawn(b, decode)
  {
    if a == [] {
      assert a + b == b;
    } else {
      assert (a + b)[1..] == a[1..] + b;
      AllDrawnAppend(a[1..], b, decode);
    }
  }

  lemma {:induction false} CountBreaksAppend(a: string, b: string)
    ensures CountBreaks(a + b) == CountBreaks(a) + CountBreaks(b)
  {
    if a == [] {
      assert a + b == b;
    } else {
      assert (a + b)[1..] == a[1..] + b;
      CountBreaksAppend(a[1..], b);
    }
  }

  // ---------------------------------------------------------------------------
  // The text of a TJ array
  // ---------------------------------------------------------------------------

  /** The TJ text is the decoded text runs, in order, with nothing for the spacings. */
  lemma {:induction false} AdjustedMatchesRuns(items: seq<AdjustedItem>, decode: Decoder)
    ensures AdjustedText(items, decode) == DecodeRuns(TextRuns(items), decode)
  {
    if items != [] {
      var init, last := items[..|items| - 1], items[|items| - 1];
      assert items == init + [last];
      AdjustedMatchesRuns(init, decode);
      TextRunsAppend(init, [last]);
      assert [last][1..] == [];
      DecodeRunsAppend(TextRuns(init), TextRuns([last]), decode);
    }
  }

  /** A TJ array made only of spacings shows no text. */
  lemma {:induction false} AdjustedOnlySpacing(items: seq<AdjustedItem>, decode: Decoder)
    requires forall i :: 0 <= i < |items| ==> items[i].Spacing?
    ensures AdjustedText(items, decode) == ""
  {
    if items != [] {
      AdjustedOnlySpacing(items[..|items| - 1], decode);
    }
  }

  /**
   * Decoding each text run on its own gives the same text as decoding their
   * concatenation whenever the decoder distributes over concatenation; a lossy
   * UTF-8 decoder does not when a multi-byte sequence is split between runs.
   */
  lemma {:induction false} AdjustedAsConcatenation(items: seq<AdjustedItem>, decode: Decoder)
    requires decode([]) == ""
    requires forall a: Bytes, b: Bytes :: decode(a + b) == decode(a) + decode(b)
    ensures AdjustedText(items, decode) == decode(Join(TextRuns(items)))
  {
    AdjustedMatchesRuns(items, decode);
    DecodeRunsIsJoin(TextRuns(items), decode);
  }

  /**
   * Decoding item by item is not decoding the joined bytes: a decoder that
   * behaves as lossy UTF-8 does on the two halves of "é" (0xC3 0xA9) and on the
   * whole sequence turns a TJ that splits the character into two replacement
   * characters, where a Tj of the joined bytes would show "é".
   */
  lemma SplitCharacterDiffers(decode: Decoder)
    requires decode([0xC3]) == "\U{FFFD}" && decode([0xA9]) == "\U{FFFD}"
    requires decode([0xC3, 0xA9]) == "\U{E9}"
    ensures AdjustedText([Text([0xC3]), Text([0xA9])], decode) == "\U{FFFD}\U{FFFD}"
    ensures AdjustedText([Text([0xC3]), Text([0xA9])], decode) != decode(Join(TextRuns([Text([0xC3]), Text([0xA9])])))
  {
    var items := [Text([0xC3]), Text([0xA9])];
    assert items[..1][..0] == [];
    assert items[..1] == [Text([0xC3])];
    var runs: seq<Bytes> := [[0xC3], [0xA9]];
    assert TextRuns(items[1..][1..]) == [];
    assert TextRuns(items[1..]) == [[0xA9]];
    assert TextRuns(items) == runs;
    assert runs[1..][1..] == [];
    assert Join(runs[1..]) == [0xA9];
    assert Join(runs) == [0xC3, 0xA9];
  }

  /** Some decoder makes item-by-item decoding differ from decoding the joined bytes. */
  lemma ItemwiseDecodingCanDiffer()
    ensures exists decode: Decoder :: AdjustedText([Text([0xC3]), Text([0xA9])], decode)
                                      != decode(Join(TextRuns([Text([0xC3]), Text([0xA9])])))
  {
    var lossy: Decoder := (b: Bytes) => if b == [0xC3, 0xA9] then "\U{E9}" else "\U{FFFD}";
    SplitCharacterDiffers(lossy);
  }

  lemma {:induction false} DecodeRunsIsJoin(runs: seq<Bytes>, decode: Decoder)
    requires decode([]) == ""
    requires forall a: Bytes, b: Bytes :: decode(a + b) == decode(a) + decode(b)
    ensures DecodeRuns(runs, decode) == decode(Join(runs))
  {
    if runs != [] {
      DecodeRunsIsJoin(runs[1..], decode);
    }
  }

  /** The array ["AB", -50, "CD"] shows the two strings back to back. */
  lemma SpacingTransparent(ab: Bytes, cd: Bytes, adjustment: real, decode: Decoder)
    ensures AdjustedText([Text(ab), Spacing(adjustment), Text(cd)], decode) == decode(ab) + decode(cd)
  {
    var items := [Text(ab), Spacing(adjustment), Text(cd)];
    var first, firstTwo := [Text(ab)], [Text(ab), Spacing(adjustment)];
    assert first[..0] == [];
    assert AdjustedText(first, decode) == decode(ab);
    assert firstTwo[..1] == first;
    assert AdjustedText(firstTwo, decode) == decode(ab);
    assert items[..2] == firstTwo;
  }

  // ---------------------------------------------------------------------------
  // One operation
  // ---------------------------------------------------------------------------

  /** Tj appends its decoded bytes with no separator and keeps the vertical position. */
  lemma StepTextDraw(s: State, text: Bytes, decode: Decoder)
    ensures Step(s, TextDraw(text), decode) == State(s.out + decode(text), s.lastY)
  {
  }

  /** T* appends exactly one line break and keeps the vertical position. */
  lemma StepTextNewline(s: State, decode: Decoder)
    ensures Step(s, TextNewline, decode) == State(s.out + "\n", s.lastY)
  {
  }

  /** TJ appends its decoded text runs in order and keeps the vertical position. */
  lemma StepTextDrawAdjusted(s: State, items: seq<AdjustedItem>, decode: Decoder)
    ensures Step(s, TextDrawAdjusted(items), decode)
         == State(s.out + DecodeRuns(TextRuns(items), decode), s.lastY)
  {
    AdjustedMatchesRuns(items, decode);
  }

  /** A TJ of spacings only changes nothing. */
  lemma StepSpacingsOnly(s: State, items: seq<AdjustedItem>, decode: Decoder)
    requires forall i :: 0 <= i < |items| ==> items[i].Spacing?
    ensures Step(s, TextDrawAdjusted(items), decode) == s
  {
    AdjustedOnlySpacing(items, decode);
  }

  /** The first Tm records its vertical position and appends nothing. */
  lemma StepFirstMatrix(s: State, m: Matrix, decode: Decoder)
    requires s.lastY.None?
    ensures Step(s, SetTextMatrix(m), decode) == State(s.out, Some(VerticalOf(m)))
  {
  }

  /** A Tm on the recorded vertical position changes nothing. */
  lemma StepSameVertical(s: State, m: Matrix, decode: Decoder)
    requires s.lastY == Some(VerticalOf(m))
    ensures Step(s, SetTextMatrix(m), decode) == s
  {
  }

  /** A Tm on another vertical position appends one line break and records the new position. */
  lemma StepNewVertical(s: State, m: Matrix, decode: Decoder)
    requires s.lastY.Some? && s.lastY.value != VerticalOf(m)
    ensures Step(s, SetTextMatrix(m), decode) == State(s.out + "\n", Some(VerticalOf(m)))
  {
  }

  /** Every other operator changes nothing. */
  lemma StepOther(s: State, decode: Decoder)
    ensures Step(s, Other, decode) == s
  {
  }

  // ---------------------------------------------------------------------------
  // The whole pass
  // ---------------------------------------------------------------------------

  /** Running two sequences of operations one after the other is running their concatenation. */
  lemma {:induction false} RunOpsAppend(s: State, a: seq<Op>, b: seq<Op>, decode: Decoder)
    ensures RunOps(s, a + b, decode) == RunOps(RunOps(s, a, decode), b, decode)
  {
    if b == [] {
      assert a + b == a;
    } else {
      var init := b[..|b| - 1];
      assert (a + b)[..|a + b| - 1] == a + init;
      RunOpsAppend(s, a, init, decode);
    }
  }

  /** The output only grows, and once a vertical position is recorded one stays recorded. */
  lemma {:induction false} RunOpsGrows(s: State, ops: seq<Op>, decode: Decoder)
    ensures s.out <= RunOps(s, ops, decode).out
    ensures s.lastY.Some? ==> RunOps(s, ops, decode).lastY.Some?
  {
    if ops != [] {
      RunOpsGrows(s, ops[..|ops| - 1], decode);
    }
  }

  /** Pages are processed as one stream: no reset and no separator at page boundaries. */
  lemma {:induction false} RunPagesFlatten(s: State, pages: seq<seq<Op>>, decode: Decoder)
    ensures RunPages(s, pages, decode) == RunOps(s, Flatten(pages), decode)
  {
    if pages != [] {
      var init := pages[..|pages| - 1];
      RunPagesFlatten(s, init, decode);
      RunOpsAppend(s, Flatten(init), pages[|pages| - 1], decode);
    }
  }

  /** The recorded vertical position is that of the last Tm seen, if any. */
  lemma {:induction false} LastYTracksMatrix(s: State, ops: seq<Op>, decode: Decoder)
    ensures RunOps(s, ops, decode).lastY == LastVertical(s.lastY, Verticals(ops))
  {
    if ops != [] {
      var init := ops[..|ops| - 1];
      LastYTracksMatrix(s, init, decode);
    }
  }

  /** The line breaks one operation adds when it writes none itself: one for a Tm that moves to a new line. */
  lemma StepBreaks(t: State, op: Op, decode: Decoder)
    requires WritesNoBreak(op, decode)
    ensures CountBreaks(Step(t, op, decode).out)
         == CountBreaks(t.out)
          + (if op.SetTextMatrix? && t.lastY.Some? && t.lastY.value != VerticalOf(op.matrix) then 1 else 0)
  {
    match op
    case TextDraw(text) =>
      CountBreaksAppend(t.out, decode(text));
    case TextDrawAdjusted(items) =>
      CountBreaksAppend(t.out, AdjustedText(items, decode));
    case TextNewline =>
    case SetTextMatrix(m) =>
      CountBreaksAppend(t.out, "\n");
    case Other =>
  }

  /**
   * When no operation writes a line break itself, the pass writes exactly one
   * line break per change of vertical position between consecutive Tm operations.
   */
  lemma {:induction false} BreaksFollowVerticalChanges(s: State, ops: seq<Op>, decode: Decoder)
    requires forall i :: 0 <= i < |ops| ==> WritesNoBreak(ops[i], decode)
    ensures CountBreaks(RunOps(s, ops, decode).out) == CountBreaks(s.out) + Changes(s.lastY, Verticals(ops))
  {
    if ops != [] {
      var init, op := ops[..|ops| - 1], ops[|ops| - 1];
      BreaksFollowVerticalChanges(s, init, decode);
      LastYTracksMatrix(s, init, decode);
      StepBreaks(RunOps(s, init, decode), op, decode);
      if op.SetTextMatrix? {
        var ys := Verticals(ops);
        assert ys[..|ys| - 1] == Verticals(init);
        assert ys[|ys| - 1] == VerticalOf(op.matrix);
        assert Changes(s.lastY, ys) == Changes(s.lastY, Verticals(init))
          + (if RunOps(s, init, decode).lastY.Some? && RunOps(s, init, decode).lastY.value != VerticalOf(op.matrix) then 1 else 0);
      } else {
        assert Verticals(ops) == Verticals(init);
      }
    }
  }

  /**
   * An operation that is not T*, and is a Tm only when it keeps the recorded
   * position or none is recorded yet, appends exactly the text it draws.
   */
  lemma StepSameLine(t: State, op: Op, decode: Decoder)
    requires !op.TextNewline?
    requires op.SetTextMatrix? ==> t.lastY.None? || t.lastY.value == VerticalOf(op.matrix)
    ensures Step(t, op, decode).out == t.out + DrawnText(op, decode)
  {
  }

  /** No change of position in `ys` means none in its prefix, and the last element keeps the position before it. */
  lemma NoChangesPrefix(prev: Option<real>, ys: seq<real>)
    requires ys != [] && Changes(prev, ys) == 0
    ensures Changes(prev, ys[..|ys| - 1]) == 0
    ensures var before := LastVertical(prev, ys[..|ys| - 1]);
      before.None? || before.value == ys[|ys| - 1]
  {
  }

  /**
   * Text drawn with no T* in between, and with no Tm that moves to another
   * vertical position, is the plain concatenation of the drawn texts; the
   * recorded position is that of the last Tm, if any.
   */
  lemma {:induction false} SameLineConcatenation(s: State, ops: seq<Op>, decode: Decoder)
    requires forall i :: 0 <= i < |ops| ==> !ops[i].TextNewline?
    requires Changes(s.lastY, Verticals(ops)) == 0
    ensures RunOps(s, ops, decode).out == s.out + AllDrawn(ops, decode)
    ensures RunOps(s, ops, decode).lastY == LastVertical(s.lastY, Verticals(ops))
  {
    LastYTracksMatrix(s, ops, decode);
    if ops != [] {
      var init, op := ops[..|ops| - 1], ops[|ops| - 1];
      NoChangesDropLast(s, ops, decode);
      SameLineConcatenation(s, init, decode);
      StepSameLine(RunOps(s, init, decode), op, decode);
      assert ops == init + [op];
      AllDrawnAppend(init, [op], decode);
      assert [op][1..] == [];
    }
  }

  /** Removing the last operation keeps "no change of position", and a last Tm keeps the position reached before it. */
  lemma NoChangesDropLast(s: State, ops: seq<Op>, decode: Decoder)
    requires ops != [] && Changes(s.lastY, Verticals(ops)) == 0
    ensures Changes(s.lastY, Verticals(ops[..|ops| - 1])) == 0
    ensures var op, t := ops[|ops| - 1], RunOps(s, ops[..|ops| - 1], decode);
      op.SetTextMatrix? ==> t.lastY.None? || t.lastY.value == VerticalOf(op.matrix)
  {
    var init, op := ops[..|ops| - 1], ops[|ops| - 1];
    var ys := Verticals(ops);
    LastYTracksMatrix(s, init, decode);
    if op.SetTextMatrix? {
      assert ys[..|ys| - 1] == Verticals(init);
      NoChangesPrefix(s.lastY, ys);
    } else {
      assert ys == Verticals(init);
    }
  }

  /**
   * Two Tm operations on different vertical positions around a Tj put exactly
   * one line break after the drawn text and before what is drawn next.
   */
  lemma LineBreakBetweenLines(m1: Matrix, t1: Bytes, m2: Matrix, t2: Bytes, decode: Decoder)
    requires VerticalOf(m1) != VerticalOf(m2)
    ensures Reconstruct([[SetTextMatrix(m1), TextDraw(t1), SetTextMatrix(m2), TextDraw(t2)]], decode)
         == decode(t1) + "\n" + decode(t2)
  {
    var page := [SetTextMatrix(m1), TextDraw(t1), SetTextMatrix(m2), TextDraw(t2)];
    var y1, y2 := VerticalOf(m1), VerticalOf(m2);
    assert page[..1][..0] == [];
    assert RunOps(Init, page[..1], decode) == State("", Some(y1));
    assert page[..2][..1] == page[..1];
    assert RunOps(Init, page[..2], decode) == State(decode(t1), Some(y1));
    assert page[..3][..2] == page[..2];
    assert RunOps(Init, page[..3], decode) == State(decode(t1) + "\n", Some(y2));
    assert page[..4][..3] == page[..3];
    assert RunOps(Init, page, decode) == State(decode(t1) + "\n" + decode(t2), Some(y2));
    var doc := [page];
    assert doc[..0] == [];
    assert RunPages(Init, doc, decode) == RunOps(RunPages(Init, doc[..0], decode), page, decode);
    assert Reconstruct(doc, decode) == decode(t1) + "\n" + decode(t2);
  }
}
