# pdf-text-diff: text reconstruction, in Dafny

`pdf-text-diff` extracts the text of two PDF files and prints a coloured,
line-numbered diff of them. This project models the part that turns a PDF's
page content into text: `pdf_to_string` walks every content operation of
every page in order. It keeps an output string that it only appends to, and
the last vertical position of the text matrix. It reacts to four operators:

- `Tj` (`TextDraw`) appends its decoded bytes.
- `TJ` (`TextDrawAdjusted`) appends each string item, decoded on its own, and drops the spacing numbers.
- `T*` (`TextNewline`) appends a line break.
- `Tm` (`SetTextMatrix`) computes `y = d + f`. When a previous `y` exists and differs, it appends a line break. It records `y` when it differs or when none was recorded yet.

`Tj` and `TJ` are described in section 9.4.3 of ISO 32000-1. `Tm` and `T*` are described in section 9.4.2. All other operators are ignored. State carries over page boundaries: nothing is reset or inserted between pages. The project also
models two pure helpers of the report: the line-number column (`Line`'s
`Display`) and the sign shown for each kind of change.

Layout:

- `content.dfy` (module `Content`): operations, TJ items, the text matrix. Byte decoding is a `Decoder` parameter.
- `reconstruct.dfy` (module `Reconstruction`): the state, the step function `Step`, its folds over a page (`RunOps`) and over a document (`RunPages`), and `Reconstruct`.
- `extract.dfy` (module `Extract`): the loop as the source writes it. `PdfToString` and `CollectAdjusted` are methods proved equal to the functions above.
- `laws.dfy` (module `ReconstructLaws`): the per-operation rules, the whole-pass properties, and reference definitions they are proved against.
- `report.dfy` (module `Report`): decimal line numbers, the padded line column, the sign column.
- `wrappers.dfy` (module `Wrappers`): `Option`.

A `TJ` array is decoded item by item (src/main.rs:107-114). This is not the
same as decoding the concatenated bytes: a lossy UTF-8 decoder replaces a
multi-byte sequence that is split between two items, while it would decode
the joined bytes correctly. The model follows the code. `SplitCharacterDiffers`
shows the difference on the two bytes of "é" split over two items.
`AdjustedAsConcatenation` shows that the two agree if the decoder distributes
over concatenation.

## Model

| member | source | states |
|---|---|---|
| `Extract.PdfToString` | src/main.rs:72-181 | The nested loops over pages and operations return exactly the text that the step function, folded over the document from the empty state, produces. |
| `Extract.CollectAdjusted` | src/main.rs:104-118 | The buffer built from a TJ array is the decoded text of its items in order, with nothing for spacings. |
| `Reconstruction.Step` | src/main.rs:93-174 | One operation only appends to the output. A recorded vertical position stays recorded. The position changes only on a Tm, and then to that matrix's d + f. |
| `ReconstructLaws.StepTextDraw` | src/main.rs:98-102 | Tj appends exactly its decoded bytes, with no separator, and keeps the vertical position. |
| `ReconstructLaws.StepTextNewline` | src/main.rs:103 | T* appends exactly one line break and keeps the vertical position. |
| `ReconstructLaws.StepTextDrawAdjusted` | src/main.rs:104-119 | TJ appends the in-order concatenation of its decoded text runs and keeps the vertical position. |
| `ReconstructLaws.StepSpacingsOnly` | src/main.rs:104-119 | A TJ array holding only spacings changes neither the output nor the position. |
| `ReconstructLaws.StepFirstMatrix` | src/main.rs:121-132 | The first Tm appends nothing and records its d + f. |
| `ReconstructLaws.StepSameVertical` | src/main.rs:124-126 | A Tm whose d + f equals the recorded position changes nothing. |
| `ReconstructLaws.StepNewVertical` | src/main.rs:124-132 | A Tm whose d + f differs from a recorded position appends one line break and records the new position. |
| `ReconstructLaws.StepOther` | src/main.rs:173 | Every other operator leaves output and position unchanged. |
| `ReconstructLaws.AdjustedMatchesRuns` | src/main.rs:105-114 | The TJ text equals the decoded string items concatenated in order (a head-first reference definition); spacings contribute nothing. |
| `ReconstructLaws.AdjustedOnlySpacing` | src/main.rs:107-114 | A TJ array of spacings only yields the empty text. |
| `ReconstructLaws.AdjustedAsConcatenation` | src/main.rs:109-111 | If the decoder distributes over concatenation, decoding items separately equals decoding their joined bytes. |
| `ReconstructLaws.SplitCharacterDiffers` | src/main.rs:109-111 | Take a decoder that acts as lossy UTF-8 on 0xC3, on 0xA9 and on 0xC3 0xA9. A TJ of the two separate bytes then yields two replacement characters, not the "é" that the joined bytes decode to. |
| `ReconstructLaws.ItemwiseDecodingCanDiffer` | src/main.rs:109-111 | Some decoder makes item-by-item TJ decoding differ from decoding the joined bytes. |
| `ReconstructLaws.SpacingTransparent` | src/main.rs:104-118 | The array ["AB", spacing, "CD"] yields decode("AB") followed directly by decode("CD"). |
| `ReconstructLaws.RunOpsAppend` | src/main.rs:84-175 | Running two operation sequences one after the other equals running their concatenation. |
| `ReconstructLaws.RunOpsGrows` | src/main.rs:77-180 | Over any run the earlier output is a prefix of the later output, and a recorded position is never lost. |
| `ReconstructLaws.RunPagesFlatten` | src/main.rs:81-178 | Processing pages one by one equals processing their operations as one flat sequence, with no reset or separator at page boundaries. |
| `ReconstructLaws.LastYTracksMatrix` | src/main.rs:121-132 | After any run the recorded position is the d + f of the last Tm, or the starting one if there was no Tm. |
| `ReconstructLaws.StepBreaks` | src/main.rs:121-132 | An operation that writes no line break itself adds one exactly when it is a Tm that moves away from a recorded position. |
| `ReconstructLaws.BreaksFollowVerticalChanges` | src/main.rs:121-132 | When no operation writes a line break itself, the output gains exactly one line break per change of position between consecutive Tm operations. |
| `ReconstructLaws.StepSameLine` | src/main.rs:98-132 | An operation that is not T*, and is a Tm only on the recorded position or when none is recorded, appends exactly the text it draws. |
| `ReconstructLaws.SameLineConcatenation` | src/main.rs:98-132 | Operations with no T* and no Tm that moves to another position yield the plain concatenation of their drawn texts, with no separator. This holds even with a first Tm or with Tm operations that repeat the position. The recorded position is that of the last Tm. |
| `ReconstructLaws.LineBreakBetweenLines` | src/main.rs:121-132 | Tm(y1), Tj(a), Tm(y2), Tj(b) with y1 != y2 produces decode(a), then one line break, then decode(b). |
| `Report.Decimal` | src/main.rs:16 | Line numbers are written as a non-empty string of decimal digits with no leading zero. |
| `Report.DecimalRoundTrip` | src/main.rs:16 | Reading the decimal digits back yields the number. |
| `Report.DecimalWidth` | src/main.rs:16 | A number has at most k digits exactly when it is below 10^k. |
| `Report.LineLabel` | src/main.rs:10-19 | No index renders as four spaces. Index i renders as the decimal of i + 1, left-aligned and padded with spaces to width four, never truncated. |
| `Report.LineLabelReadsBack` | src/main.rs:16 | With trailing spaces removed, the label of index i is all digits and denotes i + 1. |
| `Report.LineLabelWidth` | src/main.rs:15-16 | The label is exactly four wide iff i + 1 < 10000; otherwise it is wider. |
| `Report.Sign` | src/main.rs:46-50 | Delete shows "-", Insert "+", Equal " ", each one character. |
| `Report.SignRoundTrip` | src/main.rs:46-50 | Each sign reads back as the change kind it was shown for, so the mapping is injective. |

## Left out

- Opening the file, resolving objects, iterating pages and decoding content streams (src/main.rs:73-89). These are calls into the PDF library. The model starts from the decoded operations. The `.unwrap()` panics on a page or stream that fails to decode are not modelled.
- `String::from_utf8_lossy` is library code. It is the `Decoder` parameter, a total function from bytes to text.
- Floating point: the matrix entries are 32-bit floats and `d + f` is a float sum compared with `!=`. The model uses exact reals. Rounding that makes distinct sums equal, and NaN never equalling itself, are not captured.
- Operators other than Tj, TJ, T* and Tm are collapsed into one `Other` case. The source ignores all of them.
- The diff itself (`TextDiff::from_lines`, `grouped_ops(3)`, `iter_inline_changes`, src/main.rs:38-45) is an external library.
- Terminal styling, the colour paired with each sign, the printing loop, the separator between groups (src/main.rs:41-42, 47-49, 51-67), and argument handling with its exit code (src/main.rs:22-37) are user-interface and process plumbing.
- Report.LineLabel: does not model the `usize` overflow of `idx + 1` at the largest index; indices are unbounded naturals.
- The commented-out operator arms (src/main.rs:94-97, 120, 134-172) and the commented-out page-break marker (src/main.rs:177) are dead code.
