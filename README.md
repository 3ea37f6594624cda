# type-sizes-rs, modelled in Dafny

The program reads the report that `rustc -Zprint-type-size` writes. That report has one
`print-type-size` line per type header, variant, discriminant, field, padding, end
padding, closure upvar or closure local. The program rebuilds one layout record per
type and then checks that each record's declared size agrees with the sizes of its parts. This model covers
the two parts that hold the logic:

- **The layout builder** (`src/parse_layouts.rs`) is a single pass over the lines. It
  keeps at most one open layout and, inside it, at most one open variant. Every
  non-blank line after a header is appended to the open layout's raw lines. It then
  goes to at most one of: the struct entries, the open variant, the variant list or
  discriminant, or the unhandled lines. Some lines go nowhere else: upvars and locals
  with no open variant, fields and padding with neither an open variant nor a struct,
  end padding under an enum, and unrecognised lines without the marker. Every layout is finalised when the next header arrives or the input
  ends. Finalisation turns a one-variant enum named after its own type into a union.
- **The verifier** (`src/types.rs`) checks sizes under three rules:
  - struct: the entries add up to the declared size;
  - enum: each variant matches under either discriminant convention, and the total
    passes either the additive rule or the niche rule;
  - union: the declared size is the largest field size.

Files:

- `types.dfy` (module `Types`): the records, `EntrySize`, `SumSizes`, `MaxOrZero`,
  `FirstMisfit` and `Verify`.
- `verify_properties.dfy` (module `VerifyProperties`): what `Verify` accepts and what
  error it reports, for each of the three rules.
- `lines.dfy` (module `Lines`): classified lines, plus the checks the loop makes around
  the regular expressions: the blank-line test, the order in which patterns are tried,
  the marker test, and backtick trimming of variant names.
- `parse_layouts.dfy` (module `LayoutBuilder`):
  - `Step`, `RunFrom` and `Parse` specify one iteration, a run of iterations and the
    whole pass.
  - `Finalize` is the finalisation closure.
  - `ParseLayouts` is the Rust loop itself, with a mutable open layout and open variant.
    It is proved to compute `Parse`.
- `parse_properties.dfy` (module `LayoutBuilderProperties`): the builder's guarantees.

## Model

| member | source | states |
|---|---|---|
| `LayoutBuilderProperties.EntrySizeIsReportedSize` | src/types.rs:79-88 | the size `StructEntry::size` gives an entry built from a body line is exactly the size that line reported, end padding included |
| `Types.SumSizes` | src/types.rs:94 | the entry sum bounds every entry's size, and is 0 iff every entry has size 0; `SumSizesAppend` and `SumSizesPermutation` relate it across concatenation and reordering |
| `Types.VariantFits` | src/types.rs:110-116 | a variant whose entries add up to its size fits; a fitting variant's entry sum lies between its size and its size plus the discriminant; with no discriminant it fits iff the sum is its size |
| `Types.Verify` | src/types.rs:91-148 | an error always belongs to the layout's kind; every error but a variant mismatch reports the layout's declared size; a variant mismatch names a variant that does not fit, with its declared size and entry sum; the `VerifyProperties` lemmas give each rule in full |
| `Types.MaxOrZero` | src/types.rs:124 | `max().unwrap_or(0)`: the result bounds every size and is one of them, or is 0 for an empty sequence |
| `Types.FirstMisfit` | src/types.rs:108-123 | the early-return loop finds the first variant that fits neither convention, and every variant before it fits; `None` means all variants fit |
| `VerifyProperties.VerifyStruct` | src/types.rs:93-102 | a struct passes iff its declared size equals the entry sum; otherwise the error is `StructSizeMismatch(declared, sum)` |
| `VerifyProperties.SumSizesPermutation` | src/types.rs:94 | the entry sum is the same for any reordering of the entries |
| `VerifyProperties.VerifyStructOrderIrrelevant` | src/types.rs:93-102 | reordering a struct's entries never changes its verdict |
| `VerifyProperties.VerifySingleVariant` | src/types.rs:108-123 | a variant is rejected iff its entry sum is neither its size nor, when the discriminant is nonzero, its size plus the discriminant |
| `VerifyProperties.VerifyReportsFirstMisfit` | src/types.rs:108-123 | the error is `VariantSizeMismatch` naming the first misfitting variant, with its declared size and its entry sum |
| `VerifyProperties.VerifyVariantMismatchIff` | src/types.rs:108-123 | a variant mismatch is reported iff some variant misfits |
| `VerifyProperties.VerifyEnumTotal` | src/types.rs:124-134 | when all variants fit, an enum passes iff `size >= d + m` or `size == max(d, m)`; otherwise the error is `EnumTotalSizeMismatch(size, d + m)` |
| `VerifyProperties.EmptyEnumVerifies` | src/types.rs:124-127 | an enum with no variants and no discriminant passes at any size |
| `VerifyProperties.VerifyUnion` | src/types.rs:136-146 | a union passes iff its size equals the largest field size (0 with no fields); otherwise the error is `UnionSizeMismatch(size, max)` |
| `VerifyProperties.DiscriminantConventionExamples` | src/types.rs:112-116 | with a 4-byte discriminant, a 12-byte variant fits with 12 or 16 bytes of entries, not with 11 or 17 |
| `VerifyProperties.EnumTotalExamples` | src/types.rs:124-134 | variants of 8 and 16 bytes with a 4-byte discriminant: total 20 passes (additive), 16 passes (niche), 15 fails with minimum 20 |
| `Lines.FirstByRank` | src/parse_layouts.rs:78-185 | among the patterns that matched, the result is one tried no later than any other |
| `Lines.Classify` | src/parse_layouts.rs:77-191 | a line is blank iff it is all Unicode whitespace; otherwise it takes the first matching pattern in the loop's order; a line no pattern matches records whether it contains `print-type-size` |
| `Lines.TrimStart` | src/parse_layouts.rs:48 | `trim_start` returns a suffix that is empty iff the line is all whitespace, and otherwise starts with a non-whitespace character; `TrimStartDropsOnlyWhitespace` adds that the dropped prefix is whitespace |
| `Lines.TrimStartDropsOnlyWhitespace` | src/parse_layouts.rs:48 | every character `trim_start` drops is whitespace |
| `Lines.TrimEnd` | src/parse_layouts.rs:48 | `trim_end` returns a prefix that is empty iff the line is all whitespace, and otherwise ends with a non-whitespace character; `TrimEndDropsOnlyWhitespace` adds that the dropped suffix is whitespace |
| `Lines.TrimEndDropsOnlyWhitespace` | src/parse_layouts.rs:48 | every character `trim_end` drops is whitespace |
| `Lines.IsBlank` | src/parse_layouts.rs:48 | `trim().is_empty()` holds iff every character is Unicode whitespace; `BlankLineIgnored` shows such a line changes nothing |
| `Lines.Contains` | src/parse_layouts.rs:188 | a pattern is only found in a line at least as long as it, and the empty pattern is always found; `ContainsIff` gives the full meaning |
| `Lines.ContainsIff` | src/parse_layouts.rs:188 | the marker scan finds the marker iff it occurs at some offset |
| `Lines.TrimTicks` | src/parse_layouts.rs:87 | the variant name is the captured text with the runs of backticks on either side removed: the capture is that name wrapped in backticks, and the name neither starts nor ends with one |
| `Lines.TrimTicksIdempotent` | src/parse_layouts.rs:87 | trimming a trimmed name changes nothing |
| `LayoutBuilder.FieldsOf` | src/parse_layouts.rs:33-40 | a field is kept iff it appears as a `Field` entry; nothing is dropped iff every entry is a field; the kept fields are never more than the entries; `FieldsOfAppend` gives their order |
| `LayoutBuilder.NewLayout` | src/parse_layouts.rs:57-66 | a header opens a layout with its name, size and alignment, the header as its only raw line and no unhandled lines; that layout, still empty, passes iff its size is 0 |
| `LayoutBuilder.CloseVariant` | src/parse_layouts.rs:25-29 | under an enum, the open variant is appended after the existing variants and the discriminant is kept; any other kind is returned unchanged |
| `LayoutBuilder.Step` | src/parse_layouts.rs:46-192 | one iteration never alters a finished layout and appends at most one; it opens one more layout iff the line is a type header, after which a layout is open; before any header, a non-header line changes nothing |
| `LayoutBuilder.RunFrom` | src/parse_layouts.rs:46-192 | a run of iterations opens exactly one layout per type-header line |
| `LayoutBuilderProperties.RunKeepsFinished` | src/parse_layouts.rs:46-192 | a run of iterations never alters a finished layout: the layouts finished before it stay a prefix of those finished after it |
| `LayoutBuilder.Close` | src/parse_layouts.rs:194-197 | after the loop, the finished layouts are kept and the open layout, if any, is added after them |
| `LayoutBuilder.Parse` | src/parse_layouts.rs:19-199 | the pass returns one layout per type-header line; `ParseFollowsHeaders` adds that each keeps its header's fields, in order |
| `LayoutBuilder.Finalize` | src/parse_layouts.rs:24-44 | finalisation keeps the name, size, alignment, raw lines and unhandled lines |
| `LayoutBuilder.Consume` | src/parse_layouts.rs:78-185 | a recognised body line never alters the name, size, alignment, raw lines or unhandled lines |
| `LayoutBuilder.ParseLayouts` | src/parse_layouts.rs:19-200 | the loop, with its mutable open layout and open variant, computes `Parse` of its input |
| `LayoutBuilderProperties.RunFromAppend` | src/parse_layouts.rs:46-192 | running the loop over `xs + ys` is running it over `xs`, then over `ys` |
| `LayoutBuilderProperties.ReachableInv` | src/parse_layouts.rs:80-109 | in every reachable state, an open variant implies an open `Enum` layout, and no open layout is a `Union` |
| `LayoutBuilderProperties.OpenVariantIsNeverDropped` | src/parse_layouts.rs:80-84 | in every reachable state, closing the open variant appends it to the layout's variants |
| `LayoutBuilderProperties.ParseFollowsHeaders` | src/parse_layouts.rs:52-67 | there is one output layout per header line, in input order, each with its header's name, size and alignment, and with the header as its first raw line |
| `LayoutBuilderProperties.HeaderOpensFreshLayout` | src/parse_layouts.rs:53-66 | a header emits what the end of input would emit, and opens `Struct([])` with no unhandled lines, raw lines `[header]` and no open variant |
| `LayoutBuilderProperties.LinesBeforeFirstHeaderDiscarded` | src/parse_layouts.rs:70-73 | lines before the first header do not change the result |
| `LayoutBuilderProperties.BlankLineIgnored` | src/parse_layouts.rs:48-50 | inserting a whitespace-only line anywhere does not change the result |
| `LayoutBuilderProperties.BodyLinesRecorded` | src/parse_layouts.rs:75-190 | over header-free body lines, every non-blank line is appended to the raw lines (marker or not), exactly the unrecognised lines with the marker are appended to the unhandled lines, and the header fields and finished layouts stay as they are |
| `LayoutBuilderProperties.BodyLineStep` | src/parse_layouts.rs:75-190 | one non-header line in an open layout adds its text to the raw lines unless it is blank, adds it to the unhandled lines iff it is unrecognised and carries the marker, and keeps the header fields and finished layouts |
| `LayoutBuilderProperties.UnrecognisedLineLeavesStructure` | src/parse_layouts.rs:187-191 | an unrecognised line leaves the kind and the open variant unchanged |
| `LayoutBuilderProperties.FieldAndPaddingRouting` | src/parse_layouts.rs:134-176 | with a variant open, field and padding entries go to that variant; otherwise they go to the struct entries (or nowhere, if the kind is not `Struct`) |
| `LayoutBuilderProperties.EndPaddingRouting` | src/parse_layouts.rs:177-185 | end padding goes to the struct entries only; an enum drops it; the open variant does not change |
| `LayoutBuilderProperties.ClosureVarRouting` | src/parse_layouts.rs:110-133 | upvars and locals go to the open variant; with none open they are dropped; the kind does not change |
| `LayoutBuilderProperties.DiscriminantOverwrites` | src/parse_layouts.rs:97-109 | a discriminant line sets the discriminant size, keeps the enum's variants (none if promoted from a struct, whose entries are dropped), and leaves the open variant alone |
| `LayoutBuilderProperties.VariantHeaderOpensVariant` | src/parse_layouts.rs:78-96 | a variant header appends the open variant to the enum, or promotes a struct to `Enum(0, [])`, and opens an empty variant named by the trimmed capture |
| `LayoutBuilderProperties.FieldsOfAppend` | src/parse_layouts.rs:33-40 | filtering the fields of `a + b` gives the fields of `a`, then the fields of `b` |
| `LayoutBuilderProperties.FinalizeReclassifies` | src/parse_layouts.rs:24-44 | the open variant is closed into the layout; the kind becomes `Union` iff it is an enum with exactly one variant named after the layout, and then holds that variant's fields in order; otherwise the kind after closing is kept |
| `LayoutBuilderProperties.ReclassifiedUnionVerified` | src/types.rs:136-146 | a layout that finalisation makes into a union passes iff its size is the largest size among the kept fields |
| `LayoutBuilderProperties.SingleHeaderRoundTrip` | src/parse_layouts.rs:194-197 | a lone header gives exactly one empty struct, which passes iff its declared size is 0 |

## Behaviour worth noting

- A discriminant line overwrites `discriminant_size`; it does not add to it
  (src/parse_layouts.rs:103).
- Every non-blank line after a header goes into `raw_lines`, including lines without the
  `print-type-size` marker. Only the push to `unhandled_lines` depends on the marker
  (src/parse_layouts.rs:75, 188).
- End padding is appended only while the kind is `Struct`. Under an enum it is dropped
  (src/parse_layouts.rs:182-184).

## Left out

- Regex matching (src/parse_layouts.rs:6-17, including the offset and alignment
  sub-patterns at 147-152) belongs to the `regex` library. `Classify` takes the
  patterns' results as input. It does not check that the result a pattern reports is
  consistent with the line's text.
- Reading lines: `BufRead::lines`, the stripping of line endings, and `io::Result` error
  propagation (src/parse_layouts.rs:46-47) are I/O. The model's input is the sequence of
  lines already read.
- src/main.rs is out entirely. It reads arguments, opens the file, prints results with
  colours and formats errors as text.
- Numbers are `nat`. The model does not capture the `parse().unwrap()` panic on a digit
  string that overflows `u64`, nor `u64` overflow in the sums or in `expected_size +
  discriminant_size` (src/types.rs:94, 110, 114, 125). It assumes these never happen.
- The `Debug` and `PartialEq` derives only serve display and tests.
- The source's in-place updates through `&mut` become value updates:
  - `Finalize` returns the finalised layout;
  - `ParseLayouts` reassigns its local open layout and open variant.
  The source shares no state, so nothing about aliasing is lost.
