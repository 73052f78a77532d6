# opt! — optional chaining as a procedural macro, modelled in Dafny

`opt!(user.profile?.address?.city?)` takes a chain of field accesses and calls. In the chain,
`?.` unwraps an `Option`, `?Ok.` takes the `Ok` side of a `Result` and `?Err.` takes the `Err`
side. The macro rewrites the chain into nested
`if let Some(____v) = &<expr> { … } else { None }` expressions, so the whole chain evaluates to
`Some(value)` or stops at the first step that yields nothing.

The model covers the macro's two stages on token trees:

- **`TokenTrees`** (`tokens.dfy`): identifiers, punctuation with its spacing, literals and
  delimited groups. Source spans are left out.
- **`Segmenter`** (`segmenter.dfy`): the segmenter `split_on_optional_variants` and the
  `OptionalVariant` / `OptionalSegment` types.
  - `SplitOnOptionalVariants` is the imperative scanner, with its lookahead loop, the in-place
    shift pass and the fix-up of the last segment.
  - It is proved equal to `Split`, a functional specification: a scan (`Step`/`Scan`), then
    `Shift`, then `FixLast`.
- **`SegmenterProofs`** (`segmenter_proofs.dfy`): what the segmenter guarantees for every input,
  plus the operator quirks on concrete inputs.
- **`Expander`** (`expander.dfy`): `some_wrapper`, `ends_with_fn_call`, `if_let` and the entry
  point `opt`.
  - `Opt` is the imperative loop over the segments in reverse, proved equal to `Expand`.
  - `Expand` is `ChainFrom` applied to `Split`.
  - The panic in `if_let` on a `Root` segment is modelled as the outcome `Panicked(message)`.
- **`ExpansionReader`** (`expansion_reader.dfy`): a reader that takes the emitted
  `if let … else { None }` nesting apart again. The round trip "build, then read" pins down what
  the macro emits:
  - one layer per segment, in order;
  - each layer's pattern constructor and subject;
  - where the `&` goes;
  - the innermost `Some(____v)`.

### Quirks of the code the model keeps

- **Spacing.** The operator `?.` is recognised whatever the spacing of the `?` and the `.`: the
  code checks neither.
- **Bare `?`.** A `?` that starts no operator is dropped.
- **Failed `?Ok` / `?Err`.** When the identifier is not followed by `.`, the `?` and the
  identifier are both dropped and only the token after them is kept, whatever it is. If the
  identifier is the last input token, nothing is kept.
- **Trailing operator.** A trailing `?`, `Ok` or `Err` creates no segment of its own. It only
  re-tags the last segment (`TrailingVariant`).

## Model

| member | source | states |
|---|---|---|
| Segmenter.SplitOnOptionalVariants | src/lib.rs:284-378 | The scanning loop, the shift pass and the fix-up return exactly `Split(input)`. The loop invariant keeps the scan of the rest of the input equal to the scan of the whole. |
| Segmenter.Step | src/lib.rs:291-347 | One loop turn always consumes at least one token and never runs past the end of the input. |
| SegmenterProofs.SplitShape | src/lib.rs:349-376 | There is at least one segment, and empty input gives exactly `[Root, []]`. Every segment but the last has tokens. The last segment's variant comes from the last input token. A `Root` segment survives exactly when the input is empty. |
| SegmenterProofs.SplitRetagsFromSuccessor | src/lib.rs:349-356 | Splitting keeps the recorded segments' count and tokens, and every segment but the last takes the variant recorded for its successor. |
| SegmenterProofs.SplitKeepsOrder | src/lib.rs:291-352 | The segments' tokens, concatenated, are a subsequence of the input: tokens are only dropped, never reordered or invented. |
| SegmenterProofs.SplitWithoutOperators | src/lib.rs:291-376 | Input without any `?` is one segment holding the input verbatim, tagged by its last token (`Root` when empty). |
| SegmenterProofs.ScanKeepsOrder | src/lib.rs:291-347 | From any position, the scanning loop keeps the kept tokens a subsequence of the input. |
| SegmenterProofs.ScanWellFormed | src/lib.rs:330-340 | The loop flushes only non-empty segments. The variant being recorded is `Root` or an operator's (`Option`, `Ok`, `Err`), and every variant recorded after the first segment is an operator's. |
| SegmenterProofs.SplitChained | src/lib.rs:291-376 | For any parts without `?` joined by the operators `?.`, `?Ok.` and `?Err.` (every part before an operator non-empty) and ending in nothing, a trailing `?`, or a trailing `?Ok` / `?Err`, the split returns one segment per part: the trailer makes no segment of its own. Segment `k` holds part `k` verbatim. Every segment but the last carries the operator that follows it. The last carries the variant of the last input token, so a trailer's `?`, `Ok` or `Err` tags it. |
| SegmenterProofs.BareQuestionMarkDropped | src/lib.rs:293-343 | `a ? b` is the single segment `a b`: the `?` is dropped and does not cut. |
| SegmenterProofs.FailedResultLookahead | src/lib.rs:301-325 | `a ?Ok b` (or `?Err`) is the single segment `a b`: the `?` and the identifier are dropped and the third token is kept. |
| SegmenterProofs.DotSpacingIgnored | src/lib.rs:295-299 | `a ?. b` splits into `a` (unwrapped as an Option) and `b` for every spacing of `?` and `.`. |
| SegmenterProofs.ResultOperatorCuts | src/lib.rs:301-316 | `a ?Err. b` splits into `a` (unwrapped as Err) and `b`. |
| Expander.IfLet | src/lib.rs:207-267 | It panics with the `Root` message exactly for `Root`. Otherwise the layer starts with `if`, places the body in the braces third from the end, and has the bare `(____v)` pattern exactly for `Required`. |
| Expander.PanicReachesOutermost | src/lib.rs:135-179 | A panic in any inner layer is the outcome of the whole expansion. |
| Expander.ChainPanicsIffRoot | src/lib.rs:135-179 | The layers from segment `j` inward panic exactly when some segment from `j` on is tagged `Root`, and then with the `Root` message. |
| Expander.ExpandPanicsIffEmpty | src/lib.rs:121-180 | `opt!` panics exactly on empty input, with the `Root` message. |
| Expander.Opt | src/lib.rs:121-180 | The reverse loop over the segments emits exactly `Expand(input)`, including stopping at a panic. |
| ExpansionReader.IfLetDecodes | src/lib.rs:207-267 | Every non-`Root` layer reads back as its variant, subject, body and borrow flag. If it is not borrowed, its subject must not itself start with `&`. |
| ExpansionReader.ReadPatternTokens | src/lib.rs:222-243 | The pattern constructor reads back as the variant it was written for. |
| ExpansionReader.LayersFromAt | src/lib.rs:135-177 | The expected layer list has one entry per segment, and entry `k` is segment `k` with its borrow flag. |
| ExpansionReader.ChainDecodes | src/lib.rs:133-190 | The layers from segment `j` inward are emitted, start with `if`, and read back as segments `j..`, each with its borrow flag. |
| ExpansionReader.InnermostSome | src/lib.rs:182-190 | The innermost layer's body is exactly `Some(____v)`, and the reader cannot take that body for another layer. |
| ExpansionReader.BuildRoundTrip | src/lib.rs:133-205 | For segments without `Root`, the output reads back as one layer per segment, in order. Layer `k` matches on segment `k`. It borrows unless it is the last of two or more segments and that segment's last token is a parenthesised group (a call's arguments). |
| ExpansionReader.ExpandRoundTrip | src/lib.rs:121-180 | On non-empty input the expansion succeeds and reads back as exactly the segments of the split input. |

## Left out

- Spans: `Span::call_site()` and the input's spans carry no behaviour in the macro and are not modelled.
- The `proc_macro` plumbing (`TokenStream` conversions, `#[proc_macro]` registration): token streams are sequences of token trees.
- A panic is modelled as the result `Panicked(message)`. The compiler error a panicking macro produces is not modelled.
- What the emitted expression does when compiled and run (type checking, evaluation, the `None` short-circuit) is not modelled. The model states the emitted token shape only.
- The commented-out debug dump in `opt` and the commented-out `Required` panic in `if_let` have no behaviour.
- The repository's example program `example1` only uses the macro and is not part of this model.
- ExpansionReader.IfLetDecodes: an unborrowed layer whose subject itself starts with `&` reads back as borrowed, so the lemma requires that such a subject does not start with `&`. In the emitted chain every subject but the first starts with `____v`, and the first is always borrowed, so `BuildRoundTrip` needs no such requirement.
- SegmenterProofs.SplitChained: the operators in the chain are written with a joined `?` and a standalone `.` (the trailer's `?` may have either spacing). That the spacing does not matter is stated for one operator only, by `DotSpacingIgnored`.
