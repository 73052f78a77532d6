/** The first stage of `opt!`: cutting the macro's input tokens into segments at the chain
    operators `?.`, `?Ok.` and `?Err.`, and tagging each segment with the unwrap it needs.

    `Split` is the specification, written as a scan over the input followed by the two
    re-tagging passes; `SplitOnOptionalVariants` is the imperative scanner, proved equal to it. */
module Segmenter {
  import opened TokenTrees

  /** The kind of unwrap attached to a segment. */
  datatype OptionalVariant =
    | Root      // the first segment before any operator is seen; only survives for empty input
    | Option    // `?.` : unwrap an Option
    | Ok        // `?Ok.` : take the Ok side of a Result
    | Err       // `?Err.` : take the Err side of a Result
    | Required  // no operator: the value is used as it is

  datatype OptionalSegment = OptionalSegment(variant: OptionalVariant, tokens: seq<Token>)

  /** The scanner's accumulators: the segments flushed so far, the tokens of the segment being
      built, and the variant recorded for it. */
  datatype ScanState = ScanState(done: seq<OptionalSegment>, current: seq<Token>, currentVariant: OptionalVariant)

  const Start := ScanState([], [], Root)

  predicate IsResultIdent(t: Token)
  {
    IsIdent(t, "Ok") || IsIdent(t, "Err")
  }

  /** The variant named by an `Ok` or `Err` identifier. */
  function ResultVariant(t: Token): OptionalVariant
  {
    if IsIdent(t, "Ok") then Ok else Err
  }

  /** A recognised operator: flush the current segment when it holds tokens, then start a new
      one under variant `v`. */
  function Close(st: ScanState, v: OptionalVariant): ScanState
  {
    var done := if st.current == [] then st.done else st.done + [OptionalSegment(st.currentVariant, st.current)];
    ScanState(done, [], v)
  }

  /** One turn of the scanning loop at position `i`: the position after the tokens it consumes
      and the new accumulators. The `?` that starts a turn is never kept. When `?` is followed by
      `Ok`/`Err` and then by anything but `.`, the `?` and the identifier are dropped and only the
      third token is kept, whatever it is (a `?` included). The `.` is recognised whatever its
      spacing. */
  function Step(input: seq<Token>, i: nat, st: ScanState): (r: (nat, ScanState))
    requires i < |input|
    ensures i < r.0 <= |input|
  {
    var tt := input[i];
    if !IsPunct(tt, '?') then
      (i + 1, st.(current := st.current + [tt]))
    else if i + 1 < |input| && IsPunct(input[i + 1], '.') then
      (i + 2, Close(st, Option))
    else if i + 1 < |input| && IsResultIdent(input[i + 1]) then
      if i + 2 < |input| && IsPunct(input[i + 2], '.') then
        (i + 3, Close(st, ResultVariant(input[i + 1])))
      else if i + 2 < |input| then
        (i + 3, st.(current := st.current + [input[i + 2]]))
      else
        (i + 2, st)
    else
      (i + 1, st)
  }

  /** The scanning loop from position `i` to the end of the input. */
  function Scan(input: seq<Token>, i: nat, st: ScanState): ScanState
    requires i <= |input|
    decreases |input| - i
  {
    if i == |input| then st
    else
      var (j, next) := Step(input, i, st);
      Scan(input, j, next)
  }

  /** The unconditional flush after the loop. */
  function Finish(st: ScanState): seq<OptionalSegment>
  {
    st.done + [OptionalSegment(st.currentVariant, st.current)]
  }

  /** The segments as the scan records them, before re-tagging. */
  function Recorded(input: seq<Token>): seq<OptionalSegment>
  {
    Finish(Scan(input, 0, Start))
  }

  /** The shift pass: every segment but the last takes the variant of its successor. */
  function Shift(segs: seq<OptionalSegment>): seq<OptionalSegment>
  {
    seq(|segs|, k requires 0 <= k < |segs| =>
      if k + 1 < |segs| then segs[k].(variant := segs[k + 1].variant) else segs[k])
  }

  /** The variant the last input token gives the last segment. */
  function TrailingVariant(last: Token): OptionalVariant
  {
    if IsPunct(last, '?') then Option
    else if IsIdent(last, "Ok") then Ok
    else if IsIdent(last, "Err") then Err
    else Required
  }

  /** The fix-up: for non-empty input, the last segment's variant comes from the last token. */
  function FixLast(input: seq<Token>, segs: seq<OptionalSegment>): seq<OptionalSegment>
    requires |segs| > 0
  {
    if input == [] then segs
    else segs[|segs| - 1 := segs[|segs| - 1].(variant := TrailingVariant(input[|input| - 1]))]
  }

  /** What `split_on_optional_variants` returns for `input`. */
  function Split(input: seq<Token>): seq<OptionalSegment>
  {
    FixLast(input, Shift(Recorded(input)))
  }

  /** The scanner: a loop with one token of lookahead, then the shift pass in place, then the
      fix-up of the last segment. */
  method SplitOnOptionalVariants(input: seq<Token>) returns (result: seq<OptionalSegment>)
    ensures result == Split(input)
  {
    result := [];
    var current: seq<Token> := [];
    var currentVariant := Root;
    var i := 0;
    while i < |input|
      invariant i <= |input|
      invariant Scan(input, i, ScanState(result, current, currentVariant)) == Scan(input, 0, Start)
      decreases |input| - i
    {
      ghost var step := Step(input, i, ScanState(result, current, currentVariant));
      var tt := input[i];
      i := i + 1;
      if IsPunct(tt, '?') {
        var recognised := false;
        var variant := Root;
        if i < |input| && IsPunct(input[i], '.') {
          i := i + 1;
          recognised, variant := true, Option;
        } else if i < |input| && IsResultIdent(input[i]) {
          var v := ResultVariant(input[i]);
          i := i + 1;
          if i < |input| && IsPunct(input[i], '.') {
            i := i + 1;
            recognised, variant := true, v;
          } else if i < |input| {
            current := current + [input[i]];
            i := i + 1;
          }
        }
        if recognised {
          if current != [] {
            result := result + [OptionalSegment(currentVariant, current)];
            current := [];
          }
          currentVariant := variant;
        }
      } else {
        current := current + [tt];
      }
      assert (i, ScanState(result, current, currentVariant)) == step;
    }
    result := result + [OptionalSegment(currentVariant, current)];

    ghost var recorded := result;
    var k := 0;
    while k < |result| - 1
      invariant 0 <= k < |recorded| == |result|
      invariant forall m :: 0 <= m < k ==> result[m] == recorded[m].(variant := recorded[m + 1].variant)
      invariant forall m :: k <= m < |result| ==> result[m] == recorded[m]
    {
      result := result[k := result[k].(variant := result[k + 1].variant)];
      k := k + 1;
    }
    assert result == Shift(recorded);

    if |input| == 0 {
      return;
    }
    var n := |result|;
    var last := input[|input| - 1];
    if IsPunct(last, '?') {
      result := result[n - 1 := result[n - 1].(variant := Option)];
    } else if IsIdent(last, "Ok") {
      result := result[n - 1 := result[n - 1].(variant := Ok)];
    } else if IsIdent(last, "Err") {
      result := result[n - 1 := result[n - 1].(variant := Err)];
    } else {
      result := result[n - 1 := result[n - 1].(variant := Required)];
    }
  }
}
