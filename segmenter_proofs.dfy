/** What the segmenter promises about every input: how many segments it returns, which of
    them may be empty, how variants are re-tagged, and that it keeps the input's tokens in
    order, dropping only some of them. */
module SegmenterProofs {
  import opened TokenTrees
  import opened Segmenter

  /** All segments' tokens, concatenated in order. */
  function Flatten(segs: seq<OptionalSegment>): seq<Token>
  {
    if segs == [] then [] else Flatten(segs[..|segs| - 1]) + segs[|segs| - 1].tokens
  }

  /** The tokens the scan has kept so far. */
  function Kept(st: ScanState): seq<Token>
  {
    Flatten(st.done) + st.current
  }

  /** `a` is `b` with some elements removed, the rest in their original order. */
  predicate IsSubsequence<T(==)>(a: seq<T>, b: seq<T>)
    decreases |b|
  {
    a == [] ||
    (b != [] &&
     (IsSubsequence(a, b[..|b| - 1]) ||
      (a[|a| - 1] == b[|b| - 1] && IsSubsequence(a[..|a| - 1], b[..|b| - 1]))))
  }

  /** The variants a recognised operator records: `?.`, `?Ok.` and `?Err.`. */
  predicate IsOperatorVariant(v: OptionalVariant)
  {
    v == Option || v == Ok || v == Err
  }

  /** Every flushed segment has tokens, the variant being recorded is `Root` or an operator's,
      and every variant recorded after the first segment was set by a recognised operator. */
  predicate WellFormed(st: ScanState)
  {
    (forall k :: 0 <= k < |st.done| ==> st.done[k].tokens != []) &&
    (forall k :: 1 <= k < |st.done| ==> IsOperatorVariant(st.done[k].variant)) &&
    (st.currentVariant == Root || IsOperatorVariant(st.currentVariant)) &&
    (|st.done| > 0 ==> IsOperatorVariant(st.currentVariant))
  }

  predicate NoQuestionMark(input: seq<Token>)
  {
    forall k :: 0 <= k < |input| ==> !IsPunct(input[k], '?')
  }

  // ----- subsequences -----

  lemma {:induction false} SubsequenceAppendRight<T>(a: seq<T>, b: seq<T>, c: seq<T>)
    requires IsSubsequence(a, b)
    ensures IsSubsequence(a, b + c)
    decreases |c|
  {
    if c == [] {
      assert b + c == b;
    } else {
      var c' := c[..|c| - 1];
      SubsequenceAppendRight(a, b, c');
      assert (b + c)[..|b + c| - 1] == b + c';
    }
  }

  lemma SubsequenceAppendBoth<T>(a: seq<T>, b: seq<T>, x: T)
    requires IsSubsequence(a, b)
    ensures IsSubsequence(a + [x], b + [x])
  {
    assert (a + [x])[..|a|] == a;
    assert (b + [x])[..|b|] == b;
  }

  lemma FlattenAppend(segs: seq<OptionalSegment>, s: OptionalSegment)
    ensures Flatten(segs + [s]) == Flatten(segs) + s.tokens
  {
    assert (segs + [s])[..|segs|] == segs;
  }

  lemma {:induction false} FlattenSameTokens(a: seq<OptionalSegment>, b: seq<OptionalSegment>)
    requires |a| == |b|
    requires forall k :: 0 <= k < |a| ==> a[k].tokens == b[k].tokens
    ensures Flatten(a) == Flatten(b)
    decreases |a|
  {
    if a != [] {
      FlattenSameTokens(a[..|a| - 1], b[..|b| - 1]);
    }
  }

  // ----- one step of the scan -----

  /** A step keeps either nothing or exactly the last token it consumes. */
  lemma StepKeepsAtMostLast(input: seq<Token>, i: nat, st: ScanState)
    requires i < |input|
    ensures var (j, next) := Step(input, i, st);
      Kept(next) == Kept(st) || Kept(next) == Kept(st) + [input[j - 1]]
  {
    var (j, next) := Step(input, i, st);
    if next.done != st.done {
      FlattenAppend(st.done, OptionalSegment(st.currentVariant, st.current));
    }
  }

  /** Consuming `input[i..j]` while keeping nothing, or only its last token, keeps order. */
  lemma ConsumeKeepsOrder(kept: seq<Token>, kept': seq<Token>, input: seq<Token>, i: nat, j: nat)
    requires i < j <= |input|
    requires IsSubsequence(kept, input[..i])
    requires kept' == kept || kept' == kept + [input[j - 1]]
    ensures IsSubsequence(kept', input[..j])
  {
    if kept' == kept {
      SubsequenceAppendRight(kept, input[..i], input[i..j]);
      assert input[..i] + input[i..j] == input[..j];
    } else {
      SubsequenceAppendRight(kept, input[..i], input[i..j - 1]);
      assert input[..i] + input[i..j - 1] == input[..j - 1];
      SubsequenceAppendBoth(kept, input[..j - 1], input[j - 1]);
      assert input[..j - 1] + [input[j - 1]] == input[..j];
    }
  }

  /** A step keeps the tokens it keeps in input order. */
  lemma StepKeepsOrder(input: seq<Token>, i: nat, st: ScanState)
    requires i < |input|
    requires IsSubsequence(Kept(st), input[..i])
    ensures IsSubsequence(Kept(Step(input, i, st).1), input[..Step(input, i, st).0])
  {
    var (j, next) := Step(input, i, st);
    StepKeepsAtMostLast(input, i, st);
    ConsumeKeepsOrder(Kept(st), Kept(next), input, i, j);
  }

  lemma StepWellFormed(input: seq<Token>, i: nat, st: ScanState)
    requires i < |input|
    requires WellFormed(st)
    ensures WellFormed(Step(input, i, st).1)
  {
  }

  lemma StepWithoutOperator(input: seq<Token>, i: nat)
    requires i < |input|
    requires !IsPunct(input[i], '?')
    ensures Step(input, i, ScanState([], input[..i], Root)) == (i + 1, ScanState([], input[..i + 1], Root))
  {
    assert input[..i] + [input[i]] == input[..i + 1];
  }

  // ----- the whole scan -----

  lemma {:induction false} ScanKeepsOrder(input: seq<Token>, i: nat, st: ScanState)
    requires i <= |input|
    requires IsSubsequence(Kept(st), input[..i])
    ensures IsSubsequence(Kept(Scan(input, i, st)), input)
    decreases |input| - i
  {
    if i == |input| {
      assert input[..i] == input;
    } else {
      var (j, next) := Step(input, i, st);
      StepKeepsOrder(input, i, st);
      ScanKeepsOrder(input, j, next);
    }
  }

  lemma {:induction false} ScanWellFormed(input: seq<Token>, i: nat, st: ScanState)
    requires i <= |input|
    requires WellFormed(st)
    ensures WellFormed(Scan(input, i, st))
    decreases |input| - i
  {
    if i < |input| {
      var (j, next) := Step(input, i, st);
      StepWellFormed(input, i, st);
      ScanWellFormed(input, j, next);
    }
  }

  lemma {:induction false} ScanWithoutOperators(input: seq<Token>, i: nat)
    requires i <= |input|
    requires NoQuestionMark(input)
    ensures Scan(input, i, ScanState([], input[..i], Root)) == ScanState([], input, Root)
    decreases |input| - i
  {
    if i == |input| {
      assert input[..i] == input;
    } else {
      StepWithoutOperator(input, i);
      ScanWithoutOperators(input, i + 1);
    }
  }

  // ----- properties of Split -----

  /** The segmenter returns at least one segment; empty input gives one empty `Root` segment;
      every segment but the last holds tokens; the last segment's variant is decided by the last
      input token; and `Root` survives exactly when the input is empty. */
  lemma SplitShape(input: seq<Token>)
    ensures |Split(input)| >= 1
    ensures input == [] ==> Split(input) == [OptionalSegment(Root, [])]
    ensures forall k :: 0 <= k < |Split(input)| - 1 ==> Split(input)[k].tokens != []
    ensures input != [] ==> Split(input)[|Split(input)| - 1].variant == TrailingVariant(input[|input| - 1])
    ensures (exists k :: 0 <= k < |Split(input)| && Split(input)[k].variant == Root) <==> input == []
  {
    var st := Scan(input, 0, Start);
    ScanWellFormed(input, 0, Start);
    var pre := Finish(st);
    var r := Split(input);
    assert |r| == |pre|;
    forall k | 0 <= k < |r| - 1
      ensures r[k].tokens != [] && pre[k + 1].variant != Root
    {
      assert r[k].tokens == pre[k].tokens == st.done[k].tokens;
    }
    if input != [] {
      assert r[|r| - 1].variant != Root;
    } else {
      assert r[0].variant == Root;
    }
  }

  /** The shift pass and the fix-up keep any segment list's count and tokens, and re-tag every
      segment but the last with its successor's variant. */
  lemma ShiftThenFixLast(input: seq<Token>, rec: seq<OptionalSegment>)
    requires |rec| > 0
    ensures |FixLast(input, Shift(rec))| == |rec|
    ensures forall k :: 0 <= k < |rec| ==> FixLast(input, Shift(rec))[k].tokens == rec[k].tokens
    ensures forall k :: 0 <= k < |rec| - 1 ==> FixLast(input, Shift(rec))[k].variant == rec[k + 1].variant
  {
    var shifted := Shift(rec);
    assert |shifted| == |rec|;
    assert forall k :: 0 <= k < |rec| - 1 ==> FixLast(input, shifted)[k] == shifted[k];
  }

  /** After the shift pass and the fix-up, the segments keep the tokens the scan recorded, and
      every segment but the last carries the variant recorded for its successor. */
  lemma SplitRetagsFromSuccessor(input: seq<Token>)
    ensures |Split(input)| == |Recorded(input)|
    ensures forall k :: 0 <= k < |Split(input)| ==> Split(input)[k].tokens == Recorded(input)[k].tokens
    ensures forall k :: 0 <= k < |Split(input)| - 1 ==> Split(input)[k].variant == Recorded(input)[k + 1].variant
  {
    var rec := Recorded(input);
    assert |rec| > 0;
    ShiftThenFixLast(input, rec);
  }

  /** The concatenated segment tokens are the input with some tokens (operator tokens) removed,
      never reordered or invented. */
  lemma SplitKeepsOrder(input: seq<Token>)
    ensures IsSubsequence(Flatten(Split(input)), input)
  {
    ScanKeepsOrder(input, 0, Start);
    var st := Scan(input, 0, Start);
    FlattenAppend(st.done, OptionalSegment(st.currentVariant, st.current));
    FlattenSameTokens(Split(input), Recorded(input));
  }

  /** Without any `?` the input is one segment, verbatim. */
  lemma SplitWithoutOperators(input: seq<Token>)
    requires NoQuestionMark(input)
    ensures Split(input) == [OptionalSegment(if input == [] then Root else TrailingVariant(input[|input| - 1]), input)]
  {
    ScanWithoutOperators(input, 0);
    assert input[..0] == [];
  }

  // ----- the operator quirks, on concrete inputs -----

  /** A `?` that starts no operator is dropped and does not cut the input: `a ? b` is the one
      segment `a b`. */
  lemma BareQuestionMarkDropped(a: Token, b: Token)
    requires !IsPunct(a, '?') && !IsPunct(b, '?') && !IsPunct(b, '.') && !IsResultIdent(b)
    ensures Split([a, Punct('?', Alone), b]) == [OptionalSegment(TrailingVariant(b), [a, b])]
  {
    var input := [a, Punct('?', Alone), b];
    assert Step(input, 0, Start) == (1, ScanState([], [a], Root)) by { assert [] + [a] == [a]; }
    assert Scan(input, 1, ScanState([], [a], Root)) == Scan(input, 2, ScanState([], [a], Root));
    assert Scan(input, 2, ScanState([], [a], Root)) == ScanState([], [a, b], Root);
  }

  /** `?Ok` or `?Err` followed by anything but `.` drops the `?` and the identifier and keeps
      the token after them: `a ?Ok b` is the one segment `a b`. */
  lemma FailedResultLookahead(a: Token, r: Token, b: Token)
    requires !IsPunct(a, '?') && IsResultIdent(r) && !IsPunct(b, '.')
    ensures Split([a, Punct('?', Alone), r, b]) == [OptionalSegment(TrailingVariant(b), [a, b])]
  {
    var input := [a, Punct('?', Alone), r, b];
    assert Step(input, 0, Start) == (1, ScanState([], [a], Root)) by { assert [] + [a] == [a]; }
    assert Scan(input, 1, ScanState([], [a], Root)) == Scan(input, 4, ScanState([], [a, b], Root));
  }

  /** The `.` of an operator is recognised whatever the spacing of it and of the `?`:
      `a ?. b` is the segments `a` (unwrapped as an Option) and `b`. */
  lemma DotSpacingIgnored(a: Token, q: Spacing, d: Spacing, b: Token)
    requires !IsPunct(a, '?') && !IsPunct(b, '?')
    ensures Split([a, Punct('?', q), Punct('.', d), b]) ==
      [OptionalSegment(Option, [a]), OptionalSegment(TrailingVariant(b), [b])]
  {
    var input := [a, Punct('?', q), Punct('.', d), b];
    assert Step(input, 0, Start) == (1, ScanState([], [a], Root)) by { assert [] + [a] == [a]; }
    assert Step(input, 1, ScanState([], [a], Root)) == (3, ScanState([OptionalSegment(Root, [a])], [], Option)) by {
      assert [] + [OptionalSegment(Root, [a])] == [OptionalSegment(Root, [a])];
    }
    assert Scan(input, 3, ScanState([OptionalSegment(Root, [a])], [], Option)) ==
      ScanState([OptionalSegment(Root, [a])], [b], Option);
    assert Scan(input, 0, Start) == ScanState([OptionalSegment(Root, [a])], [b], Option);
    var rec := [OptionalSegment(Root, [a]), OptionalSegment(Option, [b])];
    assert Recorded(input) == rec;
    assert Shift(rec) == [OptionalSegment(Option, [a]), OptionalSegment(Option, [b])];
  }

  /** `a ?Err. b`: the first segment is unwrapped through the Err side of a Result. */
  lemma ResultOperatorCuts(a: Token, b: Token)
    requires !IsPunct(a, '?') && !IsPunct(b, '?')
    ensures Split([a, Punct('?', Alone), Ident("Err"), Punct('.', Alone), b]) ==
      [OptionalSegment(Err, [a]), OptionalSegment(TrailingVariant(b), [b])]
  {
    var input := [a, Punct('?', Alone), Ident("Err"), Punct('.', Alone), b];
    assert Step(input, 0, Start) == (1, ScanState([], [a], Root)) by { assert [] + [a] == [a]; }
    assert Step(input, 1, ScanState([], [a], Root)) == (4, ScanState([OptionalSegment(Root, [a])], [], Err)) by {
      assert [] + [OptionalSegment(Root, [a])] == [OptionalSegment(Root, [a])];
    }
    assert Scan(input, 4, ScanState([OptionalSegment(Root, [a])], [], Err)) ==
      ScanState([OptionalSegment(Root, [a])], [b], Err);
    assert Scan(input, 0, Start) == ScanState([OptionalSegment(Root, [a])], [b], Err);
    var rec := [OptionalSegment(Root, [a]), OptionalSegment(Err, [b])];
    assert Recorded(input) == rec;
    assert Shift(rec) == [OptionalSegment(Err, [a]), OptionalSegment(Err, [b])];
  }

  // ----- where the segmenter cuts -----

  /** The operator tokens that record variant `v` (no operator records `Root` or `Required`). */
  function Operator(v: OptionalVariant): seq<Token>
  {
    match v
    case Option => [Punct('?', Joint), Punct('.', Alone)]
    case Ok => [Punct('?', Joint), Ident("Ok"), Punct('.', Alone)]
    case Err => [Punct('?', Joint), Ident("Err"), Punct('.', Alone)]
    case _ => []
  }

  /** A chain: one more part than operators, every operator recognised, no part holding a `?`,
      and every part before an operator holding tokens. */
  predicate IsChain(parts: seq<seq<Token>>, ops: seq<OptionalVariant>)
  {
    |parts| == |ops| + 1 &&
    (forall k :: 0 <= k < |ops| ==> IsOperatorVariant(ops[k]) && parts[k] != []) &&
    (forall k :: 0 <= k < |parts| ==> NoQuestionMark(parts[k]))
  }

  /** What may follow the last part of a chain: nothing, a trailing `?`, or a trailing `?`
      with `Ok` or `Err` after it. */
  predicate IsTrailer(t: seq<Token>)
  {
    t == [] ||
    (|t| == 1 && IsPunct(t[0], '?')) ||
    (|t| == 2 && IsPunct(t[0], '?') && IsResultIdent(t[1]))
  }

  lemma ChainTail(parts: seq<seq<Token>>, ops: seq<OptionalVariant>)
    requires IsChain(parts, ops) && ops != []
    ensures IsChain(parts[1..], ops[1..])
    ensures IsOperatorVariant(ops[0]) && NoQuestionMark(parts[0]) && parts[0] != []
  {
    assert forall k :: 0 <= k < |ops| - 1 ==> ops[1..][k] == ops[k + 1] && parts[1..][k] == parts[k + 1];
    assert forall k :: 0 <= k < |parts| - 1 ==> parts[1..][k] == parts[k + 1];
  }

  /** `parts[0] Operator(ops[0]) parts[1] … Operator(ops[n-1]) parts[n]`. */
  function Chained(parts: seq<seq<Token>>, ops: seq<OptionalVariant>): seq<Token>
    requires |parts| == |ops| + 1
    decreases |ops|
  {
    if ops == [] then parts[0]
    else parts[0] + Operator(ops[0]) + Chained(parts[1..], ops[1..])
  }

  /** The segments the scan records for `Chained(parts, ops)` when it starts under variant `v`. */
  function ChainedRecord(v: OptionalVariant, parts: seq<seq<Token>>, ops: seq<OptionalVariant>): seq<OptionalSegment>
    requires |parts| == |ops| + 1
    decreases |ops|
  {
    if ops == [] then [OptionalSegment(v, parts[0])]
    else [OptionalSegment(v, parts[0])] + ChainedRecord(ops[0], parts[1..], ops[1..])
  }

  lemma {:induction false} ChainedRecordAt(v: OptionalVariant, parts: seq<seq<Token>>, ops: seq<OptionalVariant>, k: nat)
    requires |parts| == |ops| + 1
    requires k < |parts|
    ensures |ChainedRecord(v, parts, ops)| == |parts|
    ensures ChainedRecord(v, parts, ops)[k] == OptionalSegment(if k == 0 then v else ops[k - 1], parts[k])
    decreases |ops|
  {
    if ops != [] {
      ChainedRecordAt(ops[0], parts[1..], ops[1..], if k == 0 then 0 else k - 1);
    }
  }

  /** A token that is not `?` is appended to the segment being built, in one turn. */
  lemma StepPlain(input: seq<Token>, i: nat, st: ScanState, s: seq<Token>, rest: seq<Token>, st': ScanState)
    requires i <= |input| && input[i..] == s + rest
    requires NoQuestionMark(s) && s != []
    requires st' == st.(current := st.current + [s[0]])
    ensures i < |input| && input[i + 1..] == s[1..] + rest && NoQuestionMark(s[1..])
    ensures Step(input, i, st) == (i + 1, st')
  {
    assert input[i] == (s + rest)[0] == s[0];
    assert input[i + 1..] == (s + rest)[1..] == s[1..] + rest;
    assert forall m :: 0 <= m < |s| - 1 ==> s[1..][m] == s[m + 1];
  }

  /** The scan goes on with the turn taken at position `i`. */
  lemma ScanFollows(input: seq<Token>, i: nat, st: ScanState, j: nat, st': ScanState)
    requires i < |input| && j <= |input|
    requires Step(input, i, st) == (j, st')
    ensures Scan(input, i, st) == Scan(input, j, st')
  {
  }

  /** Scanning tokens without a `?` appends them to the segment being built. */
  lemma {:induction false} ScanPlain(input: seq<Token>, i: nat, st: ScanState, s: seq<Token>, rest: seq<Token>,
                                     k: nat, st': ScanState)
    requires i <= |input| && input[i..] == s + rest
    requires NoQuestionMark(s)
    requires k == i + |s|
    requires st' == st.(current := st.current + s)
    ensures k <= |input| && input[k..] == rest
    ensures Scan(input, i, st) == Scan(input, k, st')
    decreases |s|
  {
    if s == [] {
      assert st.current + s == st.current;
      assert s + rest == rest;
    } else {
      var next := st.(current := st.current + [s[0]]);
      StepPlain(input, i, st, s, rest, next);
      ScanFollows(input, i, st, i + 1, next);
      assert next.current + s[1..] == st.current + s;
      ScanPlain(input, i + 1, next, s[1..], rest, k, st');
    }
  }

  /** An operator after a non-empty segment: one turn of the loop consumes it, flushes the
      segment and starts one under the operator's variant. */
  lemma StepOperator(input: seq<Token>, i: nat, st: ScanState, v: OptionalVariant, rest: seq<Token>, j: nat, st': ScanState)
    requires IsOperatorVariant(v)
    requires i <= |input| && input[i..] == Operator(v) + rest
    requires st.current != []
    requires j == i + |Operator(v)|
    requires st' == ScanState(st.done + [OptionalSegment(st.currentVariant, st.current)], [], v)
    ensures i < |input| && j <= |input| && input[j..] == rest
    ensures Step(input, i, st) == (j, st')
  {
    var op := Operator(v);
    assert forall m :: 0 <= m < |op| ==> input[i + m] == (op + rest)[m] == op[m];
    assert input[i + |op|..] == (op + rest)[|op|..] == rest;
  }

  /** A part and the operator after it: the scan appends the part to the fresh segment, then
      flushes it under the segment's variant and goes on under the operator's. */
  lemma ScanPartThenOperator(input: seq<Token>, i: nat, m: nat, j: nat, part: seq<Token>, w: OptionalVariant,
                             tail: seq<Token>, st: ScanState, st1: ScanState, st2: ScanState)
    requires IsOperatorVariant(w) && NoQuestionMark(part) && part != []
    requires i <= |input| && input[i..] == part + (Operator(w) + tail)
    requires m == i + |part| && j == m + |Operator(w)|
    requires st.current == [] && st1 == st.(current := part)
    requires st2 == ScanState(st.done + [OptionalSegment(st.currentVariant, part)], [], w)
    ensures m < |input| && j <= |input| && input[j..] == tail
    ensures Scan(input, i, st) == Scan(input, m, st1)
    ensures Scan(input, m, st1) == Scan(input, j, st2)
  {
    assert st.current + part == part;
    ScanPlain(input, i, st, part, Operator(w) + tail, m, st1);
    StepOperator(input, m, st1, w, tail, j, st2);
    ScanFollows(input, m, st1, j, st2);
  }

  /** The first part of a chain and the operator after it: the rest of the input is the rest
      of the chain. */
  lemma ChainedDrop(input: seq<Token>, i: nat, m: nat, j: nat, parts: seq<seq<Token>>, ops: seq<OptionalVariant>,
                    t: seq<Token>)
    requires IsChain(parts, ops) && ops != []
    requires i <= |input| && input[i..] == Chained(parts, ops) + t
    requires m == i + |parts[0]| && j == m + |Operator(ops[0])|
    ensures IsChain(parts[1..], ops[1..])
    ensures IsOperatorVariant(ops[0]) && NoQuestionMark(parts[0]) && parts[0] != []
    ensures input[i..] == parts[0] + (Operator(ops[0]) + (Chained(parts[1..], ops[1..]) + t))
    ensures j <= |input| && input[j..] == Chained(parts[1..], ops[1..]) + t
  {
    ChainTail(parts, ops);
    ChainedUnfold(parts, ops, t);
    SuffixAfter(input, i, parts[0], Operator(ops[0]), Chained(parts[1..], ops[1..]) + t, m, j);
  }

  lemma ChainedUnfold(parts: seq<seq<Token>>, ops: seq<OptionalVariant>, t: seq<Token>)
    requires |parts| == |ops| + 1 && ops != []
    ensures Chained(parts, ops) + t == parts[0] + (Operator(ops[0]) + (Chained(parts[1..], ops[1..]) + t))
  {
    var tail := Chained(parts[1..], ops[1..]);
    assert parts[0] + Operator(ops[0]) + tail + t == parts[0] + (Operator(ops[0]) + (tail + t));
  }

  lemma SuffixAfter<T>(s: seq<T>, i: nat, a: seq<T>, b: seq<T>, c: seq<T>, m: nat, j: nat)
    requires i <= |s| && s[i..] == a + (b + c)
    requires m == i + |a| && j == m + |b|
    ensures j <= |s| && s[j..] == c
  {
    assert s[m..] == (a + (b + c))[|a|..] == b + c;
    assert s[j..] == (b + c)[|b|..] == c;
  }

  /** A trailer at the end of the input keeps nothing and ends the scan: a lone `?` is
      dropped, and `?` with `Ok` or `Err` and nothing after them is dropped whole. */
  lemma ScanTrailer(input: seq<Token>, k: nat, st: ScanState, t: seq<Token>)
    requires IsTrailer(t)
    requires k <= |input| && input[k..] == t
    ensures Scan(input, k, st) == st
  {
    if t != [] {
      assert input[k] == t[0];
      if |t| == 1 {
        assert Step(input, k, st) == (k + 1, st);
        ScanFollows(input, k, st, k + 1, st);
      } else {
        assert input[k + 1] == t[1];
        assert Step(input, k, st) == (k + 2, st);
        ScanFollows(input, k, st, k + 2, st);
      }
    }
  }

  /** The last part of a chain and the trailer after it: the scan ends with the part as the
      segment being built. */
  lemma ScanLastPart(input: seq<Token>, i: nat, st: ScanState, part: seq<Token>, t: seq<Token>)
    requires st.current == [] && NoQuestionMark(part) && IsTrailer(t)
    requires i <= |input| && input[i..] == part + t
    ensures Finish(Scan(input, i, st)) == st.done + [OptionalSegment(st.currentVariant, part)]
  {
    var k := i + |part|;
    var st1 := st.(current := part);
    assert st.current + part == part;
    ScanPlain(input, i, st, part, t, k, st1);
    ScanTrailer(input, k, st1, t);
  }

  /** The records of a chain: the first part under the starting variant, then the records of
      the rest, taken from where the scan of the rest finishes. */
  lemma FinishChainedHead(input: seq<Token>, i: nat, m: nat, j: nat, st: ScanState, st1: ScanState, st2: ScanState,
                          parts: seq<seq<Token>>, ops: seq<OptionalVariant>)
    requires |parts| == |ops| + 1 && ops != []
    requires i <= |input| && m <= |input| && j <= |input|
    requires st2 == ScanState(st.done + [OptionalSegment(st.currentVariant, parts[0])], [], ops[0])
    requires Scan(input, i, st) == Scan(input, m, st1)
    requires Scan(input, m, st1) == Scan(input, j, st2)
    requires Finish(Scan(input, j, st2)) == st2.done + ChainedRecord(st2.currentVariant, parts[1..], ops[1..])
    ensures Finish(Scan(input, i, st)) == st.done + ChainedRecord(st.currentVariant, parts, ops)
  {
    ChainedRecordCons(st.done, st.currentVariant, parts, ops);
  }

  lemma ChainedRecordCons(done: seq<OptionalSegment>, v: OptionalVariant, parts: seq<seq<Token>>, ops: seq<OptionalVariant>)
    requires |parts| == |ops| + 1 && ops != []
    ensures done + [OptionalSegment(v, parts[0])] + ChainedRecord(ops[0], parts[1..], ops[1..]) == done + ChainedRecord(v, parts, ops)
  {
    assert ChainedRecord(v, parts, ops) == [OptionalSegment(v, parts[0])] + ChainedRecord(ops[0], parts[1..], ops[1..]);
  }

  /** The scan of a chain from a fresh segment records one segment per part, the first under
      the variant being recorded. */
  lemma {:induction false} ScanChained(input: seq<Token>, i: nat, st: ScanState, parts: seq<seq<Token>>, ops: seq<OptionalVariant>,
                                       t: seq<Token>)
    requires IsChain(parts, ops) && st.current == [] && IsTrailer(t)
    requires i <= |input| && input[i..] == Chained(parts, ops) + t
    ensures Finish(Scan(input, i, st)) == st.done + ChainedRecord(st.currentVariant, parts, ops)
    decreases |ops|
  {
    if ops == [] {
      ScanLastPart(input, i, st, parts[0], t);
    } else {
      var m := i + |parts[0]|;
      var j := m + |Operator(ops[0])|;
      ChainedDrop(input, i, m, j, parts, ops, t);
      var st1 := st.(current := parts[0]);
      var st2 := ScanState(st.done + [OptionalSegment(st.currentVariant, parts[0])], [], ops[0]);
      ScanPartThenOperator(input, i, m, j, parts[0], ops[0], Chained(parts[1..], ops[1..]) + t, st, st1, st2);
      ScanChained(input, j, st2, parts[1..], ops[1..], t);
      FinishChainedHead(input, i, m, j, st, st1, st2, parts, ops);
    }
  }

  /** `ChainedRecord` by position: part `k` under the variant of the operator before it. */
  lemma ChainedRecordParts(v: OptionalVariant, parts: seq<seq<Token>>, ops: seq<OptionalVariant>)
    requires |parts| == |ops| + 1
    ensures |ChainedRecord(v, parts, ops)| == |parts|
    ensures forall k :: 0 <= k < |parts| ==> ChainedRecord(v, parts, ops)[k].tokens == parts[k]
    ensures forall k :: 0 <= k < |ops| ==> ChainedRecord(v, parts, ops)[k + 1].variant == ops[k]
  {
    ChainedRecordAt(v, parts, ops, 0);
    forall k | 0 <= k < |parts|
      ensures ChainedRecord(v, parts, ops)[k].tokens == parts[k]
      ensures k < |ops| ==> ChainedRecord(v, parts, ops)[k + 1].variant == ops[k]
    {
      ChainedRecordAt(v, parts, ops, k);
      if k < |ops| {
        ChainedRecordAt(v, parts, ops, k + 1);
      }
    }
  }

  /** What the re-tagging passes make of the records of a chain. */
  lemma SplitOfChainedRecord(input: seq<Token>, parts: seq<seq<Token>>, ops: seq<OptionalVariant>)
    requires |parts| == |ops| + 1
    requires Finish(Scan(input, 0, Start)) == [] + ChainedRecord(Root, parts, ops)
    ensures |Split(input)| == |parts|
    ensures forall k :: 0 <= k < |parts| ==> Split(input)[k].tokens == parts[k]
    ensures forall k :: 0 <= k < |ops| ==> Split(input)[k].variant == ops[k]
    ensures Split(input)[|ops|].variant == (if input == [] then Root else TrailingVariant(input[|input| - 1]))
  {
    var rec := ChainedRecord(Root, parts, ops);
    assert Recorded(input) == rec by { assert [] + rec == rec; }
    ChainedRecordParts(Root, parts, ops);
    SplitRetagsFromSuccessor(input);
    SplitShape(input);
  }

  /** The segmenter cuts a chain exactly at its operators: for parts without `?`, all non-empty
      but the last, joined by `?.`, `?Ok.` and `?Err.` and followed by a trailer, segment `k`
      holds part `k`, every segment but the last carries the operator that follows it, and the
      last carries the variant of the last input token. A trailing `?`, `?Ok` or `?Err` makes
      no segment of its own: it only tags the last one. */
  lemma SplitChained(parts: seq<seq<Token>>, ops: seq<OptionalVariant>, t: seq<Token>)
    requires IsChain(parts, ops) && IsTrailer(t)
    ensures var input := Chained(parts, ops) + t;
      |Split(input)| == |parts| &&
      (forall k :: 0 <= k < |parts| ==> Split(input)[k].tokens == parts[k]) &&
      (forall k :: 0 <= k < |ops| ==> Split(input)[k].variant == ops[k]) &&
      Split(input)[|ops|].variant == (if input == [] then Root else TrailingVariant(input[|input| - 1])) &&
      (t != [] ==> Split(input)[|ops|].variant == TrailingVariant(t[|t| - 1]))
  {
    var input := Chained(parts, ops) + t;
    assert input[0..] == input;
    ScanChained(input, 0, Start, parts, ops, t);
    SplitOfChainedRecord(input, parts, ops);
    if t != [] {
      assert input[|input| - 1] == t[|t| - 1];
    }
  }
}
