/** The second stage of `opt!`: from segments to the nested
      if let <Ctor>(____v) = [&] <expr> { <inner> } else { None }
    expression, built from the last segment outward around `Some(____v)`.

    `ChainFrom` is the specification of the layers from segment `j` inward; `Opt` is the macro's
    entry point, an imperative loop over the segments in reverse, proved equal to it. */
module Expander {
  import opened TokenTrees
  import opened Segmenter
  import SegmenterProofs

  /** The macro's outcome: the emitted tokens, or the panic `if_let` raises on a `Root` segment
      (which aborts the expansion). */
  datatype Expansion = Expanded(tokens: seq<Token>) | Panicked(message: string)

  /** The identifier every layer binds the unwrapped value to. */
  const Placeholder: Token := Ident("____v")

  const RootPanic: string := "if_let called with Root variant"

  /** `Some(<body>)`. */
  function SomeWrapper(body: seq<Token>): seq<Token>
  {
    [Ident("Some"), Group(Parenthesis, body)]
  }

  /** Whether the tokens end in a call's argument list. */
  function EndsWithFnCall(tokens: seq<Token>): bool
  {
    if |tokens| == 0 then false
    else
      match tokens[|tokens| - 1]
      case Group(delimiter, _) => delimiter == Parenthesis
      case _ => false
  }

  /** The constructor a layer matches on; `Required` matches the bare pattern `(____v)`. */
  function PatternTokens(variant: OptionalVariant): seq<Token>
    requires variant != Root
  {
    match variant
    case Option => [Ident("Some")]
    case Ok => [Ident("Ok")]
    case Err => [Ident("Err")]
    case Required => []
  }

  /** One layer: `if let <Ctor>(____v) = [&] <afterEq> { <body> } else { None }`. */
  function IfLet(variant: OptionalVariant, afterEq: seq<Token>, body: seq<Token>, isAddAmp: bool): (r: Expansion)
    ensures r.Panicked? <==> variant == Root
    ensures r.Panicked? ==> r.message == RootPanic
    ensures r.Expanded? ==> |r.tokens| >= 7 && r.tokens[0] == Ident("if")
    ensures r.Expanded? ==> r.tokens[|r.tokens| - 3] == Group(Brace, body)
    ensures r.Expanded? ==> (r.tokens[2] == Group(Parenthesis, [Placeholder]) <==> variant == Required)
  {
    if variant == Root then Panicked(RootPanic)
    else
      Expanded([Ident("if"), Ident("let")] + PatternTokens(variant) +
               [Group(Parenthesis, [Placeholder]), Punct('=', Alone)] +
               (if isAddAmp then [Punct('&', Joint)] else []) +
               afterEq +
               [Group(Brace, body), Ident("else"), Group(Brace, [Ident("None")])])
  }

  /** The expression a layer matches on: the first segment's tokens verbatim, any later
      segment's tokens behind `____v .`. */
  function Subject(segs: seq<OptionalSegment>, j: nat): seq<Token>
    requires j < |segs|
  {
    if j == 0 then segs[0].tokens else [Placeholder, Punct('.', Joint)] + segs[j].tokens
  }

  /** Whether a layer borrows its subject: always, except for the last segment of a chain of two
      or more segments when that segment ends in a call. */
  function Borrowed(segs: seq<OptionalSegment>, j: nat): bool
    requires j < |segs|
  {
    !(j == |segs| - 1 && j != 0 && EndsWithFnCall(segs[j].tokens))
  }

  /** The layers for segments `j..` around the innermost `Some(____v)`; the innermost panic, if
      any, is the outcome. */
  function ChainFrom(segs: seq<OptionalSegment>, j: nat): Expansion
    requires j < |segs|
    decreases |segs| - j
  {
    var inner := if j == |segs| - 1 then Expanded(SomeWrapper([Placeholder])) else ChainFrom(segs, j + 1);
    if inner.Panicked? then inner
    else IfLet(segs[j].variant, Subject(segs, j), inner.tokens, Borrowed(segs, j))
  }

  /** The builder on a list of segments (no segments: no tokens). */
  function Build(segs: seq<OptionalSegment>): Expansion
  {
    if segs == [] then Expanded([]) else ChainFrom(segs, 0)
  }

  /** What `opt!` expands `input` to. */
  function Expand(input: seq<Token>): Expansion
  {
    Build(Split(input))
  }

  /** A panic in an inner layer is the outcome of the whole chain. */
  lemma {:induction false} PanicReachesOutermost(segs: seq<OptionalSegment>, j: nat)
    requires j < |segs|
    requires ChainFrom(segs, j).Panicked?
    ensures ChainFrom(segs, 0) == ChainFrom(segs, j)
    decreases j
  {
    if j > 0 {
      assert ChainFrom(segs, j - 1) == ChainFrom(segs, j);
      PanicReachesOutermost(segs, j - 1);
    }
  }

  /** The chain panics exactly when some segment from `j` on is still tagged `Root`. */
  lemma {:induction false} ChainPanicsIffRoot(segs: seq<OptionalSegment>, j: nat)
    requires j < |segs|
    ensures ChainFrom(segs, j).Panicked? <==> exists k :: j <= k < |segs| && segs[k].variant == Root
    ensures ChainFrom(segs, j).Panicked? ==> ChainFrom(segs, j).message == RootPanic
    decreases |segs| - j
  {
    if j < |segs| - 1 {
      ChainPanicsIffRoot(segs, j + 1);
      if segs[j].variant == Root {
        assert exists k :: j <= k < |segs| && segs[k].variant == Root;
      }
      if exists k :: j <= k < |segs| && segs[k].variant == Root {
        var k :| j <= k < |segs| && segs[k].variant == Root;
        if k > j {
          assert exists k' :: j + 1 <= k' < |segs| && segs[k'].variant == Root;
        }
      }
    } else if segs[j].variant == Root {
      assert exists k :: j <= k < |segs| && segs[k].variant == Root;
    }
  }

  /** `opt!` fails only on empty input, with the `Root` panic. */
  lemma ExpandPanicsIffEmpty(input: seq<Token>)
    ensures Expand(input).Panicked? <==> input == []
    ensures Expand(input).Panicked? ==> Expand(input).message == RootPanic
  {
    SegmenterProofs.SplitShape(input);
    ChainPanicsIffRoot(Split(input), 0);
  }

  /** The macro: split, then wrap layers around `Some(____v)` from the last segment back to
      the first. */
  method Opt(input: seq<Token>) returns (output: Expansion)
    ensures output == Expand(input)
  {
    var resp := SplitOnOptionalVariants(input);
    var result: seq<Token> := [];
    var segmentsLen := |resp|;
    var index := 0;
    while index < segmentsLen
      invariant index <= segmentsLen
      invariant index == 0 ==> result == []
      invariant 0 < index ==> result != [] && ChainFrom(resp, segmentsLen - index) == Expanded(result)
    {
      var segment := resp[segmentsLen - 1 - index];
      var layer: Expansion;
      if segmentsLen - 1 == index {
        if result == [] {
          result := SomeWrapper([Placeholder]);
        }
        layer := IfLet(segment.variant, segment.tokens, result, true);
      } else {
        var isAddAmp := true;
        if index == 0 {
          if EndsWithFnCall(segment.tokens) {
            isAddAmp := false;
          }
        }
        var afterEq := [Placeholder, Punct('.', Joint)] + segment.tokens;
        if result == [] {
          result := SomeWrapper([Placeholder]);
        }
        layer := IfLet(segment.variant, afterEq, result, isAddAmp);
      }
      if layer.Panicked? {
        PanicReachesOutermost(resp, segmentsLen - 1 - index);
        return layer;
      }
      result := layer.tokens;
      index := index + 1;
    }
    output := Expanded(result);
  }
}
