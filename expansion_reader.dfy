/** A reader for the tokens `opt!` emits: it takes the nested `if let … else { None }` expression
    apart again, layer by layer, into the segments it was built from. Reading back what the
    builder wrote pins down the emitted shape: one layer per segment, the innermost body exactly
    `Some(____v)`, the outermost layer matching on the first segment's tokens verbatim, every
    inner layer on `____v .` and its segment's tokens, the pattern constructor given by the
    variant, and where the `&` goes. */
module ExpansionReader {
  import opened TokenTrees
  import opened Segmenter
  import opened Expander
  import SegmenterProofs

  datatype Parsed<T> = Parsed(value: T) | Malformed

  /** What one layer holds. */
  datatype LayerParts = LayerParts(variant: OptionalVariant, subject: seq<Token>, body: seq<Token>, borrowed: bool)

  /** A layer read back: the segment it matches on and whether its subject is borrowed. */
  datatype Layer = Layer(segment: OptionalSegment, borrowed: bool)

  predicate IsPatternCtor(t: Token)
  {
    IsIdent(t, "Some") || IsIdent(t, "Ok") || IsIdent(t, "Err")
  }

  function PatternVariant(t: Token): OptionalVariant
  {
    if IsIdent(t, "Some") then Option else if IsIdent(t, "Ok") then Ok else Err
  }

  /** Reads the pattern's constructor: `Some`, `Ok` or `Err`, or none at all for `Required`. */
  function ReadPattern(ts: seq<Token>): (OptionalVariant, seq<Token>)
  {
    if |ts| > 0 && IsPatternCtor(ts[0]) then (PatternVariant(ts[0]), ts[1..]) else (Required, ts)
  }

  /** Reads `<subject> { <body> } else { None }` into the subject and the body. */
  function ReadBranches(ts: seq<Token>): (r: Parsed<(seq<Token>, seq<Token>)>)
    ensures r.Parsed? ==> |ts| >= 3 && ts[|ts| - 3] == Group(Brace, r.value.1)
  {
    if |ts| < 3 then Malformed
    else
      var n := |ts|;
      if ts[n - 3].Group? && ts[n - 3].delimiter == Brace &&
         ts[n - 2] == Ident("else") && ts[n - 1] == Group(Brace, [Ident("None")])
      then Parsed((ts[..n - 3], ts[n - 3].stream))
      else Malformed
  }

  /** Reads `if let [Ctor] (____v) = [&] <subject> { <body> } else { None }`. */
  function DecodeLayer(ts: seq<Token>): (r: Parsed<LayerParts>)
    ensures r.Parsed? ==> |ts| >= 3 && ts[|ts| - 3] == Group(Brace, r.value.body)
  {
    if |ts| < 2 || ts[0] != Ident("if") || ts[1] != Ident("let") then Malformed
    else
      var (variant, afterPattern) := ReadPattern(ts[2..]);
      if |afterPattern| < 2 || afterPattern[0] != Group(Parenthesis, [Placeholder]) || afterPattern[1] != Punct('=', Alone)
      then Malformed
      else
        var afterEq := afterPattern[2..];
        var borrowed := |afterEq| > 0 && afterEq[0] == Punct('&', Joint);
        var rest := if borrowed then afterEq[1..] else afterEq;
        match ReadBranches(rest)
        case Malformed => Malformed
        case Parsed((subject, body)) =>
          assert rest[|rest| - 3] == ts[|ts| - 3];
          Parsed(LayerParts(variant, subject, body, borrowed))
  }

  /** Removes the `____v .` an inner layer puts before its segment's tokens. */
  function StripPlaceholder(subject: seq<Token>): Parsed<seq<Token>>
  {
    if |subject| >= 2 && subject[0] == Placeholder && subject[1] == Punct('.', Joint) then Parsed(subject[2..])
    else Malformed
  }

  /** Reads the whole nested expression; `outermost` says whether the subject is taken verbatim. */
  function Decode(ts: seq<Token>, outermost: bool): Parsed<seq<Layer>>
    decreases Group(Brace, ts)
  {
    match DecodeLayer(ts)
    case Malformed => Malformed
    case Parsed(parts) =>
      var access := if outermost then Parsed(parts.subject) else StripPlaceholder(parts.subject);
      if access.Malformed? then Malformed
      else
        var layer := Layer(OptionalSegment(parts.variant, access.value), parts.borrowed);
        if parts.body == SomeWrapper([Placeholder]) then Parsed([layer])
        else
          assert ts[|ts| - 3] in ts;
          var inner := Decode(parts.body, false);
          if inner.Malformed? then Malformed else Parsed([layer] + inner.value)
  }

  /** The layers the builder is meant to emit for segments `j..`. */
  function LayersFrom(segs: seq<OptionalSegment>, j: nat): seq<Layer>
    requires j < |segs|
    decreases |segs| - j
  {
    [Layer(segs[j], Borrowed(segs, j))] + (if j == |segs| - 1 then [] else LayersFrom(segs, j + 1))
  }

  lemma {:induction false} LayersFromAt(segs: seq<OptionalSegment>, j: nat, k: nat)
    requires j <= k < |segs|
    ensures |LayersFrom(segs, j)| == |segs| - j
    ensures LayersFrom(segs, j)[k - j] == Layer(segs[k], Borrowed(segs, k))
    decreases |segs| - j
  {
    if j < |segs| - 1 {
      LayersFromAt(segs, j + 1, if k == j then j + 1 else k);
    }
  }

  /** The constructor `IfLet` writes reads back as its variant. */
  lemma ReadPatternTokens(variant: OptionalVariant, rest: seq<Token>)
    requires variant != Root
    requires rest != [] && !IsPatternCtor(rest[0])
    ensures ReadPattern(PatternTokens(variant) + rest) == (variant, rest)
  {
    if variant == Required {
      assert PatternTokens(variant) + rest == rest;
    } else {
      assert (PatternTokens(variant) + rest)[1..] == rest;
    }
  }

  /** The tail `IfLet` writes reads back as the subject and the body. */
  lemma ReadBranchesTokens(afterEq: seq<Token>, body: seq<Token>)
    ensures ReadBranches(afterEq + [Group(Brace, body), Ident("else"), Group(Brace, [Ident("None")])]) == Parsed((afterEq, body))
  {
    var branches := afterEq + [Group(Brace, body), Ident("else"), Group(Brace, [Ident("None")])];
    assert branches[..|branches| - 3] == afterEq;
  }

  /** The optional `&` reads back as the borrow flag. */
  lemma ReadBorrowTokens(branches: seq<Token>, isAddAmp: bool)
    requires !isAddAmp ==> branches == [] || branches[0] != Punct('&', Joint)
    ensures var afterEq := (if isAddAmp then [Punct('&', Joint)] else []) + branches;
      (|afterEq| > 0 && afterEq[0] == Punct('&', Joint)) == isAddAmp &&
      (if isAddAmp then afterEq[1..] else afterEq) == branches
  {
    if isAddAmp {
      assert ([Punct('&', Joint)] + branches)[1..] == branches;
    } else {
      assert [] + branches == branches;
    }
  }

  /** The tokens of a layer, grouped from the right. */
  function LayerTokens(variant: OptionalVariant, afterEq: seq<Token>, body: seq<Token>, isAddAmp: bool): seq<Token>
    requires variant != Root
  {
    var branches := afterEq + [Group(Brace, body), Ident("else"), Group(Brace, [Ident("None")])];
    var afterAmp := (if isAddAmp then [Punct('&', Joint)] else []) + branches;
    var afterPattern := [Group(Parenthesis, [Placeholder]), Punct('=', Alone)] + afterAmp;
    [Ident("if"), Ident("let")] + (PatternTokens(variant) + afterPattern)
  }

  lemma IfLetLayout(variant: OptionalVariant, afterEq: seq<Token>, body: seq<Token>, isAddAmp: bool)
    requires variant != Root
    ensures IfLet(variant, afterEq, body, isAddAmp) == Expanded(LayerTokens(variant, afterEq, body, isAddAmp))
  {
  }

  /** Every layer `IfLet` writes reads back as what it was written from, provided an unborrowed
      subject does not itself start with `&`. */
  lemma IfLetDecodes(variant: OptionalVariant, afterEq: seq<Token>, body: seq<Token>, isAddAmp: bool)
    requires variant != Root
    requires !isAddAmp ==> afterEq == [] || afterEq[0] != Punct('&', Joint)
    ensures IfLet(variant, afterEq, body, isAddAmp).Expanded?
    ensures DecodeLayer(IfLet(variant, afterEq, body, isAddAmp).tokens) == Parsed(LayerParts(variant, afterEq, body, isAddAmp))
  {
    IfLetLayout(variant, afterEq, body, isAddAmp);
    LayerTokensDecode(variant, afterEq, body, isAddAmp);
  }

  lemma LayerTokensDecode(variant: OptionalVariant, afterEq: seq<Token>, body: seq<Token>, isAddAmp: bool)
    requires variant != Root
    requires !isAddAmp ==> afterEq == [] || afterEq[0] != Punct('&', Joint)
    ensures DecodeLayer(LayerTokens(variant, afterEq, body, isAddAmp)) == Parsed(LayerParts(variant, afterEq, body, isAddAmp))
  {
    var branches := afterEq + [Group(Brace, body), Ident("else"), Group(Brace, [Ident("None")])];
    var afterAmp := (if isAddAmp then [Punct('&', Joint)] else []) + branches;
    var afterPattern := [Group(Parenthesis, [Placeholder]), Punct('=', Alone)] + afterAmp;
    var afterLet := PatternTokens(variant) + afterPattern;
    var ts := [Ident("if"), Ident("let")] + afterLet;
    assert ts[2..] == afterLet;
    ReadPatternTokens(variant, afterPattern);
    assert afterPattern[2..] == afterAmp;
    ReadBorrowTokens(branches, isAddAmp);
    ReadBranchesTokens(afterEq, body);
    DecodeLayerFrom(ts, afterLet, afterPattern, afterAmp, branches, LayerParts(variant, afterEq, body, isAddAmp));
  }

  /** `DecodeLayer` unfolded once, given what each of its readers returns. */
  lemma DecodeLayerFrom(ts: seq<Token>, afterLet: seq<Token>, afterPattern: seq<Token>, afterAmp: seq<Token>,
                        branches: seq<Token>, parts: LayerParts)
    requires |ts| >= 2 && ts[0] == Ident("if") && ts[1] == Ident("let") && ts[2..] == afterLet
    requires ReadPattern(afterLet) == (parts.variant, afterPattern)
    requires |afterPattern| >= 2 && afterPattern[0] == Group(Parenthesis, [Placeholder]) && afterPattern[1] == Punct('=', Alone)
    requires afterPattern[2..] == afterAmp
    requires (|afterAmp| > 0 && afterAmp[0] == Punct('&', Joint)) == parts.borrowed
    requires (if parts.borrowed then afterAmp[1..] else afterAmp) == branches
    requires ReadBranches(branches) == Parsed((parts.subject, parts.body))
    ensures DecodeLayer(ts) == Parsed(parts)
  {
  }

  /** What the layer for segment `j` wraps: `Some(____v)` for the last segment, otherwise the
      layers of the segments after it. */
  function InnerOf(segs: seq<OptionalSegment>, j: nat): Expansion
    requires j < |segs|
  {
    if j == |segs| - 1 then Expanded(SomeWrapper([Placeholder])) else ChainFrom(segs, j + 1)
  }

  /** The outer layer for segment `j` reads back as that segment's variant and subject. */
  lemma ChainLayer(segs: seq<OptionalSegment>, j: nat)
    requires j < |segs|
    requires segs[j].variant != Root
    requires InnerOf(segs, j).Expanded?
    ensures ChainFrom(segs, j).Expanded? && ChainFrom(segs, j).tokens[0] == Ident("if")
    ensures DecodeLayer(ChainFrom(segs, j).tokens) ==
      Parsed(LayerParts(segs[j].variant, Subject(segs, j), InnerOf(segs, j).tokens, Borrowed(segs, j)))
  {
    IfLetDecodes(segs[j].variant, Subject(segs, j), InnerOf(segs, j).tokens, Borrowed(segs, j));
  }

  /** The layers for segments `j..` are emitted and read back as those segments, each with its
      borrow flag. */
  predicate ChainReadsBack(segs: seq<OptionalSegment>, j: nat)
    requires j < |segs|
  {
    ChainFrom(segs, j).Expanded? && ChainFrom(segs, j).tokens[0] == Ident("if") &&
    Decode(ChainFrom(segs, j).tokens, j == 0) == Parsed(LayersFrom(segs, j))
  }

  lemma {:induction false} ChainDecodes(segs: seq<OptionalSegment>, j: nat)
    requires j < |segs|
    requires forall k :: 0 <= k < |segs| ==> segs[k].variant != Root
    ensures ChainReadsBack(segs, j)
    decreases |segs| - j
  {
    if j < |segs| - 1 {
      ChainDecodes(segs, j + 1);
      ChainStep(segs, j);
    } else {
      ChainStep(segs, j);
    }
  }

  /** One layer of `ChainDecodes`, given what the layers inside it read as. */
  lemma ChainStep(segs: seq<OptionalSegment>, j: nat)
    requires j < |segs|
    requires segs[j].variant != Root
    requires j < |segs| - 1 ==> ChainReadsBack(segs, j + 1)
    ensures ChainReadsBack(segs, j)
  {
    ChainLayer(segs, j);
    var parts := LayerParts(segs[j].variant, Subject(segs, j), InnerOf(segs, j).tokens, Borrowed(segs, j));
    assert (if j == 0 then Parsed(parts.subject) else StripPlaceholder(parts.subject)) == Parsed(segs[j].tokens);
    DecodeStep(ChainFrom(segs, j).tokens, j == 0, parts, segs[j].tokens);
    LayersAssemble(segs, j, parts);
  }

  /** The last step of `ChainDecodes`: the layer read from segment `j`, followed by what the
      inner expression reads as, is `LayersFrom(segs, j)`. */
  lemma LayersAssemble(segs: seq<OptionalSegment>, j: nat, parts: LayerParts)
    requires j < |segs|
    requires InnerOf(segs, j).Expanded?
    requires parts == LayerParts(segs[j].variant, Subject(segs, j), InnerOf(segs, j).tokens, Borrowed(segs, j))
    requires j < |segs| - 1 ==> InnerOf(segs, j).tokens[0] == Ident("if")
    requires j < |segs| - 1 ==> Decode(InnerOf(segs, j).tokens, false) == Parsed(LayersFrom(segs, j + 1))
    ensures var layer := Layer(OptionalSegment(parts.variant, segs[j].tokens), parts.borrowed);
      (if parts.body == SomeWrapper([Placeholder]) then Parsed([layer])
       else if Decode(parts.body, false).Malformed? then Malformed
       else Parsed([layer] + Decode(parts.body, false).value)) == Parsed(LayersFrom(segs, j))
  {
    var layer := Layer(segs[j], Borrowed(segs, j));
    assert Layer(OptionalSegment(parts.variant, segs[j].tokens), parts.borrowed) == layer;
    if j == |segs| - 1 {
      assert parts.body == SomeWrapper([Placeholder]);
      assert [layer] + [] == [layer];
      assert LayersFrom(segs, j) == [layer];
    } else {
      assert parts.body != SomeWrapper([Placeholder]);
    }
  }

  /** One unfolding of `Decode` once the outer layer has been read. */
  lemma DecodeStep(ts: seq<Token>, outermost: bool, parts: LayerParts, access: seq<Token>)
    requires DecodeLayer(ts) == Parsed(parts)
    requires (if outermost then Parsed(parts.subject) else StripPlaceholder(parts.subject)) == Parsed(access)
    ensures var layer := Layer(OptionalSegment(parts.variant, access), parts.borrowed);
      Decode(ts, outermost) ==
        if parts.body == SomeWrapper([Placeholder]) then Parsed([layer])
        else if Decode(parts.body, false).Malformed? then Malformed
        else Parsed([layer] + Decode(parts.body, false).value)
  {
  }

  /** The innermost layer wraps exactly `Some(____v)`, which the reader cannot take for
      another layer. */
  lemma {:induction false} InnermostSome(segs: seq<OptionalSegment>)
    requires |segs| > 0 && segs[|segs| - 1].variant != Root
    ensures ChainFrom(segs, |segs| - 1).Expanded?
    ensures var parts := DecodeLayer(ChainFrom(segs, |segs| - 1).tokens);
      parts.Parsed? && parts.value.body == [Ident("Some"), Group(Parenthesis, [Ident("____v")])]
    ensures DecodeLayer(SomeWrapper([Placeholder])).Malformed?
  {
    ChainLayer(segs, |segs| - 1);
  }

  /** The builder's output is exactly one layer per segment, in order: layer `k` matches on
      segment `k` with its variant, and borrows unless it is the last of two or more segments
      and its last token is a parenthesised group (a call's arguments). */
  lemma BuildRoundTrip(segs: seq<OptionalSegment>)
    requires |segs| > 0
    requires forall k :: 0 <= k < |segs| ==> segs[k].variant != Root
    ensures Build(segs).Expanded?
    ensures var d := Decode(Build(segs).tokens, true);
      d.Parsed? && |d.value| == |segs| &&
      (forall k :: 0 <= k < |segs| ==> d.value[k].segment == segs[k]) &&
      (forall k :: 0 <= k < |segs| ==>
         (d.value[k].borrowed <==>
            !(0 < k == |segs| - 1 && segs[k].tokens != [] &&
              segs[k].tokens[|segs[k].tokens| - 1].Group? &&
              segs[k].tokens[|segs[k].tokens| - 1].delimiter == Parenthesis)))
  {
    ChainDecodes(segs, 0);
    forall k | 0 <= k < |segs|
      ensures |LayersFrom(segs, 0)| == |segs| && LayersFrom(segs, 0)[k] == Layer(segs[k], Borrowed(segs, k))
    {
      LayersFromAt(segs, 0, k);
    }
  }

  /** End to end: on non-empty input `opt!` emits one layer per segment of the split input,
      each matching on that segment's tokens and variant. */
  lemma ExpandRoundTrip(input: seq<Token>)
    requires input != []
    ensures Expand(input).Expanded?
    ensures var segs := Split(input); var d := Decode(Expand(input).tokens, true);
      d.Parsed? && |d.value| == |segs| &&
      (forall k :: 0 <= k < |segs| ==> d.value[k].segment == segs[k])
  {
    SegmenterProofs.SplitShape(input);
    BuildRoundTrip(Split(input));
  }
}
