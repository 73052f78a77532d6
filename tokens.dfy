/** Token trees as a procedural macro receives and emits them (the proc_macro crate's
    TokenTree), with source spans left out: spans carry no behaviour in the macro. */
module TokenTrees {

  /** Whether a punctuation character is glued to the punctuation that follows it. */
  datatype Spacing = Alone | Joint

  /** The delimiters of a group; NoDelimiter is proc_macro's invisible delimiter. */
  datatype Delimiter = Parenthesis | Brace | Bracket | NoDelimiter

  datatype Token =
    | Ident(name: string)
    | Punct(ch: char, spacing: Spacing)
    | Literal(text: string)
    | Group(delimiter: Delimiter, stream: seq<Token>)

  /** A punctuation token with character `c`, whatever its spacing. */
  predicate IsPunct(t: Token, c: char)
  {
    t.Punct? && t.ch == c
  }

  /** An identifier token whose text is `s`. */
  predicate IsIdent(t: Token, s: string)
  {
    t.Ident? && t.name == s
  }
}
