/** The tokens of a URL pattern, as both pattern parsers receive them from the tokenizer. */
module PatternTokens {

  datatype TokenType =
    | INVALID_CHAR | OPEN | CLOSE | REGEXP | NAME | CHAR | ESCAPED_CHAR | OTHER_MODIFIER | ASTERISK | END

  /** `index` is the position in the pattern of the first character that the token stands for. */
  datatype Token = Token(kind: TokenType, index: nat, value: string)

  /** The list ends in its only end token, which is empty, and the positions do not go backwards. Braces
      stand for themselves, and names are not empty. */
  predicate IsTokenList(tokens: seq<Token>, inputLength: nat) {
    && |tokens| > 0
    && tokens[|tokens| - 1].kind == END && tokens[|tokens| - 1].value == ""
    && (forall k | 0 <= k < |tokens| - 1 :: tokens[k].kind != END)
    && (forall k | 0 <= k < |tokens| :: IsSpelledWell(tokens[k]))
    && (forall j, k | 0 <= j <= k < |tokens| :: tokens[j].index <= tokens[k].index)
    && tokens[|tokens| - 1].index <= inputLength
  }

  predicate IsSpelledWell(t: Token) {
    && (t.kind == OPEN ==> t.value == "{")
    && (t.kind == CLOSE ==> t.value == "}")
    && (t.kind == NAME ==> t.value != "")
  }
}
