/**
 * The token record shared by the scanner and the stream, and the pattern
 * constants of the token catalogue that are aliases of one another.
 */
module Tokens {

  /**
   * One token: the matched bytes, the name of the rule that matched, the byte
   * offset where it starts and its byte length. Fields are set once.
   */
  datatype Token = Token(value: string, tokenType: string, offset: int, length: int)
  {
    /** Strict, case-sensitive comparison of the token's type. */
    predicate IsType(t: string) {
      tokenType == t
    }
  }

  /** The type test compares the whole type, byte for byte, and nothing else. */
  lemma IsTypeExact(tok: Token, t: string)
    ensures tok.IsType(t) <==> tok.tokenType == t
    ensures tok.IsType(t) == tok.(value := "", offset := 0, length := 0).IsType(t)
  {
  }

  lemma IsTypeCaseSensitive()
    ensures !Token("html", "T_STRING", 0, 4).IsType("t_string")
    ensures Token("html", "T_STRING", 0, 4).IsType("T_STRING")
  {
    assert "T_STRING"[0] != "t_string"[0];
  }

  // Pattern constants of the catalogue that share their text.
  const T_STAR := "\\*"
  const T_SLASH := "\\/"
  const T_PERCENT_SIGN := "%"
  const T_HYPHEN := "-"
  const T_DOT := "\\."
  const T_DOLLAR := "\\$"
  const T_DECIMAL_POINT := "\\."
  const T_MULTIPLY := "\\*"
  const T_DIVIDE := "\\/"
  const T_MINUS := "-"
  const T_MODULOUS := "%"
  const T_MOD := "%"
  const T_NOT := "!"
  const T_VAR := "\\$"
  const T_EXCLAIMATION_MARK := "!"

  /**
   * These constants are the same pattern text, so as keys of one lexicon they
   * are one rule.
   */
  lemma AliasPatterns()
    ensures T_DOT == T_DECIMAL_POINT
    ensures T_STAR == T_MULTIPLY
    ensures T_SLASH == T_DIVIDE
    ensures T_HYPHEN == T_MINUS
    ensures T_PERCENT_SIGN == T_MODULOUS == T_MOD
    ensures T_DOLLAR == T_VAR
    ensures T_NOT == T_EXCLAIMATION_MARK
  {
  }
}
