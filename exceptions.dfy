/**
 * `TokenizerException`: the message raised when the scan does not reach the
 * end of the input, with a caret line under it.
 */
module Exceptions {
  import opened Bytes

  /** The exception; of PHP's `Exception` only the message is kept. */
  datatype TokenizerException = TokenizerException(message: string)

  /** The fully qualified class name, `self::class`. */
  const ClassName := "Affinity4\\Tokenizer\\TokenizerException"

  /** The width of `"<class>: Unexpected "`, where the caret is placed. */
  function IndicatorPosition(): (n: nat)
    ensures n == 51
  {
    |ClassName + ": Unexpected "|
  }

  /** `n` spaces. */
  function Spaces(n: nat): (s: string)
    ensures |s| == n
    ensures forall k :: 0 <= k < n ==> s[k] == ' '
  {
    if n == 0 then "" else " " + Spaces(n - 1)
  }

  /** The caret line: `IndicatorPosition()` spaces, then `^`. */
  function Indicator(): (r: string)
    ensures |r| == 52 && r[51] == '^'
    ensures forall k :: 0 <= k < 51 ==> r[k] == ' '
  {
    Spaces(IndicatorPosition()) + "^"
  }

  /** The message for offending text `token` at `line`, `col`, with `PHP_EOL` as `"\n"`. */
  function Message(token: string, line: nat, col: nat): (m: string)
    ensures "Unexpected " + token <= m
  {
    "Unexpected " + token + " on line " + NatToString(line) + ", column " + NatToString(col) + "." + "\n" + Indicator()
  }

  /**
   * The constructor's loop: it prepends one space to `"^"` per step, once for
   * every byte of `"<class>: Unexpected "`, then formats the message.
   */
  method NewTokenizerException(token: string, line: nat, col: nat) returns (e: TokenizerException)
    ensures e.message == Message(token, line, col)
  {
    var indicatorPosition := |ClassName + ": Unexpected "|;
    var i := 0;
    var indicator := "^";
    while i < indicatorPosition
      invariant 0 <= i <= indicatorPosition
      invariant indicator == Spaces(i) + "^"
    {
      indicator := " " + indicator;
      i := i + 1;
    }
    e := TokenizerException("Unexpected " + token + " on line " + NatToString(line)
      + ", column " + NatToString(col) + "." + "\n" + indicator);
  }

  /**
   * The message ends with a newline, 51 spaces and a caret, whatever the text,
   * line and column; the text stands verbatim right after "Unexpected ".
   */
  lemma MessageShape(token: string, line: nat, col: nat)
    ensures var m := Message(token, line, col);
      |m| > 53 + |token| &&
      m[..11] == "Unexpected " &&
      m[11..11 + |token|] == token &&
      m[|m| - 53] == '\n' &&
      (forall k :: |m| - 52 <= k < |m| - 1 ==> m[k] == ' ') &&
      m[|m| - 1] == '^'
  {
    var m := Message(token, line, col);
    var tail := "\n" + Indicator();
    var head := "Unexpected " + token + " on line " + NatToString(line) + ", column " + NatToString(col) + ".";
    assert m == head + tail;
    assert |tail| == 53;
    assert forall k :: |m| - 53 <= k < |m| ==> m[k] == tail[k - |head|];
  }

  /** Different lines give different messages for the same text and column. */
  lemma MessageDistinguishesLine(token: string, line1: nat, line2: nat, col: nat)
    requires line1 != line2
    ensures Message(token, line1, col) != Message(token, line2, col)
  {
    var m1, m2 := Message(token, line1, col), Message(token, line2, col);
    var s1, s2 := NatToString(line1), NatToString(line2);
    var n := |"Unexpected " + token + " on line "|;
    if m1 == m2 {
      assert |s1| == |s2|;
      forall k | 0 <= k < |s1|
        ensures s1[k] == s2[k]
      {
        assert s1[k] == m1[n + k];
        assert s2[k] == m2[n + k];
      }
      assert s1 == s2;
      NatToStringInjective(line1, line2);
    }
  }

  /** Different columns give different messages for the same text and line. */
  lemma MessageDistinguishesColumn(token: string, line: nat, col1: nat, col2: nat)
    requires col1 != col2
    ensures Message(token, line, col1) != Message(token, line, col2)
  {
    var m1, m2 := Message(token, line, col1), Message(token, line, col2);
    var s1, s2 := NatToString(col1), NatToString(col2);
    var n := |"Unexpected " + token + " on line " + NatToString(line) + ", column "|;
    if m1 == m2 {
      assert |s1| == |s2|;
      forall k | 0 <= k < |s1|
        ensures s1[k] == s2[k]
      {
        assert s1[k] == m1[n + k];
        assert s2[k] == m2[n + k];
      }
      assert s1 == s2;
      NatToStringInjective(col1, col2);
    }
  }
}
