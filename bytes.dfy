/**
 * The PHP string built-ins the lexer uses, over byte strings.
 * A `string` here is a byte string: each `char` stands for one byte, so
 * `strlen` is `|s|` and offsets count bytes.
 */
module Bytes {

  const Newline: char := '\n'

  /** `substr_count($s, $c)` for a one-byte needle. */
  function Count(s: string, c: char): (n: nat)
    ensures n <= |s|
    ensures n == 0 <==> c !in s
  {
    if s == [] then 0 else Count(s[..|s| - 1], c) + (if s[|s| - 1] == c then 1 else 0)
  }

  lemma {:induction false} CountAppend(s: string, t: string, c: char)
    ensures Count(s + t, c) == Count(s, c) + Count(t, c)
  {
    if t == [] {
      assert s + t == s;
    } else {
      assert (s + t)[..|s + t| - 1] == s + t[..|t| - 1];
      CountAppend(s, t[..|t| - 1], c);
    }
  }

  /**
   * `strrpos($s, $c)` for a one-byte needle: the index of the last
   * occurrence of `c`, or -1 where PHP returns `false`.
   */
  function LastIndexOf(s: string, c: char): (r: int)
    ensures -1 <= r < |s|
    ensures r >= 0 ==> s[r] == c
    ensures forall k :: r < k < |s| ==> s[k] != c
  {
    if s == [] then -1
    else if s[|s| - 1] == c then |s| - 1
    else LastIndexOf(s[..|s| - 1], c)
  }

  function Min(a: int, b: int): int { if a <= b then a else b }

  /**
   * `substr($s, $start, $length)` for a non-negative start and length, as
   * PHP 8 has it: a start past the end gives the empty string and the length
   * is cut at the end of `s`.
   */
  function Substr(s: string, start: nat, length: nat): (r: string)
    ensures |r| <= length
    ensures start <= |s| ==> r <= s[start..]
    ensures start <= |s| && start + length <= |s| ==> |r| == length
    ensures start <= |s| ==> |r| == Min(length, |s| - start)
    ensures start >= |s| ==> r == []
  {
    s[Min(start, |s|)..Min(start + length, |s|)]
  }

  /** `substr($s, 0, $n)`: the first `n` bytes, or all of `s`. */
  function Prefix(s: string, n: nat): (r: string)
    ensures r <= s
    ensures |r| == Min(n, |s|)
  {
    Substr(s, 0, n)
  }

  /**
   * `str_replace("\n", '\n', $s)`: every newline byte becomes the two bytes
   * backslash and `n`.
   */
  function EscapeNewlines(s: string): (r: string)
    ensures Newline !in r
    ensures |r| == |s| + Count(s, Newline)
    ensures Newline !in s ==> r == s
    ensures s == [Newline] ==> r == "\\n"
  {
    if s == [] then []
    else
      var head := EscapeNewlines(s[..|s| - 1]);
      assert Newline !in s ==> Newline !in s[..|s| - 1];
      if s[|s| - 1] == Newline then head + "\\n" else head + [s[|s| - 1]]
  }

  /** The replacement works byte by byte: escaping distributes over concatenation. */
  lemma {:induction false} EscapeNewlinesAppend(s: string, t: string)
    ensures EscapeNewlines(s + t) == EscapeNewlines(s) + EscapeNewlines(t)
    decreases |t|
  {
    if t == [] {
      assert s + t == s;
    } else {
      var t' := t[..|t| - 1];
      assert (s + t)[..|s + t| - 1] == s + t';
      assert (s + t)[|s + t| - 1] == t[|t| - 1];
      EscapeNewlinesAppend(s, t');
    }
  }

  /** A newline between two bytes becomes backslash and `n` between them. */
  lemma EscapeNewlinesExample()
    ensures EscapeNewlines("a\nb") == "a\\nb"
  {
    EscapeNewlinesAppend("a", "\nb");
    EscapeNewlinesAppend("\n", "b");
    assert "a" + "\nb" == "a\nb" && "\n" + "b" == "\nb";
  }

  /** PHP's `empty()` on a string: true for `""` and for `"0"`. */
  predicate PhpEmpty(s: string) {
    s == "" || s == "0"
  }

  /** Only `""` and `"0"` are empty: `"00"`, `" "` and `"0.0"` are not. */
  lemma PhpEmptyCases()
    ensures PhpEmpty("") && PhpEmpty("0")
    ensures !PhpEmpty("00") && !PhpEmpty(" ") && !PhpEmpty("0.0")
  {
  }

  /** The decimal digit for `d`. */
  function Digit(d: nat): (c: char)
    requires d < 10
    ensures '0' <= c <= '9' && c as int - '0' as int == d
  {
    ('0' as int + d) as char
  }

  /** The decimal text PHP writes when it interpolates a non-negative integer. */
  function NatToString(n: nat): (s: string)
    ensures |s| >= 1
    ensures forall k :: 0 <= k < |s| ==> '0' <= s[k] <= '9'
    ensures n > 0 ==> s[0] != '0'
    decreases n
  {
    if n < 10 then [Digit(n)] else NatToString(n / 10) + [Digit(n % 10)]
  }

  /** Reads back a string of decimal digits. */
  function ParseDecimal(s: string): nat
    requires forall k :: 0 <= k < |s| ==> '0' <= s[k] <= '9'
  {
    if s == [] then 0
    else ParseDecimal(s[..|s| - 1]) * 10 + ((s[|s| - 1] as int) - ('0' as int))
  }

  /** Interpolation loses nothing: the decimal text reads back as the same number. */
  lemma {:induction false} ParseNatToString(n: nat)
    ensures ParseDecimal(NatToString(n)) == n
    decreases n
  {
    if n >= 10 {
      var s := NatToString(n);
      assert s[..|s| - 1] == NatToString(n / 10);
      ParseNatToString(n / 10);
    }
  }

  /** Distinct numbers are written differently. */
  lemma NatToStringInjective(m: nat, n: nat)
    requires NatToString(m) == NatToString(n)
    ensures m == n
  {
    ParseNatToString(m);
    ParseNatToString(n);
  }
}
