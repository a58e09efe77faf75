# affinity4/Tokenizer in Dafny

A model of the lexer library affinity4/Tokenizer, with proofs about the model.

The library has five parts, and the model keeps them apart:

- **Lexicon compiler** (`Tokenizer::__construct`, module `Lexicon`). An ordered
  lexicon of pattern → target entries becomes one anchored alternation regex.
  A string target becomes the named group `(?P<name>pattern)`. A `null` or
  boolean target is a skip rule. It becomes a non-capturing group that formats
  the *target*, not the pattern, so `null`/`false` give `(?:)` and `true` gives
  `(?:1)`. Any other target aborts construction with "Token type in lexicon can
  only be a string or an integer".
- **Scanner** (`Tokenizer::tokenize` and `getCoordinates`, module
  `Tokenizing`). The `Tokenizer` class holds the compiled regex, the typed
  property `tokens` and whether that property has been assigned yet. The
  regex engine is not modelled: `Tokenize` receives the match sets that
  `preg_match_all(..., PREG_SET_ORDER)` returns. A match set is an ordered list
  of (group key, text) entries.
  - The nested loops turn every entry with a string key and a value PHP does
    not call `empty` into a token at the running offset. They append it to
    `tokens` and advance the offset by its byte length.
  - If the offset then differs from the input length, the call raises
    `TokenizerException`. The exception carries at most 10 bytes of input
    from that offset, with newlines escaped, and the offset's line and column.
  - Otherwise the call returns a new `Stream` over all accumulated tokens.
- **Exception message** (`TokenizerException`, module `Exceptions`). A loop
  builds a caret line of 51 spaces and `^`, under the message
  `Unexpected <text> on line <l>, column <c>.`.
- **Stream** (module `Streams`). The `Stream` class is a cursor `position`
  over a token sequence that no method changes. It offers `count`, `current`
  (which fails off the ends), `next`, the queries `isCurrent`, `isNext`,
  `isPrev` and `hasNext`, `rewind`, and the collecting loops `nextAll` and
  `nextUntil`.
- `Token` (module `Tokens`) is the record they share: value, type, offset and
  length. It comes with `isType` and the pattern constants that are aliases of
  one another.

Strings are byte strings: a Dafny `string` with one `char` per byte, so
`strlen` is `|s|`. `PHP_EOL` is fixed to `"\n"`.

The model follows the code where it and the library's own tests disagree, or
where it does something easy to miss:

- `rewind()` sets the cursor to −1, not 0, so `current()` fails right after it.
  The test at tests/StreamTest.php:340-341 expects a token from `current()`
  right after `rewind()`.
- The `tokens` property is never reset, so tokens accumulate across calls on
  one tokenizer. That includes the tokens of a call that raised.
- A skip rule's match never advances the offset. So any skipped text makes
  `tokenize` raise (`SkipMatchFailsCoverage`).
- A named group that matched `"0"` yields no token, because `empty("0")` holds
  in PHP (`ZeroIsDropped`).
- A call on a fresh tokenizer that appends no token reads an uninitialised
  typed property at `new Stream($this->tokens)`. PHP raises an `Error` there.
  The model returns the outcome `Uninitialised`.

Module layout:

- `wrappers.dfy`: `Option` and `Result`.
- `bytes.dfy`: the PHP string built-ins the core uses.
- `tokens.dfy`, `lexicon.dfy`, `exceptions.dfy`, `stream.dfy` and
  `tokenizer.dfy`: one each for the parts above.

## Model

| member | source | states |
|---|---|---|
| Bytes.Count | src/Tokenizer.php:131 | `substr_count` of one byte: at most the length, and zero exactly when the byte does not occur |
| Bytes.CountAppend | src/Tokenizer.php:131 | the count over a concatenation is the sum of the counts |
| Bytes.LastIndexOf | src/Tokenizer.php:131 | `strrpos`: −1, or an index holding the byte with no occurrence after it |
| Bytes.Substr | src/Tokenizer.php:116 | `substr($s, $start, $len)`: a prefix of the rest from `start` of exactly min(`len`, bytes remaining) bytes, so all of the rest when fewer than `len` remain; empty past the end |
| Bytes.Prefix | src/Tokenizer.php:130 | `substr($text, 0, $offset)`: a prefix of the text of length min(offset, length) |
| Bytes.EscapeNewlines | src/Tokenizer.php:116 | `str_replace("\n", '\n', …)`: no newline is left, the length grows by one per newline, text without newlines is unchanged, and a lone newline becomes the two bytes `\n` |
| Bytes.EscapeNewlinesAppend | src/Tokenizer.php:116 | the replacement works byte by byte: escaping a concatenation concatenates the escaped parts |
| Bytes.EscapeNewlinesExample | src/Tokenizer.php:116 | `"a\nb"` becomes `a`, backslash, `n`, `b`: each newline is replaced in place |
| Bytes.PhpEmpty | src/Tokenizer.php:102 | `empty()` on a string: true for `""` and `"0"` only |
| Bytes.PhpEmptyCases | src/Tokenizer.php:102 | `""` and `"0"` are empty; `"00"`, `" "` and `"0.0"` are not |
| Bytes.NatToString | src/TokenizerException.php:22 | the interpolated decimal text: non-empty, all digits, no leading zero for a positive number |
| Bytes.ParseNatToString | src/TokenizerException.php:22 | the decimal text reads back as the same number |
| Bytes.NatToStringInjective | src/TokenizerException.php:22 | different numbers are written differently |
| Tokens.Token.IsType | src/Token.php:122-125 | `isType(t)`: whether the token's type is `t`; `IsTypeExact` proves it is exactly that |
| Tokens.IsTypeExact | src/Token.php:122-125 | `isType(t)` holds exactly when the type equals `t`, and it depends on the type alone |
| Tokens.IsTypeCaseSensitive | src/Token.php:124 | the comparison is case-sensitive: `T_STRING` is not `t_string` |
| Tokens.AliasPatterns | src/Token.php:18-57 | `T_DOT = T_DECIMAL_POINT`, `T_STAR = T_MULTIPLY`, `T_SLASH = T_DIVIDE`, `T_HYPHEN = T_MINUS`, `T_PERCENT_SIGN = T_MODULOUS = T_MOD`, `T_DOLLAR = T_VAR`, `T_NOT = T_EXCLAIMATION_MARK` |
| Lexicon.FormatTarget | src/Tokenizer.php:50 | `sprintf("%s", $target)` of a skip target: `""` for `null` and `false`, `"1"` for `true`, and a string target's own text |
| Lexicon.Alternative | src/Tokenizer.php:43-51 | a string target gives `(?P<name>pattern)`; `null`/`false` give `(?:)`; `true` gives `(?:1)`; any other target the construction error |
| Lexicon.Alternatives | src/Tokenizer.php:41-52 | the `array_map` succeeds exactly when every target is a string, `null` or a bool; then it has one alternative per entry; otherwise it fails with the construction error |
| Lexicon.AlternativesAt | src/Tokenizer.php:41-52 | alternative `i` is the one entry `i` renders: lexicon order is kept |
| Lexicon.Join | src/Tokenizer.php:54 | `implode`: empty for no parts, the part itself for one, and otherwise starting with the first part |
| Lexicon.JoinConcat | src/Tokenizer.php:54 | `implode` of two non-empty lists is the two implodes joined by the separator |
| Lexicon.Compile | src/Tokenizer.php:39-55 | the regex exists exactly when every target is valid; otherwise the error is the construction message; it starts with `/` and ends with `/A` and the flags |
| Lexicon.CompileSingleNamed | src/Tokenizer.php:49-54 | one named rule compiles to exactly `/(?P<name>pattern)/A` |
| Lexicon.AlternativesPointwise | src/Tokenizer.php:43-52 | lexicons that render entry by entry the same give the same alternatives |
| Lexicon.SkipPatternIgnored | src/Tokenizer.php:49-50 | a skip rule's own pattern never reaches the regex: replacing it compiles to the same regex |
| Lexicon.AlternativesConcat | src/Tokenizer.php:41-52 | the alternatives of a concatenated lexicon are the concatenated alternatives |
| Lexicon.CompileConcat | src/Tokenizer.php:54 | concatenating two lexicons joins their regex bodies with a bar, the first lexicon's entries before the second's |
| Exceptions.IndicatorPosition | src/TokenizerException.php:13-14 | `strlen("$class: Unexpected ")` is 51 |
| Exceptions.Indicator | src/TokenizerException.php:15-20 | the caret line: 52 bytes, 51 spaces then `^` |
| Exceptions.Message | src/TokenizerException.php:22 | the message starts with `Unexpected ` and the text |
| Exceptions.Spaces | src/TokenizerException.php:16-20 | `n` bytes, all spaces |
| Exceptions.NewTokenizerException | src/TokenizerException.php:11-23 | the message is `Unexpected <token> on line <line>, column <col>.`, a newline and the indicator of 51 spaces and `^`; the loop keeps `i` spaces before `^` after `i` steps |
| Exceptions.MessageShape | src/TokenizerException.php:22 | whatever the arguments, the message starts `Unexpected `, holds the text verbatim right after it, and ends with a newline, 51 spaces and `^` |
| Exceptions.MessageDistinguishesLine | src/TokenizerException.php:22 | different lines give different messages |
| Exceptions.MessageDistinguishesColumn | src/TokenizerException.php:22 | different columns give different messages |
| Streams.At | src/Stream.php:104 | `$tokens[$i] ?? false`: a token exactly when `i` is a valid index, and then `tokens[i]` |
| Streams.UntilIndex | src/Stream.php:83-94 | where `nextUntil(t)` from `p` stops: no token of type `t` before it, and a token of type `t` at it unless it is the end |
| Streams.UntilIndexUnique | src/Stream.php:87 | any index with that characterisation is the stop index |
| Streams.UntilIndexAtMatch | src/Stream.php:87 | from a token already of type `t`, the stop index is `p` and nothing is collected |
| Streams.UntilIndexAbsent | src/Stream.php:83-94 | with no token of type `t` from `p` on, the stop index is the end |
| Streams.Stream.constructor | src/Stream.php:23-33 | a new stream holds exactly the given tokens, with the cursor at 0 |
| Streams.Stream.Count | src/Stream.php:40-43 | the number of tokens, read without moving the cursor |
| Streams.Stream.Current | src/Stream.php:50-57 | `tokens[position]` when the cursor is a valid index, and `UnexpectedExitException` otherwise |
| Streams.Stream.Next | src/Stream.php:101-107 | the cursor moves by exactly one, even past the end; the result is the token now under it, or none when that index is invalid; `tokens` is untouched |
| Streams.Stream.IsCurrent | src/Stream.php:116-121 | true exactly when `position` is valid and that token has type `t` |
| Streams.Stream.IsNext | src/Stream.php:130-136 | true exactly when `position + 1` is valid and that token has type `t` |
| Streams.Stream.IsPrev | src/Stream.php:145-151 | true exactly when `position − 1` is valid and that token has type `t` |
| Streams.Stream.HasNext | src/Stream.php:158-163 | true exactly when `position + 1` is a valid index |
| Streams.Stream.Rewind | src/Stream.php:170-175 | the cursor becomes −1 and the stream itself is returned; then `current()` fails and `hasNext()` holds exactly when there is a token |
| Streams.Stream.NextAll | src/Stream.php:64-74 | from a valid cursor `p`: `tokens[p..]`, with the cursor left at the end; from an invalid cursor: the exception, with the cursor unmoved |
| Streams.Stream.NextUntil | src/Stream.php:83-94 | from a valid cursor `p`: `tokens[p..q]`, with the cursor left at the stop index `q`; from an invalid cursor: the exception, with the cursor unmoved |
| Tokenizing.Emits | src/Tokenizer.php:102 | the filter of the inner loop: a string group key and a value PHP does not call empty |
| Tokenizing.Flatten | src/Tokenizer.php:100-101 | the order the two loops visit entries: nothing for no sets, one set's own entries for one set; `FlattenStep` adds the next set after the earlier ones |
| Tokenizing.Scanned | src/Tokenizer.php:99-112 | the tokens one call appends: never more than there are entries; `ScannedTokens` gives their placement |
| Tokenizing.UnexpectedAt | src/Tokenizer.php:115-117 | the exception for a short offset: its message starts `Unexpected ` and the escaped snippet, which holds no newline and at most 20 bytes |
| Tokenizing.Lexemes | src/Tokenizer.php:100-102 | the entries that pass the filter: never more than there are entries |
| Tokenizing.LexemesNonEmpty | src/Tokenizer.php:102 | every lexeme's text is one PHP does not call empty |
| Tokenizing.LexemesConcat | src/Tokenizer.php:100-101 | filtering consecutive entry lists concatenates their lexemes |
| Tokenizing.LexemesNone | src/Tokenizer.php:102 | numeric keys and values `""` or `"0"` leave no lexeme |
| Tokenizing.LexemesAll | src/Tokenizer.php:102 | when every entry passes, entry `i` is lexeme `i` |
| Tokenizing.LexemesSnoc | src/Tokenizer.php:101-102 | one more entry adds its lexeme when it passes the filter, and nothing otherwise |
| Tokenizing.Place | src/Tokenizer.php:103-109 | one token per lexeme |
| Tokenizing.PlaceAt | src/Tokenizer.php:103-107 | token `i` has lexeme `i`'s text as value, its group name as type, its byte length as length, and the total length of the lexemes before it as offset |
| Tokenizing.PlaceSnoc | src/Tokenizer.php:103-109 | one more lexeme appends one token at the end of the text before it |
| Tokenizing.PlaceContiguous | src/Tokenizer.php:99-107 | the first token starts at 0, and each next one where the previous one ends |
| Tokenizing.PlaceEnd | src/Tokenizer.php:107 | the last token ends where the running offset ends |
| Tokenizing.ValuesPlace | src/Tokenizer.php:103-109 | the token values concatenate to the lexeme texts |
| Tokenizing.TextConcat | src/Tokenizer.php:107 | the text of concatenated lexeme lists is the concatenated texts |
| Tokenizing.ScannedTokens | src/Tokenizer.php:99-112 | every token of a call has a non-empty value and length equal to its byte length; the tokens are contiguous from 0; the last ends at the final offset; the values spell the scanned text |
| Tokenizing.SilentSetAddsNothing | src/Tokenizer.php:102 | a match set with no entry passing the filter adds no token and leaves the offset unchanged |
| Tokenizing.ScanOne | src/Tokenizer.php:100-111 | a match set in which one entry passes adds exactly that token, at the offset reached so far, and advances the offset by its length |
| Tokenizing.SetLexeme | src/Tokenizer.php:101-102 | a set in which only entry `i` passes yields exactly that lexeme |
| Tokenizing.ScanningStep | src/Tokenizer.php:102-109 | one entry keeps the loop state: a passing entry appends its token at the running offset and moves the offset; any other changes nothing |
| Tokenizing.FlattenStep | src/Tokenizer.php:100-101 | the outer loop visits the next set's entries after all earlier ones |
| Tokenizing.SetPrefixText | src/Tokenizer.php:101-102 | in a set shaped as the anchored regex produces it, any prefix of the entries contributes nothing or the whole match |
| Tokenizing.SetText | src/Tokenizer.php:101-102 | such a set contributes nothing or its whole match |
| Tokenizing.ScannedWithinMatched | src/Tokenizer.php:99-114 | the final offset never exceeds what the matches consumed; when it equals it, every set contributed its whole match |
| Tokenizing.Coverage | src/Tokenizer.php:114-120 | when the matches tile a prefix of the input and the offset reaches its end, the token values spell the whole input, and each match set's lexemes spell exactly that set's whole match text (an empty match contributes nothing) |
| Tokenizing.SkipMatchFailsCoverage | src/Tokenizer.php:102-114 | a skip rule that consumed text keeps the offset short of the input length, so `tokenize` raises |
| Tokenizing.ZeroIsDropped | src/Tokenizer.php:102 | a group that matched `"0"` yields no token and no offset |
| Tokenizing.GetCoordinates | src/Tokenizer.php:128-132 | line and column are both at least 1 |
| Tokenizing.CoordinatesMeaning | src/Tokenizer.php:128-132 | within the text, the line is one more than the newlines before the offset; the column reaches back to just after the last such newline, or to the start, with no newline in between |
| Tokenizing.ColumnAfterNewline | src/Tokenizer.php:131 | right after a newline the column is 1 |
| Tokenizing.CoordinatesExamples | src/Tokenizer.php:128-132 | `"12a"` at 2 is line 1, column 3; `"a\nb"` at 2 is line 2, column 1 |
| Tokenizing.Tokenizer.constructor | src/Tokenizer.php:26-33 | a tokenizer holds its regex, no tokens, and an unassigned `tokens` property |
| Tokenizing.Tokenizer.Create | src/Tokenizer.php:39-55 | an invalid target raises the construction error and yields no tokenizer; otherwise a fresh tokenizer whose `debug()` is the compiled regex and that has no tokens yet |
| Tokenizing.Tokenizer.Debug | src/Tokenizer.php:77-78 | the default branch returns the stored regex |
| Tokenizing.Tokenizer.ScanEntry | src/Tokenizer.php:101-110 | one entry of the inner loop keeps the loop state for the entries visited so far |
| Tokenizing.Tokenizer.ScanMatchSet | src/Tokenizer.php:101-111 | after one match set, the loop state covers every entry visited, that set's included |
| Tokenizing.Tokenizer.Tokenize | src/Tokenizer.php:92-121 | the call's tokens are appended to `tokens` whether or not it raises. A final offset short of the input length raises the exception for that offset's snippet, line and column. Otherwise it returns a fresh stream over all accumulated tokens at position 0, or `Uninitialised` when none was ever appended |

## Left out

- The PCRE engine: `preg_match_all`, how named groups take part, `/A` anchoring, the modifier flags and which alternative wins. It is a foreign library. `Tokenize` takes its match sets as a parameter. The shape the anchored regex gives them is a hypothesis of `Coverage`, `ScannedWithinMatched` and `SkipMatchFailsCoverage` only.
- `preg_last_error` and the lookup of its constant name: runtime introspection of the regex engine.
- The `DEBUG_ECHO`, `DEBUG_DUMP` and `DEBUG_DUMP_AND_DIE` branches of `debug`: output and process exit. Only the default branch is modelled.
- `PHP_EOL` is fixed to `"\n"`. Of PHP's `Exception` only the message is kept.
- `UnexpectedExitException` is the error variant `UnexpectedExit` of `current()`, `nextAll()` and `nextUntil()`. Its class file holds no logic.
- The rest of the `Token` pattern catalogue: a static table of regex fragments. Only the aliases are stated.
- Multi-byte characters: strings are byte strings, one `char` per byte. `€` and `£` are not used by the core.
- Targets other than a string, `null` or a bool are all represented by `Int`. PHP refuses every one of them the same way.
- Tokenizing.GetCoordinates: takes a non-negative offset. `tokenize` only ever passes one, since the offset is a sum of lengths.
- Tokenizing.Lexemes: its own contract only bounds the length. What it keeps and in what order is stated by `LexemesSnoc`, `LexemesAll`, `LexemesNone` and `LexemesConcat`.
- Lexicon.Compile: requires distinct patterns. A PHP array cannot hold a key twice.
- Stream operations the library's tests call but its source does not define: `skipWhile`, `consumeWhile`, `consumeValueWhile` and `consumeValueUntil`.
- Concurrency: there is none.
