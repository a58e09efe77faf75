/**
 * `Tokenizer`: construction from a lexicon, the debug accessor, error
 * coordinates and `tokenize`, which turns the match sets of the compiled
 * regex into tokens, appends them to the tokenizer's own list and checks that
 * they cover the input.
 *
 * The regex engine is not modelled. `tokenize` receives what
 * `preg_match_all(..., PREG_SET_ORDER)` hands back: one match set per match,
 * each an ordered list of (group key, matched text) entries.
 */
module Tokenizing {
  import opened Wrappers
  import opened Bytes
  import opened Tokens
  import opened Lexicon
  import opened Exceptions
  import opened Streams

  /** A key of a match set: a named group or a group number (0 is the whole match). */
  datatype Key = Name(name: string) | Index(n: int)

  datatype Entry = Entry(key: Key, text: string)

  type MatchSet = seq<Entry>

  /** The filter of the inner loop: a string key and a value PHP does not call empty. */
  predicate Emits(e: Entry) {
    e.key.Name? && !PhpEmpty(e.text)
  }

  /** The entries of all match sets, in the order the nested loops visit them. */
  function Flatten(ms: seq<MatchSet>): (r: seq<Entry>)
    ensures ms == [] ==> r == []
    ensures |ms| == 1 ==> r == ms[0]
  {
    if ms == [] then [] else Flatten(ms[..|ms| - 1]) + ms[|ms| - 1]
  }

  /** An entry that passed the filter: its group name and its text. */
  datatype Lexeme = Lexeme(name: string, text: string)

  function ToLexeme(e: Entry): Lexeme
    requires e.key.Name?
  {
    Lexeme(e.key.name, e.text)
  }

  /** The entries that become tokens, in order. */
  function Lexemes(es: seq<Entry>): (r: seq<Lexeme>)
    ensures |r| <= |es|
  {
    if es == [] then []
    else if Emits(es[|es| - 1]) then Lexemes(es[..|es| - 1]) + [ToLexeme(es[|es| - 1])]
    else Lexemes(es[..|es| - 1])
  }

  /** The texts of a list of lexemes, concatenated. */
  function Text(ls: seq<Lexeme>): string {
    if ls == [] then [] else Text(ls[..|ls| - 1]) + ls[|ls| - 1].text
  }

  /**
   * The tokens built from emitting entries: each one starts where the text of
   * the entries before it ends.
   */
  function Place(ls: seq<Lexeme>): (ts: seq<Token>)
    ensures |ts| == |ls|
  {
    if ls == [] then []
    else
      var l := ls[|ls| - 1];
      Place(ls[..|ls| - 1]) + [Token(l.text, l.name, |Text(ls[..|ls| - 1])|, |l.text|)]
  }

  /** The tokens one `tokenize` call appends. */
  function Scanned(ms: seq<MatchSet>): (r: seq<Token>)
    ensures |r| <= |Flatten(ms)|
  {
    Place(Lexemes(Flatten(ms)))
  }

  /** The text those tokens cover, and (its length) the final `$offset`. */
  function ScannedText(ms: seq<MatchSet>): string {
    Text(Lexemes(Flatten(ms)))
  }

  function ScannedLength(ms: seq<MatchSet>): nat {
    |ScannedText(ms)|
  }

  /** The values of a token list, concatenated. */
  function Values(ts: seq<Token>): string {
    if ts == [] then [] else Values(ts[..|ts| - 1]) + ts[|ts| - 1].value
  }

  /** What a scanned token always satisfies: a value PHP calls non-empty, of the recorded length. */
  predicate WellFormedToken(t: Token) {
    !PhpEmpty(t.value) && t.length == |t.value| && t.offset >= 0
  }

  /** Each token starts where the previous one ends, and the first at 0. */
  predicate Contiguous(ts: seq<Token>) {
    (ts != [] ==> ts[0].offset == 0) &&
    forall i :: 0 <= i < |ts| - 1 ==> ts[i + 1].offset == ts[i].offset + ts[i].length
  }

  // ---------------------------------------------------------------------
  // Facts about the scan functions

  lemma {:induction false} TextConcat(a: seq<Lexeme>, b: seq<Lexeme>)
    ensures Text(a + b) == Text(a) + Text(b)
    decreases |b|
  {
    if b == [] {
      assert a + b == a;
    } else {
      assert (a + b)[..|a + b| - 1] == a + b[..|b| - 1];
      TextConcat(a, b[..|b| - 1]);
    }
  }

  /** Every lexeme has a text PHP does not call empty. */
  lemma {:induction false} LexemesNonEmpty(es: seq<Entry>)
    ensures forall i :: 0 <= i < |Lexemes(es)| ==> !PhpEmpty(Lexemes(es)[i].text)
  {
    if es != [] {
      LexemesNonEmpty(es[..|es| - 1]);
    }
  }

  /** Filtering distributes over concatenation. */
  lemma {:induction false} LexemesConcat(a: seq<Entry>, b: seq<Entry>)
    ensures Lexemes(a + b) == Lexemes(a) + Lexemes(b)
    decreases |b|
  {
    if b == [] {
      assert a + b == a;
    } else {
      assert (a + b)[..|a + b| - 1] == a + b[..|b| - 1];
      LexemesConcat(a, b[..|b| - 1]);
    }
  }

  /**
   * Entries that do not emit leave no token: numeric keys, named groups that
   * matched `""` or `"0"`.
   */
  lemma {:induction false} LexemesNone(es: seq<Entry>)
    requires forall i :: 0 <= i < |es| ==> !Emits(es[i])
    ensures Lexemes(es) == []
  {
    if es != [] {
      LexemesNone(es[..|es| - 1]);
    }
  }

  /** When every entry emits, every entry becomes a token. */
  lemma {:induction false} LexemesAll(es: seq<Entry>)
    requires forall i :: 0 <= i < |es| ==> Emits(es[i])
    ensures |Lexemes(es)| == |es|
    ensures forall i :: 0 <= i < |es| ==> es[i].key.Name? && Lexemes(es)[i] == ToLexeme(es[i])
  {
    if es != [] {
      LexemesAll(es[..|es| - 1]);
    }
  }

  /** Token `i` is entry `i`: its text, its group name, its length, at the text length before it. */
  lemma {:induction false} PlaceAt(ls: seq<Lexeme>, i: nat)
    requires i < |ls|
    ensures Place(ls)[i] == Token(ls[i].text, ls[i].name, |Text(ls[..i])|, |ls[i].text|)
  {
    var init := ls[..|ls| - 1];
    if i < |ls| - 1 {
      PlaceAt(init, i);
      assert init[..i] == ls[..i];
    }
  }

  lemma {:induction false} ValuesPlace(ls: seq<Lexeme>)
    ensures Values(Place(ls)) == Text(ls)
  {
    if ls != [] {
      var ts := Place(ls);
      assert ts[..|ts| - 1] == Place(ls[..|ls| - 1]);
      ValuesPlace(ls[..|ls| - 1]);
    }
  }

  /** Placed tokens start at 0 and each next one starts where the previous one ends. */
  lemma PlaceContiguous(ls: seq<Lexeme>)
    ensures Contiguous(Place(ls))
  {
    var ts := Place(ls);
    if ts != [] {
      PlaceAt(ls, 0);
      assert ls[..0] == [];
    }
    forall i | 0 <= i < |ts| - 1
      ensures ts[i + 1].offset == ts[i].offset + ts[i].length
    {
      PlaceAt(ls, i);
      PlaceAt(ls, i + 1);
      assert ls[..i + 1][..i] == ls[..i];
    }
  }

  /** The last placed token ends where the text ends. */
  lemma PlaceEnd(ls: seq<Lexeme>)
    requires ls != []
    ensures var ts := Place(ls); ts[|ts| - 1].offset + ts[|ts| - 1].length == |Text(ls)|
  {
    PlaceAt(ls, |ls| - 1);
  }

  /**
   * The tokens of one call: each has a non-empty value of the recorded length;
   * the first starts at 0 and each next one where the previous one ends; the
   * last ends at the final offset; their values concatenate to the scanned text.
   */
  lemma ScannedTokens(ms: seq<MatchSet>)
    ensures var ts := Scanned(ms);
      (forall i :: 0 <= i < |ts| ==> WellFormedToken(ts[i])) &&
      Contiguous(ts) &&
      (ts != [] ==> ts[|ts| - 1].offset + ts[|ts| - 1].length == ScannedLength(ms)) &&
      Values(ts) == ScannedText(ms)
  {
    var ls := Lexemes(Flatten(ms));
    var ts := Scanned(ms);
    LexemesNonEmpty(Flatten(ms));
    forall i | 0 <= i < |ts|
      ensures WellFormedToken(ts[i])
    {
      PlaceAt(ls, i);
    }
    PlaceContiguous(ls);
    if ts != [] {
      PlaceEnd(ls);
    }
    ValuesPlace(ls);
  }

  /** A match set that emits nothing (a skip match, or `""`/`"0"` values) adds no token and no offset. */
  lemma SilentSetAddsNothing(ms: seq<MatchSet>, m: MatchSet)
    requires forall j :: 0 <= j < |m| ==> !Emits(m[j])
    ensures Scanned(ms + [m]) == Scanned(ms)
    ensures ScannedLength(ms + [m]) == ScannedLength(ms)
  {
    var all := ms + [m];
    assert all[..|all| - 1] == ms;
    LexemesConcat(Flatten(ms), m);
    LexemesNone(m);
    assert Lexemes(Flatten(ms)) + [] == Lexemes(Flatten(ms));
  }

  /** One step of the inner loop: an entry that emits adds its lexeme, any other adds nothing. */
  lemma LexemesSnoc(done: seq<Entry>, e: Entry)
    ensures Lexemes(done + [e]) == if Emits(e) then Lexemes(done) + [ToLexeme(e)] else Lexemes(done)
  {
    assert (done + [e])[..|done|] == done;
  }

  /** A lexeme added at the end becomes a token at the end of the text before it. */
  lemma PlaceSnoc(ls: seq<Lexeme>, l: Lexeme)
    ensures Place(ls + [l]) == Place(ls) + [Token(l.text, l.name, |Text(ls)|, |l.text|)]
    ensures Text(ls + [l]) == Text(ls) + l.text
  {
    assert (ls + [l])[..|ls|] == ls;
  }
  /**
   * The state of `tokenize` after visiting the entries `done`: the tokens
   * after the ones already there, the running offset, and whether any token
   * was ever appended.
   */
  ghost predicate Scanning(tokens: seq<Token>, offset: int, initialised: bool,
                           prior: seq<Token>, wasInitialised: bool, done: seq<Entry>)
  {
    tokens == prior + Place(Lexemes(done)) &&
    offset == |Text(Lexemes(done))| &&
    initialised == (wasInitialised || Lexemes(done) != [])
  }

  /** One entry of the inner loop keeps the scan state. */
  lemma ScanningStep(tokens: seq<Token>, offset: int, initialised: bool,
                     prior: seq<Token>, wasInitialised: bool, done: seq<Entry>, e: Entry)
    requires Scanning(tokens, offset, initialised, prior, wasInitialised, done)
    ensures Emits(e) ==> Scanning(tokens + [Token(e.text, e.key.name, offset, |e.text|)],
                                   offset + |e.text|, true, prior, wasInitialised, done + [e])
    ensures !Emits(e) ==> Scanning(tokens, offset, initialised, prior, wasInitialised, done + [e])
  {
    LexemesSnoc(done, e);
    if Emits(e) {
      PlaceSnoc(Lexemes(done), ToLexeme(e));
    }
  }


  /** One step of the outer loop: the next match set's entries follow the earlier ones. */
  lemma FlattenStep(ms: seq<MatchSet>, k: nat)
    requires k < |ms|
    ensures Flatten(ms[..k + 1]) == Flatten(ms[..k]) + ms[k]
  {
    assert ms[..k + 1][..k] == ms[..k];
  }

  // ---------------------------------------------------------------------
  // Coverage, for match sets shaped as the compiled regex produces them

  /**
   * A match set as the compiled regex yields it: entry 0 is the whole match;
   * a named group either did not take part (`""`) or matched the whole match,
   * its group being a whole alternative; at most one named entry emits.
   */
  predicate WellFormedSet(m: MatchSet) {
    && m != []
    && m[0].key == Index(0)
    && (forall i :: 0 <= i < |m| && m[i].key.Name? ==> m[i].text == "" || m[i].text == m[0].text)
    && (forall i, j :: 0 <= i < |m| && 0 <= j < |m| && Emits(m[i]) && Emits(m[j]) ==> i == j)
  }

  /** The whole-match texts, concatenated: what the anchored matches consumed. */
  function MatchedText(ms: seq<MatchSet>): string
    requires forall i :: 0 <= i < |ms| ==> WellFormedSet(ms[i])
  {
    if ms == [] then []
    else
      var m := ms[|ms| - 1];
      assert WellFormedSet(m);
      MatchedText(ms[..|ms| - 1]) + m[0].text
  }

  lemma {:induction false} SetPrefixText(m: MatchSet, j: nat)
    requires WellFormedSet(m) && j <= |m|
    ensures Text(Lexemes(m[..j])) == "" || Text(Lexemes(m[..j])) == m[0].text
  {
    if j > 0 {
      var es := m[..j - 1];
      var e := m[j - 1];
      assert m[..j][..j - 1] == es;
      if Emits(e) {
        assert forall i :: 0 <= i < j - 1 ==> !Emits(m[i]);
        LexemesNone(es);
        assert Lexemes(m[..j]) == [ToLexeme(e)];
        assert [ToLexeme(e)][..0] == [];
      } else {
        SetPrefixText(m, j - 1);
      }
    }
  }

  /** One well-formed set contributes its whole match or nothing. */
  lemma SetText(m: MatchSet)
    requires WellFormedSet(m)
    ensures Text(Lexemes(m)) == "" || Text(Lexemes(m)) == m[0].text
  {
    SetPrefixText(m, |m|);
    assert m[..|m|] == m;
  }

  lemma {:induction false} ScannedWithinMatched(ms: seq<MatchSet>)
    requires forall i :: 0 <= i < |ms| ==> WellFormedSet(ms[i])
    ensures |ScannedText(ms)| <= |MatchedText(ms)|
    ensures |ScannedText(ms)| == |MatchedText(ms)| ==>
      ScannedText(ms) == MatchedText(ms) &&
      forall i :: 0 <= i < |ms| ==> Text(Lexemes(ms[i])) == ms[i][0].text
  {
    if ms != [] {
      var init := ms[..|ms| - 1];
      var m := ms[|ms| - 1];
      ScannedWithinMatched(init);
      LexemesConcat(Flatten(init), m);
      TextConcat(Lexemes(Flatten(init)), Lexemes(m));
      SetText(m);
      assert ScannedText(ms) == ScannedText(init) + Text(Lexemes(m));
      if |ScannedText(ms)| == |MatchedText(ms)| {
        assert |ScannedText(init)| == |MatchedText(init)|;
        assert Text(Lexemes(m)) == m[0].text;
        forall i | 0 <= i < |ms|
          ensures Text(Lexemes(ms[i])) == ms[i][0].text
        {
          if i < |init| {
            assert ms[i] == init[i];
          }
        }
      }
    }
  }

  /**
   * Coverage: when the matches tile a prefix of the input and the scan reaches
   * the end of the input, the token values concatenate to the whole input and
   * every match set produced one token for its whole match.
   */
  lemma Coverage(input: string, ms: seq<MatchSet>)
    requires forall i :: 0 <= i < |ms| ==> WellFormedSet(ms[i])
    requires MatchedText(ms) <= input
    requires ScannedLength(ms) == |input|
    ensures Values(Scanned(ms)) == input
    ensures forall i :: 0 <= i < |ms| ==> Text(Lexemes(ms[i])) == ms[i][0].text
  {
    ScannedWithinMatched(ms);
    ScannedTokens(ms);
  }

  /**
   * A skip rule's match never advances the offset, so once a skip rule has
   * consumed text the scan cannot reach the end of the input.
   */
  lemma SkipMatchFailsCoverage(input: string, ms: seq<MatchSet>, i: nat)
    requires forall k :: 0 <= k < |ms| ==> WellFormedSet(ms[k])
    requires MatchedText(ms) <= input
    requires i < |ms| && ms[i][0].text != ""
    requires forall j :: 0 <= j < |ms[i]| ==> !Emits(ms[i][j])
    ensures ScannedLength(ms) < |input|
  {
    LexemesNone(ms[i]);
    ScannedWithinMatched(ms);
  }

  /** A rule that matches `"0"` emits no token, as `empty("0")` holds. */
  lemma ZeroIsDropped(name: string)
    ensures var ms := [[Entry(Index(0), "0"), Entry(Name(name), "0"), Entry(Index(1), "0")]];
      Scanned(ms) == [] && ScannedLength(ms) == 0
  {
    var m := [Entry(Index(0), "0"), Entry(Name(name), "0"), Entry(Index(1), "0")];
    LexemesNone(m);
    assert [m][..0] == [];
    assert Flatten([m]) == m;
  }

  /**
   * A match set in which exactly one entry emits adds exactly one token: that
   * entry's text and group name, at the offset reached so far.
   */
  lemma ScanOne(ms: seq<MatchSet>, m: MatchSet, i: nat)
    requires i < |m| && Emits(m[i])
    requires forall j :: 0 <= j < |m| && j != i ==> !Emits(m[j])
    ensures Scanned(ms + [m]) == Scanned(ms) + [Token(m[i].text, m[i].key.name, ScannedLength(ms), |m[i].text|)]
    ensures ScannedLength(ms + [m]) == ScannedLength(ms) + |m[i].text|
  {
    var all := ms + [m];
    assert all[..|all| - 1] == ms;
    var ls := Lexemes(Flatten(ms));
    LexemesConcat(Flatten(ms), m);
    SetLexeme(m, i);
    var l := ToLexeme(m[i]);
    assert Lexemes(Flatten(all)) == ls + [l];
    assert (ls + [l])[..|ls|] == ls;
  }

  /** A set in which only entry `i` emits contributes exactly that entry. */
  lemma SetLexeme(m: MatchSet, i: nat)
    requires i < |m| && Emits(m[i])
    requires forall j :: 0 <= j < |m| && j != i ==> !Emits(m[j])
    ensures Lexemes(m) == [ToLexeme(m[i])]
  {
    var a, b := m[..i], m[i + 1..];
    assert m == a + [m[i]] + b;
    LexemesConcat(a + [m[i]], b);
    LexemesNone(a);
    LexemesNone(b);
    LexemesSnoc(a, m[i]);
    assert Lexemes(a) + [ToLexeme(m[i])] == [ToLexeme(m[i])];
  }

  // ---------------------------------------------------------------------
  // Error location

  datatype Coordinates = Coordinates(line: nat, column: nat)

  /**
   * `getCoordinates`: the line is one more than the newlines before `offset`;
   * the column is measured from the last of them, via `strrpos` on the prefix
   * with a newline put in front.
   */
  function GetCoordinates(text: string, offset: nat): (r: Coordinates)
    ensures r.line >= 1 && r.column >= 1
  {
    var prefix := Prefix(text, offset);
    Coordinates(Count(prefix, Newline) + 1, offset - LastIndexOf([Newline] + prefix, Newline) + 1)
  }

  /**
   * Within the text, the column is the distance back to the last newline (or
   * to just before the start), and the line counts the newlines before.
   */
  lemma CoordinatesMeaning(text: string, offset: nat)
    requires offset <= |text|
    ensures var c := GetCoordinates(text, offset);
      c.line == Count(text[..offset], Newline) + 1 &&
      1 <= c.column <= offset + 1 &&
      (forall k :: offset - c.column < k < offset ==> text[k] != Newline) &&
      (c.column == offset + 1 || text[offset - c.column] == Newline)
  {
    var prefix := Prefix(text, offset);
    assert prefix == text[..offset];
    var padded := [Newline] + prefix;
    var last := LastIndexOf(padded, Newline);
    assert last >= 0 by { assert padded[0] == Newline; }
    forall k | last - 1 < k < offset
      ensures text[k] != Newline
    {
      assert padded[k + 1] == text[k];
    }
    if last > 0 {
      assert padded[last] == text[last - 1];
    }
  }

  /** Right after a newline the column is 1. */
  lemma ColumnAfterNewline(text: string, offset: nat)
    requires 0 < offset <= |text| && text[offset - 1] == Newline
    ensures GetCoordinates(text, offset).column == 1
  {
    CoordinatesMeaning(text, offset);
  }

  /** Scanning `"12a"` with only a number rule stops at the `a`: line 1, column 3. */
  lemma CoordinatesExamples()
    ensures GetCoordinates("12a", 2) == Coordinates(1, 3)
    ensures GetCoordinates("a\nb", 2) == Coordinates(2, 1)
  {
    assert Prefix("12a", 2) == "12";
    assert Prefix("a\nb", 2) == "a\n";
    assert "12"[..1] == "1" && "1"[..0] == "";
    assert "a\n"[..1] == "a" && "a"[..0] == "";
    assert ([Newline] + "a\n")[..2] == "\na";
    assert ([Newline] + "12")[..2] == "\n1" && "\n1"[..1] == "\n";
    assert LastIndexOf("\n", Newline) == 0;
    assert LastIndexOf("\n1", Newline) == 0;
    assert LastIndexOf([Newline] + "12", Newline) == 0;
    assert Count("12", Newline) == 0;
  }

  /** The exception `tokenize` raises when the scan stops at `offset`. */
  function UnexpectedAt(input: string, offset: nat): (r: TokenizerException)
    ensures var snippet := EscapeNewlines(Substr(input, offset, 10));
      "Unexpected " + snippet <= r.message && Newline !in snippet && |snippet| <= 20
  {
    var c := GetCoordinates(input, offset);
    TokenizerException(Message(EscapeNewlines(Substr(input, offset, 10)), c.line, c.column))
  }

  /** What `tokenize` gives back: a stream, the `TokenizerException`, or PHP's uninitialised-property error. */
  datatype Outcome = Streamed(stream: Stream) | Unexpected(exception: TokenizerException) | Uninitialised

  class Tokenizer {
    const regex: string
    /** The typed property `$tokens`; it is never reset, so it accumulates across calls. */
    var tokens: seq<Token>
    /** Whether `$tokens` has been assigned; a typed property starts uninitialised. */
    var initialised: bool

    constructor (regex: string)
      ensures this.regex == regex && tokens == [] && !initialised
    {
      this.regex := regex;
      tokens := [];
      initialised := false;
    }

    /** `__construct($lexicon, $flags)`: compiles the lexicon, or raises and yields no tokenizer. */
    static method Create(lexicon: Lexicon, flags: string) returns (r: Result<Tokenizer, string>)
      requires DistinctPatterns(lexicon)
      ensures Compile(lexicon, flags).Failure? ==> r == Failure(InvalidTargetMessage)
      ensures Compile(lexicon, flags).Success? ==>
        r.Success? && fresh(r.value) && r.value.Debug() == Compile(lexicon, flags).value &&
        r.value.tokens == [] && !r.value.initialised
    {
      match Compile(lexicon, flags)
      case Failure(e) =>
        r := Failure(e);
      case Success(regex) =>
        var t := new Tokenizer(regex);
        r := Success(t);
    }

    /** `debug()` in its default branch: the compiled regex. */
    function Debug(): (r: string)
      ensures r == regex
    {
      regex
    }

    /**
     * One entry of a match set, in the inner loop of `tokenize`: an entry
     * with a string key and a non-empty value becomes a token at the running
     * offset, appended to `tokens`, and the offset moves past it.
     */
    method ScanEntry(entry: Entry, offset0: nat, ghost done: seq<Entry>,
                     ghost prior: seq<Token>, ghost wasInitialised: bool) returns (offset: nat)
      requires Scanning(tokens, offset0, initialised, prior, wasInitialised, done)
      modifies this`tokens, this`initialised
      ensures Scanning(tokens, offset, initialised, prior, wasInitialised, done + [entry])
    {
      offset := offset0;
      ScanningStep(tokens, offset, initialised, prior, wasInitialised, done, entry);
      if entry.key.Name? && !PhpEmpty(entry.text) {
        var length := |entry.text|;
        tokens := tokens + [Token(entry.text, entry.key.name, offset, length)];
        offset := offset + length;
        initialised := true;
      }
    }

    /** The inner loop of `tokenize` over one match set: every entry, in order. */
    method ScanMatchSet(matchSet: MatchSet, offset0: nat, ghost done0: seq<Entry>,
                        ghost prior: seq<Token>, ghost wasInitialised: bool) returns (offset: nat)
      requires Scanning(tokens, offset0, initialised, prior, wasInitialised, done0)
      modifies this`tokens, this`initialised
      ensures Scanning(tokens, offset, initialised, prior, wasInitialised, done0 + matchSet)
    {
      offset := offset0;
      assert done0 + matchSet[..0] == done0;
      for j := 0 to |matchSet|
        invariant Scanning(tokens, offset, initialised, prior, wasInitialised, done0 + matchSet[..j])
      {
        assert done0 + matchSet[..j + 1] == (done0 + matchSet[..j]) + [matchSet[j]] by {
          assert matchSet[..j + 1] == matchSet[..j] + [matchSet[j]];
        }
        offset := ScanEntry(matchSet[j], offset, done0 + matchSet[..j], prior, wasInitialised);
      }
      assert matchSet[..|matchSet|] == matchSet;
    }

    /**
     * `tokenize($input)`, given the match sets the regex produced on `input`.
     * The tokens of this call are appended to `tokens` before the coverage
     * check, so they stay even when the call raises.
     */
    method Tokenize(input: string, matches: seq<MatchSet>) returns (r: Outcome)
      modifies this
      ensures tokens == old(tokens) + Scanned(matches)
      ensures initialised == (old(initialised) || Scanned(matches) != [])
      ensures ScannedLength(matches) != |input| ==> r == Unexpected(UnexpectedAt(input, ScannedLength(matches)))
      ensures ScannedLength(matches) == |input| && !initialised ==> r == Uninitialised
      ensures ScannedLength(matches) == |input| && initialised ==>
        r.Streamed? && fresh(r.stream) && r.stream.tokens == tokens && r.stream.position == 0
    {
      ghost var prior, wasInitialised := tokens, initialised;
      var offset: nat := 0;
      ghost var done: seq<Entry> := [];
      var k := 0;
      assert Scanning(tokens, offset, initialised, prior, wasInitialised, done) by {
        assert prior + [] == prior;
      }
      while k < |matches|
        invariant 0 <= k <= |matches| && done == Flatten(matches[..k])
        invariant Scanning(tokens, offset, initialised, prior, wasInitialised, done)
      {
        FlattenStep(matches, k);
        offset := ScanMatchSet(matches[k], offset, done, prior, wasInitialised);
        done := done + matches[k];
        k := k + 1;
      }
      assert matches[..|matches|] == matches;

      if offset != |input| {
        var c := GetCoordinates(input, offset);
        var snippet := EscapeNewlines(Substr(input, offset, 10));
        var e := NewTokenizerException(snippet, c.line, c.column);
        return Unexpected(e);
      }
      if !initialised {
        return Uninitialised;
      }
      var s := new Stream(tokens);
      r := Streamed(s);
    }
  }
}
