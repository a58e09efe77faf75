/**
 * The lexicon compiler of `Tokenizer::__construct`: an ordered list of
 * (pattern, target) entries becomes one alternation regex in which every
 * named rule is a named capture group.
 */
module Lexicon {
  import opened Wrappers

  /**
   * The value a lexicon entry maps its pattern to. `Str` names a token type;
   * `Null` and `Bool` mark a skip rule; `Int` stands for every other PHP value
   * (integers, floats, arrays), all of which construction refuses.
   */
  datatype Target = Str(name: string) | Null | Bool(b: bool) | Int(n: int)

  /** One lexicon entry: a pattern key and its target. */
  datatype Rule = Rule(pattern: string, target: Target)

  /** A PHP array from pattern to target: ordered, one entry per pattern. */
  type Lexicon = seq<Rule>

  predicate DistinctPatterns(lexicon: Lexicon) {
    forall i, j :: 0 <= i < j < |lexicon| ==> lexicon[i].pattern != lexicon[j].pattern
  }

  const InvalidTargetMessage := "Token type in lexicon can only be a string or an integer"

  predicate IsSkip(t: Target) {
    t.Null? || t.Bool?
  }

  predicate IsValidTarget(t: Target) {
    t.Str? || IsSkip(t)
  }

  /** What `sprintf`'s `%s` writes for a target: null and false write nothing, true writes 1. */
  function FormatTarget(t: Target): (r: string)
    requires IsValidTarget(t)
    ensures t.Str? ==> r == t.name
    ensures t == Null || t == Bool(false) ==> r == ""
    ensures t == Bool(true) ==> r == "1"
  {
    match t
    case Str(s) => s
    case Null => ""
    case Bool(b) => if b then "1" else ""
  }

  /**
   * The alternative one entry contributes. A skip rule formats its target,
   * not its pattern, into the non-capturing group, so the pattern is lost.
   */
  function Alternative(rule: Rule): (r: Result<string, string>)
    ensures rule.target.Str? ==> r == Success("(?P<" + rule.target.name + ">" + rule.pattern + ")")
    ensures rule.target == Null || rule.target == Bool(false) ==> r == Success("(?:)")
    ensures rule.target == Bool(true) ==> r == Success("(?:1)")
    ensures rule.target.Int? ==> r == Failure(InvalidTargetMessage)
  {
    var skip := IsSkip(rule.target);
    assert "(?:" + "" + ")" == "(?:)" && "(?:" + "1" + ")" == "(?:1)";
    if !skip && !rule.target.Str? then Failure(InvalidTargetMessage)
    else if skip then Success("(?:" + FormatTarget(rule.target) + ")")
    else Success("(?P<" + FormatTarget(rule.target) + ">" + rule.pattern + ")")
  }

  /**
   * `array_map` of `Alternative` over the lexicon: one alternative per entry,
   * in lexicon order, or the error of the first entry refused.
   */
  function Alternatives(lexicon: Lexicon): (r: Result<seq<string>, string>)
    ensures r.Success? <==> forall i :: 0 <= i < |lexicon| ==> IsValidTarget(lexicon[i].target)
    ensures r.Success? ==> |r.value| == |lexicon|
    ensures r.Failure? ==> r.error == InvalidTargetMessage
  {
    if lexicon == [] then Success([])
    else
      var init := lexicon[..|lexicon| - 1];
      var last := lexicon[|lexicon| - 1];
      match Alternatives(init)
      case Failure(e) => Failure(e)
      case Success(alts) =>
        match Alternative(last)
        case Failure(e) => Failure(e)
        case Success(alt) => Success(alts + [alt])
  }

  /** Alternative `i` is entry `i`'s: one per entry, in lexicon order. */
  lemma {:induction false} AlternativesAt(lexicon: Lexicon, i: nat)
    requires Alternatives(lexicon).Success? && i < |lexicon|
    ensures Alternative(lexicon[i]) == Success(Alternatives(lexicon).value[i])
    decreases |lexicon|
  {
    if i < |lexicon| - 1 {
      AlternativesAt(lexicon[..|lexicon| - 1], i);
    }
  }

  /** `implode($sep, $xs)`. */
  function Join(sep: string, xs: seq<string>): (r: string)
    ensures xs == [] ==> r == ""
    ensures |xs| == 1 ==> r == xs[0]
    ensures xs != [] ==> xs[0] <= r
  {
    if xs == [] then ""
    else if |xs| == 1 then xs[0]
    else Join(sep, xs[..|xs| - 1]) + sep + xs[|xs| - 1]
  }

  /** Joining two non-empty lists is joining their joins. */
  lemma {:induction false} JoinConcat(sep: string, xs: seq<string>, ys: seq<string>)
    requires xs != [] && ys != []
    ensures Join(sep, xs + ys) == Join(sep, xs) + sep + Join(sep, ys)
    decreases |ys|
  {
    var zs := xs + ys;
    var y := ys[|ys| - 1];
    assert zs[|zs| - 1] == y;
    if |ys| == 1 {
      assert zs[..|zs| - 1] == xs;
      assert Join(sep, ys) == y;
    } else {
      var ys' := ys[..|ys| - 1];
      assert |zs| >= 2 && zs[..|zs| - 1] == xs + ys';
      assert Join(sep, zs) == Join(sep, xs + ys') + sep + y;
      JoinConcat(sep, xs, ys');
      var a, b := Join(sep, xs), Join(sep, ys');
      assert Join(sep, ys) == b + sep + y;
      assert (a + sep + b) + sep + y == a + sep + (b + sep + y);
    }
  }

  /** The compiled regex: the alternation of every entry, anchored with `A`, then the flags. */
  function Compile(lexicon: Lexicon, flags: string): (r: Result<string, string>)
    requires DistinctPatterns(lexicon)
    ensures r.Success? <==> forall i :: 0 <= i < |lexicon| ==> IsValidTarget(lexicon[i].target)
    ensures r.Failure? ==> r.error == InvalidTargetMessage
    ensures r.Success? ==> |r.value| >= 3 + |flags| && r.value[0] == '/'
    ensures r.Success? ==> r.value[|r.value| - |flags| - 2..] == "/A" + flags
  {
    match Alternatives(lexicon)
    case Failure(e) => Failure(e)
    case Success(alts) => Success("/" + Join("|", alts) + "/A" + flags)
  }

  /** A lexicon of one named rule compiles to exactly that named group. */
  lemma CompileSingleNamed(pattern: string, name: string)
    ensures Compile([Rule(pattern, Str(name))], "") == Success("/(?P<" + name + ">" + pattern + ")/A")
  {
    var lexicon := [Rule(pattern, Str(name))];
    var alt := "(?P<" + name + ">" + pattern + ")";
    assert lexicon[..0] == [];
    assert Alternatives(lexicon[..0]) == Success([]);
    assert Alternative(lexicon[0]) == Success(alt);
    assert [] + [alt] == [alt];
    assert Alternatives(lexicon) == Success([alt]);
    assert Join("|", [alt]) == alt;
    assert "/" + alt + "/A" + "" == "/(?P<" + name + ">" + pattern + ")/A";
  }

  /** Alternatives of two lexicons that agree entry by entry are the same. */
  lemma {:induction false} AlternativesPointwise(a: Lexicon, b: Lexicon)
    requires |a| == |b|
    requires forall i :: 0 <= i < |a| ==> Alternative(a[i]) == Alternative(b[i])
    ensures Alternatives(a) == Alternatives(b)
    decreases |a|
  {
    if a != [] {
      AlternativesPointwise(a[..|a| - 1], b[..|b| - 1]);
    }
  }

  /** A skip rule's own pattern never reaches the regex: any other pattern compiles the same. */
  lemma SkipPatternIgnored(lexicon: Lexicon, i: nat, pattern: string, flags: string)
    requires i < |lexicon| && IsSkip(lexicon[i].target)
    requires DistinctPatterns(lexicon)
    requires DistinctPatterns(lexicon[i := Rule(pattern, lexicon[i].target)])
    ensures Compile(lexicon, flags) == Compile(lexicon[i := Rule(pattern, lexicon[i].target)], flags)
  {
    AlternativesPointwise(lexicon, lexicon[i := Rule(pattern, lexicon[i].target)]);
  }

  /** Alternatives of a concatenated lexicon are the concatenated alternatives. */
  lemma {:induction false} AlternativesConcat(a: Lexicon, b: Lexicon)
    requires Alternatives(a).Success? && Alternatives(b).Success?
    ensures Alternatives(a + b) == Success(Alternatives(a).value + Alternatives(b).value)
    decreases |b|
  {
    var ab := a + b;
    if b == [] {
      assert ab == a;
      assert Alternatives(a).value + Alternatives(b).value == Alternatives(a).value;
    } else {
      var b' := b[..|b| - 1];
      var last := b[|b| - 1];
      assert ab[..|ab| - 1] == a + b';
      assert ab[|ab| - 1] == last;
      AlternativesConcat(a, b');
      var alt := Alternative(last).value;
      assert Alternatives(b).value == Alternatives(b').value + [alt];
      assert Alternatives(ab) == Success(Alternatives(a + b').value + [alt]);
      assert Alternatives(a).value + Alternatives(b').value + [alt]
          == Alternatives(a).value + (Alternatives(b').value + [alt]);
    }
  }

  /**
   * Concatenating two non-empty lexicons alternates their regex bodies: the
   * entries of the first are all tried before those of the second.
   */
  lemma CompileConcat(a: Lexicon, b: Lexicon, flags: string)
    requires a != [] && b != []
    requires DistinctPatterns(a + b)
    requires Alternatives(a).Success? && Alternatives(b).Success?
    ensures Compile(a + b, flags) == Success(
      "/" + Join("|", Alternatives(a).value) + "|" + Join("|", Alternatives(b).value) + "/A" + flags)
  {
    var xs, ys := Alternatives(a).value, Alternatives(b).value;
    AlternativesConcat(a, b);
    JoinConcat("|", xs, ys);
    var j1, j2 := Join("|", xs), Join("|", ys);
    assert Compile(a + b, flags) == Success("/" + Join("|", xs + ys) + "/A" + flags);
    assert "/" + (j1 + "|" + j2) + "/A" + flags == "/" + j1 + "|" + j2 + "/A" + flags;
  }
}
