/**
 * `Stream`: a cursor over a token sequence. Only the integer `position`
 * moves; every state-changing method has the frame `this`position`, so no
 * method can touch `tokens`.
 */
module Streams {
  import opened Wrappers
  import opened Tokens

  /** `UnexpectedExitException`, raised by `current()` off the ends of the stream. */
  datatype UnexpectedExit = UnexpectedExit {
    function Message(): string { "Token stream ended unexpectedly" }
  }

  /** `$tokens[$i] ?? false`: the token at index `i`, if there is one. */
  function At(ts: seq<Token>, i: int): (r: Option<Token>)
    ensures r.Some? <==> 0 <= i < |ts|
    ensures r.Some? ==> r.value == ts[i]
  {
    if 0 <= i < |ts| then Some(ts[i]) else None
  }

  /** Whether index `i` holds a token of type `t`; false out of bounds. */
  predicate TypeAt(ts: seq<Token>, i: int, t: string) {
    match At(ts, i)
    case Some(tok) => tok.IsType(t)
    case None => false
  }

  /**
   * Where `nextUntil(t)` stops when it starts at `p`: the first index from `p`
   * on whose token has type `t`, or the end of the sequence.
   */
  function UntilIndex(ts: seq<Token>, p: nat, t: string): (q: nat)
    requires p <= |ts|
    ensures p <= q <= |ts|
    ensures forall k :: p <= k < q ==> ts[k].tokenType != t
    ensures q < |ts| ==> ts[q].tokenType == t
    decreases |ts| - p
  {
    if p == |ts| || ts[p].IsType(t) then p else UntilIndex(ts, p + 1, t)
  }

  /** The stop index is the least index from `p` on of type `t`, so it is unique. */
  lemma UntilIndexUnique(ts: seq<Token>, p: nat, t: string, q: nat)
    requires p <= q <= |ts|
    requires forall k :: p <= k < q ==> ts[k].tokenType != t
    requires q < |ts| ==> ts[q].tokenType == t
    ensures UntilIndex(ts, p, t) == q
  {
  }

  class Stream {
    var tokens: seq<Token>
    var position: int

    /** A new stream holds exactly the given tokens, with the cursor at 0. */
    constructor (tokens: seq<Token>)
      ensures this.tokens == tokens && position == 0
    {
      this.tokens := tokens;
      position := 0;
    }

    /** `count()`: the number of tokens, wherever the cursor is. */
    function Count(): (n: nat)
      reads this
      ensures n == |tokens|
    {
      |tokens|
    }

    /** `current()`: the token under the cursor, or `UnexpectedExit` off the ends. */
    function Current(): (r: Result<Token, UnexpectedExit>)
      reads this
      ensures r.Success? <==> 0 <= position < |tokens|
      ensures r.Success? ==> r.value == tokens[position]
    {
      match At(tokens, position)
      case Some(tok) => Success(tok)
      case None => Failure(UnexpectedExit)
    }

    /** `next()`: one step forward, even past the end; the token now under the cursor, if any. */
    method Next() returns (r: Option<Token>)
      modifies this`position
      ensures position == old(position) + 1
      ensures r.Some? <==> 0 <= position < |tokens|
      ensures r.Some? ==> r.value == tokens[position]
    {
      position := position + 1;
      r := At(tokens, position);
    }

    /** `isCurrent(t)`. */
    function IsCurrent(t: string): (b: bool)
      reads this
      ensures b <==> 0 <= position < |tokens| && tokens[position].tokenType == t
    {
      TypeAt(tokens, position, t)
    }

    /** `isNext(t)`. */
    function IsNext(t: string): (b: bool)
      reads this
      ensures b <==> 0 <= position + 1 < |tokens| && tokens[position + 1].tokenType == t
    {
      TypeAt(tokens, position + 1, t)
    }

    /** `isPrev(t)`. */
    function IsPrev(t: string): (b: bool)
      reads this
      ensures b <==> 0 <= position - 1 < |tokens| && tokens[position - 1].tokenType == t
    {
      TypeAt(tokens, position - 1, t)
    }

    /** `hasNext()`. */
    function HasNext(): (b: bool)
      reads this
      ensures b <==> 0 <= position + 1 < |tokens|
    {
      At(tokens, position + 1).Some?
    }

    /**
     * `rewind()`: the cursor goes to -1, before the first token, so `current()`
     * raises until `next()` is called; the stream itself is returned.
     */
    method Rewind() returns (self: Stream)
      modifies this`position
      ensures position == -1 && self == this
      ensures Current().Failure?
      ensures HasNext() <==> |tokens| > 0
    {
      position := -1;
      self := this;
    }

    /**
     * `nextAll()`: from a valid cursor `p`, every token from `p` to the end, with
     * the cursor left at the end; raises, not moving, from an invalid cursor.
     */
    method NextAll() returns (r: Result<seq<Token>, UnexpectedExit>)
      modifies this`position
      ensures !(0 <= old(position) < |tokens|) ==> r == Failure(UnexpectedExit) && position == old(position)
      ensures 0 <= old(position) < |tokens| ==> r == Success(tokens[old(position)..]) && position == |tokens|
    {
      var first := Current();
      if first.Failure? {
        return Failure(first.error);
      }
      ghost var p := position;
      var collected: seq<Token> := [];
      var token: Option<Token> := Some(first.value);
      while token.Some?
        invariant p <= position <= |tokens|
        invariant collected == tokens[p..position]
        invariant token == At(tokens, position)
        decreases |tokens| - position
      {
        collected := collected + [token.value];
        token := Next();
      }
      assert collected == tokens[p..];
      r := Success(collected);
    }

    /**
     * `nextUntil(t)`: from a valid cursor `p`, the tokens before the first one of
     * type `t` at or after `p` (or before the end), with the cursor left on that
     * stop index; raises, not moving, from an invalid cursor.
     */
    method NextUntil(t: string) returns (r: Result<seq<Token>, UnexpectedExit>)
      modifies this`position
      ensures !(0 <= old(position) < |tokens|) ==> r == Failure(UnexpectedExit) && position == old(position)
      ensures 0 <= old(position) < |tokens| ==>
        position == UntilIndex(tokens, old(position), t) && r == Success(tokens[old(position)..position])
    {
      var first := Current();
      if first.Failure? {
        return Failure(first.error);
      }
      ghost var p: nat := position;
      var collected: seq<Token> := [];
      var token: Option<Token> := Some(first.value);
      while token.Some? && token.value.tokenType != t
        invariant p <= position <= |tokens|
        invariant collected == tokens[p..position]
        invariant token == At(tokens, position)
        invariant forall k :: p <= k < position ==> tokens[k].tokenType != t
        decreases |tokens| - position
      {
        collected := collected + [token.value];
        token := Next();
      }
      UntilIndexUnique(tokens, p, t, position);
      r := Success(collected);
    }
  }

  /** `nextUntil` from a token that already has the type returns nothing and stays put. */
  lemma UntilIndexAtMatch(ts: seq<Token>, p: nat, t: string)
    requires p < |ts| && ts[p].tokenType == t
    ensures UntilIndex(ts, p, t) == p && ts[p..UntilIndex(ts, p, t)] == []
  {
  }

  /** With no token of type `t` from `p` on, `nextUntil` collects the rest, like `nextAll`. */
  lemma UntilIndexAbsent(ts: seq<Token>, p: nat, t: string)
    requires p <= |ts|
    requires forall k :: p <= k < |ts| ==> ts[k].tokenType != t
    ensures UntilIndex(ts, p, t) == |ts|
  {
    UntilIndexUnique(ts, p, t, |ts|);
  }
}
