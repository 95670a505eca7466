/**
 * The reader the converter pulls tokens from, reduced to a fixed sequence of
 * already classified tokens and a cursor into it.
 */
module JsonReading {
  import opened JsonTokens

  class TokenReader {
    /** The tokens the reader will report, in order. */
    const tokens: seq<Token>
    /** The current token's index: -1 before the first Read(), |tokens| once exhausted. */
    var pos: int

    ghost predicate Valid()
      reads this
    {
      -1 <= pos <= |tokens|
    }

    /** A reader positioned before its first token. */
    constructor (tokens: seq<Token>)
      ensures Valid()
      ensures this.tokens == tokens && pos == -1
    {
      this.tokens := tokens;
      pos := -1;
    }

    /** TokenType: the kind of the current token, None outside the tokens. */
    function TokenType(): (k: JsonToken)
      reads this
      ensures 0 <= pos < |tokens| ==> k == tokens[pos].kind
      ensures !(0 <= pos < |tokens|) ==> k == None
    {
      Kind(tokens, pos)
    }

    /** Value: the raw value of the current token, null outside the tokens. */
    function Value(): (v: Prim)
      reads this
      ensures 0 <= pos < |tokens| ==> v == tokens[pos].value
      ensures !(0 <= pos < |tokens|) ==> v == NullPrim
    {
      if 0 <= pos < |tokens| then tokens[pos].value else NullPrim
    }

    /**
     * Read: move to the next token and report whether there is one. Once the
     * tokens are exhausted the cursor stays past the last one.
     */
    method Read() returns (more: bool)
      requires Valid()
      modifies this
      ensures Valid()
      ensures pos == if old(pos) < |tokens| then old(pos) + 1 else old(pos)
      ensures more <==> pos < |tokens|
    {
      if pos < |tokens| {
        pos := pos + 1;
      }
      more := pos < |tokens|;
    }
  }
}
