/**
 * Properties of the decoding functions on arbitrary token sequences: how
 * comments, primitives and unexpected tokens are treated in value position,
 * and what the list and object loops do with each kind of token.
 */
module DecodingProperties {
  import opened JsonTokens
  import opened ExpandoDecoding

  /**
   * A comment in value position is skipped: decoding from it is decoding
   * from the next token, and a comment that is the last token is an
   * unexpected end.
   */
  lemma CommentSkipped(toks: seq<Token>, pos: nat)
    requires pos < |toks| && toks[pos].kind == Comment
    ensures DecodeValue(toks, pos) ==
      if pos + 1 == |toks| then Step(Failure(UnexpectedEnd), |toks|) else DecodeValue(toks, pos + 1)
  {
    assert SkipComments(toks, pos) == SkipComments(toks, pos + 1);
  }

  /** Running out of input while skipping comments is an unexpected end. */
  lemma OnlyCommentsLeft(toks: seq<Token>, pos: nat)
    requires pos < |toks|
    requires forall i :: pos <= i < |toks| ==> toks[i].kind == Comment
    ensures DecodeValue(toks, pos) == Step(Failure(UnexpectedEnd), |toks|)
  {
  }

  /** A primitive is returned as its raw value, and the cursor stays on it. */
  lemma PrimitiveReturnedInPlace(toks: seq<Token>, pos: nat)
    requires pos < |toks| && IsPrimitiveToken(toks[pos].kind)
    ensures DecodeValue(toks, pos) == Step(Success(Scalar(toks[pos].value)), pos)
  {
  }

  /**
   * A token that is neither a comment nor the start of a value (EndArray,
   * EndObject, PropertyName, None past the end, ...) is an unexpected token
   * that names its kind, and the cursor stays on it.
   */
  lemma UnexpectedTokenNamed(toks: seq<Token>, pos: int)
    requires InRange(toks, pos)
    requires Kind(toks, pos) != Comment && !StartsValue(Kind(toks, pos))
    ensures DecodeValue(toks, pos) == Step(Failure(UnexpectedToken(Kind(toks, pos))), pos)
  {
  }

  /**
   * Conversely, decoding fails with an unexpected token only on a token
   * that cannot start a value; and it succeeds only on a token that closes
   * the value it returns.
   */
  lemma OutcomeMatchesCursor(toks: seq<Token>, pos: int)
    requires InRange(toks, pos)
    ensures DecodeValue(toks, pos).res.Failure? && DecodeValue(toks, pos).res.error.UnexpectedToken? ==>
      !StartsValue(DecodeValue(toks, pos).res.error.kind)
    ensures DecodeValue(toks, pos).res.Success? ==>
      var c := DecodeValue(toks, pos).cursor;
      0 <= c < |toks| && Closes(DecodeValue(toks, pos).res.value, toks[c])
  {
    ValueReports(toks, pos);
  }

  /** The elements gathered so far stay in front of those decoded later. */
  function PrependItems(acc: seq<Value>, s: Step): Step
  {
    if s.res.Success? && s.res.value.List? then Step(Success(List(acc + s.res.value.items)), s.cursor) else s
  }

  /**
   * ReadList keeps arrival order: decoding with the elements `acc` already
   * gathered yields `acc` followed by what decoding from scratch yields, on
   * the same cursor, and the same failure otherwise.
   */
  lemma {:induction false} ListKeepsArrivalOrder(toks: seq<Token>, cur: int, acc: seq<Value>, more: seq<Value>)
    requires InRange(toks, cur)
    ensures DecodeList(toks, cur, acc + more) == PrependItems(acc, DecodeList(toks, cur, more))
    decreases |toks| - cur
  {
    var next := Next(toks, cur);
    if next == |toks| {
    } else if toks[next].kind == Comment {
      ListKeepsArrivalOrder(toks, next, acc, more);
    } else if toks[next].kind == EndArray {
    } else {
      var e := DecodeValue(toks, next);
      if e.res.Success? {
        assert acc + more + [e.res.value] == acc + (more + [e.res.value]);
        ListKeepsArrivalOrder(toks, e.cursor, acc, more + [e.res.value]);
      }
    }
  }

  /** A comment in a list body is skipped. */
  lemma ListSkipsComment(toks: seq<Token>, cur: int, acc: seq<Value>)
    requires InRange(toks, cur) && 0 <= cur + 1 < |toks| && toks[cur + 1].kind == Comment
    ensures DecodeList(toks, cur, acc) == DecodeList(toks, cur + 1, acc)
  {
  }

  /**
   * Any other token in a list body starts an element; once it decodes, it is
   * appended after those gathered so far and decoding resumes on the token
   * the element ends on.
   */
  lemma ListAppendsElement(toks: seq<Token>, cur: int, acc: seq<Value>, v: Value, end: int)
    requires InRange(toks, cur) && 0 <= cur + 1 < |toks|
    requires toks[cur + 1].kind != Comment && toks[cur + 1].kind != EndArray
    requires DecodeValue(toks, cur + 1) == Step(Success(v), end)
    ensures DecodeList(toks, cur, acc) == DecodeList(toks, end, acc + [v])
  {
  }

  /** An element that fails makes the whole list fail the same way, on the same cursor. */
  lemma ListPropagatesFailure(toks: seq<Token>, cur: int, acc: seq<Value>)
    requires InRange(toks, cur) && 0 <= cur + 1 < |toks|
    requires toks[cur + 1].kind != Comment && toks[cur + 1].kind != EndArray
    requires DecodeValue(toks, cur + 1).res.Failure?
    ensures DecodeList(toks, cur, acc) == DecodeValue(toks, cur + 1)
  {
  }

  /** EndArray closes a list body with the elements gathered so far, on the EndArray. */
  lemma ListClose(toks: seq<Token>, cur: int, acc: seq<Value>)
    requires InRange(toks, cur) && 0 <= cur + 1 < |toks| && toks[cur + 1].kind == EndArray
    ensures DecodeList(toks, cur, acc) == Step(Success(List(acc)), cur + 1)
  {
  }

  /** A list whose input ends before its EndArray is an unexpected end. */
  lemma {:induction false} ListEndsEarly(toks: seq<Token>, cur: int, acc: seq<Value>)
    requires InRange(toks, cur)
    requires forall i :: cur < i < |toks| ==> toks[i].kind == Comment
    ensures DecodeList(toks, cur, acc) == Step(Failure(UnexpectedEnd), |toks|)
    decreases |toks| - cur
  {
    var next := Next(toks, cur);
    if next < |toks| {
      ListEndsEarly(toks, next, acc);
    }
  }

  /** The entries stored so far survive unless a later property of the same name overwrites them. */
  function MergeEntries(acc: map<string, Value>, s: Step): Step
  {
    if s.res.Success? && s.res.value.Map? then Step(Success(Map(acc + s.res.value.entries)), s.cursor) else s
  }

  /**
   * ReadObject only adds and overwrites: decoding with the entries `acc`
   * already stored yields `acc` overwritten by what decoding from scratch
   * yields, so every key the rest of the body does not name keeps its value.
   */
  lemma {:induction false} ObjectOnlyOverwrites(toks: seq<Token>, cur: int, acc: map<string, Value>, more: map<string, Value>)
    requires InRange(toks, cur)
    ensures DecodeObject(toks, cur, acc + more) == MergeEntries(acc, DecodeObject(toks, cur, more))
    decreases |toks| - cur
  {
    var next := Next(toks, cur);
    if next == |toks| {
    } else if toks[next].kind == PropertyName {
      var name := ToText(toks[next].value);
      if name.Some? && next + 1 < |toks| {
        var e := DecodeValue(toks, next + 1);
        if e.res.Success? {
          assert (acc + more)[name.value := e.res.value] == acc + more[name.value := e.res.value];
          ObjectOnlyOverwrites(toks, e.cursor, acc, more[name.value := e.res.value]);
        }
      }
    } else if toks[next].kind == EndObject {
    } else {
      ObjectOnlyOverwrites(toks, next, acc, more);
    }
  }

  /**
   * A property whose name has a text stores its decoded value under that
   * text, replacing any earlier entry of the name, and decoding resumes on
   * the token the value ends on.
   */
  lemma ObjectStoresProperty(toks: seq<Token>, cur: int, acc: map<string, Value>, name: string, v: Value, end: int)
    requires InRange(toks, cur) && 0 <= cur + 2 < |toks|
    requires toks[cur + 1].kind == PropertyName && ToText(toks[cur + 1].value) == Some(name)
    requires DecodeValue(toks, cur + 2) == Step(Success(v), end)
    ensures DecodeObject(toks, cur, acc) == DecodeObject(toks, end, acc[name := v])
  {
  }

  /** A property value that fails makes the whole object fail the same way, on the same cursor. */
  lemma ObjectPropagatesFailure(toks: seq<Token>, cur: int, acc: map<string, Value>)
    requires InRange(toks, cur) && 0 <= cur + 2 < |toks|
    requires toks[cur + 1].kind == PropertyName && toks[cur + 1].value != NullPrim
    requires DecodeValue(toks, cur + 2).res.Failure?
    ensures DecodeObject(toks, cur, acc) == DecodeValue(toks, cur + 2)
  {
  }

  /** EndObject closes an object body with the entries stored so far, on the EndObject. */
  lemma ObjectClose(toks: seq<Token>, cur: int, acc: map<string, Value>)
    requires InRange(toks, cur) && 0 <= cur + 1 < |toks| && toks[cur + 1].kind == EndObject
    ensures DecodeObject(toks, cur, acc) == Step(Success(Map(acc)), cur + 1)
  {
  }

  /** A property name that is the last token is an unexpected end. */
  lemma ObjectNameAtEnd(toks: seq<Token>, cur: int, acc: map<string, Value>)
    requires InRange(toks, cur) && cur + 2 == |toks|
    requires toks[cur + 1].kind == PropertyName && toks[cur + 1].value != NullPrim
    ensures DecodeObject(toks, cur, acc) == Step(Failure(UnexpectedEnd), |toks|)
  {
  }

  /**
   * Inside an object body a comment, and equally a stray token of any kind
   * other than PropertyName and EndObject, is passed over without an error
   * and without changing the entries.
   */
  lemma ObjectPassesOver(toks: seq<Token>, cur: int, acc: map<string, Value>)
    requires InRange(toks, cur) && 0 <= cur + 1 < |toks|
    requires toks[cur + 1].kind != PropertyName && toks[cur + 1].kind != EndObject
    ensures DecodeObject(toks, cur, acc) == DecodeObject(toks, cur + 1, acc)
  {
  }

  /** An object whose input ends before its EndObject is an unexpected end. */
  lemma {:induction false} ObjectEndsEarly(toks: seq<Token>, cur: int, acc: map<string, Value>)
    requires InRange(toks, cur)
    requires forall i :: cur < i < |toks| ==> toks[i].kind != PropertyName && toks[i].kind != EndObject
    ensures DecodeObject(toks, cur, acc) == Step(Failure(UnexpectedEnd), |toks|)
    decreases |toks| - cur
  {
    var next := Next(toks, cur);
    if next < |toks| {
      ObjectEndsEarly(toks, next, acc);
    }
  }
}
