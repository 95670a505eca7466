/**
 * What the converter computes, stated as functions of the token sequence and
 * the reader's cursor. A cursor is an index into the token sequence: -1
 * before the first token, |toks| once the input is exhausted, and otherwise
 * the index of the reader's current token. Every function returns the
 * outcome together with the cursor the reader is left on.
 */
module ExpandoDecoding {
  import opened JsonTokens

  /** The dynamic value the converter materialises. */
  datatype Value =
    | Map(entries: map<string, Value>)
    | List(items: seq<Value>)
    | Scalar(prim: Prim)

  /** The failures the converter raises. */
  datatype Error =
    | UnexpectedEnd                       // "Unexpected end when reading ExpandoObject."
    | UnexpectedToken(kind: JsonToken)    // "Unexpected token when converting ExpandoObject: {kind}"
    | NullReference                       // ToString() called on a property name whose value is null

  datatype Result = Success(value: Value) | Failure(error: Error)

  /** An outcome and the cursor the reader is left on. */
  datatype Step = Step(res: Result, cursor: int)

  /** Where a cursor may be. */
  predicate InRange(toks: seq<Token>, pos: int)
  {
    -1 <= pos <= |toks|
  }

  /** The cursor after one Read(): one token on, but never past the end. */
  function Next(toks: seq<Token>, cur: int): int
  {
    if cur < |toks| then cur + 1 else cur
  }

  /** The kinds at which a value can start (after comments have been skipped). */
  predicate StartsValue(k: JsonToken)
  {
    k == StartObject || k == StartArray || IsPrimitiveToken(k)
  }

  /** A decoded value ends on the token that closes it. */
  predicate Closes(v: Value, t: Token)
  {
    match v
    case Scalar(p) => IsPrimitiveToken(t.kind) && t.value == p
    case List(_) => t.kind == EndArray
    case Map(_) => t.kind == EndObject
  }

  /**
   * What every outcome says about the token under the final cursor: a success
   * ends on the token that closes its value, an unexpected end leaves the
   * cursor past the last token, an unexpected token is the kind under the
   * cursor and cannot start a value, and a null reference sits on a property
   * name without a value.
   */
  predicate Reports(toks: seq<Token>, s: Step)
  {
    match s.res
    case Success(v) => 0 <= s.cursor < |toks| && Closes(v, toks[s.cursor])
    case Failure(UnexpectedEnd) => s.cursor == |toks|
    case Failure(UnexpectedToken(k)) => k == Kind(toks, s.cursor) && k != Comment && !StartsValue(k)
    case Failure(NullReference) => 0 <= s.cursor < |toks| && toks[s.cursor] == Token(PropertyName, NullPrim)
  }

  /**
   * The first cursor at or after `pos` whose token is not a comment; |toks|
   * when only comments remain.
   */
  function SkipComments(toks: seq<Token>, pos: int): (p: int)
    requires InRange(toks, pos)
    ensures pos <= p <= |toks|
    ensures Kind(toks, p) != Comment
    ensures forall i :: pos <= i < p ==> Kind(toks, i) == Comment
    decreases |toks| - pos
  {
    if Kind(toks, pos) == Comment then SkipComments(toks, pos + 1) else pos
  }

  /**
   * ReadValue: skip comments, then decode an object, an array or a primitive
   * starting at the current token.
   */
  function DecodeValue(toks: seq<Token>, pos: int): (s: Step)
    requires InRange(toks, pos)
    ensures pos <= s.cursor <= |toks|
    ensures s.res.Success? ==> s.cursor < |toks|
    decreases |toks| - pos, 1
  {
    var p := SkipComments(toks, pos);
    if p == |toks| && p != pos then Step(Failure(UnexpectedEnd), p)
    else
      var k := Kind(toks, p);
      if k == StartObject then DecodeObject(toks, p, map[])
      else if k == StartArray then DecodeList(toks, p, [])
      else if IsPrimitiveToken(k) then Step(Success(Scalar(toks[p].value)), p)
      else Step(Failure(UnexpectedToken(k)), p)
  }

  /**
   * ReadList's loop from the cursor `cur` on, with the elements `acc`
   * gathered so far: read a token, skip comments, stop at EndArray, decode
   * anything else as an element.
   */
  function DecodeList(toks: seq<Token>, cur: int, acc: seq<Value>): (s: Step)
    requires InRange(toks, cur)
    ensures cur <= s.cursor <= |toks|
    ensures s.res.Success? ==> s.cursor < |toks|
    decreases |toks| - cur, 0
  {
    var next := Next(toks, cur);
    if next == |toks| then Step(Failure(UnexpectedEnd), next)
    else if toks[next].kind == Comment then DecodeList(toks, next, acc)
    else if toks[next].kind == EndArray then Step(Success(List(acc)), next)
    else
      var e := DecodeValue(toks, next);
      if e.res.Failure? then e
      else DecodeList(toks, e.cursor, acc + [e.res.value])
  }

  /**
   * ReadObject's loop from the cursor `cur` on, with the entries `acc`
   * stored so far: read a token; for a property name, read its value and
   * store it under the name; stop at EndObject; pass over anything else.
   */
  function DecodeObject(toks: seq<Token>, cur: int, acc: map<string, Value>): (s: Step)
    requires InRange(toks, cur)
    ensures cur <= s.cursor <= |toks|
    ensures s.res.Success? ==> s.cursor < |toks|
    decreases |toks| - cur, 0
  {
    var next := Next(toks, cur);
    if next == |toks| then Step(Failure(UnexpectedEnd), next)
    else if toks[next].kind == PropertyName then
      var name := ToText(toks[next].value);
      if name.NoValue? then Step(Failure(NullReference), next)
      else if next + 1 == |toks| then Step(Failure(UnexpectedEnd), next + 1)
      else
        var e := DecodeValue(toks, next + 1);
        if e.res.Failure? then e
        else DecodeObject(toks, e.cursor, acc[name.value := e.res.value])
    else if toks[next].kind == EndObject then Step(Success(Map(acc)), next)
    else
      // a comment, and every other kind: the switch has no case for it
      DecodeObject(toks, next, acc)
  }

  /**
   * Every outcome of ReadValue is reported on the right token: a value ends
   * on the token that closes it (a primitive on itself, a list on its
   * EndArray, an object on its EndObject), and each failure stands where
   * Reports says.
   */
  lemma {:induction false} ValueReports(toks: seq<Token>, pos: int)
    requires InRange(toks, pos)
    ensures Reports(toks, DecodeValue(toks, pos))
    decreases |toks| - pos, 1
  {
    var p := SkipComments(toks, pos);
    if p == |toks| && p != pos {
    } else if Kind(toks, p) == StartObject {
      ObjectReports(toks, p, map[]);
    } else if Kind(toks, p) == StartArray {
      ListReports(toks, p, []);
    }
  }

  /** ReadList ends on its EndArray with a list that extends the elements gathered so far. */
  lemma {:induction false} ListReports(toks: seq<Token>, cur: int, acc: seq<Value>)
    requires InRange(toks, cur)
    ensures Reports(toks, DecodeList(toks, cur, acc))
    ensures DecodeList(toks, cur, acc).res.Success? ==>
      DecodeList(toks, cur, acc).res.value.List? && acc <= DecodeList(toks, cur, acc).res.value.items
    decreases |toks| - cur, 0
  {
    var next := Next(toks, cur);
    if next == |toks| {
    } else if toks[next].kind == Comment {
      ListReports(toks, next, acc);
    } else if toks[next].kind == EndArray {
    } else {
      ValueReports(toks, next);
      var e := DecodeValue(toks, next);
      if e.res.Success? {
        ListReports(toks, e.cursor, acc + [e.res.value]);
      }
    }
  }

  /** ReadObject ends on its EndObject with a map that keeps every key stored so far. */
  lemma {:induction false} ObjectReports(toks: seq<Token>, cur: int, acc: map<string, Value>)
    requires InRange(toks, cur)
    ensures Reports(toks, DecodeObject(toks, cur, acc))
    ensures DecodeObject(toks, cur, acc).res.Success? ==>
      DecodeObject(toks, cur, acc).res.value.Map? && acc.Keys <= DecodeObject(toks, cur, acc).res.value.entries.Keys
    decreases |toks| - cur, 0
  {
    var next := Next(toks, cur);
    if next == |toks| {
    } else if toks[next].kind == PropertyName {
      var name := ToText(toks[next].value);
      if name.Some? && next + 1 < |toks| {
        ValueReports(toks, next + 1);
        var e := DecodeValue(toks, next + 1);
        if e.res.Success? {
          ObjectReports(toks, e.cursor, acc[name.value := e.res.value]);
        }
      }
    } else if toks[next].kind == EndObject {
    } else {
      ObjectReports(toks, next, acc);
    }
  }
}
