/**
 * The token layer the converter consumes: the kinds a JSON reader classifies
 * its input into, the raw value a token carries, and the classification of
 * kinds that are primitive values.
 */
module JsonTokens {

  /** The kinds of token a JSON reader reports, one per member of Newtonsoft's JsonToken. */
  datatype JsonToken =
    | None
    | StartObject
    | StartArray
    | StartConstructor
    | PropertyName
    | Comment
    | Raw
    | Integer
    | Float
    | String
    | Boolean
    | Null
    | Undefined
    | EndObject
    | EndArray
    | EndConstructor
    | Date
    | Bytes

  /**
   * The raw value a reader attaches to the current token. The converter never
   * looks inside it except to turn a property name into text, so numbers,
   * dates and byte arrays are kept opaque, each with the text its
   * ToString() gives.
   */
  datatype Prim =
    | NullPrim
    | BoolPrim(b: bool)
    | StringPrim(s: string)
    | OtherPrim(text: string)

  /** One classified token: its kind and the value the reader attaches to it. */
  datatype Token = Token(kind: JsonToken, value: Prim)

  /**
   * The kinds that stand for a complete primitive value (the classification
   * the reader exposes as IsPrimitiveToken).
   */
  predicate IsPrimitiveToken(k: JsonToken)
  {
    k in {Integer, Float, String, Boolean, Undefined, Null, Date, Bytes}
  }

  /**
   * `value.ToString()`: the text of a raw value, or NoValue when the value is
   * null (where calling ToString() fails with a null reference).
   */
  function ToText(p: Prim): (t: Option<string>)
    ensures t.NoValue? <==> p.NullPrim?
    ensures p.StringPrim? ==> t == Some(p.s)
  {
    match p
    case NullPrim => NoValue
    case BoolPrim(b) => Some(if b then "True" else "False")
    case StringPrim(s) => Some(s)
    case OtherPrim(text) => Some(text)
  }

  /** An optional value; NoValue stands for C#'s null. */
  datatype Option<+T> = NoValue | Some(value: T)

  /**
   * The kind of the token under a cursor. A cursor before the first token
   * (-1) or past the last one reads as None, as a reader does before its
   * first Read() and once its input is exhausted.
   */
  function Kind(toks: seq<Token>, pos: int): JsonToken
  {
    if 0 <= pos < |toks| then toks[pos].kind else None
  }
}
