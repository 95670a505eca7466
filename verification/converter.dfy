/**
 * ExpandoObjectConverter: the read path that turns the reader's tokens into
 * a dynamic value, the test that decides which destination types it serves,
 * and the write path it declines.
 */
module ExpandoObjectConverter {
  import opened JsonTokens
  import opened JsonReading
  import opened ExpandoDecoding

  /** ReadJson: the entry point; decodes the value at the reader's current token. */
  method ReadJson(reader: TokenReader) returns (res: Result)
    requires reader.Valid()
    modifies reader
    ensures reader.Valid()
    ensures Step(res, reader.pos) == DecodeValue(reader.tokens, old(reader.pos))
  {
    res := ReadValue(reader);
  }

  /**
   * ReadValue: move past comments (failing if the input runs out), then
   * dispatch on the current token. A primitive is returned as it is and the
   * reader stays on it.
   */
  method ReadValue(reader: TokenReader) returns (res: Result)
    requires reader.Valid()
    modifies reader
    ensures reader.Valid()
    ensures Step(res, reader.pos) == DecodeValue(reader.tokens, old(reader.pos))
    decreases |reader.tokens| - reader.pos, 1
  {
    ghost var start := reader.pos;
    while reader.TokenType() == Comment
      invariant reader.Valid() && start <= reader.pos
      invariant reader.pos < |reader.tokens| || reader.pos == start
      invariant SkipComments(reader.tokens, reader.pos) == SkipComments(reader.tokens, start)
      decreases |reader.tokens| - reader.pos
    {
      var more := reader.Read();
      if !more {
        return Failure(UnexpectedEnd);
      }
    }

    var k := reader.TokenType();
    if k == StartObject {
      res := ReadObject(reader);
    } else if k == StartArray {
      res := ReadList(reader);
    } else if IsPrimitiveToken(k) {
      res := Success(Scalar(reader.Value()));
    } else {
      res := Failure(UnexpectedToken(k));
    }
  }

  /**
   * ReadList: called on StartArray; appends every decoded element in order,
   * skips comments and returns on EndArray.
   */
  method ReadList(reader: TokenReader) returns (res: Result)
    requires reader.Valid()
    modifies reader
    ensures reader.Valid()
    ensures Step(res, reader.pos) == DecodeList(reader.tokens, old(reader.pos), [])
    decreases |reader.tokens| - reader.pos, 0
  {
    var list: seq<Value> := [];
    ghost var prev := reader.pos;
    var more := reader.Read();
    while more
      invariant reader.Valid() && old(reader.pos) <= prev && InRange(reader.tokens, prev)
      invariant reader.pos == Next(reader.tokens, prev)
      invariant more <==> reader.pos < |reader.tokens|
      invariant DecodeList(reader.tokens, old(reader.pos), []) == DecodeList(reader.tokens, prev, list)
      decreases |reader.tokens| - reader.pos
    {
      var k := reader.TokenType();
      if k == Comment {
        // skipped
      } else if k == EndArray {
        return Success(List(list));
      } else {
        var v := ReadValue(reader);
        if v.Failure? {
          return v;
        }
        list := list + [v.value];
      }
      prev := reader.pos;
      more := reader.Read();
    }
    res := Failure(UnexpectedEnd);
  }

  /**
   * ReadObject: called on StartObject; stores each property's decoded value
   * under its name, later names overwriting earlier ones, and returns on
   * EndObject. Comments and every other kind of token are passed over.
   */
  method ReadObject(reader: TokenReader) returns (res: Result)
    requires reader.Valid()
    modifies reader
    ensures reader.Valid()
    ensures Step(res, reader.pos) == DecodeObject(reader.tokens, old(reader.pos), map[])
    decreases |reader.tokens| - reader.pos, 0
  {
    var expandoObject: map<string, Value> := map[];
    ghost var prev := reader.pos;
    var more := reader.Read();
    while more
      invariant reader.Valid() && old(reader.pos) <= prev && InRange(reader.tokens, prev)
      invariant reader.pos == Next(reader.tokens, prev)
      invariant more <==> reader.pos < |reader.tokens|
      invariant DecodeObject(reader.tokens, old(reader.pos), map[]) == DecodeObject(reader.tokens, prev, expandoObject)
      decreases |reader.tokens| - reader.pos
    {
      var k := reader.TokenType();
      if k == PropertyName {
        var propertyName := ToText(reader.Value());
        if propertyName.NoValue? {
          return Failure(NullReference);
        }
        more := reader.Read();
        if !more {
          return Failure(UnexpectedEnd);
        }
        var v := ReadValue(reader);
        if v.Failure? {
          return v;
        }
        expandoObject := expandoObject[propertyName.value := v.value];
      } else if k == EndObject {
        return Success(Map(expandoObject));
      }
      // a comment, or any other kind of token, is passed over
      prev := reader.pos;
      more := reader.Read();
    }
    res := Failure(UnexpectedEnd);
  }

  /** The interfaces CanConvert looks for; any other interface is OtherInterface. */
  datatype Interface =
    | IDynamicMetaObjectProvider
    | IDictionaryOfStringObject
    | OtherInterface(name: string)

  /** A destination type as CanConvert sees it: whether it is a class, and all its interfaces. */
  datatype TypeDescriptor = TypeDescriptor(isClass: bool, interfaces: set<Interface>)

  /** The interfaces of `t` that CanConvert counts. */
  function Recognised(t: TypeDescriptor): set<Interface>
  {
    set i | i in t.interfaces && (i == IDynamicMetaObjectProvider || i == IDictionaryOfStringObject)
  }

  /**
   * CanConvert: a class with exactly two recognised interfaces. Counting two
   * is the same as having both, so the converter serves exactly the classes
   * that are dynamic objects and string-keyed dictionaries at once.
   */
  function CanConvert(t: TypeDescriptor): (r: bool)
    ensures r <==> t.isClass && IDynamicMetaObjectProvider in t.interfaces && IDictionaryOfStringObject in t.interfaces
  {
    RecognisedTwoExactlyBoth(t);
    t.isClass && |Recognised(t)| == 2
  }

  /** Two recognised interfaces are counted exactly when both are present. */
  lemma RecognisedTwoExactlyBoth(t: TypeDescriptor)
    ensures |Recognised(t)| == 2 <==>
      IDynamicMetaObjectProvider in t.interfaces && IDictionaryOfStringObject in t.interfaces
  {
    var both := {IDynamicMetaObjectProvider, IDictionaryOfStringObject};
    var r := Recognised(t);
    assert r == both * t.interfaces;
    if IDynamicMetaObjectProvider in t.interfaces && IDictionaryOfStringObject in t.interfaces {
      assert r == both;
    } else if IDynamicMetaObjectProvider in t.interfaces {
      assert r == {IDynamicMetaObjectProvider};
    } else if IDictionaryOfStringObject in t.interfaces {
      assert r == {IDictionaryOfStringObject};
    } else {
      assert r == {};
    }
  }

  /** CanWrite: the converter never writes. */
  function CanWrite(): (r: bool)
    ensures !r
  {
    false
  }

  /** The writer a serializer hands to WriteJson, reduced to what has been written to it. */
  class JsonWriter {
    var written: seq<string>
  }

  /** WriteJson: does nothing; CanWrite is false, so it is never called for output. */
  method WriteJson(writer: JsonWriter, value: Value)
    ensures writer.written == old(writer.written)
  {
  }
}
