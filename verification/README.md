# ExpandoObjectConverter, modelled in Dafny

This project models the read path of Json.NET's `ExpandoObjectConverter`. The converter pulls classified JSON tokens from a `JsonReader` and turns them into a dynamic value:

- a string-keyed map for an object;
- an ordered list for an array;
- the token's raw value for a primitive.

It also covers the converter's eligibility test, `CanConvert`, and its declined write path (`CanWrite` and `WriteJson`).

The files:

- `tokens.dfy` (module `JsonTokens`): the token kinds, the raw value a token carries, `IsPrimitiveToken`, and the text a raw value gives when it is turned into a property name.
- `reader.dfy` (module `JsonReading`): the reader as a class over a fixed token sequence with a cursor. The cursor is `-1` before the first `Read()` and `|tokens|` once the tokens are exhausted. `Read()` advances the cursor and reports whether a token is there.
- `decoding.dfy` (module `ExpandoDecoding`): the specification functions.
  - `DecodeValue`, `DecodeList` and `DecodeObject` state, as mutually recursive functions of the tokens and the cursor, what `ReadValue`, `ReadList` and `ReadObject` return and where they leave the cursor.
  - Their `decreases` clauses are the termination argument: every loop turn moves the cursor on.
  - The `...Reports` lemmas state where each outcome leaves the cursor.
- `converter.dfy` (module `ExpandoObjectConverter`): the three read procedures as imperative methods over the reader. Their `while` loops are proved equal to the specification functions. The file also holds `CanConvert`, `CanWrite` and `WriteJson`.
- `properties.dfy` (module `DecodingProperties`): how every kind of token is treated in value, list and object position. This includes the failure exits, arrival order, overwriting of duplicate names, and the silent passing-over of stray tokens in an object body.
- `wellformed.dfy` (module `WellFormedJson`): a JSON document as a tree, the tokens a reader reports for it, and the value it stands for. The main theorem, `DecodesDocument`, states that the tokens of every document decode to that value wherever they stand, with the cursor ending on the document's last token. `TruncatedFails` states the converse for cut-off input: every proper beginning of a document's tokens fails with an unexpected end, never with a partial value.

The converter is modelled on these terms:

- **Errors.** There are three error outcomes:
  - `UnexpectedEnd`, for "Unexpected end when reading ExpandoObject.";
  - `UnexpectedToken(kind)`, for "Unexpected token when converting ExpandoObject: {kind}";
  - `NullReference`, for `reader.Value.ToString()` on a property name whose value is null.
- **The error cursor.** Each error carries the cursor at which it is raised.
- **Destination object.** Whether the converter creates an `ExpandoObject` or calls `Activator.CreateInstance`, the object starts empty. So `objectType` does not change the decoded entries, and the model leaves it out.

## Model

| member | source | states |
|---|---|---|
| JsonTokens.ToText | Src/Newtonsoft.Json/Converters/ExpandoObjectConverter.cs:125 | a property name's text is missing exactly when its raw value is null, and a string value is its own text |
| JsonReading.TokenReader.Read | Src/Newtonsoft.Json/Converters/ExpandoObjectConverter.cs:93 | moves one token on, but never past the end, and returns true exactly when a token is there |
| ExpandoDecoding.SkipComments | Src/Newtonsoft.Json/Converters/ExpandoObjectConverter.cs:69-73 | the first cursor at or after the start that is not on a comment, with every token skipped a comment |
| ExpandoDecoding.DecodeValue | Src/Newtonsoft.Json/Converters/ExpandoObjectConverter.cs:67-87 | ReadValue never moves the cursor backwards or past the end, and succeeds only on a token |
| ExpandoDecoding.DecodeList | Src/Newtonsoft.Json/Converters/ExpandoObjectConverter.cs:89-110 | ReadList never moves the cursor backwards or past the end, and succeeds only on a token |
| ExpandoDecoding.DecodeObject | Src/Newtonsoft.Json/Converters/ExpandoObjectConverter.cs:112-142 | ReadObject never moves the cursor backwards or past the end, and succeeds only on a token |
| ExpandoDecoding.ValueReports | Src/Newtonsoft.Json/Converters/ExpandoObjectConverter.cs:67-87 | ReadValue's outcome stands on the right token: a primitive on itself, a list on its EndArray, an object on its EndObject, an unexpected end past the last token, an unexpected token on a kind that cannot start a value |
| ExpandoDecoding.ListReports | Src/Newtonsoft.Json/Converters/ExpandoObjectConverter.cs:89-110 | ReadList succeeds only on its EndArray, with a list that extends the elements gathered so far |
| ExpandoDecoding.ObjectReports | Src/Newtonsoft.Json/Converters/ExpandoObjectConverter.cs:112-142 | ReadObject succeeds only on its EndObject, with a map that keeps every key stored so far; a null property name fails on that name |
| ExpandoObjectConverter.ReadJson | Src/Newtonsoft.Json/Converters/ExpandoObjectConverter.cs:62-65 | the entry point returns what decoding a value from the reader's current token returns, and leaves the cursor where that decoding ends |
| ExpandoObjectConverter.ReadValue | Src/Newtonsoft.Json/Converters/ExpandoObjectConverter.cs:67-87 | the comment-skipping loop and the dispatch compute exactly DecodeValue's outcome and final cursor |
| ExpandoObjectConverter.ReadList | Src/Newtonsoft.Json/Converters/ExpandoObjectConverter.cs:89-110 | the read loop, with the list it appends to, computes exactly DecodeList's outcome and final cursor from an empty list |
| ExpandoObjectConverter.ReadObject | Src/Newtonsoft.Json/Converters/ExpandoObjectConverter.cs:112-142 | the read loop, with the dictionary it stores into, computes exactly DecodeObject's outcome and final cursor from an empty map |
| ExpandoObjectConverter.CanConvert | Src/Newtonsoft.Json/Converters/ExpandoObjectConverter.cs:151-160 | the converter applies exactly to a class that has both IDynamicMetaObjectProvider and IDictionary<string, object>, and not when either is missing or the type is not a class |
| ExpandoObjectConverter.RecognisedTwoExactlyBoth | Src/Newtonsoft.Json/Converters/ExpandoObjectConverter.cs:154-159 | counting two recognised interfaces holds exactly when both are present |
| ExpandoObjectConverter.CanWrite | Src/Newtonsoft.Json/Converters/ExpandoObjectConverter.cs:168-171 | the converter never writes |
| ExpandoObjectConverter.WriteJson | Src/Newtonsoft.Json/Converters/ExpandoObjectConverter.cs:49-52 | writing leaves the writer's output unchanged |
| DecodingProperties.CommentSkipped | Src/Newtonsoft.Json/Converters/ExpandoObjectConverter.cs:69-73 | a comment in value position is skipped, and a comment that is the last token is an unexpected end |
| DecodingProperties.OnlyCommentsLeft | Src/Newtonsoft.Json/Converters/ExpandoObjectConverter.cs:69-73 | running out of input while skipping comments is an unexpected end past the last token |
| DecodingProperties.PrimitiveReturnedInPlace | Src/Newtonsoft.Json/Converters/ExpandoObjectConverter.cs:81-83 | a primitive is returned as its raw value, unchanged, with the cursor left on it |
| DecodingProperties.UnexpectedTokenNamed | Src/Newtonsoft.Json/Converters/ExpandoObjectConverter.cs:75-86 | a token that is not a comment and cannot start a value fails as an unexpected token naming its kind, with the cursor left on it |
| DecodingProperties.OutcomeMatchesCursor | Src/Newtonsoft.Json/Converters/ExpandoObjectConverter.cs:75-86 | conversely, an unexpected-token failure names a kind that cannot start a value, and a success ends on the token that closes its value |
| DecodingProperties.ListKeepsArrivalOrder | Src/Newtonsoft.Json/Converters/ExpandoObjectConverter.cs:100-102 | the elements already gathered stay in front of those decoded later, in arrival order, and failures are unaffected by them |
| DecodingProperties.ListSkipsComment | Src/Newtonsoft.Json/Converters/ExpandoObjectConverter.cs:97-98 | a comment in a list body is skipped |
| DecodingProperties.ListAppendsElement | Src/Newtonsoft.Json/Converters/ExpandoObjectConverter.cs:99-103 | any token other than a comment or EndArray starts an element; once it decodes, it is appended after those gathered so far and decoding resumes where it ends |
| DecodingProperties.ListPropagatesFailure | Src/Newtonsoft.Json/Converters/ExpandoObjectConverter.cs:100 | an element that fails makes the list fail the same way on the same cursor |
| DecodingProperties.ListClose | Src/Newtonsoft.Json/Converters/ExpandoObjectConverter.cs:104-105 | EndArray closes a list with the elements gathered so far, with the cursor on it |
| DecodingProperties.ListEndsEarly | Src/Newtonsoft.Json/Converters/ExpandoObjectConverter.cs:93-109 | a list whose input runs out before its EndArray is an unexpected end |
| DecodingProperties.ObjectOnlyOverwrites | Src/Newtonsoft.Json/Converters/ExpandoObjectConverter.cs:132 | the entries already stored survive, overwritten only by entries the rest of the body stores under the same name |
| DecodingProperties.ObjectStoresProperty | Src/Newtonsoft.Json/Converters/ExpandoObjectConverter.cs:124-133 | a property whose name has a text stores its decoded value under that text, replacing any earlier entry of the name, and decoding resumes where the value ends |
| DecodingProperties.ObjectPropagatesFailure | Src/Newtonsoft.Json/Converters/ExpandoObjectConverter.cs:130 | a property value that fails makes the object fail the same way on the same cursor |
| DecodingProperties.ObjectClose | Src/Newtonsoft.Json/Converters/ExpandoObjectConverter.cs:136-137 | EndObject closes an object with the entries stored so far, with the cursor on it |
| DecodingProperties.ObjectNameAtEnd | Src/Newtonsoft.Json/Converters/ExpandoObjectConverter.cs:127-128 | a property name that is the last token is an unexpected end |
| DecodingProperties.ObjectPassesOver | Src/Newtonsoft.Json/Converters/ExpandoObjectConverter.cs:122-138 | in an object body, a comment or a stray token of any kind other than PropertyName and EndObject is passed over without an error and without changing the entries |
| DecodingProperties.ObjectEndsEarly | Src/Newtonsoft.Json/Converters/ExpandoObjectConverter.cs:120-141 | an object whose input runs out before any further property name or EndObject is an unexpected end |
| WellFormedJson.DecodesDocument | Src/Newtonsoft.Json/Converters/ExpandoObjectConverter.cs:67-142 | the tokens of every well-formed document decode to the value it stands for, wherever they stand, and end on the document's last token |
| WellFormedJson.DecodesElements | Src/Newtonsoft.Json/Converters/ExpandoObjectConverter.cs:89-110 | an array body followed by EndArray decodes to its elements' values in order, after those already gathered |
| WellFormedJson.DecodesMembers | Src/Newtonsoft.Json/Converters/ExpandoObjectConverter.cs:112-142 | an object body followed by EndObject decodes to its members stored in order over the entries already stored |
| WellFormedJson.AssignKeepsOthers | Src/Newtonsoft.Json/Converters/ExpandoObjectConverter.cs:132 | storing members leaves every name none of them carries as it was |
| WellFormedJson.AssignLastWins | Src/Newtonsoft.Json/Converters/ExpandoObjectConverter.cs:132 | a name maps to the value of the last member that carries it |
| WellFormedJson.AssignKeys | Src/Newtonsoft.Json/Converters/ExpandoObjectConverter.cs:132 | storing members adds exactly their names to the keys |
| WellFormedJson.DecodesObjectLastWins | Src/Newtonsoft.Json/Converters/ExpandoObjectConverter.cs:120-137 | a well-formed object decodes to a map whose keys are exactly its members' names, each holding the value of the last member of that name |
| WellFormedJson.DecodesAlone | Src/Newtonsoft.Json/Converters/ExpandoObjectConverter.cs:62-65 | a reader over exactly a document's tokens, standing on its first token, decodes the document and ends on its last token |
| WellFormedJson.RepeatedNameExample | Src/Newtonsoft.Json/Converters/ExpandoObjectConverter.cs:132 | {"a": 1, "b": 2, "a": 3} decodes to {"a": 3, "b": 2} |
| WellFormedJson.TruncatedDocument | Src/Newtonsoft.Json/Converters/ExpandoObjectConverter.cs:67-142 | input that stops part-way through a document fails with an unexpected end past its last token, never with a partial value |
| WellFormedJson.TruncatedElements | Src/Newtonsoft.Json/Converters/ExpandoObjectConverter.cs:93-109 | an array body the input stops in fails with an unexpected end, whether it stops between elements or inside one |
| WellFormedJson.TruncatedMembers | Src/Newtonsoft.Json/Converters/ExpandoObjectConverter.cs:120-141 | an object body the input stops in fails with an unexpected end, whether it stops after a property name, inside a value or between properties |
| WellFormedJson.TruncatedFails | Src/Newtonsoft.Json/Converters/ExpandoObjectConverter.cs:67-142 | every proper beginning of a document's tokens fails with an unexpected end |

## Left out

- **The tokenizer.** `JsonReader` is replaced by a fixed sequence of classified tokens and a cursor. Reading text, line info and reader state other than the cursor are not modelled.
- **What the reader reports past the end.** A reader that has run out of tokens reports kind None and a null value.
- **`JsonReader.IsPrimitiveToken`.** JsonReader.cs is not part of this model. The predicate follows Json.NET's definition: Integer, Float, String, Boolean, Undefined, Null, Date and Bytes.
- **Reflection.**
  - `typeof(ExpandoObject)`, `Activator.CreateInstance(objectType)` and the cast to `IDictionary<string, object>` are modelled as "start from an empty map".
  - A destination type whose constructor pre-fills entries, has side effects or fails, or that does not implement the dictionary interface, is not modelled.
  - `expandoObject[propertyName] = v` (line 132) is modelled as an update of a string-keyed map with exact key comparison. For a type built by `Activator.CreateInstance`, the indexer is that type's own code. It may compare keys differently, for example case-insensitively, or it may throw. The model does not capture either.
  - `GetAllInterfaces()` becomes the `interfaces` set of a `TypeDescriptor`, and other interfaces are kept by name. GetAllInterfaces is not part of this model. `CanConvert` assumes it lists each interface once.
  - If a type's interface list repeated IDictionary<string, object>, the source's `Count() == 2` could fail where `CanConvert` is true.
- **Key order.** An ExpandoObject lists its keys in insertion order, and an overwrite keeps the key's place. A `map<string, Value>` has no order, so the model states which keys are present and what they hold, but not the order in which they are listed.
- **Exceptions and messages.** `JsonSerializationException.Create` and the culture-formatted message become error variants. An unexpected token carries only its kind. The reader's path and line information are not modelled.
- **Scalar payloads.** Numbers, dates, byte arrays and other raw values are opaque. Each carries the text its `ToString()` gives, which a property name uses. The culture-dependent formatting of that text is not modelled.
- **Object identity.** The decoded value is a tree of values, not a graph of .NET objects. Aliasing and later mutation of the returned objects are not modelled.
- **The `existingValue` and `serializer` parameters and the `#if` platform guards.** The code never uses the parameters, and the guards have no behaviour.
- **Stray tokens in an object body.** This is behaviour the model keeps, not something it leaves out. The switch at ExpandoObjectConverter.cs:122-138 has no default case. So every kind other than PropertyName and EndObject is passed over, including a stray StartObject, whose EndObject then closes the enclosing object. See `DecodingProperties.ObjectPassesOver`.
