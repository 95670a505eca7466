/**
 * Well-formed input: a JSON document as a tree, the tokens a reader reports
 * for it, and the dynamic value it stands for. The main theorem says the
 * converter decodes the tokens of every well-formed document to the value
 * it stands for, whatever tokens precede or follow it, and ends on its last
 * token.
 */
module WellFormedJson {
  import opened JsonTokens
  import opened ExpandoDecoding
  import opened DecodingProperties

  /** The kinds a primitive leaf can have. */
  type PrimitiveKind = k: JsonToken | IsPrimitiveToken(k) witness Integer

  /** A JSON document: an object's members in order, an array's elements, or a primitive. */
  datatype Json =
    | JObject(members: seq<Member>)
    | JArray(elements: seq<Json>)
    | JPrimitive(kind: PrimitiveKind, value: Prim)

  datatype Member = Member(name: string, value: Json)

  /** The tokens a reader reports for a document. */
  function Tokens(j: Json): (t: seq<Token>)
    ensures |t| >= 1
    ensures StartsValue(t[0].kind)
  {
    match j
    case JPrimitive(k, v) => [Token(k, v)]
    case JArray(es) => [Token(StartArray, NullPrim)] + ElementTokens(es) + [Token(EndArray, NullPrim)]
    case JObject(ms) => [Token(StartObject, NullPrim)] + MemberTokens(ms) + [Token(EndObject, NullPrim)]
  }

  function ElementTokens(es: seq<Json>): seq<Token>
  {
    if es == [] then [] else Tokens(es[0]) + ElementTokens(es[1..])
  }

  function MemberTokens(ms: seq<Member>): seq<Token>
  {
    if ms == [] then []
    else [Token(PropertyName, StringPrim(ms[0].name))] + Tokens(ms[0].value) + MemberTokens(ms[1..])
  }

  /** The dynamic value a document stands for. */
  function Meaning(j: Json): Value
  {
    match j
    case JPrimitive(_, v) => Scalar(v)
    case JArray(es) => List(Meanings(es))
    case JObject(ms) => Map(Assign(map[], ms))
  }

  function Meanings(es: seq<Json>): (vs: seq<Value>)
    ensures |vs| == |es|
  {
    if es == [] then [] else [Meaning(es[0])] + Meanings(es[1..])
  }

  /** The members stored one after another into `acc`, each overwriting any earlier entry of its name. */
  function Assign(acc: map<string, Value>, ms: seq<Member>): map<string, Value>
    decreases ms
  {
    if ms == [] then acc else Assign(acc[ms[0].name := Meaning(ms[0].value)], ms[1..])
  }

  lemma Associative<T>(a: seq<T>, b: seq<T>, c: seq<T>)
    ensures a + b + c == a + (b + c)
  {
  }

  /** The tokens `x` stand in `toks` from the cursor `pos` on, one by one. */
  predicate Placed(toks: seq<Token>, pos: int, x: seq<Token>)
    decreases |x|
  {
    0 <= pos && pos + |x| <= |toks| && (x == [] || (toks[pos] == x[0] && Placed(toks, pos + 1, x[1..])))
  }

  /** Whatever follows a cursor stands there. */
  lemma {:induction false} PlacedRest(toks: seq<Token>, pos: nat)
    requires pos <= |toks|
    ensures Placed(toks, pos, toks[pos..])
    decreases |toks| - pos
  {
    if pos < |toks| {
      PlacedRest(toks, pos + 1);
      assert toks[pos..][1..] == toks[pos + 1..];
    }
  }

  lemma {:induction false} PlacedSplit(toks: seq<Token>, pos: int, a: seq<Token>, b: seq<Token>)
    requires Placed(toks, pos, a + b)
    ensures Placed(toks, pos, a) && Placed(toks, pos + |a|, b)
    decreases |a|
  {
    if a == [] {
      assert a + b == b;
    } else {
      assert (a + b)[1..] == a[1..] + b;
      PlacedSplit(toks, pos + 1, a[1..], b);
    }
  }

  /** The token a placed sequence starts with is the token under the cursor. */
  lemma PlacedFirst(toks: seq<Token>, pos: int, x: seq<Token>)
    requires Placed(toks, pos, x) && x != []
    ensures toks[pos] == x[0]
  {
  }

  /** Where the first element, and the rest of an array body, stand. */
  lemma {:induction false} ElementsPlaced(es: seq<Json>, toks: seq<Token>, pos: int)
    requires es != [] && Placed(toks, pos, ElementTokens(es) + [Token(EndArray, NullPrim)])
    ensures Placed(toks, pos, Tokens(es[0]))
    ensures Placed(toks, pos + |Tokens(es[0])|, ElementTokens(es[1..]) + [Token(EndArray, NullPrim)])
    ensures |ElementTokens(es)| == |Tokens(es[0])| + |ElementTokens(es[1..])|
  {
    var first, rest := Tokens(es[0]), ElementTokens(es[1..]) + [Token(EndArray, NullPrim)];
    Associative(first, ElementTokens(es[1..]), [Token(EndArray, NullPrim)]);
    PlacedSplit(toks, pos, first, rest);
  }

  /** Where the first member's name and value, and the rest of an object body, stand. */
  lemma {:induction false} MembersPlaced(ms: seq<Member>, toks: seq<Token>, pos: int)
    requires ms != [] && Placed(toks, pos, MemberTokens(ms) + [Token(EndObject, NullPrim)])
    ensures pos < |toks| && toks[pos] == Token(PropertyName, StringPrim(ms[0].name))
    ensures Placed(toks, pos + 1, Tokens(ms[0].value))
    ensures Placed(toks, pos + 1 + |Tokens(ms[0].value)|, MemberTokens(ms[1..]) + [Token(EndObject, NullPrim)])
    ensures |MemberTokens(ms)| == 1 + |Tokens(ms[0].value)| + |MemberTokens(ms[1..])|
  {
    var name := Token(PropertyName, StringPrim(ms[0].name));
    var first := Tokens(ms[0].value);
    var rest := MemberTokens(ms[1..]) + [Token(EndObject, NullPrim)];
    assert MemberTokens(ms) == [name] + first + MemberTokens(ms[1..]);
    Associative([name] + first, MemberTokens(ms[1..]), [Token(EndObject, NullPrim)]);
    Associative([name], first, rest);
    PlacedSplit(toks, pos, [name], first + rest);
    PlacedSplit(toks, pos + 1, first, rest);
    PlacedFirst(toks, pos, [name]);
  }

  /** A document's tokens, wherever they stand, decode to what the document stands for and end on its last token. */
  lemma {:induction false} DecodesDocument(j: Json, toks: seq<Token>, pos: int)
    requires Placed(toks, pos, Tokens(j))
    ensures DecodeValue(toks, pos) == Step(Success(Meaning(j)), pos + |Tokens(j)| - 1)
    decreases j, 3
  {
    PlacedFirst(toks, pos, Tokens(j));
    assert SkipComments(toks, pos) == pos;
    match j
    case JPrimitive(k, v) =>
    case JArray(es) =>
      var body := ElementTokens(es);
      assert Tokens(j) == [Token(StartArray, NullPrim)] + (body + [Token(EndArray, NullPrim)]);
      PlacedSplit(toks, pos, [Token(StartArray, NullPrim)], body + [Token(EndArray, NullPrim)]);
      assert DecodeValue(toks, pos) == DecodeList(toks, pos, []);
      DecodesElements(es, toks, pos, []);
      assert [] + Meanings(es) == Meanings(es);
    case JObject(ms) =>
      var body := MemberTokens(ms);
      assert Tokens(j) == [Token(StartObject, NullPrim)] + (body + [Token(EndObject, NullPrim)]);
      PlacedSplit(toks, pos, [Token(StartObject, NullPrim)], body + [Token(EndObject, NullPrim)]);
      assert DecodeValue(toks, pos) == DecodeObject(toks, pos, map[]);
      DecodesMembers(ms, toks, pos, map[]);
  }

  /** An array body followed by EndArray decodes to the elements' meanings, after those gathered so far. */
  lemma {:induction false} DecodesElements(es: seq<Json>, toks: seq<Token>, cur: int, acc: seq<Value>)
    requires Placed(toks, cur + 1, ElementTokens(es) + [Token(EndArray, NullPrim)])
    ensures DecodeList(toks, cur, acc) == Step(Success(List(acc + Meanings(es))), cur + 1 + |ElementTokens(es)|)
    decreases es, 2
  {
    if es == [] {
      PlacedFirst(toks, cur + 1, [Token(EndArray, NullPrim)]);
      ListClose(toks, cur, acc);
      assert acc + Meanings(es) == acc;
    } else {
      var m, next := Meaning(es[0]), cur + |Tokens(es[0])|;
      AppendsFirstElement(es, toks, cur, acc);
      DecodesElements(es[1..], toks, next, acc + [m]);
      assert Meanings(es) == [m] + Meanings(es[1..]);
      Associative(acc, [m], Meanings(es[1..]));
    }
  }

  /**
   * Decoding an array body resumes after its first element with that
   * element appended, on the rest of the body.
   */
  lemma {:induction false} AppendsFirstElement(es: seq<Json>, toks: seq<Token>, cur: int, acc: seq<Value>)
    requires es != [] && Placed(toks, cur + 1, ElementTokens(es) + [Token(EndArray, NullPrim)])
    ensures DecodeList(toks, cur, acc) == DecodeList(toks, cur + |Tokens(es[0])|, acc + [Meaning(es[0])])
    ensures Placed(toks, (cur + |Tokens(es[0])|) + 1, ElementTokens(es[1..]) + [Token(EndArray, NullPrim)])
    ensures (cur + |Tokens(es[0])|) + 1 + |ElementTokens(es[1..])| == cur + 1 + |ElementTokens(es)|
    decreases es, 1
  {
    ElementsPlaced(es, toks, cur + 1);
    ElementStep(toks, cur, acc, es[0]);
  }

  /** The tokens of a document inside an array body: decoding appends the document's meaning. */
  lemma ElementStep(toks: seq<Token>, cur: int, acc: seq<Value>, e: Json)
    requires -1 <= cur && Placed(toks, cur + 1, Tokens(e))
    ensures DecodeList(toks, cur, acc) == DecodeList(toks, cur + |Tokens(e)|, acc + [Meaning(e)])
    decreases e, 4
  {
    DecodesDocument(e, toks, cur + 1);
    PlacedFirst(toks, cur + 1, Tokens(e));
    ListAppendsElement(toks, cur, acc, Meaning(e), cur + |Tokens(e)|);
  }

  /** An object body followed by EndObject decodes to the members stored, in order, over the entries `acc`. */
  lemma {:induction false} DecodesMembers(ms: seq<Member>, toks: seq<Token>, cur: int, acc: map<string, Value>)
    requires Placed(toks, cur + 1, MemberTokens(ms) + [Token(EndObject, NullPrim)])
    ensures DecodeObject(toks, cur, acc) == Step(Success(Map(Assign(acc, ms))), cur + 1 + |MemberTokens(ms)|)
    decreases ms, 2
  {
    if ms == [] {
      PlacedFirst(toks, cur + 1, [Token(EndObject, NullPrim)]);
      ObjectClose(toks, cur, acc);
    } else {
      var stored, next := acc[ms[0].name := Meaning(ms[0].value)], cur + 1 + |Tokens(ms[0].value)|;
      StoresFirstMember(ms, toks, cur, acc);
      DecodesMembers(ms[1..], toks, next, stored);
      assert Assign(acc, ms) == Assign(stored, ms[1..]);
    }
  }

  /**
   * Decoding an object body resumes after its first member with that
   * member's value stored under its name, on the rest of the body.
   */
  lemma {:induction false} StoresFirstMember(ms: seq<Member>, toks: seq<Token>, cur: int, acc: map<string, Value>)
    requires ms != [] && Placed(toks, cur + 1, MemberTokens(ms) + [Token(EndObject, NullPrim)])
    ensures DecodeObject(toks, cur, acc) ==
      DecodeObject(toks, cur + 1 + |Tokens(ms[0].value)|, acc[ms[0].name := Meaning(ms[0].value)])
    ensures Placed(toks, (cur + 1 + |Tokens(ms[0].value)|) + 1, MemberTokens(ms[1..]) + [Token(EndObject, NullPrim)])
    ensures (cur + 1 + |Tokens(ms[0].value)|) + 1 + |MemberTokens(ms[1..])| == cur + 1 + |MemberTokens(ms)|
    decreases ms, 1
  {
    MembersPlaced(ms, toks, cur + 1);
    MemberStep(toks, cur, acc, ms[0]);
  }

  /** A property name followed by the tokens of a document: decoding stores the document's meaning under the name. */
  lemma MemberStep(toks: seq<Token>, cur: int, acc: map<string, Value>, m: Member)
    requires -1 <= cur && cur + 1 < |toks| && toks[cur + 1] == Token(PropertyName, StringPrim(m.name))
    requires Placed(toks, cur + 2, Tokens(m.value))
    ensures DecodeObject(toks, cur, acc) == DecodeObject(toks, cur + 1 + |Tokens(m.value)|, acc[m.name := Meaning(m.value)])
    decreases m, 0
  {
    DecodesDocument(m.value, toks, cur + 2);
    ObjectStoresProperty(toks, cur, acc, m.name, Meaning(m.value), cur + 1 + |Tokens(m.value)|);
  }

  /** Names no member in `ms` carries: storing `ms` leaves their entries as they were. */
  lemma {:induction false} AssignKeepsOthers(acc: map<string, Value>, ms: seq<Member>, k: string)
    requires forall i :: 0 <= i < |ms| ==> ms[i].name != k
    ensures k in Assign(acc, ms) <==> k in acc
    ensures k in acc ==> Assign(acc, ms)[k] == acc[k]
    decreases ms
  {
    if ms != [] {
      AssignKeepsOthers(acc[ms[0].name := Meaning(ms[0].value)], ms[1..], k);
    }
  }

  /** The last member of a name wins: its value is the one stored under the name. */
  lemma {:induction false} AssignLastWins(acc: map<string, Value>, ms: seq<Member>, i: nat)
    requires i < |ms|
    requires forall j :: i < j < |ms| ==> ms[j].name != ms[i].name
    ensures ms[i].name in Assign(acc, ms)
    ensures Assign(acc, ms)[ms[i].name] == Meaning(ms[i].value)
    decreases ms
  {
    var stored := acc[ms[0].name := Meaning(ms[0].value)];
    if i == 0 {
      assert forall j :: 0 <= j < |ms[1..]| ==> ms[1..][j].name != ms[0].name by {
        forall j | 0 <= j < |ms[1..]| ensures ms[1..][j].name != ms[0].name {
          assert ms[1..][j] == ms[j + 1];
        }
      }
      AssignKeepsOthers(stored, ms[1..], ms[0].name);
    } else {
      assert ms[1..][i - 1] == ms[i];
      assert forall j :: i - 1 < j < |ms[1..]| ==> ms[1..][j].name != ms[1..][i - 1].name by {
        forall j | i - 1 < j < |ms[1..]| ensures ms[1..][j].name != ms[1..][i - 1].name {
          assert ms[1..][j] == ms[j + 1];
        }
      }
      AssignLastWins(stored, ms[1..], i - 1);
    }
  }

  /** The keys after storing `ms` are the keys before and the members' names. */
  lemma {:induction false} AssignKeys(acc: map<string, Value>, ms: seq<Member>)
    ensures Assign(acc, ms).Keys == acc.Keys + set i | 0 <= i < |ms| :: ms[i].name
    decreases ms
  {
    if ms != [] {
      var stored := acc[ms[0].name := Meaning(ms[0].value)];
      AssignKeys(stored, ms[1..]);
      var names := set i | 0 <= i < |ms| :: ms[i].name;
      var restNames := set i | 0 <= i < |ms[1..]| :: ms[1..][i].name;
      assert names == {ms[0].name} + restNames by {
        forall k | k in names ensures k in {ms[0].name} + restNames {
          var i :| 0 <= i < |ms| && ms[i].name == k;
          if i > 0 {
            assert ms[1..][i - 1].name == k;
          }
        }
        forall k | k in restNames ensures k in names {
          var i :| 0 <= i < |ms[1..]| && ms[1..][i].name == k;
          assert ms[i + 1].name == k;
        }
      }
    }
  }

  /**
   * The tokens of a well-formed object decode to a map whose keys are
   * exactly the members' names, each mapped to the value of the last member
   * of that name.
   */
  lemma DecodesObjectLastWins(ms: seq<Member>, toks: seq<Token>, pos: int, i: nat)
    requires Placed(toks, pos, Tokens(JObject(ms)))
    requires i < |ms| && forall j :: i < j < |ms| ==> ms[j].name != ms[i].name
    ensures DecodeValue(toks, pos).res.Success?
    ensures DecodeValue(toks, pos).res.value.Map?
    ensures DecodeValue(toks, pos).res.value.entries.Keys == set j | 0 <= j < |ms| :: ms[j].name
    ensures DecodeValue(toks, pos).res.value.entries[ms[i].name] == Meaning(ms[i].value)
  {
    DecodesDocument(JObject(ms), toks, pos);
    AssignKeys(map[], ms);
    AssignLastWins(map[], ms, i);
  }

  /**
   * A reader over exactly the tokens of a document, standing on its first
   * token, decodes the document and ends on its last token.
   */
  lemma DecodesAlone(j: Json)
    ensures DecodeValue(Tokens(j), 0) == Step(Success(Meaning(j)), |Tokens(j)| - 1)
  {
    PlacedRest(Tokens(j), 0);
    assert Tokens(j)[0..] == Tokens(j);
    DecodesDocument(j, Tokens(j), 0);
  }

  /** {"a": 1, "b": 2, "a": 3} decodes to {"a": 3, "b": 2}: the later "a" overwrites the earlier. */
  lemma RepeatedNameExample()
    ensures var j := JObject([Member("a", JPrimitive(Integer, OtherPrim("1"))),
                              Member("b", JPrimitive(Integer, OtherPrim("2"))),
                              Member("a", JPrimitive(Integer, OtherPrim("3")))]);
      DecodeValue(Tokens(j), 0).res == Success(Map(map["a" := Scalar(OtherPrim("3")), "b" := Scalar(OtherPrim("2"))]))
  {
    var j := JObject([Member("a", JPrimitive(Integer, OtherPrim("1"))),
                      Member("b", JPrimitive(Integer, OtherPrim("2"))),
                      Member("a", JPrimitive(Integer, OtherPrim("3")))]);
    DecodesAlone(j);
    assert Meaning(j) == Map(map["a" := Scalar(OtherPrim("3")), "b" := Scalar(OtherPrim("2"))]);
  }

  /**
   * The input stops part-way through `x`: the tokens from the cursor `pos`
   * to the end of `toks` are the first tokens of `x`, but not all of them.
   */
  predicate Cut(toks: seq<Token>, pos: int, x: seq<Token>)
    decreases |x|
  {
    0 <= pos <= |toks| && x != [] && (pos == |toks| || (toks[pos] == x[0] && Cut(toks, pos + 1, x[1..])))
  }

  /** Fewer tokens remain than the sequence that was cut. */
  lemma {:induction false} CutShort(toks: seq<Token>, pos: int, x: seq<Token>)
    requires Cut(toks, pos, x)
    ensures |toks| - pos < |x|
    decreases |x|
  {
    if pos < |toks| {
      CutShort(toks, pos + 1, x[1..]);
    }
  }

  /** A proper beginning of a sequence stops part-way through it. */
  lemma {:induction false} CutPrefix(x: seq<Token>, n: nat, pos: nat)
    requires pos <= n < |x|
    ensures Cut(x[..n], pos, x[pos..])
    decreases n - pos
  {
    if pos < n {
      CutPrefix(x, n, pos + 1);
      assert x[pos..][1..] == x[pos + 1..];
    }
  }

  /** Input that stops part-way through `a + b` either holds all of `a` and stops in `b`, or stops in `a`. */
  lemma {:induction false} CutSplit(toks: seq<Token>, pos: int, a: seq<Token>, b: seq<Token>)
    requires Cut(toks, pos, a + b)
    ensures (Placed(toks, pos, a) && Cut(toks, pos + |a|, b)) || Cut(toks, pos, a)
    decreases |a|
  {
    if a == [] {
      assert a + b == b;
    } else if pos < |toks| {
      assert (a + b)[1..] == a[1..] + b;
      CutSplit(toks, pos + 1, a[1..], b);
    }
  }

  /**
   * Input that stops part-way through a document, after its first token,
   * fails with an unexpected end past the last token: never a partial value.
   */
  lemma {:induction false} TruncatedDocument(j: Json, toks: seq<Token>, pos: int)
    requires pos < |toks| && Cut(toks, pos, Tokens(j))
    ensures DecodeValue(toks, pos) == Step(Failure(UnexpectedEnd), |toks|)
    decreases j, 3
  {
    CutShort(toks, pos, Tokens(j));
    assert SkipComments(toks, pos) == pos;
    match j
    case JArray(es) =>
      assert Tokens(j)[1..] == ElementTokens(es) + [Token(EndArray, NullPrim)];
      assert DecodeValue(toks, pos) == DecodeList(toks, pos, []);
      TruncatedElements(es, toks, pos, []);
    case JObject(ms) =>
      assert Tokens(j)[1..] == MemberTokens(ms) + [Token(EndObject, NullPrim)];
      assert DecodeValue(toks, pos) == DecodeObject(toks, pos, map[]);
      TruncatedMembers(ms, toks, pos, map[]);
  }

  /** An array body that the input stops in fails with an unexpected end. */
  lemma {:induction false} TruncatedElements(es: seq<Json>, toks: seq<Token>, cur: int, acc: seq<Value>)
    requires -1 <= cur && Cut(toks, cur + 1, ElementTokens(es) + [Token(EndArray, NullPrim)])
    ensures DecodeList(toks, cur, acc) == Step(Failure(UnexpectedEnd), |toks|)
    decreases es, 2
  {
    if cur + 1 < |toks| {
      ElementCut(es, toks, cur + 1);
      var first, rest := Tokens(es[0]), ElementTokens(es[1..]) + [Token(EndArray, NullPrim)];
      CutSplit(toks, cur + 1, first, rest);
      if Placed(toks, cur + 1, first) && Cut(toks, cur + 1 + |first|, rest) {
        ElementStep(toks, cur, acc, es[0]);
        TruncatedElements(es[1..], toks, cur + |first|, acc + [Meaning(es[0])]);
      } else {
        TruncatedDocument(es[0], toks, cur + 1);
        ListPropagatesFailure(toks, cur, acc);
      }
    }
  }

  /** Where an array body the input stops in, after its first token, stands. */
  lemma {:induction false} ElementCut(es: seq<Json>, toks: seq<Token>, pos: int)
    requires pos < |toks| && Cut(toks, pos, ElementTokens(es) + [Token(EndArray, NullPrim)])
    ensures es != [] && toks[pos] == Tokens(es[0])[0]
    ensures Cut(toks, pos, Tokens(es[0]) + (ElementTokens(es[1..]) + [Token(EndArray, NullPrim)]))
  {
    CutShort(toks, pos, ElementTokens(es) + [Token(EndArray, NullPrim)]);
    assert es != [];
    Associative(Tokens(es[0]), ElementTokens(es[1..]), [Token(EndArray, NullPrim)]);
  }

  /** An object body that the input stops in fails with an unexpected end. */
  lemma {:induction false} TruncatedMembers(ms: seq<Member>, toks: seq<Token>, cur: int, acc: map<string, Value>)
    requires -1 <= cur && Cut(toks, cur + 1, MemberTokens(ms) + [Token(EndObject, NullPrim)])
    ensures DecodeObject(toks, cur, acc) == Step(Failure(UnexpectedEnd), |toks|)
    decreases ms, 2
  {
    if cur + 1 < |toks| {
      MemberCut(ms, toks, cur + 1);
      if cur + 2 == |toks| {
        ObjectNameAtEnd(toks, cur, acc);
      } else {
        var first, rest := Tokens(ms[0].value), MemberTokens(ms[1..]) + [Token(EndObject, NullPrim)];
        CutSplit(toks, cur + 2, first, rest);
        if Placed(toks, cur + 2, first) && Cut(toks, cur + 2 + |first|, rest) {
          MemberStep(toks, cur, acc, ms[0]);
          TruncatedMembers(ms[1..], toks, cur + 1 + |first|, acc[ms[0].name := Meaning(ms[0].value)]);
        } else {
          TruncatedDocument(ms[0].value, toks, cur + 2);
          ObjectPropagatesFailure(toks, cur, acc);
        }
      }
    }
  }

  /** Where an object body the input stops in, after its first token, stands. */
  lemma {:induction false} MemberCut(ms: seq<Member>, toks: seq<Token>, pos: int)
    requires pos < |toks| && Cut(toks, pos, MemberTokens(ms) + [Token(EndObject, NullPrim)])
    ensures ms != [] && toks[pos] == Token(PropertyName, StringPrim(ms[0].name))
    ensures pos + 1 < |toks| ==>
      Cut(toks, pos + 1, Tokens(ms[0].value) + (MemberTokens(ms[1..]) + [Token(EndObject, NullPrim)]))
  {
    CutShort(toks, pos, MemberTokens(ms) + [Token(EndObject, NullPrim)]);
    assert ms != [];
    var first, rest := Tokens(ms[0].value), MemberTokens(ms[1..]) + [Token(EndObject, NullPrim)];
    assert MemberTokens(ms) + [Token(EndObject, NullPrim)] == [Token(PropertyName, StringPrim(ms[0].name))] + (first + rest);
    CutTail(toks, pos, Token(PropertyName, StringPrim(ms[0].name)), first + rest);
  }

  /** Input that stops part-way through `[t] + y`, and holds a token, holds `t` and stops part-way through `y`. */
  lemma {:induction false} CutTail(toks: seq<Token>, pos: int, t: Token, y: seq<Token>)
    requires pos < |toks| && Cut(toks, pos, [t] + y)
    ensures toks[pos] == t && Cut(toks, pos + 1, y)
  {
    assert ([t] + y)[1..] == y;
  }

  /**
   * Every proper beginning of a document's tokens fails with an unexpected
   * end past its last token; a truncated document never decodes to a
   * partial value.
   */
  lemma TruncatedFails(j: Json, n: nat)
    requires 0 < n < |Tokens(j)|
    ensures DecodeValue(Tokens(j)[..n], 0) == Step(Failure(UnexpectedEnd), n)
  {
    CutPrefix(Tokens(j), n, 0);
    assert Tokens(j)[0..] == Tokens(j);
    TruncatedDocument(j, Tokens(j)[..n], 0);
  }
}
