/**
 * The JSON token stream a Moshi JsonReader walks and a JsonWriter produces, and the JSON values
 * those tokens spell. Scalars (strings, numbers, booleans) are kept as their text.
 */
module JsonTokens {
  import opened Wrappers

  datatype Token =
    | BeginObject
    | EndObject
    | BeginArray
    | EndArray
    | Name(name: string)
    | Scalar(text: string)
    | NullToken

  datatype JValue =
    | JNull
    | JScalar(text: string)
    | JObj(members: seq<Member>)
    | JArr(items: seq<JValue>)

  datatype Member = Member(name: string, value: JValue)

  /** Why reading a value failed (JsonDataException, EOFException, or an exception from user code). */
  datatype ReadError =
    | UnexpectedToken(found: Token)
    | UnexpectedEnd
    | NullForPrimitive(slot: nat)           // unboxing a null read into a primitive local or setter
    | NullForRequired(slot: nat)            // the value class's constructor rejecting a null non-@Nullable argument
    | BuildFailed(message: string)          // the builder's build() threw

  /** The tokens a JsonWriter emits for a value. */
  function Serialize(v: JValue): seq<Token>
    decreases v, 1
  {
    match v
    case JNull => [NullToken]
    case JScalar(s) => [Scalar(s)]
    case JObj(ms) => [BeginObject] + SerializeMembers(ms) + [EndObject]
    case JArr(vs) => [BeginArray] + SerializeItems(vs) + [EndArray]
  }

  function SerializeMembers(ms: seq<Member>): seq<Token>
    decreases ms, 0
  {
    if |ms| == 0 then [] else [Name(ms[0].name)] + Serialize(ms[0].value) + SerializeMembers(ms[1..])
  }

  function SerializeItems(vs: seq<JValue>): seq<Token>
    decreases vs, 0
  {
    if |vs| == 0 then [] else Serialize(vs[0]) + SerializeItems(vs[1..])
  }

  /** `rest` is a proper suffix of `ts`. */
  predicate ProperSuffix(rest: seq<Token>, ts: seq<Token>) {
    |rest| < |ts| && ts[|ts| - |rest|..] == rest
  }

  /** `rest` is a suffix of `ts`, possibly all of it. */
  predicate Suffix(rest: seq<Token>, ts: seq<Token>) {
    |rest| <= |ts| && ts[|ts| - |rest|..] == rest
  }

  lemma SuffixTrans(a: seq<Token>, b: seq<Token>, c: seq<Token>)
    requires Suffix(a, b) && Suffix(b, c)
    ensures Suffix(a, c)
    ensures ProperSuffix(a, b) || ProperSuffix(b, c) ==> ProperSuffix(a, c)
  {
    assert c[|c| - |a|..] == c[|c| - |b|..][|b| - |a|..];
  }

  lemma DropFirst(ts: seq<Token>)
    requires |ts| > 0
    ensures ProperSuffix(ts[1..], ts)
  {
  }

  /**
   * Reads one complete value from the front of the stream, as JsonReader's typed readers (and
   * `skipValue`, which discards the result) do; returns the value and the unread tokens.
   */
  function ParseValue(ts: seq<Token>): (r: Result<(JValue, seq<Token>), ReadError>)
    ensures r.Success? ==> |r.value.1| < |ts|
    decreases |ts|, 0
  {
    if |ts| == 0 then Failure(UnexpectedEnd)
    else match ts[0]
      case NullToken => Success((JNull, ts[1..]))
      case Scalar(s) => Success((JScalar(s), ts[1..]))
      case BeginObject =>
        var inner := ParseMembers(ts[1..]);
        if inner.Failure? then Failure(inner.error) else Success((JObj(inner.value.0), inner.value.1))
      case BeginArray =>
        var inner := ParseItems(ts[1..]);
        if inner.Failure? then Failure(inner.error) else Success((JArr(inner.value.0), inner.value.1))
      case _ => Failure(UnexpectedToken(ts[0]))
  }

  /** Reads `name value` pairs up to and including the closing EndObject. */
  function ParseMembers(ts: seq<Token>): (r: Result<(seq<Member>, seq<Token>), ReadError>)
    ensures r.Success? ==> |r.value.1| < |ts|
    decreases |ts|, 1
  {
    if |ts| == 0 then Failure(UnexpectedEnd)
    else match ts[0]
      case EndObject => Success(([], ts[1..]))
      case Name(n) =>
        var head := ParseValue(ts[1..]);
        if head.Failure? then Failure(head.error)
        else
          var tail := ParseMembers(head.value.1);
          if tail.Failure? then Failure(tail.error)
          else Success(([Member(n, head.value.0)] + tail.value.0, tail.value.1))
      case _ => Failure(UnexpectedToken(ts[0]))
  }

  /** Reads values up to and including the closing EndArray. */
  function ParseItems(ts: seq<Token>): (r: Result<(seq<JValue>, seq<Token>), ReadError>)
    ensures r.Success? ==> |r.value.1| < |ts|
    decreases |ts|, 1
  {
    if |ts| == 0 then Failure(UnexpectedEnd)
    else if ts[0] == EndArray then Success(([], ts[1..]))
    else
      var head := ParseValue(ts);
      if head.Failure? then Failure(head.error)
      else
        var tail := ParseItems(head.value.1);
        if tail.Failure? then Failure(tail.error)
        else Success(([head.value.0] + tail.value.0, tail.value.1))
  }

  /** A reader consumes a prefix of the stream: what it leaves is a proper suffix of its input. */
  lemma {:induction false} ParseValueSuffix(ts: seq<Token>)
    ensures ParseValue(ts).Success? ==> ProperSuffix(ParseValue(ts).value.1, ts)
    decreases |ts|, 0
  {
    if |ts| > 0 && ParseValue(ts).Success? {
      DropFirst(ts);
      var left := ParseValue(ts).value.1;
      if ts[0] == BeginObject {
        ParseMembersSuffix(ts[1..]);
        assert left == ParseMembers(ts[1..]).value.1;
        SuffixTrans(left, ts[1..], ts);
      } else if ts[0] == BeginArray {
        ParseItemsSuffix(ts[1..]);
        assert left == ParseItems(ts[1..]).value.1;
        SuffixTrans(left, ts[1..], ts);
      } else {
        assert left == ts[1..];
      }
    }
  }

  lemma {:induction false} ParseMembersSuffix(ts: seq<Token>)
    ensures ParseMembers(ts).Success? ==> ProperSuffix(ParseMembers(ts).value.1, ts)
    decreases |ts|, 1
  {
    if |ts| > 0 && ParseMembers(ts).Success? && ts[0].Name? {
      DropFirst(ts);
      var head := ParseValue(ts[1..]).value;
      ParseValueSuffix(ts[1..]);
      ParseMembersSuffix(head.1);
      SuffixTrans(head.1, ts[1..], ts);
      SuffixTrans(ParseMembers(ts).value.1, head.1, ts);
    }
  }

  lemma {:induction false} ParseItemsSuffix(ts: seq<Token>)
    ensures ParseItems(ts).Success? ==> ProperSuffix(ParseItems(ts).value.1, ts)
    decreases |ts|, 1
  {
    if |ts| > 0 && ParseItems(ts).Success? && ts[0] != EndArray {
      var head := ParseValue(ts).value;
      ParseValueSuffix(ts);
      ParseItemsSuffix(head.1);
      SuffixTrans(ParseItems(ts).value.1, head.1, ts);
    }
  }

  /** Reading back what the writer emitted yields the same value and leaves the rest untouched. */
  lemma {:induction false} ParseSerialize(v: JValue, rest: seq<Token>)
    ensures ParseValue(Serialize(v) + rest) == Success((v, rest))
    decreases v, 1
  {
    var input := Serialize(v) + rest;
    match v
    case JNull =>
      assert input[0] == NullToken && input[1..] == rest;
    case JScalar(s) =>
      assert input[0] == Scalar(s) && input[1..] == rest;
    case JObj(ms) =>
      var body := SerializeMembers(ms) + [EndObject] + rest;
      assert input == [BeginObject] + body;
      assert input[0] == BeginObject && input[1..] == body;
      ParseSerializeMembers(ms, rest);
    case JArr(vs) =>
      var body := SerializeItems(vs) + [EndArray] + rest;
      assert input == [BeginArray] + body;
      assert input[0] == BeginArray && input[1..] == body;
      ParseSerializeItems(vs, rest);
  }

  lemma {:induction false} ParseSerializeMembers(ms: seq<Member>, rest: seq<Token>)
    ensures ParseMembers(SerializeMembers(ms) + [EndObject] + rest) == Success((ms, rest))
    decreases ms, 0
  {
    var input := SerializeMembers(ms) + [EndObject] + rest;
    if |ms| == 0 {
      assert input == [EndObject] + rest;
      assert input[0] == EndObject && input[1..] == rest;
    } else {
      var tail := SerializeMembers(ms[1..]) + [EndObject] + rest;
      assert input == [Name(ms[0].name)] + (Serialize(ms[0].value) + tail);
      assert input[0] == Name(ms[0].name) && input[1..] == Serialize(ms[0].value) + tail;
      ParseSerialize(ms[0].value, tail);
      ParseSerializeMembers(ms[1..], rest);
      assert [Member(ms[0].name, ms[0].value)] + ms[1..] == ms;
    }
  }

  lemma {:induction false} ParseSerializeItems(vs: seq<JValue>, rest: seq<Token>)
    ensures ParseItems(SerializeItems(vs) + [EndArray] + rest) == Success((vs, rest))
    decreases vs, 0
  {
    var input := SerializeItems(vs) + [EndArray] + rest;
    if |vs| == 0 {
      assert input == [EndArray] + rest;
      assert input[0] == EndArray && input[1..] == rest;
    } else {
      var tail := SerializeItems(vs[1..]) + [EndArray] + rest;
      assert input == Serialize(vs[0]) + tail;
      SerializeHead(vs[0]);
      assert input[0] == Serialize(vs[0])[0];
      ParseSerialize(vs[0], tail);
      ParseSerializeItems(vs[1..], rest);
      assert [vs[0]] + vs[1..] == vs;
    }
  }

  /** No serialized value starts with a closing token or a name. */
  lemma SerializeHead(v: JValue)
    ensures |Serialize(v)| > 0
    ensures Serialize(v)[0] != EndObject && Serialize(v)[0] != EndArray && !Serialize(v)[0].Name?
  {
  }
}
