/** Structured stand-ins for the text the capability files produce. The
    JSON, CSV and XML writers are modelled by the trees they would print;
    quoting, escaping, indentation and line endings are not part of the
    model. */
module Outputs {
  import opened Wrappers
  import opened Values

  /** A piece of text in an output. `IsoOf(t)` is `t.isoformat()`,
      `StrOf(v)` is `str(v)` for a value that is not a scalar, and
      `ToJsonOf(v)` is the text returned by `v.to_json()`. */
  datatype Text = Plain(s: string) | IsoOf(t: Timestamp) | StrOf(v: Value) | ToJsonOf(v: Value)

  /** `str(v)`: scalars are written out as Python writes them. */
  function StrText(v: Value): Text {
    match v
    case VNone => Plain("None")
    case VBool(b) => Plain(if b then "True" else "False")
    case VInt(i) => Plain(Decimal(i))
    case VStr(s) => Plain(s)
    case _ => StrOf(v)
  }

  /** `str(v)` as it appears interpolated into a log message. Text that the
      model keeps abstract (the rendering of datetimes, containers and
      objects) is written as a tagged placeholder. */
  function Str(v: Value): string {
    match StrText(v)
    case Plain(s) => s
    case _ =>
      match v
      case VTime(t) => "<datetime " + Digits(t) + ">"
      case VObject(c, _, _) => "<" + c + " object>"
      case _ => "<container>"
  }

  datatype Json =
    | JNull
    | JBool(b: bool)
    | JInt(i: int)
    | JText(text: Text)
    | JArray(items: seq<Json>)
    | JObject(members: seq<Member>)

  datatype Member = Member(key: string, value: Json)

  function Keys(ms: seq<Member>): seq<string> {
    seq(|ms|, i requires 0 <= i < |ms| => ms[i].key)
  }

  lemma KeysAppend(a: seq<Member>, b: seq<Member>)
    ensures Keys(a + b) == Keys(a) + Keys(b)
  {
  }

  lemma KeysCons(ms: seq<Member>)
    requires ms != []
    ensures Keys(ms) == [ms[0].key] + Keys(ms[1..])
  {
  }

  /** `data[k] = v` on the dict being serialised: an existing key keeps its
      position and takes the new value, a new key goes last. */
  function SetMember(ms: seq<Member>, k: string, v: Json): (r: seq<Member>)
    ensures k in Keys(ms) ==> Keys(r) == Keys(ms) && Member(k, v) in r
    ensures k !in Keys(ms) ==> r == ms + [Member(k, v)]
    ensures forall i :: 0 <= i < |ms| && ms[i].key != k ==> r[i] == ms[i]
  {
    if ms == [] then [Member(k, v)]
    else
      KeysCons(ms);
      if ms[0].key == k then
        var r := [Member(k, v)] + ms[1..];
        assert r[1..] == ms[1..];
        KeysCons(r);
        r
      else
        var rest := SetMember(ms[1..], k, v);
        var r := [ms[0]] + rest;
        assert r[1..] == rest;
        KeysCons(r);
        r
  }

  /** A member of the result with another key is the member at the same
      position before. */
  lemma SetMemberOthers(ms: seq<Member>, k: string, v: Json, i: int)
    requires 0 <= i < |SetMember(ms, k, v)| && SetMember(ms, k, v)[i].key != k
    ensures i < |ms| && SetMember(ms, k, v)[i] == ms[i]
  {
    var r := SetMember(ms, k, v);
    if k in Keys(ms) {
      assert |r| == |Keys(r)| == |Keys(ms)| == |ms|;
      assert ms[i].key == Keys(ms)[i] == Keys(r)[i] == r[i].key;
    } else {
      assert r[|ms|].key == k;
    }
  }

  /** `json.dumps` of a value it can encode: tuples become arrays, dicts
      objects with their keys in insertion order. */
  function EncodeJson(v: Value): Json
    requires JsonEncodable(v)
  {
    match v
    case VNone => JNull
    case VBool(b) => JBool(b)
    case VInt(i) => JInt(i)
    case VStr(s) => JText(Plain(s))
    case VList(items) => JArray(seq(|items|, i requires 0 <= i < |items| => EncodeJson(items[i])))
    case VTuple(items) => JArray(seq(|items|, i requires 0 <= i < |items| => EncodeJson(items[i])))
    case VDict(entries) =>
      JObject(seq(|entries|, i requires 0 <= i < |entries| =>
        Member(entries[i].name, EncodeJson(entries[i].value))))
  }

  datatype Xml = Element(tag: string, text: Option<Text>, children: seq<Xml>)

  /** One line of a CSV file, cell by cell. */
  type CsvRow = seq<Text>
}
