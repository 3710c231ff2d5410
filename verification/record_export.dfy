/** The flat exports of `Exercice2.py`: `Serializable.to_json` and
    `_get_serializable_data`, `ExportableCSV.to_csv` and
    `ExportableXML.to_xml`. */
module RecordExport {
  import opened Wrappers
  import opened Values
  import opened PyStrings
  import opened Outputs
  import opened Record
  import opened RecordHistory

  /** What Python says when a snapshot triple is unpacked as a pair. */
  const UnpackMessage := "too many values to unpack (expected 2)"

  /** The names `_get_serializable_data` keeps: no leading underscore,
      except `_class`. */
  predicate Serialised(n: string) {
    !StartsWith(n, "_") || n == "_class"
  }

  function SerialisedNames(ns: seq<string>): (r: seq<string>)
    ensures forall k :: k in r <==> k in ns && Serialised(k)
  {
    if ns == [] then []
    else (if Serialised(ns[0]) then [ns[0]] else []) + SerialisedNames(ns[1..])
  }

  /** How `_get_serializable_data` writes one value: a datetime as its ISO
      text, a nested serialisable through its own `_get_serializable_data`,
      a value `json.dumps` accepts as itself, anything else as `str(v)`. */
  function Coerce(v: Value): (r: Json)
    ensures v.VTime? ==> r == JText(IsoOf(v.t))
    ensures v.VObject? && v.serializable ==> r == JObject(SerializableData(v.fields))
    ensures JsonEncodable(v) ==> r == EncodeJson(v)
    ensures !v.VTime? && !(v.VObject? && v.serializable) && !JsonEncodable(v) ==> r == JText(StrOf(v))
    decreases v
  {
    match v
    case VTime(t) => JText(IsoOf(t))
    case VObject(_, serializable, fields) =>
      if serializable then JObject(SerializableData(fields)) else JText(StrText(v))
    case _ => if JsonEncodable(v) then EncodeJson(v) else JText(StrText(v))
  }

  /** `_get_serializable_data()` over an attribute map, in its order. */
  function SerializableData(d: seq<Attr>): (r: seq<Member>)
    ensures Keys(r) == SerialisedNames(Names(d))
    decreases d
  {
    if d == [] then []
    else
      var rest := SerializableData(d[1..]);
      NamesCons(d);
      var head := if Serialised(d[0].name) then [Member(d[0].name, Coerce(d[0].value))] else [];
      KeysAppend(head, rest);
      head + rest
  }

  /** Every member of `ms` is an attribute of `d` under its own name,
      holding that attribute's coerced value. */
  predicate CoercedFrom(d: seq<Attr>, ms: seq<Member>) {
    forall i :: 0 <= i < |ms| ==> Find(d, ms[i].key).Some? && ms[i].value == Coerce(Find(d, ms[i].key).value)
  }

  /** Each kept attribute is written under its own name as its coerced
      value. */
  lemma {:induction false} SerializableDataValues(d: seq<Attr>)
    requires UniqueNames(d)
    ensures CoercedFrom(d, SerializableData(d))
  {
    if d != [] {
      var rest := SerializableData(d[1..]);
      NamesCons(d);
      assert UniqueNames(d[1..]);
      SerializableDataValues(d[1..]);
      forall i | 0 <= i < |rest| ensures rest[i].key != d[0].name {
        assert rest[i].key == Keys(rest)[i];
        assert rest[i].key in Names(d[1..]);
      }
      CoercedFromTail(d, rest);
      var head := if Serialised(d[0].name) then [Member(d[0].name, Coerce(d[0].value))] else [];
      assert CoercedFrom(d, head);
      CoercedFromAppend(d, head, rest);
    }
  }

  /** What holds of the tail of a map holds of the whole map for the
      names other than the first. */
  lemma CoercedFromTail(d: seq<Attr>, ms: seq<Member>)
    requires d != [] && CoercedFrom(d[1..], ms)
    requires forall i :: 0 <= i < |ms| ==> ms[i].key != d[0].name
    ensures CoercedFrom(d, ms)
  {
    forall i | 0 <= i < |ms| ensures Find(d, ms[i].key) == Find(d[1..], ms[i].key) {
    }
  }

  lemma CoercedFromAppend(d: seq<Attr>, a: seq<Member>, b: seq<Member>)
    requires CoercedFrom(d, a) && CoercedFrom(d, b)
    ensures CoercedFrom(d, a + b)
  {
    forall i | 0 <= i < |a + b|
      ensures Find(d, (a + b)[i].key).Some? && (a + b)[i].value == Coerce(Find(d, (a + b)[i].key).value)
    {
      if i >= |a| {
        assert (a + b)[i] == b[i - |a|];
      }
    }
  }

  /** The `_historique` step of `to_json(include_history)`. */
  function AddHistory(o: Obj, data: seq<Member>): (r: Result<seq<Member>, Error>)
    requires Find(o.dict, "historique").Some?
    requires "_historique" !in Keys(data)
    ensures History(o).Success? && History(o).value != [] ==> r == Failure(ValueError(UnpackMessage))
    ensures ListAttr(o, "historique") == Some([]) <==> r.Success?
    ensures r.Success? ==> Keys(r.value) == Keys(data) + ["_historique"]
  {
    match Find(o.dict, "historique").value
    case VList(items) =>
      if items == [] then Success(SetMember(data, "_historique", JArray([])))
      else if items[0].VTuple? && |items[0].items| == 3 then
        Failure(ValueError(UnpackMessage))
      else Failure(Malformed("historique"))
    case _ => Failure(Malformed("historique"))
  }

  /** `to_json(include_history)` as a JSON tree. With `include_history`,
      the history entries are unpacked as pairs while `enregistrer_etat`
      stores triples, so any non-empty history raises `ValueError`; an empty
      one adds `_historique: []`. `_class` is written last, unless the
      instance has an attribute of that name, whose slot it then takes. */
  function ToJson(o: Obj, includeHistory: bool): (r: Result<Json, Error>)
    ensures !includeHistory || Find(o.dict, "historique").None? ==> r.Success?
    ensures includeHistory && History(o).Success? && History(o).value != [] ==>
      r == Failure(ValueError(UnpackMessage))
    ensures r.Success? ==> r.value.JObject? && Member("_class", JText(Plain(o.className))) in r.value.members
    ensures r.Success? && "_class" !in Names(o.dict)
            && (!includeHistory || Find(o.dict, "historique").None?) ==>
      Keys(r.value.members) == SerialisedNames(Names(o.dict)) + ["_class"]
    ensures r.Success? && "_class" !in Names(o.dict) && includeHistory && Find(o.dict, "historique").Some? ==>
      Keys(r.value.members) == SerialisedNames(Names(o.dict)) + ["_historique", "_class"]
    ensures r.Success? && "_class" in Names(o.dict)
            && (!includeHistory || Find(o.dict, "historique").None?) ==>
      Keys(r.value.members) == SerialisedNames(Names(o.dict))
    ensures r.Success? && "_class" in Names(o.dict) && includeHistory && Find(o.dict, "historique").Some? ==>
      Keys(r.value.members) == SerialisedNames(Names(o.dict)) + ["_historique"]
  {
    var data := SerializableData(o.dict);
    assert "_class" !in Names(o.dict) ==> "_class" !in Keys(data);
    assert Serialised("_class");
    assert "_class" in Names(o.dict) ==> "_class" in Keys(data);
    if includeHistory && Find(o.dict, "historique").Some? then
      assert "_historique" !in Keys(data);
      match AddHistory(o, data)
      case Failure(e) => Failure(e)
      case Success(data1) => Success(JObject(WithClass(data1, o.className)))
    else Success(JObject(WithClass(data, o.className)))
  }

  /** Every member `to_json` writes, other than `_class` and
      `_historique`, is an attribute of the instance under its own name,
      holding that attribute's value as `_get_serializable_data` writes
      it; `_historique`, when written, is the empty list. */
  lemma ToJsonValues(o: Obj, includeHistory: bool)
    requires UniqueNames(o.dict)
    ensures ToJson(o, includeHistory).Success? ==>
      var ms := ToJson(o, includeHistory).value.members;
      forall i :: 0 <= i < |ms| && ms[i].key != "_class" ==>
        if ms[i].key == "_historique" then ms[i].value == JArray([])
        else Find(o.dict, ms[i].key).Some? && ms[i].value == Coerce(Find(o.dict, ms[i].key).value)
  {
    var data := SerializableData(o.dict);
    SerializableDataValues(o.dict);
    var cls := JText(Plain(o.className));
    assert "_historique" !in Keys(data);
    if includeHistory && Find(o.dict, "historique").Some? {
      match AddHistory(o, data)
      case Failure(_) =>
      case Success(data1) =>
        assert data1 == data + [Member("_historique", JArray([]))];
        var ms := SetMember(data1, "_class", cls);
        assert ToJson(o, includeHistory).value.members == ms;
        forall i | 0 <= i < |ms| && ms[i].key != "_class"
          ensures if ms[i].key == "_historique" then ms[i].value == JArray([])
            else Find(o.dict, ms[i].key).Some? && ms[i].value == Coerce(Find(o.dict, ms[i].key).value)
        {
          SetMemberOthers(data1, "_class", cls, i);
          if i < |data| {
            assert data1[i] == data[i];
            assert data[i].key == Keys(data)[i];
          }
        }
    } else {
      var ms := SetMember(data, "_class", cls);
      assert ToJson(o, includeHistory).value.members == ms;
      forall i | 0 <= i < |ms| && ms[i].key != "_class"
        ensures if ms[i].key == "_historique" then ms[i].value == JArray([])
          else Find(o.dict, ms[i].key).Some? && ms[i].value == Coerce(Find(o.dict, ms[i].key).value)
      {
        SetMemberOthers(data, "_class", cls, i);
        assert data[i].key == Keys(data)[i];
      }
    }
  }

  /** The last step of `to_json`: `data['_class'] = <class name>`. */
  function WithClass(ms: seq<Member>, className: string): (r: seq<Member>)
    ensures Member("_class", JText(Plain(className))) in r
    ensures "_class" !in Keys(ms) ==> Keys(r) == Keys(ms) + ["_class"]
  {
    var r := SetMember(ms, "_class", JText(Plain(className)));
    assert "_class" !in Keys(ms) ==> r[|ms|] == Member("_class", JText(Plain(className)));
    r
  }

  // ---------------------------------------------------------------------
  // to_csv
  // ---------------------------------------------------------------------

  /** How `csv.writer` writes one value: `None` as an empty field, anything
      else as `str(v)`. */
  function CsvCell(v: Value): Text {
    if v.VNone? then Plain("") else StrText(v)
  }

  /** `to_csv()` over the record `to_dict()` returns: a header row of its
      keys and one row of its values. */
  function ToCsv(record: seq<Attr>): (r: seq<CsvRow>)
    ensures |r| == 2 && |r[0]| == |record| && |r[1]| == |record|
    ensures forall i :: 0 <= i < |record| ==> r[0][i] == Plain(record[i].name)
    ensures forall i :: 0 <= i < |record| ==> r[1][i] == CsvCell(record[i].value)
  {
    [seq(|record|, i requires 0 <= i < |record| => Plain(record[i].name)),
     seq(|record|, i requires 0 <= i < |record| => CsvCell(record[i].value))]
  }

  /** Pairs each header field with the field under it, reading the text
      back as a string value. */
  function ReadCsvRecord(rows: seq<CsvRow>): Option<seq<Attr>> {
    if |rows| != 2 || |rows[0]| != |rows[1]| then None
    else if forall i :: 0 <= i < |rows[0]| ==> rows[0][i].Plain? && rows[1][i].Plain? then
      Some(seq(|rows[0]|, i requires 0 <= i < |rows[0]| => Attr(rows[0][i].s, VStr(rows[1][i].s))))
    else None
  }

  /** A record of strings survives the CSV export: header and data row zip
      back into the record, name by name, in order. */
  lemma CsvRecordRoundTrip(record: seq<Attr>)
    requires forall i :: 0 <= i < |record| ==> record[i].value.VStr?
    ensures ReadCsvRecord(ToCsv(record)) == Some(record)
  {
    var rows: seq<CsvRow> := ToCsv(record);
    var back := seq(|rows[0]|, i requires 0 <= i < |rows[0]| => Attr(rows[0][i].s, VStr(rows[1][i].s)));
    assert forall i :: 0 <= i < |record| ==> back[i] == record[i];
    assert back == record;
  }

  // ---------------------------------------------------------------------
  // to_xml
  // ---------------------------------------------------------------------

  /** The text `to_xml` gives an attribute element. */
  function XmlText(v: Value): Text {
    if v.VTime? then IsoOf(v.t) else StrText(v)
  }

  function Tags(xs: seq<Xml>): seq<string> {
    seq(|xs|, i requires 0 <= i < |xs| => xs[i].tag)
  }

  lemma TagsAppend(a: seq<Xml>, b: seq<Xml>)
    ensures Tags(a + b) == Tags(a) + Tags(b)
  {
  }

  function PublicNames(ns: seq<string>): (r: seq<string>)
    ensures forall k :: k in r <==> k in ns && !StartsWith(k, "_")
  {
    if ns == [] then []
    else (if !StartsWith(ns[0], "_") then [ns[0]] else []) + PublicNames(ns[1..])
  }

  /** One element per attribute without a leading underscore, in `__dict__`
      order. `historique` has no underscore, so it gets one too, holding
      `str()` of the list. */
  function AttributeElements(d: seq<Attr>): (r: seq<Xml>)
    ensures Tags(r) == PublicNames(Names(d))
    ensures forall i :: 0 <= i < |r| ==> r[i].children == [] && r[i].text.Some?
  {
    if d == [] then []
    else
      var rest := AttributeElements(d[1..]);
      NamesCons(d);
      var head := if !StartsWith(d[0].name, "_")
                  then [Element(d[0].name, Some(XmlText(d[0].value)), [])] else [];
      TagsAppend(head, rest);
      var r := head + rest;
      assert forall i :: 0 <= i < |r| ==> r[i] in head || r[i] in rest;
      r
  }

  /** Every element of `xs` is named after an attribute of `d` and holds
      that attribute's `isoformat()` or `str()` text. */
  predicate TextFrom(d: seq<Attr>, xs: seq<Xml>) {
    forall i :: 0 <= i < |xs| ==>
      Find(d, xs[i].tag).Some? && xs[i].text == Some(XmlText(Find(d, xs[i].tag).value))
  }

  /** Each attribute element holds the text of the attribute it is named
      after. */
  lemma {:induction false} AttributeElementsText(d: seq<Attr>)
    requires UniqueNames(d)
    ensures TextFrom(d, AttributeElements(d))
  {
    if d != [] {
      var rest := AttributeElements(d[1..]);
      NamesCons(d);
      assert UniqueNames(d[1..]);
      AttributeElementsText(d[1..]);
      forall i | 0 <= i < |rest| ensures rest[i].tag != d[0].name {
        assert rest[i].tag == Tags(rest)[i];
        assert rest[i].tag in Names(d[1..]);
      }
      TextFromTail(d, rest);
      var head := if !StartsWith(d[0].name, "_")
                  then [Element(d[0].name, Some(XmlText(d[0].value)), [])] else [];
      assert TextFrom(d, head);
      TextFromAppend(d, head, rest);
    }
  }

  lemma TextFromTail(d: seq<Attr>, xs: seq<Xml>)
    requires d != [] && TextFrom(d[1..], xs)
    requires forall i :: 0 <= i < |xs| ==> xs[i].tag != d[0].name
    ensures TextFrom(d, xs)
  {
    forall i | 0 <= i < |xs| ensures Find(d, xs[i].tag) == Find(d[1..], xs[i].tag) {
    }
  }

  lemma TextFromAppend(d: seq<Attr>, a: seq<Xml>, b: seq<Xml>)
    requires TextFrom(d, a) && TextFrom(d, b)
    ensures TextFrom(d, a + b)
  {
    forall i | 0 <= i < |a + b|
      ensures Find(d, (a + b)[i].tag).Some? && (a + b)[i].text == Some(XmlText(Find(d, (a + b)[i].tag).value))
    {
      if i >= |a| {
        assert (a + b)[i] == b[i - |a|];
      }
    }
  }

  /** The timestamp and the action `to_xml` unpacks from one history
      triple. */
  function Stamp(v: Value): Option<(Timestamp, string)> {
    match v
    case VTuple(xs) =>
      if |xs| == 3 && xs[0].VTime? && xs[1].VStr? then Some((xs[0].t, xs[1].s)) else None
    case _ => None
  }

  function Stamps(items: seq<Value>): (r: Option<seq<(Timestamp, string)>>)
    ensures r.Some? ==> |r.value| == |items|
    ensures r.Some? ==> forall i :: 0 <= i < |items| ==> Stamp(items[i]) == Some(r.value[i])
    ensures r.None? ==> exists i :: 0 <= i < |items| && Stamp(items[i]).None?
  {
    if items == [] then Some([])
    else
      match Stamp(items[0])
      case None => None
      case Some(s) =>
        match Stamps(items[1..])
        case None => None
        case Some(ss) => Some([s] + ss)
  }

  /** The tag of the `i`-th history element. */
  function EntryTag(i: nat): string {
    "entree_" + Decimal(i)
  }

  function EntryElement(i: nat, s: (Timestamp, string)): Xml {
    Element(EntryTag(i), None,
      [Element("timestamp", Some(IsoOf(s.0)), []), Element("action", Some(Plain(s.1)), [])])
  }

  /** The `historique` block: one `entree_i` per snapshot, in history order. */
  function HistoryElement(ss: seq<(Timestamp, string)>): Xml {
    Element("historique", None, seq(|ss|, i requires 0 <= i < |ss| => EntryElement(i, ss[i])))
  }

  /** `to_xml()`: the attribute elements, then, when the history is
      non-empty, the `historique` block. */
  function ToXml(o: Obj): (r: Result<Xml, Error>)
    ensures (match Find(o.dict, "historique")
             case None => true
             case Some(h) => !Truthy(h) || (h.VList? && Stamps(h.items).Some?)) <==> r.Success?
    ensures r.Success? ==> r.value.tag == o.className && r.value.text == None
    ensures r.Success? ==>
      var public := PublicNames(Names(o.dict));
      match ListAttr(o, "historique")
      case Some(items) =>
        if items == [] then Tags(r.value.children) == public
        else Tags(r.value.children) == public + ["historique"]
             && |r.value.children[|public|].children| == |items|
      case None => Tags(r.value.children) == public
    ensures r.Success? ==> r.value.children[..|PublicNames(Names(o.dict))|] == AttributeElements(o.dict)
    ensures r.Success? && ListAttr(o, "historique").Some? && ListAttr(o, "historique").value != [] ==>
      var items := ListAttr(o, "historique").value;
      Stamps(items).Some?
      && r.value.children[|PublicNames(Names(o.dict))|] == HistoryElement(Stamps(items).value)
  {
    var attrs := AttributeElements(o.dict);
    match Find(o.dict, "historique")
    case None => Success(Element(o.className, None, attrs))
    case Some(h) =>
      if !Truthy(h) then Success(Element(o.className, None, attrs))
      else if !h.VList? then Failure(Malformed("historique"))
      else
        match Stamps(h.items)
        case None => Failure(Malformed("historique"))
        case Some(ss) =>
          var children := attrs + [HistoryElement(ss)];
          TagsAppend(attrs, [HistoryElement(ss)]);
          assert children[..|attrs|] == attrs;
          Success(Element(o.className, None, children))
  }

  /** Two history elements never share a tag. */
  lemma EntryTagsDistinct(i: nat, j: nat)
    requires i != j
    ensures EntryTag(i) != EntryTag(j)
  {
    if EntryTag(i) == EntryTag(j) {
      assert Digits(i) == EntryTag(i)[7..];
      assert Digits(j) == EntryTag(j)[7..];
      DigitsInjective(i, j);
    }
  }

  /** Reads the `(timestamp, action)` pairs back out of a `historique`
      block. */
  function ReadHistoryElement(x: Xml): Option<seq<(Timestamp, string)>> {
    if x.tag != "historique" then None
    else if forall i :: 0 <= i < |x.children| ==>
              |x.children[i].children| == 2
              && x.children[i].children[0].text.Some? && x.children[i].children[0].text.value.IsoOf?
              && x.children[i].children[1].text.Some? && x.children[i].children[1].text.value.Plain?
    then Some(seq(|x.children|, i requires 0 <= i < |x.children| =>
                (x.children[i].children[0].text.value.t, x.children[i].children[1].text.value.s)))
    else None
  }

  /** The `historique` block keeps every snapshot's timestamp and action,
      in history order. */
  lemma HistoryElementRoundTrip(ss: seq<(Timestamp, string)>)
    ensures ReadHistoryElement(HistoryElement(ss)) == Some(ss)
  {
    var x := HistoryElement(ss);
    assert forall i :: 0 <= i < |ss| ==> x.children[i] == EntryElement(i, ss[i]);
    var back := seq(|x.children|, i requires 0 <= i < |x.children| =>
                  (x.children[i].children[0].text.value.t, x.children[i].children[1].text.value.s));
    assert forall i :: 0 <= i < |ss| ==> back[i] == ss[i];
    assert back == ss;
  }

  /** Every attribute element `to_xml` writes holds the text of the
      attribute it is named after. */
  lemma ToXmlAttributeTexts(o: Obj)
    requires UniqueNames(o.dict) && ToXml(o).Success?
    ensures var ch := ToXml(o).value.children;
      var k := |PublicNames(Names(o.dict))|;
      k <= |ch| && TextFrom(o.dict, ch[..k])
  {
    AttributeElementsText(o.dict);
  }

  /** For a well-formed non-empty history, `to_xml` succeeds and its last
      child reads back as the timestamp and action of every snapshot, in
      history order. */
  lemma ToXmlHistory(o: Obj)
    requires History(o).Success? && History(o).value != []
    ensures ToXml(o).Success?
    ensures var ch := ToXml(o).value.children;
      ch != [] && ReadHistoryElement(ch[|ch| - 1]) == Some(StampsOf(History(o).value))
  {
    var items := ListAttr(o, "historique").value;
    StampsOfHistory(items, History(o).value);
    var ss := Stamps(items).value;
    var ch := ToXml(o).value.children;
    assert |ch| == |PublicNames(Names(o.dict))| + 1 by {
      assert |Tags(ch)| == |ch|;
    }
    HistoryElementRoundTrip(ss);
  }

  /** The `(timestamp, action)` pair of each snapshot, in history order. */
  function StampsOf(hs: seq<HistoryEntry>): (r: seq<(Timestamp, string)>)
    ensures |r| == |hs|
  {
    seq(|hs|, i requires 0 <= i < |hs| => (hs[i].timestamp, hs[i].action))
  }

  /** The history triples read by `to_xml` are the stored snapshots'
      timestamps and actions. */
  lemma StampsOfHistory(items: seq<Value>, hs: seq<HistoryEntry>)
    requires DecodeSnapshots(items) == Some(hs)
    ensures Stamps(items) == Some(StampsOf(hs))
  {
    var want := StampsOf(hs);
    forall i | 0 <= i < |items| ensures Stamp(items[i]) == Some(want[i]) {
      assert items[i] == EncodeSnapshot(hs[i]);
    }
    assert Stamps(items).value == want;
  }
}
