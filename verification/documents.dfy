/** The document capabilities of `Exercice1.py`: `valider`, an append-only
    action history, the level kept by `LoggableImplementation`, the
    `dir()`-based `to_json`, and the order of the steps in
    `Document.sauvegarder`. */
module Documents {
  import opened Wrappers
  import opened Values
  import opened PyStrings
  import opened Outputs

  datatype Error = ValueError(reason: string)

  /** One `{action, details, timestamp}` entry of `_historique`. */
  datatype HistoryRecord = HistoryRecord(action: string, details: string, timestamp: Timestamp)

  /** A `Document`. The title and the content are whatever the caller
      passed: the constructor checks neither. */
  datatype Document = Document(
    titre: Value,
    contenu: Value,
    created: Timestamp,
    logLevel: string,
    history: seq<HistoryRecord>)

  /** The level `Document` uses when the caller gives none. */
  const DefaultLevel := "INFO"

  /** `Document(titre, contenu, log_level)`: no validation, an empty
      history, and `log_level` defaulting to "INFO". */
  function Create(titre: Value, contenu: Value, level: Option<string>, now: Timestamp): (r: Document)
    ensures r.history == []
    ensures r.titre == titre && r.contenu == contenu && r.created == now
  {
    Document(titre, contenu, now, if level.Some? then level.value else DefaultLevel, [])
  }

  /** `get_log_level`. */
  function GetLogLevel(d: Document): string {
    d.logLevel
  }

  /** `get_log_level` answers the level given at construction, or "INFO"
      when none was given. */
  lemma LogLevelFromConstructor(titre: Value, contenu: Value, level: Option<string>, now: Timestamp)
    ensures level.Some? ==> GetLogLevel(Create(titre, contenu, level, now)) == level.value
    ensures level.None? ==> GetLogLevel(Create(titre, contenu, level, now)) == "INFO"
  {
  }

  /** `valider`: only the truthiness of the title is checked. */
  function Validate(d: Document): (r: Result<bool, Error>)
    ensures r.Success? <==> Truthy(d.titre)
    ensures r.Failure? ==> r.error == ValueError("Titre manquant")
  {
    if !Truthy(d.titre) then Failure(ValueError("Titre manquant")) else Success(true)
  }

  /** Unlike `valider_titre` of the task module, `valider` lets a
      whitespace-only title through. */
  lemma WhitespaceTitlePasses(d: Document)
    requires d.titre.VStr? && d.titre.s != [] && AllSpace(d.titre.s)
    ensures Validate(d).Success?
  {
  }

  /** `ajouter_historique(action, details)`: one record at the end. */
  function AddHistory(d: Document, action: string, details: string, now: Timestamp): (r: Document)
    ensures |r.history| == |d.history| + 1
    ensures r.history[..|d.history|] == d.history
    ensures r.history[|d.history|] == HistoryRecord(action, details, now)
    ensures r == d.(history := r.history)
  {
    d.(history := d.history + [HistoryRecord(action, details, now)])
  }

  /** Records added one after the other appear in the order they were
      added. */
  lemma AddHistoryKeepsOrder(d: Document, a1: string, x1: string, t1: Timestamp,
                             a2: string, x2: string, t2: Timestamp)
    ensures AddHistory(AddHistory(d, a1, x1, t1), a2, x2, t2).history
      == d.history + [HistoryRecord(a1, x1, t1), HistoryRecord(a2, x2, t2)]
  {
  }

  /** The state a `sauvegarder` call leaves behind, and the exception it
      raised, if any. */
  datatype Saved = Saved(doc: Document, error: Option<Error>)

  /** `sauvegarder`: the history record is written before `valider` runs,
      so a failing save still leaves it behind. */
  function Save(d: Document, now: Timestamp): (r: Saved)
    ensures r.doc.history == d.history + [HistoryRecord("Sauvegarde", "Document '" + Str(d.titre) + "'", now)]
    ensures r.error.None? <==> Truthy(d.titre)
    ensures r.error.Some? ==> r.error.value == ValueError("Titre manquant")
    ensures r.doc == d.(history := r.doc.history)
  {
    var d1 := AddHistory(d, "Sauvegarde", "Document '" + Str(d.titre) + "'", now);
    match Validate(d1)
    case Success(_) => Saved(d1, None)
    case Failure(e) => Saved(d1, Some(e))
  }

  /** A save that fails validation still grows the history by one record. */
  lemma FailedSaveStillRecords(d: Document, now: Timestamp)
    requires !Truthy(d.titre)
    ensures Save(d, now).error.Some?
    ensures |Save(d, now).doc.history| == |d.history| + 1
  {
  }

  // ---------------------------------------------------------------------
  // to_json over dir()
  // ---------------------------------------------------------------------

  /** What `dir()` finds on the class rather than on the instance: the
      methods, which are callable, and the other class attributes. */
  datatype ClassDict = ClassDict(methods: seq<string>, data: seq<Attr>)

  function ClassNames(c: ClassDict): seq<string> {
    c.methods + Names(c.data)
  }

  /** `callable(getattr(self, n))`: an instance attribute hides a class
      attribute of the same name, and instance attributes here are plain
      data. */
  predicate IsCallable(inst: seq<Attr>, c: ClassDict, n: string) {
    n !in Names(inst) && n in c.methods
  }

  /** `getattr(self, n)` for a non-callable name `dir()` listed. */
  function GetAttr(inst: seq<Attr>, c: ClassDict, n: string): Value {
    match Find(inst, n)
    case Some(v) => v
    case None => Get(c.data, n)
  }

  /** `dir(self)`: the names of the instance and of its class, once each,
      in code-point order. */
  function Dir(inst: seq<Attr>, c: ClassDict): (r: seq<string>)
    ensures StrictlySorted(r)
    ensures forall n :: n in r <==> n in Names(inst) || n in ClassNames(c)
  {
    var r := SortedSet(Names(inst) + ClassNames(c));
    assert forall n :: n in r <==> n in Elems(r);
    r
  }

  /** The names `to_json` keeps: not a dunder, not callable. Single
      underscore names such as `_historique` are kept. */
  predicate Kept(inst: seq<Attr>, c: ClassDict, n: string) {
    !StartsWith(n, "__") && !IsCallable(inst, c, n)
  }

  function KeptNames(inst: seq<Attr>, c: ClassDict, ns: seq<string>): (r: seq<string>)
    ensures forall k :: k in r <==> k in ns && Kept(inst, c, k)
    ensures StrictlySorted(ns) ==> StrictlySorted(r)
  {
    if ns == [] then []
    else
      var rest := KeptNames(inst, c, ns[1..]);
      var r := if Kept(inst, c, ns[0]) then [ns[0]] + rest else rest;
      assert StrictlySorted(ns) ==> StrictlySorted(r) by {
        if StrictlySorted(ns) && Kept(inst, c, ns[0]) {
          forall j | 0 < j < |r| ensures LexLess(ns[0], r[j]) {
            assert r[j] == rest[j - 1] && r[j] in ns[1..];
            var k :| 0 <= k < |ns[1..]| && ns[1..][k] == r[j];
            assert ns[k + 1] == r[j];
          }
        }
      }
      r
  }

  /** How `to_json` writes one value: a datetime as its ISO text, an object
      with a `to_json` method as the JSON TEXT it returns, a value
      `json.dumps` accepts as itself, anything else as `str(v)`. */
  function Coerce(v: Value): (r: Json)
    ensures v.VTime? ==> r == JText(IsoOf(v.t))
    ensures v.VObject? && v.serializable ==> r == JText(ToJsonOf(v))
    ensures JsonEncodable(v) ==> r == EncodeJson(v)
    ensures !v.VTime? && !(v.VObject? && v.serializable) && !JsonEncodable(v) ==> r == JText(StrOf(v))
  {
    if v.VTime? then JText(IsoOf(v.t))
    else if v.VObject? && v.serializable then JText(ToJsonOf(v))
    else if JsonEncodable(v) then EncodeJson(v)
    else JText(StrText(v))
  }

  /** The members `to_json` builds for `names`, before `_class`. */
  function KeptMembers(inst: seq<Attr>, c: ClassDict, names: seq<string>): (r: seq<Member>)
    ensures Keys(r) == names
    ensures forall i :: 0 <= i < |r| ==> r[i].value == Coerce(GetAttr(inst, c, names[i]))
  {
    seq(|names|, i requires 0 <= i < |names| => Member(names[i], Coerce(GetAttr(inst, c, names[i]))))
  }

  /** `to_json()`: the kept names in `dir()` order, each with its coerced
      value, then `_class`. */
  function ToJson(inst: seq<Attr>, c: ClassDict, className: string): (r: Json)
    ensures r.JObject?
    ensures Member("_class", JText(Plain(className))) in r.members
  {
    var names := KeptNames(inst, c, Dir(inst, c));
    JObject(SetMember(KeptMembers(inst, c, names), "_class", JText(Plain(className))))
  }

  /** The keys of `to_json()`: the kept names of `dir()`, in its order, and
      `_class` last unless the instance or its class already has one. */
  lemma ToJsonKeys(inst: seq<Attr>, c: ClassDict, className: string)
    ensures forall k :: k in Keys(ToJson(inst, c, className).members) <==>
      k == "_class" || ((k in Names(inst) || k in ClassNames(c)) && Kept(inst, c, k))
    ensures "_class" !in KeptNames(inst, c, Dir(inst, c)) ==>
      Keys(ToJson(inst, c, className).members) == KeptNames(inst, c, Dir(inst, c)) + ["_class"]
    ensures "_class" in KeptNames(inst, c, Dir(inst, c)) ==>
      Keys(ToJson(inst, c, className).members) == KeptNames(inst, c, Dir(inst, c))
  {
    var names := KeptNames(inst, c, Dir(inst, c));
    var data := KeptMembers(inst, c, names);
    var ms := SetMember(data, "_class", JText(Plain(className)));
    assert ToJson(inst, c, className).members == ms;
    assert forall k :: k in names <==> (k in Names(inst) || k in ClassNames(c)) && Kept(inst, c, k);
    if "_class" !in names {
      KeysAppend(data, [Member("_class", JText(Plain(className)))]);
      assert Keys(ms) == names + ["_class"];
    } else {
      assert Keys(ms) == names;
    }
  }

  /** Every member of `to_json()` but `_class` holds the coerced value of
      the attribute it names. */
  lemma ToJsonValues(inst: seq<Attr>, c: ClassDict, className: string)
    ensures var ms := ToJson(inst, c, className).members;
      forall i :: 0 <= i < |ms| && ms[i].key != "_class" ==>
        ms[i].value == Coerce(GetAttr(inst, c, ms[i].key))
  {
    var names := KeptNames(inst, c, Dir(inst, c));
    var data := KeptMembers(inst, c, names);
    var ms := SetMember(data, "_class", JText(Plain(className)));
    assert ToJson(inst, c, className).members == ms;
    forall i | 0 <= i < |ms| && ms[i].key != "_class"
      ensures ms[i].value == Coerce(GetAttr(inst, c, ms[i].key))
    {
      SetMemberOthers(data, "_class", JText(Plain(className)), i);
      assert data[i].key == Keys(data)[i] == names[i];
    }
  }

  /** The keys `to_json` writes before `_class` are in strictly increasing
      code-point order. */
  lemma ToJsonKeysSorted(inst: seq<Attr>, c: ClassDict, className: string)
    requires "_class" !in Names(inst) && "_class" !in ClassNames(c)
    ensures var ks := Keys(ToJson(inst, c, className).members);
      ks[|ks| - 1] == "_class" && StrictlySorted(ks[..|ks| - 1])
  {
    var names := KeptNames(inst, c, Dir(inst, c));
    var ks := Keys(ToJson(inst, c, className).members);
    ToJsonKeys(inst, c, className);
    assert ks == names + ["_class"];
    assert ks[..|ks| - 1] == names;
  }

  // ---------------------------------------------------------------------
  // The Document class as dir() sees it
  // ---------------------------------------------------------------------

  function EncodeRecord(h: HistoryRecord): Value {
    VDict([Attr("action", VStr(h.action)), Attr("details", VStr(h.details)),
           Attr("timestamp", VTime(h.timestamp))])
  }

  /** `vars(doc)`, in the order the constructors assign it. */
  function InstanceDict(d: Document): seq<Attr> {
    [Attr("_log_level", VStr(d.logLevel)),
     Attr("_historique",
       VList(seq(|d.history|, i requires 0 <= i < |d.history| => EncodeRecord(d.history[i])))),
     Attr("titre", d.titre),
     Attr("contenu", d.contenu),
     Attr("date_creation", VTime(d.created))]
  }

  /** What `dir()` finds on the `Document` class: the methods of its
      mixins, the `_abc_impl` bookkeeping object of `ABC`, and dunders. */
  const DocumentClass := ClassDict(
    ["__init__", "afficher_historique", "ajouter_historique", "get_log_level", "horodatage",
     "log_action", "sauvegarder", "to_json", "valider"],
    [Attr("__doc__", VNone), Attr("__module__", VStr("__main__")),
     Attr("_abc_impl", VObject("_abc_data", false, []))])

  const DocumentKeys := ["_abc_impl", "_historique", "_log_level", "contenu", "date_creation", "titre"]

  /** The names of `vars(doc)`, whatever the document holds. */
  const InstanceNames := ["_log_level", "_historique", "titre", "contenu", "date_creation"]

  lemma InstanceDictNames(d: Document)
    ensures Names(InstanceDict(d)) == InstanceNames
  {
  }

  /** Of the names `dir(doc)` lists, `to_json` keeps exactly these. */
  lemma DocumentKept(d: Document)
    ensures forall k ::
      ((k in Names(InstanceDict(d)) || k in ClassNames(DocumentClass))
       && Kept(InstanceDict(d), DocumentClass, k))
        <==> k in DocumentKeys
  {
    InstanceDictNames(d);
    KeptOfInstance(InstanceDict(d));
  }

  lemma KeptOfInstance(inst: seq<Attr>)
    requires Names(inst) == InstanceNames
    ensures forall k ::
      ((k in Names(inst) || k in ClassNames(DocumentClass)) && Kept(inst, DocumentClass, k))
        <==> k in DocumentKeys
  {
    DocumentKeysKept(inst);
    ClassNamesDropped(inst);
  }

  /** Each of the six names is listed by `dir()` and kept. */
  lemma DocumentKeysKept(inst: seq<Attr>)
    requires Names(inst) == InstanceNames
    ensures forall k :: k in DocumentKeys ==>
      (k in Names(inst) || k in ClassNames(DocumentClass)) && Kept(inst, DocumentClass, k)
  {
    assert "_abc_impl" in ClassNames(DocumentClass) by {
      assert ClassNames(DocumentClass)[11] == "_abc_impl";
    }
    forall k | k in DocumentKeys
      ensures Kept(inst, DocumentClass, k)
    {
      if k == "_abc_impl" {
        AbcNotMethod();
      } else {
        assert k in Names(inst);
      }
      assert k[1] != '_' && k[..2][1] == k[1];
    }
  }

  /** `_abc_impl` is not a method: no method name has its length. */
  lemma AbcNotMethod()
    ensures "_abc_impl" !in DocumentClass.methods
  {
    var ms := DocumentClass.methods;
    assert forall i :: 0 <= i < |ms| ==> |ms[i]| != 9;
  }

  /** The methods and the dunders of the class are dropped. */
  lemma ClassNamesDropped(inst: seq<Attr>)
    requires Names(inst) == InstanceNames
    ensures forall k :: k in ClassNames(DocumentClass) && k !in DocumentKeys ==> !Kept(inst, DocumentClass, k)
  {
    assert ClassNames(DocumentClass) == DocumentClass.methods + ["__doc__", "__module__", "_abc_impl"];
    forall k | k in ClassNames(DocumentClass) && k !in DocumentKeys
      ensures !Kept(inst, DocumentClass, k)
    {
      if k in DocumentClass.methods {
        assert k !in Names(inst);
      } else {
        assert k[..2] == "__";
      }
    }
  }

  lemma DocumentKeysSorted()
    ensures StrictlySorted(DocumentKeys)
  {
    var ks := DocumentKeys;
    assert LexLess(ks[0], ks[1]) && LexLess(ks[1], ks[2]) && LexLess(ks[2], ks[3]);
    assert LexLess(ks[3], ks[4]) && LexLess(ks[4], ks[5]);
    ChainSorted(ks);
  }

  /** The kept names of `dir()` are fixed by which names are kept: they
      are those names in code-point order. */
  lemma KeptDirIs(inst: seq<Attr>, c: ClassDict, ks: seq<string>)
    requires StrictlySorted(ks)
    requires forall k :: (k in Names(inst) || k in ClassNames(c)) && Kept(inst, c, k) <==> k in ks
    ensures KeptNames(inst, c, Dir(inst, c)) == ks
  {
    var names := KeptNames(inst, c, Dir(inst, c));
    assert Elems(names) == Elems(ks);
    StrictlySortedUnique(names, ks);
  }

  /** `doc.to_json()` writes exactly these keys, in this order: the
      single-underscore attributes are kept, the methods and dunders are
      not, and `_class` comes last. */
  lemma DocumentJsonKeys(d: Document)
    ensures Keys(ToJson(InstanceDict(d), DocumentClass, "Document").members) == DocumentKeys + ["_class"]
  {
    assert "_class" !in DocumentKeys;
    DocumentKept(d);
    DocumentKeysSorted();
    KeptDirIs(InstanceDict(d), DocumentClass, DocumentKeys);
    ToJsonKeys(InstanceDict(d), DocumentClass, "Document");
  }

  /** Once the keys are known, so is every member: the value of each kept
      name is its coerced attribute, and `_class` closes the object. */
  lemma ToJsonShape(inst: seq<Attr>, c: ClassDict, className: string, ks: seq<string>)
    requires Keys(ToJson(inst, c, className).members) == ks + ["_class"]
    requires "_class" !in ks
    ensures |ToJson(inst, c, className).members| == |ks| + 1
    ensures forall i :: 0 <= i < |ks| ==>
      ToJson(inst, c, className).members[i] == Member(ks[i], Coerce(GetAttr(inst, c, ks[i])))
    ensures ToJson(inst, c, className).members[|ks|] == Member("_class", JText(Plain(className)))
  {
    var ms := ToJson(inst, c, className).members;
    ToJsonValues(inst, c, className);
    assert forall i :: 0 <= i < |ms| ==> ms[i].key == Keys(ms)[i];
  }

  /** What `getattr(doc, n)` reads for the names whose coercion matters. */
  lemma DocumentAttrs(d: Document)
    ensures GetAttr(InstanceDict(d), DocumentClass, "date_creation") == VTime(d.created)
    ensures GetAttr(InstanceDict(d), DocumentClass, "_historique") == InstanceDict(d)[1].value
    ensures GetAttr(InstanceDict(d), DocumentClass, "_abc_impl") == VObject("_abc_data", false, [])
  {
    var inst := InstanceDict(d);
    FindFirst(inst, 1);
    FindFirst(inst, 4);
    assert "_abc_impl" !in InstanceNames by {
      assert forall i :: 0 <= i < |InstanceNames| ==> |InstanceNames[i]| != 9;
    }
    InstanceDictNames(d);
    FindFirst(DocumentClass.data, 2);
  }

  /** Once a record is in it, the history holds a datetime and is no longer
      something `json.dumps` accepts. */
  lemma RecordedHistoryNotEncodable(d: Document)
    requires d.history != []
    ensures !JsonEncodable(InstanceDict(d)[1].value)
  {
    var h := InstanceDict(d)[1].value;
    assert h.items[0] == EncodeRecord(d.history[0]);
    assert !JsonEncodable(h.items[0]) by {
      assert h.items[0].entries[2].value == VTime(d.history[0].timestamp);
    }
  }

  /** `doc.to_json()` for a `Document`: six kept names, each with its
      coerced value, then `_class`. */
  function DocumentJson(d: Document): (ms: seq<Member>)
    ensures |ms| == 7
    ensures forall i :: 0 <= i < |DocumentKeys| ==>
      ms[i] == Member(DocumentKeys[i], Coerce(GetAttr(InstanceDict(d), DocumentClass, DocumentKeys[i])))
    ensures ms[6] == Member("_class", JText(Plain("Document")))
  {
    assert "_class" !in DocumentKeys;
    DocumentJsonKeys(d);
    ToJsonShape(InstanceDict(d), DocumentClass, "Document", DocumentKeys);
    ToJson(InstanceDict(d), DocumentClass, "Document").members
  }

  /** `doc.to_json()` writes the creation date as its ISO text. */
  lemma DocumentJsonDate(d: Document)
    ensures DocumentJson(d)[4] == Member("date_creation", JText(IsoOf(d.created)))
  {
    DocumentAttrs(d);
    assert DocumentKeys[4] == "date_creation";
  }

  /** `doc.to_json()` writes the history as a JSON list only while it is
      empty: its records hold datetimes, which `json.dumps` refuses, so
      afterwards it is `str()` of the list. */
  lemma DocumentJsonHistory(d: Document)
    ensures d.history == [] ==> DocumentJson(d)[1] == Member("_historique", JArray([]))
    ensures d.history != [] ==>
      DocumentJson(d)[1] == Member("_historique", JText(StrOf(InstanceDict(d)[1].value)))
  {
    DocumentAttrs(d);
    assert DocumentKeys[1] == "_historique";
    var h := InstanceDict(d)[1].value;
    if d.history == [] {
      assert h == VList([]);
      assert EncodeJson(h) == JArray([]);
    } else {
      RecordedHistoryNotEncodable(d);
    }
  }

  /** The `ABC` bookkeeping object is not JSON and has no `to_json`, so
      `doc.to_json()` writes it as `str()`. */
  lemma DocumentJsonAbc(d: Document)
    ensures DocumentJson(d)[0] == Member("_abc_impl", JText(StrOf(VObject("_abc_data", false, []))))
  {
    DocumentAttrs(d);
    assert DocumentKeys[0] == "_abc_impl";
  }
}
