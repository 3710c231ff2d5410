/** `Journalisable` of `Exercice2.py`: a leveled journal kept in the
    attribute `journal` as a list of `(timestamp, niveau, message)` tuples,
    and its export as text, JSON or CSV. */
module RecordJournal {
  import opened Wrappers
  import opened Values
  import opened Outputs
  import opened Record

  datatype JournalEntry = JournalEntry(timestamp: Timestamp, level: string, message: string)

  /** The tuple `journaliser` appends for an entry. */
  function EncodeEntry(e: JournalEntry): Value {
    VTuple([VTime(e.timestamp), VStr(e.level), VStr(e.message)])
  }

  function DecodeEntry(v: Value): (r: Option<JournalEntry>)
    ensures r.Some? ==> EncodeEntry(r.value) == v
  {
    match v
    case VTuple(xs) =>
      if |xs| == 3 && xs[0].VTime? && xs[1].VStr? && xs[2].VStr?
      then
        assert xs == [xs[0], xs[1], xs[2]];
        Some(JournalEntry(xs[0].t, xs[1].s, xs[2].s))
      else None
    case _ => None
  }

  /** Reads back the entries of a journal list; `None` when an item is not
      an entry tuple. */
  function DecodeEntries(items: seq<Value>): (r: Option<seq<JournalEntry>>)
    ensures r.Some? ==> |r.value| == |items|
    ensures r.Some? ==> forall i :: 0 <= i < |items| ==> EncodeEntry(r.value[i]) == items[i]
  {
    if items == [] then Some([])
    else
      match DecodeEntries(items[..|items| - 1])
      case None => None
      case Some(es) =>
        match DecodeEntry(items[|items| - 1])
        case None => None
        case Some(e) => Some(es + [e])
  }

  lemma EntryRoundTrip(e: JournalEntry)
    ensures DecodeEntry(EncodeEntry(e)) == Some(e)
  {
  }

  /** Appending the tuple of an entry appends that entry to what is read
      back. */
  lemma DecodeAppend(items: seq<Value>, e: JournalEntry)
    ensures DecodeEntries(items + [EncodeEntry(e)])
         == (match DecodeEntries(items) case Some(es) => Some(es + [e]) case None => None)
  {
    var xs := items + [EncodeEntry(e)];
    assert xs[..|xs| - 1] == items;
  }

  /** The journal of an instance, oldest entry first. */
  function Journal(o: Obj): Result<seq<JournalEntry>, Error> {
    match Find(o.dict, "journal")
    case None => Failure(AttributeError("journal"))
    case Some(VList(items)) =>
      (match DecodeEntries(items)
       case Some(es) => Success(es)
       case None => Failure(Malformed("journal")))
    case Some(_) => Failure(Malformed("journal"))
  }

  /** `Journalisable.__init__(niveau_log)`: the default level, "INFO" when
      none is given, and an empty journal. */
  function InitJournal(o: Obj, level: Option<string>): (r: Obj)
    ensures Journal(r) == Success([])
    ensures Find(r.dict, "niveau_log") == Some(VStr(if level.Some? then level.value else "INFO"))
    ensures forall n :: n != "journal" && n != "niveau_log" ==> Find(r.dict, n) == Find(o.dict, n)
    ensures r.className == o.className && r.journalisable == o.journalisable
  {
    var lvl := match level case Some(l) => l case None => "INFO";
    SetAttr(SetAttr(o, "niveau_log", VStr(lvl)), "journal", VList([]))
  }

  /** The level `journaliser` records: the one passed, else `niveau_log`. */
  function ResolveLevel(o: Obj, level: Option<string>): Result<string, Error> {
    match level
    case Some(l) => Success(l)
    case None =>
      match Find(o.dict, "niveau_log")
      case None => Failure(AttributeError("niveau_log"))
      case Some(VStr(l)) => Success(l)
      case Some(_) => Failure(Malformed("niveau_log"))
  }

  /** `journaliser` can run: the level resolves and `journal` is a list. */
  predicate CanLog(o: Obj, level: Option<string>) {
    ResolveLevel(o, level).Success? && ListAttr(o, "journal").Some?
  }

  /** `journaliser(message, niveau)`: appends one `(now, niveau, message)`
      tuple to `journal` and changes nothing else. Printing the entry is not
      modelled. */
  function Log(o: Obj, message: string, level: Option<string>, now: Timestamp): (r: Result<Obj, Error>)
    ensures r.Success? <==> CanLog(o, level)
    ensures r.Success? ==> r.value.className == o.className && r.value.journalisable == o.journalisable
    ensures r.Success? ==> Names(r.value.dict) == Names(o.dict)
    ensures r.Success? ==> forall n :: n != "journal" ==> Find(r.value.dict, n) == Find(o.dict, n)
    ensures r.Success? ==>
      ListAttr(r.value, "journal")
        == Some(ListAttr(o, "journal").value
                + [EncodeEntry(JournalEntry(now, ResolveLevel(o, level).value, message))])
  {
    var lvl :- ResolveLevel(o, level);
    match Find(o.dict, "journal")
    case None => Failure(AttributeError("journal"))
    case Some(VList(items)) =>
      Success(SetAttr(o, "journal", VList(items + [EncodeEntry(JournalEntry(now, lvl, message))])))
    case Some(_) => Failure(Malformed("journal"))
  }

  /** Read through `Journal`, logging appends exactly one entry, with the
      given level or else the instance's default level. */
  lemma LogAppendsOneEntry(o: Obj, message: string, level: Option<string>, now: Timestamp)
    requires Journal(o).Success? && CanLog(o, level)
    ensures Journal(Log(o, message, level, now).value)
         == Success(Journal(o).value + [JournalEntry(now, ResolveLevel(o, level).value, message)])
    ensures level.None? ==> Find(o.dict, "niveau_log") == Some(VStr(ResolveLevel(o, level).value))
  {
    var items := ListAttr(o, "journal").value;
    var e := JournalEntry(now, ResolveLevel(o, level).value, message);
    var o1 := Log(o, message, level, now).value;
    assert Find(o.dict, "journal") == Some(VList(items));
    assert Find(o1.dict, "journal") == Some(VList(items + [EncodeEntry(e)])) by {
      assert ListAttr(o1, "journal") == Some(items + [EncodeEntry(e)]);
    }
    DecodeAppend(items, e);
  }

  // ---------------------------------------------------------------------
  // exporter_journal
  // ---------------------------------------------------------------------

  /** A line of the text export: the banner naming the class, or one entry
      as `[niveau] <strftime>: message`. */
  datatype TextLine = Banner(className: string) | EntryLine(level: string, at: Timestamp, message: string)

  datatype JournalExport = TextLines(lines: seq<TextLine>) | JsonDoc(doc: Json) | CsvRows(rows: seq<CsvRow>)

  /** `_exporter_journal_text` */
  function ExportText(className: string, es: seq<JournalEntry>): (r: seq<TextLine>)
    ensures |r| == |es| + 1 && r[0] == Banner(className)
    ensures forall i :: 0 <= i < |es| ==> r[i + 1] == EntryLine(es[i].level, es[i].timestamp, es[i].message)
  {
    [Banner(className)]
      + seq(|es|, i requires 0 <= i < |es| => EntryLine(es[i].level, es[i].timestamp, es[i].message))
  }

  function EntryJson(e: JournalEntry): Json {
    JObject([Member("timestamp", JText(IsoOf(e.timestamp))),
             Member("niveau", JText(Plain(e.level))),
             Member("message", JText(Plain(e.message)))])
  }

  /** `_exporter_journal_json` */
  function ExportJson(className: string, es: seq<JournalEntry>): Json {
    JObject([Member("classe", JText(Plain(className))),
             Member("entrees", JArray(seq(|es|, i requires 0 <= i < |es| => EntryJson(es[i]))))])
  }

  const CsvHeader: CsvRow := [Plain("timestamp"), Plain("niveau"), Plain("message")]

  function EntryRow(e: JournalEntry): CsvRow {
    [IsoOf(e.timestamp), Plain(e.level), Plain(e.message)]
  }

  /** `_exporter_journal_csv` */
  function ExportCsv(es: seq<JournalEntry>): seq<CsvRow> {
    [CsvHeader] + seq(|es|, i requires 0 <= i < |es| => EntryRow(es[i]))
  }

  predicate SupportedFormat(format: string) {
    format == "text" || format == "json" || format == "csv"
  }

  /** `exporter_journal(format)`: the format is checked first, then the
      journal is read. */
  function ExportJournal(o: Obj, format: string): (r: Result<JournalExport, Error>)
    ensures !SupportedFormat(format) ==> r == Failure(ValueError("Format non supporté: " + format))
    ensures SupportedFormat(format) ==> (r.Success? <==> Journal(o).Success?)
    ensures r.Success? && format == "text" ==>
      r.value.TextLines? && |r.value.lines| == |Journal(o).value| + 1
      && ParseText(r.value.lines) == Some((o.className, Journal(o).value))
    ensures r.Success? && format == "csv" ==>
      r.value.CsvRows? && |r.value.rows| == |Journal(o).value| + 1 && r.value.rows[0] == CsvHeader
      && ParseCsv(r.value.rows) == Some(Journal(o).value)
    ensures r.Success? && format == "json" ==>
      r.value.JsonDoc? && r.value.doc.JObject? && Keys(r.value.doc.members) == ["classe", "entrees"]
      && r.value.doc.members[1].value.JArray? && |r.value.doc.members[1].value.items| == |Journal(o).value|
      && ParseJson(r.value.doc) == Some((o.className, Journal(o).value))
  {
    if !SupportedFormat(format) then Failure(ValueError("Format non supporté: " + format))
    else
      var es :- Journal(o);
      if format == "text" then
        TextRoundTrip(o.className, es);
        Success(TextLines(ExportText(o.className, es)))
      else if format == "json" then
        JsonRoundTrip(o.className, es);
        Success(JsonDoc(ExportJson(o.className, es)))
      else
        CsvRoundTrip(es);
        Success(CsvRows(ExportCsv(es)))
  }

  /** Reads the entries back from the rows of a CSV export. */
  function ParseCsv(rows: seq<CsvRow>): Option<seq<JournalEntry>> {
    if rows == [] || rows[0] != CsvHeader then None
    else ParseCsvRows(rows[1..])
  }

  function ParseCsvRows(rows: seq<CsvRow>): Option<seq<JournalEntry>> {
    if rows == [] then Some([])
    else
      var row := rows[0];
      if |row| == 3 && row[0].IsoOf? && row[1].Plain? && row[2].Plain? then
        match ParseCsvRows(rows[1..])
        case None => None
        case Some(es) => Some([JournalEntry(row[0].t, row[1].s, row[2].s)] + es)
      else None
  }

  /** The CSV export keeps every entry, in journal order: the rows after the
      header read back as the journal itself. */
  lemma {:induction false} CsvRoundTrip(es: seq<JournalEntry>)
    ensures ParseCsv(ExportCsv(es)) == Some(es)
  {
    var rows := ExportCsv(es);
    assert rows[1..] == seq(|es|, i requires 0 <= i < |es| => EntryRow(es[i]));
    CsvRowsRoundTrip(es);
  }

  lemma {:induction false} CsvRowsRoundTrip(es: seq<JournalEntry>)
    ensures ParseCsvRows(seq(|es|, i requires 0 <= i < |es| => EntryRow(es[i]))) == Some(es)
  {
    if es != [] {
      var rows := seq(|es|, i requires 0 <= i < |es| => EntryRow(es[i]));
      assert rows[1..] == seq(|es[1..]|, i requires 0 <= i < |es[1..]| => EntryRow(es[1..][i]));
      CsvRowsRoundTrip(es[1..]);
      assert es == [es[0]] + es[1..];
    }
  }

  /** Reads the entries back from the lines of a text export. */
  function ParseText(lines: seq<TextLine>): Option<(string, seq<JournalEntry>)> {
    if lines == [] || !lines[0].Banner? then None
    else if forall i :: 1 <= i < |lines| ==> lines[i].EntryLine? then
      Some((lines[0].className,
            seq(|lines| - 1, i requires 0 <= i < |lines| - 1 =>
              JournalEntry(lines[i + 1].at, lines[i + 1].level, lines[i + 1].message))))
    else None
  }

  /** The text export names the class once and then every entry, in
      journal order. */
  lemma TextRoundTrip(className: string, es: seq<JournalEntry>)
    ensures ParseText(ExportText(className, es)) == Some((className, es))
  {
    var lines := ExportText(className, es);
    assert forall i :: 1 <= i < |lines| ==> lines[i].EntryLine? by {
      forall i | 1 <= i < |lines| ensures lines[i].EntryLine? {
        assert lines[(i - 1) + 1] == EntryLine(es[i - 1].level, es[i - 1].timestamp, es[i - 1].message);
      }
    }
    var back := seq(|lines| - 1, i requires 0 <= i < |lines| - 1 =>
                  JournalEntry(lines[i + 1].at, lines[i + 1].level, lines[i + 1].message));
    assert forall i :: 0 <= i < |es| ==> back[i] == es[i];
    assert back == es;
  }

  /** Reads one entry back from its JSON record. */
  function ParseJsonEntry(j: Json): Option<JournalEntry> {
    match j
    case JObject(ms) =>
      if |ms| == 3 && ms[0].key == "timestamp" && ms[1].key == "niveau" && ms[2].key == "message"
         && ms[0].value.JText? && ms[0].value.text.IsoOf?
         && ms[1].value.JText? && ms[1].value.text.Plain?
         && ms[2].value.JText? && ms[2].value.text.Plain?
      then Some(JournalEntry(ms[0].value.text.t, ms[1].value.text.s, ms[2].value.text.s))
      else None
    case _ => None
  }

  /** Reads the class name and the entries back from a JSON export. */
  function ParseJson(doc: Json): Option<(string, seq<JournalEntry>)> {
    match doc
    case JObject(ms) =>
      if |ms| == 2 && ms[0].key == "classe" && ms[1].key == "entrees"
         && ms[0].value.JText? && ms[0].value.text.Plain? && ms[1].value.JArray?
      then
        var items := ms[1].value.items;
        if forall i :: 0 <= i < |items| ==> ParseJsonEntry(items[i]).Some? then
          Some((ms[0].value.text.s,
                seq(|items|, i requires 0 <= i < |items| => ParseJsonEntry(items[i]).value)))
        else None
      else None
    case _ => None
  }

  /** The JSON export names the class and keeps every entry's timestamp,
      level and message, in journal order. */
  lemma JsonRoundTrip(className: string, es: seq<JournalEntry>)
    ensures ParseJson(ExportJson(className, es)) == Some((className, es))
  {
    var items := seq(|es|, i requires 0 <= i < |es| => EntryJson(es[i]));
    assert ExportJson(className, es).members[1].value.items == items;
    assert forall i :: 0 <= i < |items| ==> ParseJsonEntry(items[i]) == Some(es[i]);
    var back := seq(|items|, i requires 0 <= i < |items| => ParseJsonEntry(items[i]).value);
    assert back == es;
  }
}
