# Capability mixins, modelled in Dafny

The repository builds the same four capabilities three times over, as
Python mixins, each time a little differently:

- a history with restore;
- a levelled journal with export;
- title validation;
- attribute-filtering serialisation.

This project models the three versions as three separate groups of Dafny
modules and proves what each promises. The groups are kept apart
deliberately: where the versions disagree (whitespace titles, negative
indices, which names are serialised), the models disagree in the same way.

- `Exercice2.py` is modelled by `Record`, `RecordJournal`, `RecordHistory`
  and `RecordExport`.
  - An instance is its class name, whether its class mixes in
    `Journalisable`, and its `__dict__`, kept as an insertion-ordered
    attribute map.
  - `historique` and `journal` are ordinary attributes holding encoded
    tuples, exactly as in Python. So a snapshot captures the journal, and a
    restore rewinds it.
- `Exercice3.py` is modelled by `Tasks`. A `Tache` is a typed record with
  its own history of descriptions (with the `_index_actuel` cursor) and its
  own journal.
- `Exercice1.py` is modelled by `Documents`.
  - A `Document` is a typed record.
  - `to_json` works on the instance's attribute map plus what `dir()` finds
    on the class, sorted by code point.
- The shared layers:
  - `Wrappers`: `Option` and `Result`, which stand for Python's exceptions.
  - `Values`: Python values, truthiness, `json.dumps`-encodability, and the
    ordered attribute map.
  - `PyStrings`: `str.strip`, `startswith`, and code-point ordering and
    sorting.
  - `Outputs`: structured JSON, XML and CSV trees.

Clock readings are an abstract `Timestamp` the caller passes in. Text that
`isoformat()` or `str()` would produce is a structured leaf of the output
tree (`IsoOf`, `StrOf`, `ToJsonOf`), not a string.

## Model

| member | source | states |
|---|---|---|
| `Values.Set` | Exercice2.py:80-81 | `setattr`: the name afterwards holds the value, every other name reads as before, an existing name keeps its place and a new one goes last |
| `Values.Remove` | Exercice2.py:60-69 | the attribute map minus one name, every other binding unchanged and the remaining names in their order |
| `PyStrings.Strip` | Exercice3.py:9 | `str.strip()`: empty exactly when the input is all whitespace, and otherwise begins and ends with a non-space character |
| `PyStrings.StripIsInfix` | Exercice3.py:9 | `strip()` removes whitespace and nothing else: its result sits in the input with only whitespace before and after it |
| `PyStrings.StripIdempotent` | Exercice3.py:102 | stripping a stripped title changes nothing |
| `PyStrings.SortedSet` | Exercice1.py:19 | `dir()` order: strictly increasing by code point, holding exactly the input names |
| `PyStrings.StrictlySortedUnique` | Exercice1.py:19 | two strictly sorted sequences with the same names are equal, so the `dir()` order is determined |
| `Outputs.SetMember` | Exercice2.py:22 | `data['_class'] = ...`: an existing key keeps its slot, a new key is appended last, other members are untouched |
| `Record.SetAttr` | Exercice2.py:80-81 | writing one attribute leaves the class and every other attribute as they were |
| `RecordJournal.InitJournal` | Exercice2.py:105-107 | `Journalisable.__init__`: an empty journal, and `niveau_log` defaults to "INFO" |
| `RecordJournal.Log` | Exercice2.py:109-115 | `journaliser` succeeds exactly when a level can be resolved and `journal` holds a list; it appends exactly one `(now, level, message)` tuple at the default level when none is given, and changes no other attribute |
| `RecordJournal.LogAppendsOneEntry` | Exercice2.py:109-115 | read back as entries, the journal gains exactly one entry and earlier entries are unchanged |
| `RecordJournal.EntryRoundTrip` | Exercice2.py:114 | a journal tuple decodes back to the entry it encodes |
| `RecordJournal.ExportJournal` | Exercice2.py:118-155 | only "text", "json" and "csv" are accepted and anything else is `ValueError("Format non supporté: ...")`; text is one banner plus one line per entry, CSV one header plus one row per entry, and JSON has keys `classe` and `entrees`; each export reads back as the class name (text, JSON) and every entry's timestamp, level and message, in journal order |
| `RecordJournal.ExportText` | Exercice2.py:128-133 | one banner line, then one line per entry in journal order |
| `RecordJournal.TextRoundTrip` | Exercice2.py:128-133 | the text export gives back the class name and every entry, in order |
| `RecordJournal.CsvRoundTrip` | Exercice2.py:149-155 | the CSV export gives back every entry, in order, after its header |
| `RecordJournal.JsonRoundTrip` | Exercice2.py:135-146 | the JSON export gives back the class name under `classe` and every entry's `timestamp`, `niveau` and `message` under `entrees`, in order |
| `RecordHistory.InitHistory` | Exercice2.py:50-51 | `Historisable.__init__`: an empty history, nothing else changed |
| `RecordHistory.CopyState` | Exercice2.py:60-69 | `_copier_etat`: every attribute but `historique`, in `__dict__` order, so the journal, the level and the dates are captured too |
| `RecordHistory.AppendSnapshot` | Exercice2.py:54-55 | the history list gains one `(now, action, state)` tuple at its end; no other attribute changes, and the `__dict__` order is kept |
| `RecordHistory.SaveState` | Exercice2.py:53-58 | `enregistrer_etat`: one snapshot of the state before the call is appended, then one "Etat enregistre pour ..." entry is logged when the class is journalisable; the `__dict__` order is kept |
| `RecordHistory.SaveStateAppendsOne` | Exercice2.py:53-58 | read back as snapshots, the history gains exactly one entry and earlier entries are unchanged |
| `RecordHistory.SnapshotRoundTrip` | Exercice2.py:55 | a snapshot tuple decodes back to the snapshot it encodes |
| `RecordHistory.DetectChanges` | Exercice2.py:97-102 | `_detecter_changements`: a name is reported exactly when it is in either key set and its `.get` values differ, no name is reported twice, and the names reported are exactly the reference set `Changed` |
| `RecordHistory.ChangedSelf` | Exercice2.py:97-102 | a snapshot has no change against itself |
| `RecordHistory.ChangedSymmetric` | Exercice2.py:97-102 | the diff of a against b equals the diff of b against a, as a set |
| `RecordHistory.AbsentEqualsNone` | Exercice2.py:100 | a name absent on one side and `None` on the other is not reported |
| `RecordHistory.ChangedBySet` | Exercice2.py:97-102 | after one attribute write, the diff is that name alone or nothing |
| `RecordHistory.ConsecutiveSnapshotsDiff` | Exercice2.py:53-58 | between the state a snapshot captured and the state after one more write, the diff is the written name (if its value changed) plus `journal` when the save logged |
| `RecordHistory.ResolveIndex` | Exercice2.py:75-78 | an index resolves exactly when it lies in [-len, len); negative indices count from the end |
| `RecordHistory.ResolveIndexAsWritten` | Exercice2.py:75-78 | the lookup as written: an index resolves exactly when it lies in [-2 len, len), always to a position below len |
| `RecordHistory.LatestIsMinusOne` | Exercice2.py:71 | the default index -1 picks the newest snapshot |
| `RecordHistory.AsWrittenAcceptsTooNegative` | Exercice2.py:75-78 | the code as written accepts indices in [-2 len, -len), which the intended resolution rejects |
| `RecordHistory.AsWrittenAgreesInRange` | Exercice2.py:75-78 | inside [-len, len) the code as written and the intended resolution agree |
| `RecordHistory.Lookup` | Exercice2.py:72-78 | an empty history is `ValueError("Aucun etat historique disponible")`; otherwise `IndexError` exactly when the index does not resolve, and on success the snapshot stored at the resolved position |
| `RecordHistory.ApplyState` | Exercice2.py:80-81 | every captured attribute is written back and every other attribute is untouched |
| `RecordHistory.Rewind` | Exercice2.py:80-84 | the snapshot is written back, the journal included, and then one restoration entry is logged on the rewound journal |
| `RecordHistory.Restore` | Exercice2.py:71-86 | `restaurer_etat`: lookup errors propagate; it succeeds exactly when the lookup and the write-back with its log entry do, returns the restored snapshot's `(timestamp, action)`, and appends nothing to the history |
| `RecordHistory.SaveThenRestoreLatest` | Exercice2.py:53-86 | restoring the latest snapshot right after saving it succeeds and returns that snapshot's timestamp and action; the history is kept, every other attribute is back to its value before the save, and the journal holds its entries from before the save plus one restoration entry |
| `RecordExport.SerializableData` | Exercice2.py:25-41 | `_get_serializable_data`: the keys are the attribute names that pass the filter (no leading underscore, or exactly `_class`), in `__dict__` order; it adds no key of its own |
| `RecordExport.SerialisedNames` | Exercice2.py:28-29 | a name passes the filter exactly when it has no leading underscore or is `_class` |
| `RecordExport.Coerce` | Exercice2.py:30-39 | datetimes become ISO text, nested serialisables become their own `_get_serializable_data` object, `json.dumps`-encodable values are kept, and anything else becomes `str(v)` |
| `RecordExport.SerializableDataValues` | Exercice2.py:27-39 | every kept key carries the coerced value of the attribute of that name |
| `RecordExport.AddHistory` | Exercice2.py:13-20 | an empty history adds `_historique: []`, and a history holding snapshots raises the unpacking `ValueError` |
| `RecordExport.ToJson` | Exercice2.py:11-23 | `to_json`: `_class` is always present with the class name; it comes last, unless the instance has its own `_class` attribute, whose slot it keeps (the keys are then exactly the filtered names, plus `_historique` when written); with `include_history` a non-empty history is an error |
| `RecordExport.ToJsonValues` | Exercice2.py:11-39 | every member `to_json` writes other than `_class` is the attribute of that name, as `_get_serializable_data` writes it, and `_historique` is the empty list |
| `RecordExport.ToCsv` | Exercice2.py:177-185 | exactly two rows: the header holds the `to_dict()` keys and the data row their values, in the same order |
| `RecordExport.CsvRecordRoundTrip` | Exercice2.py:177-185 | a record of strings is read back from the two rows unchanged |
| `RecordExport.PublicNames` | Exercice2.py:192 | a name gets an element exactly when it has no leading underscore |
| `RecordExport.AttributeElements` | Exercice2.py:190-197 | one text element per name without a leading underscore, in `__dict__` order |
| `RecordExport.AttributeElementsText` | Exercice2.py:190-197 | each attribute element holds the `isoformat()` text of a datetime attribute, and `str()` of any other, of the attribute it is named after |
| `RecordExport.ToXml` | Exercice2.py:188-205 | `to_xml`: the root is tagged with the class name; the attribute elements come first, then, when the history is non-empty, a `historique` block built from each snapshot's timestamp and action, one child per snapshot |
| `RecordExport.ToXmlAttributeTexts` | Exercice2.py:190-197 | every attribute element of `to_xml` holds the text of the attribute it is named after |
| `RecordExport.ToXmlHistory` | Exercice2.py:198-203 | for a well-formed non-empty history, `to_xml` succeeds and its `historique` block reads back as every snapshot's timestamp and action, in history order |
| `RecordExport.StampsOfHistory` | Exercice2.py:199-203 | the `(ts, action)` pairs `to_xml` unpacks from the history are the stored snapshots' timestamps and actions, in order |
| `RecordExport.EntryTagsDistinct` | Exercice2.py:201 | two `entree_i` tags never coincide |
| `RecordExport.HistoryElementRoundTrip` | Exercice2.py:198-203 | every snapshot's timestamp and action can be read back from the `historique` block, in order |
| `Tasks.ValidateTitle` | Exercice3.py:8-11 | `valider_titre` returns True exactly when the title is a string with a non-space character, and raises `ValueError` otherwise |
| `Tasks.VerifyTitle` | Exercice3.py:13-15 | `verifier_titre` raises exactly when the title is empty |
| `Tasks.AddVersion` | Exercice3.py:23-31 | one version is appended, earlier versions are kept, and the cursor moves to len-1 |
| `Tasks.LastDescription` | Exercice3.py:33-36 | `None` on an empty history, otherwise the last version's description |
| `Tasks.LastDescriptionAfterAdd` | Exercice3.py:23-36 | the description just added is the one `obtenir_derniere_description` returns |
| `Tasks.Log` | Exercice3.py:64-70 | `journaliser` appends one entry, at the constructor's level when none is given |
| `Tasks.ExportJournal` | Exercice3.py:85-93 | one record per journal entry |
| `Tasks.ExportJournalRoundTrip` | Exercice3.py:85-93 | every entry is read back from the export, in append order |
| `Tasks.ExportAfterLog` | Exercice3.py:64-93 | logging then exporting adds exactly the new record at the end |
| `Tasks.Prefix` | Exercice3.py:119-120 | `s[:30]` is the prefix of exactly 30 characters of a longer string, and the whole of a shorter one |
| `Tasks.Create` | Exercice3.py:96-109 | the title is validated before anything is recorded; on success the stored title is stripped, the history is one "Création" version of the initial description, and the journal holds one "SUCCES" entry |
| `Tasks.Update` | Exercice3.py:111-122 | `mettre_a_jour`: exactly one version holding the new description and exactly three journal entries (INFO, DEBUG, DEBUG); fails only when the title is empty |
| `Tasks.Complete` | Exercice3.py:124-132 | the first call sets `terminee` and adds one "Complétion" version and one "SUCCES" entry; a later call adds only an "AVERTISSEMENT" entry |
| `Tasks.CompleteIdempotent` | Exercice3.py:124-132 | a second `completer` leaves the status, the history, the description and the dates as they were and logs exactly one warning |
| `Tasks.ModifyTitle` | Exercice3.py:134-140 | the new title is validated and stored stripped; one INFO entry quotes the old title and the new title as given; the history is untouched |
| `Tasks.RestoreVersion` | Exercice3.py:49-56 | `restaurer_version` succeeds exactly when 0 <= index < len, with no negative indices, and raises `IndexError` otherwise; it sets the description and the cursor and appends to neither the history nor the journal |
| `Tasks.RestoreKeepsLastDescription` | Exercice3.py:49-56 | restoring moves the cursor, not the end of the history |
| `Tasks.GetInfos` | Exercice3.py:142-152 | `versions` is the history length and `entrees_journal` the journal length |
| `Tasks.ValidTitleStored` | Exercice3.py:101-102 | a title that passes validation is stored non-empty and already stripped |
| `Tasks.ValidTitleIsStripped` | Exercice3.py:101-102 | the title of a valid task, with no whitespace at either end, is unchanged by `strip()`, so the invariant states that titles are stored stripped |
| `Tasks.CreateValid` | Exercice3.py:96-109 | with a title that passes validation, construction succeeds and the new task satisfies the task invariant: a stripped non-empty title, and a cursor on a version whose description is the current one |
| `Tasks.UpdateValid` | Exercice3.py:111-122 | `mettre_a_jour` never fails on a valid task and keeps it valid |
| `Tasks.CompleteValid` | Exercice3.py:124-132 | `completer` keeps a task valid |
| `Tasks.ModifyTitleValid` | Exercice3.py:134-140 | on a valid task, `modifier_titre` with a title that passes validation succeeds and keeps the task valid |
| `Tasks.RestoreVersionValid` | Exercice3.py:49-56 | `restaurer_version` keeps a task valid |
| `Tasks.InfosOfValid` | Exercice3.py:142-143 | `obtenir_infos` never fails on a valid task |
| `Documents.Create` | Exercice1.py:83-89 | the constructor validates nothing and starts with an empty history |
| `Documents.LogLevelFromConstructor` | Exercice1.py:70-85 | `get_log_level` answers the level given at construction, and "INFO" when none is given |
| `Documents.Validate` | Exercice1.py:10-13 | `valider` raises `ValueError("Titre manquant")` exactly when the title is falsy |
| `Documents.WhitespaceTitlePasses` | Exercice1.py:11-12 | every non-empty whitespace-only title passes `valider`, unlike in the task module |
| `Documents.AddHistory` | Exercice1.py:43-49 | exactly one `{action, details, timestamp}` record is appended, and nothing else changes |
| `Documents.AddHistoryKeepsOrder` | Exercice1.py:43-49 | records appear in the order they were added |
| `Documents.Save` | Exercice1.py:91-102 | `sauvegarder` appends its history record before `valider` runs, so the record is there whether or not validation raises |
| `Documents.FailedSaveStillRecords` | Exercice1.py:94-98 | a save whose validation fails still grows the history by one |
| `Documents.Dir` | Exercice1.py:19 | `dir()` lists the instance and class names once each, in code-point order |
| `Documents.KeptNames` | Exercice1.py:20-22 | a name is kept exactly when it is not a dunder and is not callable, in `dir()` order |
| `Documents.Coerce` | Exercice1.py:23-32 | datetimes become ISO text, objects with `to_json` become their JSON text (a string), `json.dumps`-encodable values are kept, and anything else becomes `str(v)` |
| `Documents.ToJson` | Exercice1.py:34-36 | `to_json` always writes `_class` with the class name |
| `Documents.ToJsonKeys` | Exercice1.py:19-34 | the keys are `_class` and exactly the names `dir()` lists that are neither dunders nor callable, in `dir()` order; `_class` is last unless one of those names already is `_class` |
| `Documents.ToJsonValues` | Exercice1.py:21-32 | every member but `_class` holds the coerced value of the attribute it names |
| `Documents.ToJsonKeysSorted` | Exercice1.py:19-34 | the keys before `_class` are in strictly increasing code-point order |
| `Documents.DocumentJsonKeys` | Exercice1.py:16-36 | a `Document` serialises exactly `_abc_impl`, `_historique`, `_log_level`, `contenu`, `date_creation`, `titre` and then `_class`: single-underscore names are kept, methods and dunders are not |
| `Documents.DocumentJsonDate` | Exercice1.py:23-24 | the creation date is written as its ISO text |
| `Documents.DocumentJsonHistory` | Exercice1.py:28-32 | the history is a JSON list only while it is empty; once it holds a datetime it is written as `str()` |
| `Documents.DocumentJsonAbc` | Exercice1.py:31-32 | the `ABC` bookkeeping object is written as `str()` |

## Left out

- Console output is not modelled: `print`, the ANSI colour prefixes, every
  `afficher_*` method, `horodatage`, `log_action` (which only prints) and
  the `main()` drivers are presentation only.
- The clock is a parameter. Each operation takes one reading `now`, used
  for every timestamp it writes, where Python calls `datetime.now()`
  separately for each one.
  - `isoformat`, `str` of a datetime and `strftime` are left as structured
    leaves.
  - Inside log messages, `str()` of a datetime or of a container is a
    placeholder rendering.
- Reflection is replaced by explicit attribute maps:
  - `Record` carries whether the class is journalisable.
  - `Documents` lists the class's methods and data attributes explicitly.
  - Instance attributes are never callable.
- Byte-level output is not modelled: `json.dumps` indentation,
  `csv.writer` quoting and line endings, and `ElementTree` escaping.
- Floats (`montant`, `total`, `Rapport.version`) and the business classes
  are not modelled: `Contrat`, `Tache` and `Commande` of `Exercice2.py`,
  their `horodater`, their `to_dict`, and `Rapport` of `Exercice1.py`.
  `ToCsv` takes the record `to_dict()` would return.
- `Serializable.from_json` is not modelled: it passes `_class` to the
  constructor and cannot work.
- `RecordHistory.Restore` uses value semantics: the stored snapshot is
  written back as a copy, so the aliasing between a restored list and the
  snapshot is not reproduced.
- A Python method that raises after a partial update leaves the partial
  update behind. The `Result`-returning functions return only the error,
  except `Documents.Save`, whose partial update is the point.
- Values compare and copy structurally, unlike Python, in three ways:
  - `1 == True` between values of different types is not modelled.
  - `RecordHistory.Changed` and `RecordHistory.DetectChanges`: `!=` at
    Exercice2.py:100 compares dicts regardless of insertion order and
    instances of user classes by identity. The model compares `VDict`
    entries in order and `VObject`s field by field, so it can report a
    reordered dict that Python would not, and can miss a replaced object
    with equal fields.
  - `RecordHistory.CopyState`: `_copier_etat` deep-copies only lists and
    dicts, so an attribute holding an instance stays shared between the
    object and its snapshot. The model has no sharing, so a later change
    inside that instance is not seen through the snapshot.
- Default arguments are passed explicitly by every caller: `details=""` of
  `ajouter_historique`, `action="Modification"` of `enregistrer_etat`,
  `format="text"` of `exporter_journal`, and `description=""` and
  `niveau_journal="INFO"` of `Tache`. `log_level="INFO"` of `Document` and
  `niveau_log="INFO"` of `Journalisable` are modelled as an optional
  argument.
- `RecordExport.AddHistory`: a history whose first item is not a triple is
  reported as malformed, whereas Python would try to unpack it as a pair.
- `RecordJournal.Log`: the level must be a string, whether it is passed
  explicitly or read from `niveau_log`. When `niveau_log` holds any other
  value, `Log` fails with `Malformed("niveau_log")`, whereas `journaliser`
  would append that value as the level. The exports write the level as
  text, and the entry type keeps it as a string.
- `Tasks`: descriptions are strings, since `mettre_a_jour` slices them.
- `Tasks.RestoreVersion`: `hasattr(self, 'description')` always holds for a
  `Tache`, so the description is always written.

## Findings

| source | as written | input that shows it | evidently intended | confidence | as-written member | corrected member |
|---|---|---|---|---|---|---|
| Exercice2.py:75-78 | a negative index is rewritten to `len + index`, and the list lookup then wraps a negative result a second time | a history of 3 snapshots with `restaurer_etat(-5)` restores snapshot 1 instead of raising `IndexError` | only indices in [-len, len) are accepted; anything below -len raises `IndexError` | medium, not executed | `RecordHistory.AsWrittenAcceptsTooNegative` | `RecordHistory.ResolveIndex` |

`RecordHistory.ResolveIndexAsWritten` models the lookup as written.
`RecordHistory.Restore` uses the corrected `ResolveIndex`.
