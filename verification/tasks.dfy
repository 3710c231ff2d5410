/** The task capabilities of `Exercice3.py`: title validation, a history of
    descriptions with a cursor, a levelled journal, and the `Tache`
    operations built on them. Unlike the records of `Exercice2.py`, a task
    keeps its history and journal in typed fields of their own. */
module Tasks {
  import opened Wrappers
  import opened Values
  import opened PyStrings
  import opened Outputs

  datatype Error = ValueError(reason: string) | IndexError(reason: string)

  // ---------------------------------------------------------------------
  // ValidationMixin
  // ---------------------------------------------------------------------

  const InvalidTitle := "Le titre doit etre une chaine non vide"
  const MissingTitle := "Titre manquant ou invalide"

  /** `valider_titre`: a title must be a string with a non-space
      character. */
  function ValidateTitle(title: Value): (r: Result<bool, Error>)
    ensures r.Success? <==> title.VStr? && !AllSpace(title.s)
    ensures r.Success? ==> r.value
    ensures r.Failure? ==> r.error == ValueError(InvalidTitle)
  {
    if !Truthy(title) || !title.VStr? || Strip(title.s) == [] then Failure(ValueError(InvalidTitle))
    else Success(true)
  }

  // ---------------------------------------------------------------------
  // HistoriqueMixin
  // ---------------------------------------------------------------------

  datatype Version = Version(timestamp: Timestamp, description: string, action: string)

  /** `_historique` with its cursor `_index_actuel`. */
  datatype History = History(versions: seq<Version>, current: int)

  /** `HistoriqueMixin.__init__`. */
  const EmptyHistory := History([], -1)

  /** `ajouter_historique`: appends one version and moves the cursor onto
      it. */
  function AddVersion(h: History, description: string, action: string, now: Timestamp): (r: History)
    ensures |r.versions| == |h.versions| + 1
    ensures r.versions[..|h.versions|] == h.versions
    ensures r.versions[|h.versions|] == Version(now, description, action)
    ensures r.current == |r.versions| - 1
  {
    History(h.versions + [Version(now, description, action)], |h.versions|)
  }

  /** `obtenir_derniere_description`. */
  function LastDescription(h: History): (r: Option<string>)
    ensures r.None? <==> h.versions == []
    ensures r.Some? ==> r.value == h.versions[|h.versions| - 1].description
  {
    if h.versions == [] then None else Some(h.versions[|h.versions| - 1].description)
  }

  /** The description the last `ajouter_historique` stored is the one
      `obtenir_derniere_description` returns. */
  lemma LastDescriptionAfterAdd(h: History, description: string, action: string, now: Timestamp)
    ensures LastDescription(AddVersion(h, description, action, now)) == Some(description)
  {
    var r := AddVersion(h, description, action, now);
    assert r.versions[|r.versions| - 1] == Version(now, description, action);
  }

  // ---------------------------------------------------------------------
  // JournalisationMixin
  // ---------------------------------------------------------------------

  datatype Entry = Entry(timestamp: Timestamp, level: string, message: string)

  /** `_journal` with the default level `_niveau_journal`. */
  datatype Journal = Journal(defaultLevel: string, entries: seq<Entry>)

  /** `journaliser(message, niveau)`: one entry, at the default level when
      none is given. */
  function Log(j: Journal, message: string, level: Option<string>, now: Timestamp): (r: Journal)
    ensures r.defaultLevel == j.defaultLevel
    ensures |r.entries| == |j.entries| + 1
    ensures r.entries[..|j.entries|] == j.entries
    ensures r.entries[|j.entries|].timestamp == now && r.entries[|j.entries|].message == message
    ensures r.entries[|j.entries|].level == (if level.Some? then level.value else j.defaultLevel)
  {
    var l := match level case Some(l) => l case None => j.defaultLevel;
    Journal(j.defaultLevel, j.entries + [Entry(now, l, message)])
  }

  /** One record of `exporter_journal`. */
  datatype Exported = Exported(timestamp: Text, niveau: string, message: string)

  /** `exporter_journal`: one record per entry, in append order. */
  function ExportJournal(j: Journal): (r: seq<Exported>)
    ensures |r| == |j.entries|
  {
    seq(|j.entries|, i requires 0 <= i < |j.entries| =>
      Exported(IsoOf(j.entries[i].timestamp), j.entries[i].level, j.entries[i].message))
  }

  /** Reads exported records back into journal entries. */
  function ImportJournal(rs: seq<Exported>): Option<seq<Entry>> {
    if forall i :: 0 <= i < |rs| ==> rs[i].timestamp.IsoOf? then
      Some(seq(|rs|, i requires 0 <= i < |rs| => Entry(rs[i].timestamp.t, rs[i].niveau, rs[i].message)))
    else None
  }

  /** The export loses nothing: every entry comes back, in order. */
  lemma ExportJournalRoundTrip(j: Journal)
    ensures ImportJournal(ExportJournal(j)) == Some(j.entries)
  {
    var rs := ExportJournal(j);
    var back := seq(|rs|, i requires 0 <= i < |rs| => Entry(rs[i].timestamp.t, rs[i].niveau, rs[i].message));
    assert forall i :: 0 <= i < |rs| ==> back[i] == j.entries[i];
    assert back == j.entries;
  }

  /** Logging then exporting adds exactly the new record at the end. */
  lemma ExportAfterLog(j: Journal, message: string, level: Option<string>, now: Timestamp)
    ensures ExportJournal(Log(j, message, level, now))
      == ExportJournal(j)
         + [Exported(IsoOf(now), if level.Some? then level.value else j.defaultLevel, message)]
  {
    var a := ExportJournal(Log(j, message, level, now));
    var b := ExportJournal(j)
             + [Exported(IsoOf(now), if level.Some? then level.value else j.defaultLevel, message)];
    assert forall i :: 0 <= i < |a| ==> a[i] == b[i];
  }

  // ---------------------------------------------------------------------
  // Tache
  // ---------------------------------------------------------------------

  datatype Task = Task(
    title: string,
    description: string,
    created: Timestamp,
    modified: Timestamp,
    done: bool,
    history: History,
    journal: Journal)

  /** What every `Tache` keeps true: a non-empty title with no whitespace
      at either end (what `strip()` leaves, see `ValidTitleIsStripped`), a
      non-empty history whose cursor points at a version, and a description
      equal to the one the cursor points at. */
  ghost predicate Valid(t: Task) {
    && t.title != []
    && NoOuterSpace(t.title)
    && 0 <= t.history.current < |t.history.versions|
    && t.description == t.history.versions[t.history.current].description
  }

  /** `verifier_titre`. */
  function VerifyTitle(t: Task): (r: Result<bool, Error>)
    ensures r.Success? <==> t.title != []
    ensures r.Failure? ==> r.error == ValueError(MissingTitle)
  {
    if t.title == [] then Failure(ValueError(MissingTitle)) else Success(true)
  }

  /** Python's `s[:n]`. */
  function Prefix(s: string, n: nat): (r: string)
    ensures |r| == if |s| <= n then |s| else n
    ensures r <= s
  {
    if |s| <= n then s else s[..n]
  }

  const Created := "Création"
  const Updated := "Mise à jour"
  const Completed := "Complétion"

  /** `Tache(titre, description, niveau_journal)`: the title is validated
      before anything is recorded. */
  function Create(title: Value, description: string, level: string, now: Timestamp): (r: Result<Task, Error>)
    ensures r.Success? <==> title.VStr? && !AllSpace(title.s)
    ensures r.Failure? ==> r.error == ValueError(InvalidTitle)
    ensures r.Success? ==> r.value.title == Strip(title.s) && r.value.description == description
    ensures r.Success? ==> !r.value.done && r.value.created == now && r.value.modified == now
    ensures r.Success? ==> r.value.history == History([Version(now, description, Created)], 0)
    ensures r.Success? ==>
      r.value.journal == Journal(level, [Entry(now, "SUCCES", "Tâche créée: " + Strip(title.s))])
  {
    var _ :- ValidateTitle(title);
    var t := Strip(title.s);
    var j := Log(Journal(level, []), "Tâche créée: " + t, Some("SUCCES"), now);
    assert j.entries == [Entry(now, "SUCCES", "Tâche créée: " + t)];
    Success(Task(t, description, now, now, false, AddVersion(EmptyHistory, description, Created, now), j))
  }

  /** The three entries `mettre_a_jour` logs: the title at INFO, then the
      first 30 characters of the old and of the new description at DEBUG. */
  function UpdateEntries(t: Task, description: string, now: Timestamp): (es: seq<Entry>)
    ensures |es| == 3
    ensures es[0].level == "INFO" && es[1].level == "DEBUG" && es[2].level == "DEBUG"
    ensures forall i :: 0 <= i < 3 ==> es[i].timestamp == now
  {
    [Entry(now, "INFO", "Description mise à jour: '" + t.title + "'"),
     Entry(now, "DEBUG", "Ancienne: " + Prefix(t.description, 30) + "..."),
     Entry(now, "DEBUG", "Nouvelle: " + Prefix(description, 30) + "...")]
  }

  /** `mettre_a_jour`: three journal entries, then one version. */
  function Update(t: Task, description: string, now: Timestamp): (r: Result<Task, Error>)
    ensures r.Success? <==> t.title != []
    ensures r.Failure? ==> r.error == ValueError(MissingTitle)
    ensures r.Success? ==> r.value.title == t.title && r.value.description == description
    ensures r.Success? ==> r.value.created == t.created && r.value.modified == now && r.value.done == t.done
    ensures r.Success? ==> r.value.history == AddVersion(t.history, description, Updated, now)
    ensures r.Success? ==> r.value.journal.defaultLevel == t.journal.defaultLevel
    ensures r.Success? ==> r.value.journal.entries == t.journal.entries + UpdateEntries(t, description, now)
  {
    var _ :- VerifyTitle(t);
    var es := UpdateEntries(t, description, now);
    var j1 := Log(t.journal, es[0].message, Some("INFO"), now);
    var j2 := Log(j1, es[1].message, Some("DEBUG"), now);
    var j3 := Log(j2, es[2].message, Some("DEBUG"), now);
    assert j3.entries == t.journal.entries + es;
    Success(t.(description := description, modified := now,
               history := AddVersion(t.history, description, Updated, now), journal := j3))
  }

  /** `completer`: the first call marks the task done and records a
      version; later calls only log a warning. */
  function Complete(t: Task, now: Timestamp): (r: Task)
    ensures r.done
    ensures t.done ==>
      r == t.(journal := t.journal.(entries := t.journal.entries
                + [Entry(now, "AVERTISSEMENT", "Tache deja terminee: " + t.title)]))
    ensures !t.done ==>
      r == t.(done := true, modified := now,
              history := AddVersion(t.history, t.description, Completed, now),
              journal := t.journal.(entries := t.journal.entries
                + [Entry(now, "SUCCES", "Tache marquee comme terminee: " + t.title)]))
  {
    if t.done then
      t.(journal := Log(t.journal, "Tache deja terminee: " + t.title, Some("AVERTISSEMENT"), now))
    else
      var j := Log(t.journal, "Tache marquee comme terminee: " + t.title, Some("SUCCES"), now);
      t.(done := true, modified := now,
         history := AddVersion(t.history, t.description, Completed, now), journal := j)
  }

  /** `modifier_titre`: validates, stores the stripped title and logs the
      change with the title as given. The history is untouched. */
  function ModifyTitle(t: Task, title: Value, now: Timestamp): (r: Result<Task, Error>)
    ensures r.Success? <==> title.VStr? && !AllSpace(title.s)
    ensures r.Failure? ==> r.error == ValueError(InvalidTitle)
    ensures r.Success? ==>
      r.value == t.(title := Strip(title.s), modified := now,
                    journal := t.journal.(entries := t.journal.entries
                      + [Entry(now, "INFO", "Titre modifie: '" + t.title + "' -> '" + title.s + "'")]))
  {
    var _ :- ValidateTitle(title);
    var j := Log(t.journal, "Titre modifie: '" + t.title + "' -> '" + title.s + "'", Some("INFO"), now);
    Success(t.(title := Strip(title.s), modified := now, journal := j))
  }

  /** `restaurer_version(index)`: only `0 <= index < len`, no negative
      indices. The description and the cursor move; nothing is appended. */
  function RestoreVersion(t: Task, index: int): (r: Result<(Task, string), Error>)
    ensures r.Success? <==> 0 <= index < |t.history.versions|
    ensures r.Failure? ==> r.error == IndexError("Index d'historique invalide")
    ensures r.Success? ==> r.value.1 == t.history.versions[index].description
    ensures r.Success? ==>
      r.value.0 == t.(description := t.history.versions[index].description,
                      history := t.history.(current := index))
  {
    if 0 <= index < |t.history.versions| then
      var version := t.history.versions[index].description;
      Success((t.(description := version, history := t.history.(current := index)), version))
    else Failure(IndexError("Index d'historique invalide"))
  }

  /** The dictionary `obtenir_infos` returns. */
  datatype Infos = Infos(
    titre: string,
    description: string,
    dateCreation: Text,
    dateModification: Text,
    terminee: bool,
    versions: nat,
    entreesJournal: nat)

  /** `obtenir_infos`: the counters are the lengths of the history and of
      the journal. */
  function GetInfos(t: Task): (r: Result<Infos, Error>)
    ensures r.Success? <==> t.title != []
    ensures r.Success? ==> r.value.versions == |t.history.versions|
    ensures r.Success? ==> r.value.entreesJournal == |t.journal.entries|
    ensures r.Success? ==> r.value.titre == t.title && r.value.terminee == t.done
  {
    var _ :- VerifyTitle(t);
    Success(Infos(t.title, t.description, IsoOf(t.created), IsoOf(t.modified), t.done,
                  |t.history.versions|, |t.journal.entries|))
  }

  // ---------------------------------------------------------------------
  // Properties
  // ---------------------------------------------------------------------

  /** A title that passes `valider_titre` is stored stripped and non-empty. */
  lemma ValidTitleStored(title: Value)
    requires title.VStr? && !AllSpace(title.s)
    ensures Strip(title.s) != [] && Strip(Strip(title.s)) == Strip(title.s)
    ensures NoOuterSpace(Strip(title.s))
  {
    StripIdempotent(title.s);
  }

  /** The title of a valid task is already stripped. */
  lemma ValidTitleIsStripped(t: Task)
    requires Valid(t)
    ensures Strip(t.title) == t.title
  {
    assert StripLeading(t.title) == t.title;
  }

  /** A constructed task is valid, and every operation keeps it valid. */
  lemma CreateValid(title: Value, description: string, level: string, now: Timestamp)
    requires title.VStr? && !AllSpace(title.s)
    ensures Create(title, description, level, now).Success?
    ensures Valid(Create(title, description, level, now).value)
  {
    ValidTitleStored(title);
    var r := Create(title, description, level, now).value;
    assert r.title == Strip(title.s);
    assert r.history == History([Version(now, description, Created)], 0);
  }

  /** Appending a version that holds the current description keeps the
      cursor on the current description. */
  lemma AddVersionKeepsCursor(h: History, description: string, action: string, now: Timestamp)
    ensures var r := AddVersion(h, description, action, now);
      0 <= r.current < |r.versions| && r.versions[r.current].description == description
  {
  }

  lemma UpdateValid(t: Task, description: string, now: Timestamp)
    requires Valid(t)
    ensures Update(t, description, now).Success?
    ensures Valid(Update(t, description, now).value)
  {
    AddVersionKeepsCursor(t.history, description, Updated, now);
  }

  lemma CompleteValid(t: Task, now: Timestamp)
    requires Valid(t)
    ensures Valid(Complete(t, now))
  {
    var r := Complete(t, now);
    if !t.done {
      AddVersionKeepsCursor(t.history, t.description, Completed, now);
      assert r.title == t.title && r.description == t.description;
      assert r.history == AddVersion(t.history, t.description, Completed, now);
    } else {
      assert r.title == t.title && r.description == t.description && r.history == t.history;
    }
  }

  lemma ModifyTitleValid(t: Task, title: Value, now: Timestamp)
    requires Valid(t) && title.VStr? && !AllSpace(title.s)
    ensures ModifyTitle(t, title, now).Success?
    ensures Valid(ModifyTitle(t, title, now).value)
  {
    ValidTitleStored(title);
    var r := ModifyTitle(t, title, now).value;
    assert r.title == Strip(title.s) && r.history == t.history && r.description == t.description;
  }

  lemma RestoreVersionValid(t: Task, index: int)
    requires Valid(t) && RestoreVersion(t, index).Success?
    ensures Valid(RestoreVersion(t, index).value.0)
  {
  }

  /** A valid task always passes `verifier_titre`, so `obtenir_infos` never
      fails on it. */
  lemma InfosOfValid(t: Task)
    requires Valid(t)
    ensures GetInfos(t).Success?
  {
  }

  /** `completer` is idempotent: a second call changes nothing but the
      journal, which gains exactly one warning. */
  lemma CompleteIdempotent(t: Task, now1: Timestamp, now2: Timestamp)
    ensures var once := Complete(t, now1);
            var twice := Complete(once, now2);
            twice.done && twice.history == once.history && twice.description == once.description
            && twice.modified == once.modified
            && twice.journal.entries
               == once.journal.entries + [Entry(now2, "AVERTISSEMENT", "Tache deja terminee: " + t.title)]
  {
  }

  /** After a restore, the last description is still the newest version,
      not the restored one: restoring moves the cursor, not the end of the
      history. */
  lemma RestoreKeepsLastDescription(t: Task, index: int)
    requires RestoreVersion(t, index).Success?
    ensures LastDescription(RestoreVersion(t, index).value.0.history) == LastDescription(t.history)
  {
  }
}
