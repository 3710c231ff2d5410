/** `Historisable` of `Exercice2.py`: snapshots of the whole attribute map
    (everything but `historique` itself) appended to the list `historique`
    as `(timestamp, action, state)` tuples, the diff of two snapshots, and
    restoring a snapshot by index. */
module RecordHistory {
  import opened Wrappers
  import opened Values
  import opened Outputs
  import opened Record
  import opened RecordJournal

  datatype HistoryEntry = HistoryEntry(timestamp: Timestamp, action: string, state: seq<Attr>)

  /** The tuple `enregistrer_etat` appends for a snapshot. */
  function EncodeSnapshot(h: HistoryEntry): Value {
    VTuple([VTime(h.timestamp), VStr(h.action), VDict(h.state)])
  }

  function DecodeSnapshot(v: Value): (r: Option<HistoryEntry>)
    ensures r.Some? ==> EncodeSnapshot(r.value) == v
  {
    match v
    case VTuple(xs) =>
      if |xs| == 3 && xs[0].VTime? && xs[1].VStr? && xs[2].VDict?
      then
        assert xs == [xs[0], xs[1], xs[2]];
        Some(HistoryEntry(xs[0].t, xs[1].s, xs[2].entries))
      else None
    case _ => None
  }

  function DecodeSnapshots(items: seq<Value>): (r: Option<seq<HistoryEntry>>)
    ensures r.Some? ==> |r.value| == |items|
    ensures r.Some? ==> forall i :: 0 <= i < |items| ==> EncodeSnapshot(r.value[i]) == items[i]
  {
    if items == [] then Some([])
    else
      match DecodeSnapshots(items[..|items| - 1])
      case None => None
      case Some(hs) =>
        match DecodeSnapshot(items[|items| - 1])
        case None => None
        case Some(h) => Some(hs + [h])
  }

  /** The history of an instance, oldest snapshot first. */
  function History(o: Obj): Result<seq<HistoryEntry>, Error> {
    match Find(o.dict, "historique")
    case None => Failure(AttributeError("historique"))
    case Some(VList(items)) =>
      (match DecodeSnapshots(items)
       case Some(hs) => Success(hs)
       case None => Failure(Malformed("historique")))
    case Some(_) => Failure(Malformed("historique"))
  }

  /** `Historisable.__init__`: an empty history. */
  function InitHistory(o: Obj): (r: Obj)
    ensures History(r) == Success([])
    ensures forall n :: n != "historique" ==> Find(r.dict, n) == Find(o.dict, n)
    ensures r.className == o.className && r.journalisable == o.journalisable
  {
    SetAttr(o, "historique", VList([]))
  }

  /** `_copier_etat`: every attribute but `historique`. The journal, the
      default level and the dates are captured as well. (The deep copy of
      lists and dicts is implicit: values are immutable here.) */
  function CopyState(o: Obj): (r: seq<Attr>)
    ensures Find(r, "historique") == None
    ensures forall n :: n != "historique" ==> Find(r, n) == Find(o.dict, n)
    ensures UniqueNames(o.dict) ==> UniqueNames(r)
    ensures Names(r) == Omit(Names(o.dict), "historique")
  {
    RemoveKeepsUnique(o.dict, "historique");
    Remove(o.dict, "historique")
  }

  lemma {:induction false} RemoveKeepsUnique(d: seq<Attr>, n: string)
    ensures UniqueNames(d) ==> UniqueNames(Remove(d, n))
  {
    if d != [] && UniqueNames(d) {
      RemoveKeepsUnique(d[1..], n);
      assert UniqueNames(d[1..]);
      var rest := Remove(d[1..], n);
      if d[0].name != n {
        forall j | 0 <= j < |rest| ensures rest[j].name != d[0].name {
          assert rest[j] in d[1..];
        }
      }
    }
  }

  /** The message `enregistrer_etat` logs after the snapshot. */
  function SavedMessage(action: string): string {
    "Etat enregistre pour " + action
  }

  /** The append step of `enregistrer_etat`: one triple of the clock
      reading, the action and a copy of the state. */
  function AppendSnapshot(o: Obj, action: string, now: Timestamp): (r: Result<Obj, Error>)
    ensures r.Success? <==> ListAttr(o, "historique").Some?
    ensures r.Success? ==> r.value.className == o.className && r.value.journalisable == o.journalisable
    ensures r.Success? ==>
      ListAttr(r.value, "historique")
        == Some(ListAttr(o, "historique").value + [EncodeSnapshot(HistoryEntry(now, action, CopyState(o)))])
    ensures r.Success? ==> forall n :: n != "historique" ==> Find(r.value.dict, n) == Find(o.dict, n)
    ensures r.Success? ==> Names(r.value.dict) == Names(o.dict)
  {
    match Find(o.dict, "historique")
    case None => Failure(AttributeError("historique"))
    case Some(VList(items)) =>
      var h := EncodeSnapshot(HistoryEntry(now, action, CopyState(o)));
      Success(SetAttr(o, "historique", VList(items + [h])))
    case Some(_) => Failure(Malformed("historique"))
  }

  /** `enregistrer_etat(action)`: appends one `(now, action, state)` tuple,
      where `state` is the attribute map as it was before the call; then, if
      the class is journalisable, logs one entry at the default level. */
  function SaveState(o: Obj, action: string, now: Timestamp): (r: Result<Obj, Error>)
    ensures r.Success? <==> ListAttr(o, "historique").Some? && (o.journalisable ==> CanLog(o, None))
    ensures r.Success? ==> r.value.className == o.className && r.value.journalisable == o.journalisable
    ensures r.Success? ==>
      ListAttr(r.value, "historique")
        == Some(ListAttr(o, "historique").value + [EncodeSnapshot(HistoryEntry(now, action, CopyState(o)))])
    ensures r.Success? ==>
      forall n :: n != "historique" && n != "journal" ==> Find(r.value.dict, n) == Find(o.dict, n)
    ensures r.Success? ==> Names(r.value.dict) == Names(o.dict)
    ensures r.Success? && !o.journalisable ==> Find(r.value.dict, "journal") == Find(o.dict, "journal")
    ensures r.Success? && o.journalisable ==>
      ListAttr(r.value, "journal")
        == Some(ListAttr(o, "journal").value
                + [EncodeEntry(JournalEntry(now, ResolveLevel(o, None).value, SavedMessage(action)))])
  {
    var o1 :- AppendSnapshot(o, action, now);
    assert ListAttr(o1, "journal") == ListAttr(o, "journal");
    assert ResolveLevel(o1, None) == ResolveLevel(o, None);
    if o.journalisable then Log(o1, SavedMessage(action), None, now) else Success(o1)
  }

  /** Read through `History`, a snapshot adds exactly one entry and leaves
      the earlier ones as they were. */
  lemma SaveStateAppendsOne(o: Obj, action: string, now: Timestamp)
    requires History(o).Success? && SaveState(o, action, now).Success?
    ensures History(SaveState(o, action, now).value)
         == Success(History(o).value + [HistoryEntry(now, action, CopyState(o))])
  {
    var items := ListAttr(o, "historique").value;
    DecodeSnapshotsAppend(items, HistoryEntry(now, action, CopyState(o)));
  }

  lemma DecodeSnapshotsAppend(items: seq<Value>, h: HistoryEntry)
    ensures DecodeSnapshots(items + [EncodeSnapshot(h)])
         == (match DecodeSnapshots(items) case Some(hs) => Some(hs + [h]) case None => None)
  {
    var xs := items + [EncodeSnapshot(h)];
    assert xs[..|xs| - 1] == items;
  }

  // ---------------------------------------------------------------------
  // _detecter_changements
  // ---------------------------------------------------------------------

  /** The attributes on which two snapshots disagree, reading an absent
      attribute as `None` (`dict.get`). */
  function Changed(a: seq<Attr>, b: seq<Attr>): set<string> {
    set n | n in Names(a) + Names(b) && Get(a, n) != Get(b, n)
  }

  /** `_detecter_changements(a, b)`: walks the union of both key sets (in
      an unspecified order, as a Python set is) and lists every name whose
      values differ. */
  method DetectChanges(a: seq<Attr>, b: seq<Attr>) returns (changes: seq<string>)
    ensures forall n :: n in changes <==> (n in Names(a) || n in Names(b)) && Get(a, n) != Get(b, n)
    ensures forall i, j :: 0 <= i < j < |changes| ==> changes[i] != changes[j]
    ensures (set n | n in changes) == Changed(a, b)
  {
    var todo := set n | n in Names(a) + Names(b);
    changes := [];
    while todo != {}
      invariant todo <= set n | n in Names(a) + Names(b)
      invariant forall n :: n in changes <==>
        (n in Names(a) || n in Names(b)) && n !in todo && Get(a, n) != Get(b, n)
      invariant forall i, j :: 0 <= i < j < |changes| ==> changes[i] != changes[j]
      decreases todo
    {
      var n :| n in todo;
      if Get(a, n) != Get(b, n) {
        changes := changes + [n];
      }
      todo := todo - {n};
    }
  }

  /** A snapshot has no change against itself. */
  lemma ChangedSelf(a: seq<Attr>)
    ensures Changed(a, a) == {}
  {
  }

  /** The diff does not depend on the order of its arguments. */
  lemma ChangedSymmetric(a: seq<Attr>, b: seq<Attr>)
    ensures Changed(a, b) == Changed(b, a)
  {
  }

  /** An attribute absent on one side and `None` on the other is not a
      change. */
  lemma AbsentEqualsNone(a: seq<Attr>, b: seq<Attr>, n: string)
    requires Find(a, n) == None && Find(b, n) == Some(VNone)
    ensures n !in Changed(a, b)
  {
  }

  /** Setting one attribute changes exactly that attribute, unless it
      already read as the new value. */
  lemma {:induction false} ChangedBySet(a: seq<Attr>, n: string, v: Value)
    ensures Changed(a, Set(a, n, v)) == if Get(a, n) == v then {} else {n}
  {
    var b := Set(a, n, v);
    forall m ensures m in Changed(a, b) <==> m == n && Get(a, n) != v {
      if m != n {
        assert Get(b, m) == Get(a, m);
      } else {
        assert n in Names(b);
      }
    }
  }

  // ---------------------------------------------------------------------
  // restaurer_etat
  // ---------------------------------------------------------------------

  /** Python-style index resolution as `restaurer_etat` intends it: a
      negative index counts from the end, and the result must fall in
      `[0, len)`. */
  function ResolveIndex(len: nat, index: int): (r: Option<nat>)
    ensures r.Some? <==> -(len as int) <= index < len
    ensures r.Some? ==> r.value < len && (r.value == index || r.value == len + index)
  {
    var k := if index < 0 then len + index else index;
    if 0 <= k < len then Some(k) else None
  }

  /** Index resolution as the code is written: `len + index` for a
      negative index, followed by the list lookup `historique[index]`, which
      wraps a still-negative index a second time. */
  function ResolveIndexAsWritten(len: nat, index: int): (r: Option<nat>)
    ensures r.Some? <==> -2 * (len as int) <= index < len
    ensures r.Some? ==> r.value < len
  {
    var k := if index < 0 then len + index else index;
    if -(len as int) <= k < 0 then Some(len + k)
    else if 0 <= k < len then Some(k)
    else None
  }

  /** -1 names the latest snapshot. */
  lemma LatestIsMinusOne(len: nat)
    requires len > 0
    ensures ResolveIndex(len, -1) == Some(len - 1)
  {
  }

  /** The code as written accepts every index in `[-2 len, len)`; below
      `-len` it picks a snapshot counted twice from the end. */
  lemma AsWrittenAcceptsTooNegative(len: nat, index: int)
    requires len > 0 && -2 * (len as int) <= index < -(len as int)
    ensures ResolveIndexAsWritten(len, index) == Some(2 * len + index)
    ensures ResolveIndex(len, index) == None
  {
  }

  /** Inside `[-len, len)` the code as written and the intended resolution
      agree. */
  lemma AsWrittenAgreesInRange(len: nat, index: int)
    requires -(len as int) <= index < len
    ensures ResolveIndexAsWritten(len, index) == ResolveIndex(len, index)
  {
  }

  /** Finds the snapshot `restaurer_etat(index)` restores: `ValueError`
      when the history is empty, `IndexError` when the index does not
      resolve. */
  function Lookup(o: Obj, index: int): (r: Result<HistoryEntry, Error>)
    ensures Find(o.dict, "historique") == None ==> r == Failure(AttributeError("historique"))
    ensures ListAttr(o, "historique") == Some([]) ==>
      r == Failure(ValueError("Aucun etat historique disponible"))
    ensures ListAttr(o, "historique").Some? && ListAttr(o, "historique").value != [] ==>
      (r == Failure(IndexError) <==> ResolveIndex(|ListAttr(o, "historique").value|, index).None?)
    ensures r.Success? ==>
      ListAttr(o, "historique").Some? &&
      var items := ListAttr(o, "historique").value;
      ResolveIndex(|items|, index).Some?
      && EncodeSnapshot(r.value) == items[ResolveIndex(|items|, index).value]
  {
    match Find(o.dict, "historique")
    case None => Failure(AttributeError("historique"))
    case Some(h) =>
      if !Truthy(h) then Failure(ValueError("Aucun etat historique disponible"))
      else if !h.VList? then Failure(Malformed("historique"))
      else
        match ResolveIndex(|h.items|, index)
        case None => Failure(IndexError)
        case Some(k) =>
          match DecodeSnapshot(h.items[k])
          case None => Failure(Malformed("historique"))
          case Some(e) => Success(e)
  }

  /** Writes every binding of a snapshot back onto the attribute map, in
      the snapshot's order, as `setattr` does. */
  function ApplyState(d: seq<Attr>, state: seq<Attr>): (r: seq<Attr>)
    ensures forall n :: n !in Names(state) ==> Find(r, n) == Find(d, n)
    ensures UniqueNames(state) ==> forall n :: n in Names(state) ==> Find(r, n) == Find(state, n)
    ensures UniqueNames(d) ==> UniqueNames(r)
    decreases |state|
  {
    if state == [] then d
    else
      var d1 := Set(d, state[0].name, state[0].value);
      SetKeepsUnique(d, state[0].name, state[0].value);
      NamesCons(state);
      assert UniqueNames(state) ==> UniqueNames(state[1..]) && state[0].name !in Names(state[1..]);
      ApplyState(d1, state[1..])
  }

  /** The message `restaurer_etat` logs. */
  function RestoredMessage(h: HistoryEntry): string {
    "Etat restaue depuis " + Str(VTime(h.timestamp)) + " (" + h.action + ")"
  }

  /** Writes a snapshot back and, if the class is journalisable, logs the
      restoration on the journal just written back. The history itself is
      not touched (unless the snapshot names `historique`, which
      `CopyState` never does). */
  function Rewind(o: Obj, h: HistoryEntry, now: Timestamp): (r: Result<Obj, Error>)
    ensures var o1 := o.(dict := ApplyState(o.dict, h.state));
      r.Success? <==> (o.journalisable ==> CanLog(o1, None))
    ensures r.Success? ==> r.value.className == o.className && r.value.journalisable == o.journalisable
    ensures r.Success? ==>
      forall n :: n !in Names(h.state) && (n != "journal" || !o.journalisable) ==>
        Find(r.value.dict, n) == Find(o.dict, n)
    ensures r.Success? && UniqueNames(h.state) ==>
      forall n :: n in Names(h.state) && (n != "journal" || !o.journalisable) ==>
        Find(r.value.dict, n) == Find(h.state, n)
    ensures r.Success? && o.journalisable ==>
      var o1 := o.(dict := ApplyState(o.dict, h.state));
      ListAttr(r.value, "journal")
        == Some(ListAttr(o1, "journal").value
                + [EncodeEntry(JournalEntry(now, ResolveLevel(o1, None).value, RestoredMessage(h)))])
    ensures r.Success? && UniqueNames(o.dict) ==> UniqueNames(r.value.dict)
  {
    var o1 := o.(dict := ApplyState(o.dict, h.state));
    if o.journalisable then
      var r := Log(o1, RestoredMessage(h), None, now);
      assert r.Success? ==> Names(r.value.dict) == Names(o1.dict);
      assert r.Success? && UniqueNames(o1.dict) ==> UniqueNames(r.value.dict) by {
        if r.Success? && UniqueNames(o1.dict) {
          forall i, j | 0 <= i < j < |r.value.dict| ensures r.value.dict[i].name != r.value.dict[j].name {
            assert Names(r.value.dict)[i] == Names(o1.dict)[i];
            assert Names(r.value.dict)[j] == Names(o1.dict)[j];
          }
        }
      }
      r
    else Success(o1)
  }

  /** The result of `restaurer_etat`: the instance after the restoration and
      the `(timestamp, action)` of the restored snapshot. */
  datatype Restored = Restored(obj: Obj, timestamp: Timestamp, action: string)

  /** `restaurer_etat(index)`: looks the snapshot up, writes it back, logs
      the restoration, and reports which snapshot it was. Nothing is
      appended to `historique`. */
  function Restore(o: Obj, index: int, now: Timestamp): (r: Result<Restored, Error>)
    ensures Lookup(o, index).Failure? ==> r == Failure(Lookup(o, index).error)
    ensures r.Success? <==> Lookup(o, index).Success? && Rewind(o, Lookup(o, index).value, now).Success?
    ensures r.Success? ==>
      var h := Lookup(o, index).value;
      r.value.timestamp == h.timestamp && r.value.action == h.action
      && Rewind(o, h, now) == Success(r.value.obj)
  {
    var h :- Lookup(o, index);
    var o1 :- Rewind(o, h, now);
    Success(Restored(o1, h.timestamp, h.action))
  }

  lemma SnapshotRoundTrip(h: HistoryEntry)
    ensures DecodeSnapshot(EncodeSnapshot(h)) == Some(h)
  {
  }

  /** Restoring the latest snapshot straight after taking it gives every
      attribute but the journal back exactly as it was; the journal is
      rewound to what it held at the snapshot (the "Etat enregistre" entry
      is dropped) and then records the restoration. */
  lemma SaveThenRestoreLatest(o: Obj, action: string, t1: Timestamp, t2: Timestamp)
    requires UniqueNames(o.dict)
    requires SaveState(o, action, t1).Success?
    ensures var o1 := SaveState(o, action, t1).value;
      var r := Restore(o1, -1, t2);
      && r.Success?
      && r.value.timestamp == t1 && r.value.action == action
      && (forall n :: n != "journal" ==> Find(r.value.obj.dict, n) == Find(o1.dict, n))
      && (forall n :: n != "journal" && n != "historique" ==> Find(r.value.obj.dict, n) == Find(o.dict, n))
      && (!o.journalisable ==> Find(r.value.obj.dict, "journal") == Find(o.dict, "journal"))
      && (o.journalisable ==>
            ListAttr(r.value.obj, "journal")
              == Some(ListAttr(o, "journal").value
                      + [EncodeEntry(JournalEntry(t2, ResolveLevel(o, None).value,
                                                  RestoredMessage(HistoryEntry(t1, action, CopyState(o)))))]))
  {
    var o1 := SaveState(o, action, t1).value;
    LookupLatestAfterSave(o, action, t1);
    assert Find(o.dict, "journal").Some? || Find(o1.dict, "journal") == Find(o.dict, "journal");
    RestoreOwnSnapshot(o, o1, HistoryEntry(t1, action, CopyState(o)), t2);
  }

  /** Restoring, at index -1, the snapshot of `o` from an instance that
      differs from `o` only in `historique` and `journal`. */
  lemma RestoreOwnSnapshot(o: Obj, o1: Obj, h: HistoryEntry, t2: Timestamp)
    requires UniqueNames(o.dict) && h.state == CopyState(o)
    requires Lookup(o1, -1) == Success(h)
    requires o1.journalisable == o.journalisable && (o.journalisable ==> CanLog(o, None))
    requires forall n :: n != "historique" && n != "journal" ==> Find(o1.dict, n) == Find(o.dict, n)
    requires Find(o.dict, "journal").Some? || Find(o1.dict, "journal") == Find(o.dict, "journal")
    ensures var r := Restore(o1, -1, t2);
      && r.Success?
      && r.value.timestamp == h.timestamp && r.value.action == h.action
      && (forall n :: n != "journal" ==> Find(r.value.obj.dict, n) == Find(o1.dict, n))
      && (!o.journalisable ==> Find(r.value.obj.dict, "journal") == Find(o.dict, "journal"))
      && (o.journalisable ==>
            ListAttr(r.value.obj, "journal")
              == Some(ListAttr(o, "journal").value
                      + [EncodeEntry(JournalEntry(t2, ResolveLevel(o, None).value, RestoredMessage(h)))]))
  {
    RewindOwnSnapshot(o, o1, h, t2);
    var rw := Rewind(o1, h, t2).value;
    assert Restore(o1, -1, t2) == Success(Restored(rw, h.timestamp, h.action));
  }

  /** The write-back part of `RestoreOwnSnapshot`. */
  lemma RewindOwnSnapshot(o: Obj, o1: Obj, h: HistoryEntry, t2: Timestamp)
    requires UniqueNames(o.dict) && h.state == CopyState(o)
    requires o1.journalisable == o.journalisable && (o.journalisable ==> CanLog(o, None))
    requires forall n :: n != "historique" && n != "journal" ==> Find(o1.dict, n) == Find(o.dict, n)
    requires Find(o.dict, "journal").Some? || Find(o1.dict, "journal") == Find(o.dict, "journal")
    ensures var r := Rewind(o1, h, t2);
      && r.Success?
      && (forall n :: n != "journal" ==> Find(r.value.dict, n) == Find(o1.dict, n))
      && (!o.journalisable ==> Find(r.value.dict, "journal") == Find(o.dict, "journal"))
      && (o.journalisable ==>
            ListAttr(r.value, "journal")
              == Some(ListAttr(o, "journal").value
                      + [EncodeEntry(JournalEntry(t2, ResolveLevel(o, None).value, RestoredMessage(h)))]))
  {
    var o2 := o1.(dict := ApplyState(o1.dict, h.state));
    WriteBackOwnSnapshot(o, o1);
    assert Find(o2.dict, "journal") == Find(o.dict, "journal");
    assert Find(o2.dict, "niveau_log") == Find(o.dict, "niveau_log");
    RewindOwnSnapshotJournal(o, o2, h, t2);
    RewindOwnSnapshotOthers(o1, h, t2);
  }

  /** The journal after a write-back that left `journal` and `niveau_log` as
      they were in `o`. */
  lemma RewindOwnSnapshotJournal(o: Obj, o2: Obj, h: HistoryEntry, t2: Timestamp)
    requires Find(o2.dict, "journal") == Find(o.dict, "journal")
    requires Find(o2.dict, "niveau_log") == Find(o.dict, "niveau_log")
    requires o2.journalisable == o.journalisable && (o.journalisable ==> CanLog(o, None))
    ensures var r := Log(o2, RestoredMessage(h), None, t2);
      && (o.journalisable ==> r.Success?)
      && (o.journalisable ==>
            ListAttr(r.value, "journal")
              == Some(ListAttr(o, "journal").value
                      + [EncodeEntry(JournalEntry(t2, ResolveLevel(o, None).value, RestoredMessage(h)))]))
  {
    assert ListAttr(o2, "journal") == ListAttr(o, "journal");
    assert ResolveLevel(o2, None) == ResolveLevel(o, None);
  }

  /** Every attribute but `journal` reads, after the write-back, as in the
      snapshot where it names it and as before elsewhere. */
  lemma RewindOwnSnapshotOthers(o1: Obj, h: HistoryEntry, t2: Timestamp)
    requires UniqueNames(h.state)
    requires forall n :: n in Names(h.state) && n != "journal" ==> Find(h.state, n) == Find(o1.dict, n)
    ensures Rewind(o1, h, t2).Success? ==>
      forall n :: n != "journal" ==> Find(Rewind(o1, h, t2).value.dict, n) == Find(o1.dict, n)
  {
    var rw := Rewind(o1, h, t2);
    if rw.Success? {
      forall n | n != "journal" ensures Find(rw.value.dict, n) == Find(o1.dict, n) {
        if n in Names(h.state) {
          assert Find(rw.value.dict, n) == Find(h.state, n);
        }
      }
    }
  }

  /** The snapshot just taken is the one index -1 finds. */
  lemma LookupLatestAfterSave(o: Obj, action: string, t1: Timestamp)
    requires SaveState(o, action, t1).Success?
    ensures Lookup(SaveState(o, action, t1).value, -1) == Success(HistoryEntry(t1, action, CopyState(o)))
  {
    var o1 := SaveState(o, action, t1).value;
    var h := HistoryEntry(t1, action, CopyState(o));
    var items := ListAttr(o1, "historique").value;
    assert items[|items| - 1] == EncodeSnapshot(h);
    SnapshotRoundTrip(h);
  }

  /** Writing the state of `o` back onto an instance that differs from `o`
      only in `historique` and `journal` gives every attribute but
      `historique` the value it had in `o`. */
  lemma WriteBackOwnSnapshot(o: Obj, o1: Obj)
    requires UniqueNames(o.dict)
    requires forall n :: n != "historique" && n != "journal" ==> Find(o1.dict, n) == Find(o.dict, n)
    requires Find(o.dict, "journal").Some? || Find(o1.dict, "journal") == None
    ensures forall n :: n != "historique" ==> Find(ApplyState(o1.dict, CopyState(o)), n) == Find(o.dict, n)
  {
    var st := CopyState(o);
    assert UniqueNames(st);
    var d := ApplyState(o1.dict, st);
    forall n | n != "historique" ensures Find(d, n) == Find(o.dict, n) {
      assert Find(st, n) == Find(o.dict, n);
      if n in Names(st) {
        assert Find(d, n) == Find(st, n);
      } else {
        assert Find(st, n) == None;
        assert Find(d, n) == Find(o1.dict, n);
      }
    }
  }

  /** When two maps agree everywhere but on `n` and `k`, their diff is
      whichever of the two really differ. */
  lemma ChangedAtMostTwo(a: seq<Attr>, b: seq<Attr>, n: string, k: string)
    requires n != k
    requires forall m :: m != n && m != k ==> Find(a, m) == Find(b, m)
    ensures Changed(a, b)
         == (if Get(a, n) == Get(b, n) then {} else {n}) + (if Get(a, k) == Get(b, k) then {} else {k})
  {
    forall m
      ensures m in Changed(a, b)
          <==> (m == n && Get(a, n) != Get(b, n)) || (m == k && Get(a, k) != Get(b, k))
    {
      if m != n && m != k {
        assert Get(a, m) == Get(b, m);
      } else if Get(a, m) != Get(b, m) {
        assert Find(a, m) != None || Find(b, m) != None;
      }
    }
  }

  /** Snapshot, change one plain attribute, snapshot again: the diff of the
      two snapshots is that attribute (if its value really changed) and,
      for a journalisable class, also `journal`, because the first snapshot
      logged an entry after it was taken. */
  lemma ConsecutiveSnapshotsDiff(o: Obj, a1: string, t1: Timestamp, n: string, v: Value)
    requires SaveState(o, a1, t1).Success?
    requires n != "journal" && n != "historique"
    ensures var o2 := SetAttr(SaveState(o, a1, t1).value, n, v);
      Changed(CopyState(o), CopyState(o2))
        == (if Get(o.dict, n) == v then {} else {n}) + (if o.journalisable then {"journal"} else {})
  {
    var o1 := SaveState(o, a1, t1).value;
    var o2 := SetAttr(o1, n, v);
    var a, b := CopyState(o), CopyState(o2);
    forall m | m != n && m != "journal" ensures Find(a, m) == Find(b, m) {
      if m != "historique" {
        assert Find(o1.dict, m) == Find(o.dict, m);
        assert Find(o2.dict, m) == Find(o1.dict, m);
      }
    }
    ChangedAtMostTwo(a, b, n, "journal");
    assert Get(a, n) == Get(o.dict, n) && Get(b, n) == v;
    if o.journalisable {
      var j := ListAttr(o, "journal").value;
      var j1 := ListAttr(o1, "journal").value;
      assert |j1| == |j| + 1;
      assert Find(b, "journal") == Find(o1.dict, "journal") == Some(VList(j1));
      assert Find(a, "journal") == Some(VList(j));
      assert VList(j) != VList(j1);
    } else {
      assert Find(o1.dict, "journal") == Find(o.dict, "journal");
      assert Find(b, "journal") == Find(a, "journal");
    }
  }
}
