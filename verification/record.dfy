/** The instances that `Exercice2.py` builds by mixing `Serializable`,
    `Historisable`, `Journalisable`, `ExportableCSV` and `ExportableXML`
    into one class. Reflection (`__dict__`, `setattr`, `hasattr`) is
    replaced by an explicit insertion-ordered attribute map; the history
    (`historique`) and the journal (`journal`) are attributes like any other,
    so a snapshot of the map captures the journal too. */
module Record {
  import opened Wrappers
  import opened Values

  /** An instance: the name of its class, whether that class mixes in
      `Journalisable` (`hasattr(self, 'journaliser')`), and its `__dict__`. */
  datatype Obj = Obj(className: string, journalisable: bool, dict: seq<Attr>)

  /** The exceptions the capability methods raise. `Malformed(n)` stands for
      the `TypeError`/`ValueError`/`AttributeError` Python raises when the
      attribute `n` holds something other than what the mixins store there. */
  datatype Error =
    | ValueError(reason: string)
    | IndexError
    | AttributeError(name: string)
    | Malformed(name: string)

  /** The items of attribute `n` when it holds a list. */
  function ListAttr(o: Obj, n: string): Option<seq<Value>> {
    match Find(o.dict, n)
    case Some(VList(items)) => Some(items)
    case _ => None
  }

  /** `setattr(o, n, v)` */
  function SetAttr(o: Obj, n: string, v: Value): (r: Obj)
    ensures r.className == o.className && r.journalisable == o.journalisable
    ensures Find(r.dict, n) == Some(v)
    ensures forall m :: m != n ==> Find(r.dict, m) == Find(o.dict, m)
    ensures n in Names(o.dict) ==> Names(r.dict) == Names(o.dict)
  {
    o.(dict := Set(o.dict, n, v))
  }
}
