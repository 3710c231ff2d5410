/** The Python values the three capability files store in their attributes,
    and the insertion-ordered attribute map (`__dict__`, a snapshot `dict`)
    that replaces runtime reflection. */
module Values {
  import opened Wrappers

  /** An abstract reading of the wall clock (`datetime.now()`), passed in by
      the caller. */
  type Timestamp = nat

  /** A dynamically typed Python value. Tuples and lists are kept apart
      because the history and journal entries are tuples inside lists. */
  datatype Value =
    | VNone
    | VBool(b: bool)
    | VInt(i: int)
    | VStr(s: string)
    | VTime(t: Timestamp)
    | VList(items: seq<Value>)
    | VTuple(items: seq<Value>)
    | VDict(entries: seq<Attr>)
    | VObject(className: string, serializable: bool, fields: seq<Attr>)

  /** One name/value pair of an insertion-ordered mapping. */
  datatype Attr = Attr(name: string, value: Value)

  /** Python truthiness (`bool(v)`); instances of user classes and
      datetimes are always true. */
  predicate Truthy(v: Value) {
    match v
    case VNone => false
    case VBool(b) => b
    case VInt(i) => i != 0
    case VStr(s) => |s| > 0
    case VTime(_) => true
    case VList(items) => |items| > 0
    case VTuple(items) => |items| > 0
    case VDict(entries) => |entries| > 0
    case VObject(_, _, _) => true
  }

  /** True when `json.dumps(v)` succeeds: scalars, and containers made only
      of such values. Datetimes and instances of user classes are refused. */
  predicate JsonEncodable(v: Value) {
    match v
    case VNone => true
    case VBool(_) => true
    case VInt(_) => true
    case VStr(_) => true
    case VTime(_) => false
    case VList(items) => forall i :: 0 <= i < |items| ==> JsonEncodable(items[i])
    case VTuple(items) => forall i :: 0 <= i < |items| ==> JsonEncodable(items[i])
    case VDict(entries) => forall i :: 0 <= i < |entries| ==> JsonEncodable(entries[i].value)
    case VObject(_, _, _) => false
  }

  // ---------------------------------------------------------------------
  // Insertion-ordered attribute maps
  // ---------------------------------------------------------------------

  /** The names of a mapping, in insertion order (`d.keys()`). */
  function Names(d: seq<Attr>): seq<string> {
    seq(|d|, i requires 0 <= i < |d| => d[i].name)
  }

  lemma NamesCons(d: seq<Attr>)
    requires d != []
    ensures Names(d) == [d[0].name] + Names(d[1..])
  {
  }

  /** No name occurs twice: every Python `dict` has this shape. */
  predicate UniqueNames(d: seq<Attr>) {
    forall i, j :: 0 <= i < j < |d| ==> d[i].name != d[j].name
  }

  /** `d.get(n)` as an option: the value bound to `n`, if any. */
  function Find(d: seq<Attr>, n: string): (r: Option<Value>)
    ensures r.None? <==> n !in Names(d)
  {
    if d == [] then None
    else
      NamesCons(d);
      if d[0].name == n then Some(d[0].value) else Find(d[1..], n)
  }

  /** A lookup finds the first attribute of that name. */
  lemma {:induction false} FindFirst(d: seq<Attr>, i: int)
    requires 0 <= i < |d|
    requires forall j :: 0 <= j < i ==> d[j].name != d[i].name
    ensures Find(d, d[i].name) == Some(d[i].value)
  {
    if i > 0 {
      FindFirst(d[1..], i - 1);
    }
  }

  /** `d.get(n)` with Python's default: an absent name reads as `None`. */
  function Get(d: seq<Attr>, n: string): Value {
    match Find(d, n)
    case Some(v) => v
    case None => VNone
  }

  /** `d[n] = v` / `setattr(obj, n, v)`: an existing binding is overwritten
      in place, a new name is appended at the end. */
  function Set(d: seq<Attr>, n: string, v: Value): (r: seq<Attr>)
    ensures Find(r, n) == Some(v)
    ensures forall m :: m != n ==> Find(r, m) == Find(d, m)
    ensures n in Names(d) ==> Names(r) == Names(d)
    ensures n !in Names(d) ==> Names(r) == Names(d) + [n]
  {
    if d == [] then [Attr(n, v)]
    else if d[0].name == n then
      var r := [Attr(n, v)] + d[1..];
      assert r[1..] == d[1..];
      NamesCons(r);
      NamesCons(d);
      r
    else
      var rest := Set(d[1..], n, v);
      var r := [d[0]] + rest;
      assert r[1..] == rest;
      NamesCons(r);
      NamesCons(d);
      r
  }

  /** Overwriting or adding one binding keeps the names unique. */
  lemma SetKeepsUnique(d: seq<Attr>, n: string, v: Value)
    ensures UniqueNames(d) ==> UniqueNames(Set(d, n, v))
  {
    var r := Set(d, n, v);
    forall i, j | UniqueNames(d) && 0 <= i < j < |r| ensures r[i].name != r[j].name {
      assert Names(r)[i] == r[i].name && Names(r)[j] == r[j].name;
      if n !in Names(d) && j == |d| {
        assert Names(d)[i] == r[i].name;
      } else {
        assert Names(d)[i] == r[i].name && Names(d)[j] == r[j].name;
        assert d[i].name == Names(d)[i] && d[j].name == Names(d)[j];
      }
    }
  }

  /** The names of `ns` other than `n`, in their order. */
  function Omit(ns: seq<string>, n: string): (r: seq<string>)
    ensures forall k :: k in r <==> k in ns && k != n
  {
    if ns == [] then []
    else (if ns[0] == n then [] else [ns[0]]) + Omit(ns[1..], n)
  }

  /** The mapping without the binding for `n`, everything else in order. */
  function Remove(d: seq<Attr>, n: string): (r: seq<Attr>)
    ensures Find(r, n) == None
    ensures forall m :: m != n ==> Find(r, m) == Find(d, m)
    ensures forall i :: 0 <= i < |r| ==> r[i] in d
    ensures Names(r) == Omit(Names(d), n)
  {
    if d == [] then []
    else
      var rest := Remove(d[1..], n);
      NamesCons(d);
      if d[0].name == n then rest
      else
        var r := [d[0]] + rest;
        assert r[1..] == rest;
        NamesCons(r);
        r
  }

  /** Decimal text of an integer, as `str(i)` writes it. */
  function Decimal(i: int): (r: string)
    ensures |r| > 0
    ensures i >= 0 ==> forall k :: 0 <= k < |r| ==> '0' <= r[k] <= '9'
    ensures i < 0 ==> r[0] == '-'
  {
    if i < 0 then "-" + Digits(-i) else Digits(i)
  }

  function Digits(n: nat): (r: string)
    ensures |r| > 0
    ensures forall k :: 0 <= k < |r| ==> '0' <= r[k] <= '9'
  {
    var d := [(('0' as int) + n % 10) as char];
    if n < 10 then d else Digits(n / 10) + d
  }

  /** Reads back a string of decimal digits. */
  function ParseDigits(s: string): nat {
    if s == [] then 0
    else 10 * ParseDigits(s[..|s| - 1]) + ((s[|s| - 1] as int) - ('0' as int)) % 10
  }

  /** `Digits` loses nothing: the number is read back from its text, so two
      different indices never share a rendering. */
  lemma {:induction false} DigitsRoundTrip(n: nat)
    ensures ParseDigits(Digits(n)) == n
  {
    var s := Digits(n);
    if n < 10 {
    } else {
      DigitsRoundTrip(n / 10);
      assert s[..|s| - 1] == Digits(n / 10);
    }
  }

  lemma DigitsInjective(m: nat, n: nat)
    requires Digits(m) == Digits(n)
    ensures m == n
  {
    DigitsRoundTrip(m);
    DigitsRoundTrip(n);
  }
}
