/** The two frozen canonicalisers over Python values: the float check, the encoder with sorted keys
    and a default rendering for decimals and datetimes, and datetime normalisation.
    ISO formatting of a datetime is a parameter, as is the text of a decimal. */
module CanonicalJson {
  import opened Wrappers
  import opened JsonText
  import opened KeyOrder

  // Microseconds since year 1 on the local clock, and the offset from UTC of an aware datetime.
  datatype DateTime = DateTime(local: int, offset: Option<int>)

  datatype Value =
    | PyNone
    | PyBool(b: bool)
    | PyInt(n: int)
    | PyStr(s: string)
    | PyDecimal(text: string)
    | PyDateTime(at: DateTime)
    | PyFloat
    | PyOther
    | PyList(items: seq<Value>)
    | PyTuple(items: seq<Value>)
    | PyDict(entries: seq<Keyed<Value>>)  // in insertion order

  datatype Rejection = BinaryFloat | Unserializable | InstantOutOfRange | NotADictionary

  datatype Flavour = Outbox | Archive

  // One microsecond past the last representable local time (end of year 9999).
  const END_OF_TIME := 3652059 * 86400 * 1_000_000

  predicate Representable(local: int) {
    0 <= local < END_OF_TIME
  }

  function Instant(at: DateTime): int {
    at.local - at.offset.GetOr(0)
  }

  function EnsureUtc(at: DateTime): Result<DateTime, Rejection> {
    match at.offset
    case None => Ok(DateTime(at.local, Some(0)))
    case Some(offset) =>
      if Representable(at.local - offset) then Ok(DateTime(at.local - offset, Some(0)))
      else Err(InstantOutOfRange)
  }

  // What Python guarantees of its values: distinct dictionary keys, datetimes in range.
  ghost predicate WellFormed(v: Value) {
    match v
    case PyDateTime(at) => Representable(at.local)
    case PyList(items) => forall i | 0 <= i < |items| :: WellFormed(items[i])
    case PyTuple(items) => forall i | 0 <= i < |items| :: WellFormed(items[i])
    case PyDict(entries) =>
      DistinctKeys(entries) && forall i | 0 <= i < |entries| :: WellFormed(entries[i].value)
    case _ => true
  }

  // ----- The canonicalisers -----

  predicate HasFloat(v: Value) {
    match v
    case PyFloat => true
    case PyList(items) => exists i | 0 <= i < |items| :: HasFloat(items[i])
    case PyTuple(items) => exists i | 0 <= i < |items| :: HasFloat(items[i])
    case PyDict(entries) => exists i | 0 <= i < |entries| :: HasFloat(entries[i].value)
    case _ => false
  }

  // The default hook of the encoder.
  function Render(flavour: Flavour, iso: DateTime -> string, at: DateTime): Result<string, Rejection> {
    match flavour
    case Outbox => Ok(iso(at))
    case Archive =>
      match EnsureUtc(at)
      case Ok(utc) => Ok(iso(utc))
      case Err(e) => Err(e)
  }

  type Encoded = Result<Json, Rejection>

  function Encode(flavour: Flavour, iso: DateTime -> string, v: Value): Encoded
    decreases v, 1
  {
    match v
    case PyNone => Ok(Null)
    case PyBool(b) => Ok(Bool(b))
    case PyInt(n) => Ok(Int(n))
    case PyStr(s) => Ok(Str(s))
    case PyDecimal(text) => Ok(Str(text))
    case PyDateTime(at) =>
      (match Render(flavour, iso, at)
       case Ok(text) => Ok(Str(text))
       case Err(e) => Err(e))
    case PyFloat => Err(BinaryFloat)
    case PyOther => Err(Unserializable)
    case PyList(items) => WrapItems(EncodeItems(flavour, iso, items))
    case PyTuple(items) => WrapItems(EncodeItems(flavour, iso, items))
    case PyDict(entries) => WrapMembers(Collect(Sort(EncodeEntries(flavour, iso, entries))))
  }

  function WrapItems(r: Result<seq<Json>, Rejection>): Encoded {
    match r
    case Ok(items) => Ok(Arr(items))
    case Err(e) => Err(e)
  }

  function WrapMembers(r: Result<seq<Keyed<Json>>, Rejection>): Encoded {
    match r
    case Ok(members) => Ok(Obj(members))
    case Err(e) => Err(e)
  }

  function EncodeItems(flavour: Flavour, iso: DateTime -> string, items: seq<Value>): Result<seq<Json>, Rejection>
    decreases items, 0
  {
    if items == [] then Ok([])
    else
      match Encode(flavour, iso, items[0])
      case Err(e) => Err(e)
      case Ok(x) =>
        match EncodeItems(flavour, iso, items[1..])
        case Err(e) => Err(e)
        case Ok(xs) => Ok([x] + xs)
  }

  function EncodeEntries(flavour: Flavour, iso: DateTime -> string, entries: seq<Keyed<Value>>)
    : (r: seq<Keyed<Encoded>>)
    ensures |r| == |entries|
    ensures forall i | 0 <= i < |entries| :: r[i] == Keyed(entries[i].key, Encode(flavour, iso, entries[i].value))
    decreases entries, 0
  {
    if entries == [] then []
    else [Keyed(entries[0].key, Encode(flavour, iso, entries[0].value))] + EncodeEntries(flavour, iso, entries[1..])
  }

  // The members of an object, or the first rejection in key order.
  function Collect(slots: seq<Keyed<Encoded>>): Result<seq<Keyed<Json>>, Rejection> {
    if slots == [] then Ok([])
    else
      match slots[0].value
      case Err(e) => Err(e)
      case Ok(x) =>
        match Collect(slots[1..])
        case Err(e) => Err(e)
        case Ok(members) => Ok([Keyed(slots[0].key, x)] + members)
  }

  function Canonical(flavour: Flavour, iso: DateTime -> string, v: Value): Result<string, Rejection> {
    if HasFloat(v) then Err(BinaryFloat)
    else
      match Encode(flavour, iso, v)
      case Ok(x) => Ok(Print(x))
      case Err(e) => Err(e)
  }

  // ----- Equal values of equal types -----

  // As Python compares values, dictionaries in any insertion order, except that values of different
  // types are never the same: True and 1 compare equal in Python and print differently.
  ghost predicate SameValue(v: Value, w: Value)
    decreases v
  {
    match (v, w)
    case (PyList(xs), PyList(ys)) => |xs| == |ys| && forall i | 0 <= i < |xs| :: SameValue(xs[i], ys[i])
    case (PyTuple(xs), PyTuple(ys)) => |xs| == |ys| && forall i | 0 <= i < |xs| :: SameValue(xs[i], ys[i])
    case (PyDict(es), PyDict(fs)) =>
      && KeySet(es) == KeySet(fs)
      && forall i, j | 0 <= i < |es| && 0 <= j < |fs| && es[i].key == fs[j].key :: SameValue(es[i].value, fs[j].value)
    case _ => v == w
  }

  function KeySet<T>(entries: seq<Keyed<T>>): set<string> {
    set i | 0 <= i < |entries| :: entries[i].key
  }

  lemma KeyedAt<T>(entries: seq<Keyed<T>>, key: string) returns (i: nat)
    requires key in KeySet(entries)
    ensures i < |entries| && entries[i].key == key
  {
    i :| 0 <= i < |entries| && entries[i].key == key;
  }

  lemma EncodeItemsPointwise(flavour: Flavour, iso: DateTime -> string, xs: seq<Value>, ys: seq<Value>)
    requires |xs| == |ys|
    requires forall i | 0 <= i < |xs| :: Encode(flavour, iso, xs[i]) == Encode(flavour, iso, ys[i])
    ensures EncodeItems(flavour, iso, xs) == EncodeItems(flavour, iso, ys)
  {
  }

  lemma SlotsDistinct(flavour: Flavour, iso: DateTime -> string, entries: seq<Keyed<Value>>)
    requires DistinctKeys(entries)
    ensures DistinctKeys(EncodeEntries(flavour, iso, entries))
  {
  }

  lemma {:induction false} SameValueSameEncoding(flavour: Flavour, iso: DateTime -> string, v: Value, w: Value)
    requires WellFormed(v) && WellFormed(w) && SameValue(v, w)
    ensures Encode(flavour, iso, v) == Encode(flavour, iso, w)
    decreases v, 1
  {
    match (v, w)
    case (PyList(xs), PyList(ys)) => SameItemsSameEncoding(flavour, iso, xs, ys);
    case (PyTuple(xs), PyTuple(ys)) => SameItemsSameEncoding(flavour, iso, xs, ys);
    case (PyDict(es), PyDict(fs)) => SameEntriesSameSlots(flavour, iso, es, fs);
    case _ =>
  }

  lemma {:induction false} SameItemsSameEncoding(flavour: Flavour, iso: DateTime -> string,
                                                 xs: seq<Value>, ys: seq<Value>)
    requires |xs| == |ys|
    requires forall i | 0 <= i < |xs| :: WellFormed(xs[i]) && WellFormed(ys[i]) && SameValue(xs[i], ys[i])
    ensures EncodeItems(flavour, iso, xs) == EncodeItems(flavour, iso, ys)
    decreases xs, 0
  {
    forall i | 0 <= i < |xs|
      ensures Encode(flavour, iso, xs[i]) == Encode(flavour, iso, ys[i])
    {
      SameValueSameEncoding(flavour, iso, xs[i], ys[i]);
    }
    EncodeItemsPointwise(flavour, iso, xs, ys);
  }

  lemma {:induction false} SameEntriesSameSlots(flavour: Flavour, iso: DateTime -> string,
                                                es: seq<Keyed<Value>>, fs: seq<Keyed<Value>>)
    requires WellFormed(PyDict(es)) && WellFormed(PyDict(fs)) && SameValue(PyDict(es), PyDict(fs))
    ensures Sort(EncodeEntries(flavour, iso, es)) == Sort(EncodeEntries(flavour, iso, fs))
    decreases es, 0
  {
    forall i | 0 <= i < |es|
      ensures EncodeEntries(flavour, iso, es)[i] in EncodeEntries(flavour, iso, fs)
    {
      assert es[i].key in KeySet(es);
      var j := KeyedAt(fs, es[i].key);
      SameValueSameEncoding(flavour, iso, es[i].value, fs[j].value);
      assert EncodeEntries(flavour, iso, fs)[j] == EncodeEntries(flavour, iso, es)[i];
    }
    forall j | 0 <= j < |fs|
      ensures EncodeEntries(flavour, iso, fs)[j] in EncodeEntries(flavour, iso, es)
    {
      assert fs[j].key in KeySet(fs);
      var i := KeyedAt(es, fs[j].key);
      SameValueSameEncoding(flavour, iso, es[i].value, fs[j].value);
      assert EncodeEntries(flavour, iso, fs)[j] == EncodeEntries(flavour, iso, es)[i];
    }
    SlotsDistinct(flavour, iso, es);
    SlotsDistinct(flavour, iso, fs);
    MutualMembers(EncodeEntries(flavour, iso, es), EncodeEntries(flavour, iso, fs));
    SortIgnoresOrder(EncodeEntries(flavour, iso, es), EncodeEntries(flavour, iso, fs));
  }

  lemma MutualMembers(a: seq<Keyed<Encoded>>, b: seq<Keyed<Encoded>>)
    requires forall i | 0 <= i < |a| :: a[i] in b
    requires forall i | 0 <= i < |b| :: b[i] in a
    ensures SameMembers(a, b)
  {
  }

  lemma {:induction false} SameValueSameFloats(v: Value, w: Value)
    requires SameValue(v, w)
    ensures HasFloat(v) <==> HasFloat(w)
    decreases v, 1
  {
    match (v, w)
    case (PyList(xs), PyList(ys)) =>
      forall i | 0 <= i < |xs| ensures HasFloat(xs[i]) <==> HasFloat(ys[i]) { SameValueSameFloats(xs[i], ys[i]); }
    case (PyTuple(xs), PyTuple(ys)) =>
      forall i | 0 <= i < |xs| ensures HasFloat(xs[i]) <==> HasFloat(ys[i]) { SameValueSameFloats(xs[i], ys[i]); }
    case (PyDict(es), PyDict(fs)) => SameEntriesSameFloats(es, fs);
    case _ =>
  }

  lemma {:induction false} SameEntriesSameFloats(es: seq<Keyed<Value>>, fs: seq<Keyed<Value>>)
    requires SameValue(PyDict(es), PyDict(fs))
    ensures HasFloat(PyDict(es)) <==> HasFloat(PyDict(fs))
    decreases es, 0
  {
    if HasFloat(PyDict(es)) {
      var i :| 0 <= i < |es| && HasFloat(es[i].value);
      assert es[i].key in KeySet(es);
      var j := KeyedAt(fs, es[i].key);
      SameValueSameFloats(es[i].value, fs[j].value);
    }
    if HasFloat(PyDict(fs)) {
      var j :| 0 <= j < |fs| && HasFloat(fs[j].value);
      assert fs[j].key in KeySet(fs);
      var i := KeyedAt(es, fs[j].key);
      SameValueSameFloats(es[i].value, fs[j].value);
    }
  }

  // Main result: the canonical text, or the rejection, does not depend on the insertion order of
  // any dictionary.
  lemma SameValueSameText(flavour: Flavour, iso: DateTime -> string, v: Value, w: Value)
    requires WellFormed(v) && WellFormed(w) && SameValue(v, w)
    ensures Canonical(flavour, iso, v) == Canonical(flavour, iso, w)
  {
    SameValueSameEncoding(flavour, iso, v, w);
    SameValueSameFloats(v, w);
  }

  // ----- Injectivity -----

  // Trees of null, bool, int, string, list and dictionary.
  ghost predicate Plain(v: Value) {
    match v
    case PyNone => true
    case PyBool(_) => true
    case PyInt(_) => true
    case PyStr(_) => true
    case PyList(items) => forall i | 0 <= i < |items| :: Plain(items[i])
    case PyDict(entries) => forall i | 0 <= i < |entries| :: Plain(entries[i].value)
    case _ => false
  }

  lemma {:induction false} EncodeItemsOk(flavour: Flavour, iso: DateTime -> string, items: seq<Value>)
    requires forall i | 0 <= i < |items| :: Encode(flavour, iso, items[i]).Ok?
    ensures EncodeItems(flavour, iso, items).Ok?
    ensures |EncodeItems(flavour, iso, items).value| == |items|
    ensures forall i | 0 <= i < |items| ::
            Encode(flavour, iso, items[i]) == Ok(EncodeItems(flavour, iso, items).value[i])
  {
    if items != [] {
      EncodeItemsOk(flavour, iso, items[1..]);
    }
  }

  lemma {:induction false} CollectOk(slots: seq<Keyed<Encoded>>)
    requires forall slot | slot in slots :: slot.value.Ok?
    ensures Collect(slots).Ok?
    ensures |Collect(slots).value| == |slots|
    ensures forall i | 0 <= i < |slots| ::
            slots[i] == Keyed(Collect(slots).value[i].key, Ok(Collect(slots).value[i].value))
  {
    if slots != [] {
      CollectOk(slots[1..]);
    }
  }

  lemma {:induction false} PlainEncodes(flavour: Flavour, iso: DateTime -> string, v: Value)
    requires Plain(v)
    ensures !HasFloat(v) && Encode(flavour, iso, v).Ok?
    decreases v
  {
    match v
    case PyList(items) =>
      forall i | 0 <= i < |items|
        ensures !HasFloat(items[i]) && Encode(flavour, iso, items[i]).Ok?
      {
        PlainEncodes(flavour, iso, items[i]);
      }
      EncodeItemsOk(flavour, iso, items);
    case PyDict(entries) =>
      forall i | 0 <= i < |entries|
        ensures !HasFloat(entries[i].value) && Encode(flavour, iso, entries[i].value).Ok?
      {
        PlainEncodes(flavour, iso, entries[i].value);
      }
      CollectOk(Sort(EncodeEntries(flavour, iso, entries)));
    case _ =>
  }

  lemma {:induction false} EncodeInjective(flavour: Flavour, iso: DateTime -> string, v: Value, w: Value)
    requires WellFormed(v) && WellFormed(w) && Plain(v) && Plain(w)
    requires Encode(flavour, iso, v) == Encode(flavour, iso, w)
    ensures SameValue(v, w)
    decreases v
  {
    PlainEncodes(flavour, iso, v);
    PlainEncodes(flavour, iso, w);
    match (v, w)
    case (PyList(xs), PyList(ys)) =>
      forall i | 0 <= i < |xs| ensures Encode(flavour, iso, xs[i]).Ok? { PlainEncodes(flavour, iso, xs[i]); }
      forall i | 0 <= i < |ys| ensures Encode(flavour, iso, ys[i]).Ok? { PlainEncodes(flavour, iso, ys[i]); }
      EncodeItemsOk(flavour, iso, xs);
      EncodeItemsOk(flavour, iso, ys);
      forall i | 0 <= i < |xs|
        ensures SameValue(xs[i], ys[i])
      {
        EncodeInjective(flavour, iso, xs[i], ys[i]);
      }
    case (PyDict(es), PyDict(fs)) =>
      EntriesInjective(flavour, iso, es, fs);
    case _ =>
  }

  lemma {:induction false} EntriesInjective(flavour: Flavour, iso: DateTime -> string,
                                            es: seq<Keyed<Value>>, fs: seq<Keyed<Value>>)
    requires WellFormed(PyDict(es)) && WellFormed(PyDict(fs)) && Plain(PyDict(es)) && Plain(PyDict(fs))
    requires Encode(flavour, iso, PyDict(es)) == Encode(flavour, iso, PyDict(fs))
    ensures SameValue(PyDict(es), PyDict(fs))
    decreases es
  {
    SameTextSameSlots(flavour, iso, es, fs);
    forall i, j | 0 <= i < |es| && 0 <= j < |fs| && es[i].key == fs[j].key
      ensures SameValue(es[i].value, fs[j].value)
    {
      EncodeInjective(flavour, iso, es[i].value, fs[j].value);
    }
  }

  lemma SameTextSameSlots(flavour: Flavour, iso: DateTime -> string, es: seq<Keyed<Value>>, fs: seq<Keyed<Value>>)
    requires DistinctKeys(fs) && Plain(PyDict(es)) && Plain(PyDict(fs))
    requires Encode(flavour, iso, PyDict(es)) == Encode(flavour, iso, PyDict(fs))
    ensures KeySet(es) == KeySet(fs)
    ensures forall i, j | 0 <= i < |es| && 0 <= j < |fs| && es[i].key == fs[j].key ::
              Encode(flavour, iso, es[i].value) == Encode(flavour, iso, fs[j].value)
  {
    var a, b := EncodeEntries(flavour, iso, es), EncodeEntries(flavour, iso, fs);
    SlotsOk(flavour, iso, es);
    SlotsOk(flavour, iso, fs);
    assert Sort(a) == Sort(b);
    assert SameMembers(a, b);
    forall i | 0 <= i < |es|
      ensures es[i].key in KeySet(fs)
      ensures forall j | 0 <= j < |fs| && es[i].key == fs[j].key :: a[i] == b[j]
    {
      assert a[i] in b;
    }
    forall j | 0 <= j < |fs| ensures fs[j].key in KeySet(es) { assert b[j] in a; }
  }

  // Every slot of a plain dictionary is filled, so the collected members give the slots back.
  lemma SlotsOk(flavour: Flavour, iso: DateTime -> string, entries: seq<Keyed<Value>>)
    requires Plain(PyDict(entries))
    ensures var slots := Sort(EncodeEntries(flavour, iso, entries));
            && Collect(slots).Ok? && |Collect(slots).value| == |slots|
            && forall i | 0 <= i < |slots| ::
                 slots[i] == Keyed(Collect(slots).value[i].key, Ok(Collect(slots).value[i].value))
  {
    var slots := EncodeEntries(flavour, iso, entries);
    forall i | 0 <= i < |entries|
      ensures slots[i].value.Ok?
    {
      PlainEncodes(flavour, iso, entries[i].value);
    }
    CollectOk(Sort(slots));
  }

  // Main result: on plain trees equal text means equal values of equal types, and conversely.
  lemma CanonicalInjective(flavour: Flavour, iso: DateTime -> string, v: Value, w: Value)
    requires WellFormed(v) && WellFormed(w) && Plain(v) && Plain(w)
    ensures Canonical(flavour, iso, v).Ok?
    ensures Canonical(flavour, iso, v) == Canonical(flavour, iso, w) <==> SameValue(v, w)
  {
    PlainEncodes(flavour, iso, v);
    PlainEncodes(flavour, iso, w);
    if Canonical(flavour, iso, v) == Canonical(flavour, iso, w) {
      PrintInjective(Encode(flavour, iso, v).value, Encode(flavour, iso, w).value);
      EncodeInjective(flavour, iso, v, w);
    }
    if SameValue(v, w) {
      SameValueSameText(flavour, iso, v, w);
    }
  }
}
