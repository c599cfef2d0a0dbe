/** Datetime normalisation of a payload, and how it links the two canonicalisers. */
module DatetimeNormalization {
  import opened Wrappers
  import opened JsonText
  import opened KeyOrder
  import opened CanonicalJson

  // Datetimes become UTC text and tuples become lists; the first datetime that has no UTC
  // representation, in insertion order, raises.
  function Normalize(iso: DateTime -> string, v: Value): Result<Value, Rejection>
    decreases v, 1
  {
    match v
    case PyDateTime(at) =>
      (match EnsureUtc(at)
       case Ok(utc) => Ok(PyStr(iso(utc)))
       case Err(e) => Err(e))
    case PyDict(entries) =>
      (match NormalizeEntries(iso, entries)
       case Ok(r) => Ok(PyDict(r))
       case Err(e) => Err(e))
    case PyList(items) => WrapList(NormalizeItems(iso, items))
    case PyTuple(items) => WrapList(NormalizeItems(iso, items))
    case _ => Ok(v)
  }

  function WrapList(r: Result<seq<Value>, Rejection>): Result<Value, Rejection> {
    match r
    case Ok(items) => Ok(PyList(items))
    case Err(e) => Err(e)
  }

  function NormalizeItems(iso: DateTime -> string, items: seq<Value>): (r: Result<seq<Value>, Rejection>)
    ensures r.Ok? ==> |r.value| == |items|
    ensures r.Ok? ==> forall i | 0 <= i < |items| :: Normalize(iso, items[i]) == Ok(r.value[i])
    ensures r.Err? ==> exists i | 0 <= i < |items| :: Normalize(iso, items[i]) == Err(r.error)
    decreases items, 0
  {
    if items == [] then Ok([])
    else
      match Normalize(iso, items[0])
      case Err(e) => Err(e)
      case Ok(x) =>
        match NormalizeItems(iso, items[1..])
        case Err(e) =>
          assert exists i | 0 <= i < |items[1..]| :: Normalize(iso, items[1..][i]) == Err(e);
          Err(e)
        case Ok(xs) => Ok([x] + xs)
  }

  function NormalizeEntries(iso: DateTime -> string, entries: seq<Keyed<Value>>)
    : (r: Result<seq<Keyed<Value>>, Rejection>)
    ensures r.Ok? ==> |r.value| == |entries|
    ensures r.Ok? ==> forall i | 0 <= i < |entries| ::
                        r.value[i].key == entries[i].key && Normalize(iso, entries[i].value) == Ok(r.value[i].value)
    ensures r.Err? ==> exists i | 0 <= i < |entries| :: Normalize(iso, entries[i].value) == Err(r.error)
    decreases entries, 0
  {
    if entries == [] then Ok([])
    else
      match Normalize(iso, entries[0].value)
      case Err(e) => Err(e)
      case Ok(x) =>
        match NormalizeEntries(iso, entries[1..])
        case Err(e) =>
          assert exists i | 0 <= i < |entries[1..]| :: Normalize(iso, entries[1..][i].value) == Err(e);
          Err(e)
        case Ok(rest) => Ok([Keyed(entries[0].key, x)] + rest)
  }

  // The outbox path: normalise, then canonicalise.
  function NormalizedCanonical(iso: DateTime -> string, v: Value): Result<string, Rejection> {
    match Normalize(iso, v)
    case Ok(u) => Canonical(Outbox, iso, u)
    case Err(e) => Err(e)
  }

  // ----- Archive = outbox after normalisation -----

  lemma {:induction false} NormalizedEncodes(iso: DateTime -> string, v: Value, u: Value)
    requires Normalize(iso, v) == Ok(u)
    ensures Encode(Archive, iso, v) == Encode(Outbox, iso, u)
    ensures HasFloat(v) <==> HasFloat(u)
    decreases v
  {
    match v
    case PyList(items) => NormalizedItems(iso, items, u.items);
    case PyTuple(items) => NormalizedItems(iso, items, u.items);
    case PyDict(entries) =>
      forall i | 0 <= i < |entries|
        ensures Encode(Archive, iso, entries[i].value) == Encode(Outbox, iso, u.entries[i].value)
        ensures HasFloat(entries[i].value) <==> HasFloat(u.entries[i].value)
      {
        NormalizedEncodes(iso, entries[i].value, u.entries[i].value);
      }
      assert EncodeEntries(Archive, iso, entries) == EncodeEntries(Outbox, iso, u.entries);
    case _ =>
  }

  lemma {:induction false} NormalizedItems(iso: DateTime -> string, xs: seq<Value>, ys: seq<Value>)
    requires NormalizeItems(iso, xs) == Ok(ys)
    ensures EncodeItems(Archive, iso, xs) == EncodeItems(Outbox, iso, ys)
    ensures (exists i | 0 <= i < |xs| :: HasFloat(xs[i])) <==> (exists i | 0 <= i < |ys| :: HasFloat(ys[i]))
    decreases xs
  {
    forall i | 0 <= i < |xs|
      ensures Encode(Archive, iso, xs[i]) == Encode(Outbox, iso, ys[i])
      ensures HasFloat(xs[i]) <==> HasFloat(ys[i])
    {
      NormalizedEncodes(iso, xs[i], ys[i]);
    }
    SameEncodings(iso, xs, ys);
  }

  lemma {:induction false} SameEncodings(iso: DateTime -> string, xs: seq<Value>, ys: seq<Value>)
    requires |xs| == |ys|
    requires forall i | 0 <= i < |xs| :: Encode(Archive, iso, xs[i]) == Encode(Outbox, iso, ys[i])
    ensures EncodeItems(Archive, iso, xs) == EncodeItems(Outbox, iso, ys)
  {
    if xs != [] {
      SameEncodings(iso, xs[1..], ys[1..]);
    }
  }

  lemma {:induction false} ItemErrorSpreads(flavour: Flavour, iso: DateTime -> string, items: seq<Value>, i: nat)
    requires i < |items| && Encode(flavour, iso, items[i]).Err?
    ensures EncodeItems(flavour, iso, items).Err?
  {
    if i > 0 {
      ItemErrorSpreads(flavour, iso, items[1..], i - 1);
    }
  }

  lemma {:induction false} SlotErrorSpreads(slots: seq<Keyed<Encoded>>, slot: Keyed<Encoded>)
    requires slot in slots && slot.value.Err?
    ensures Collect(slots).Err?
  {
    if slots[0] != slot {
      SlotErrorSpreads(slots[1..], slot);
    }
  }

  lemma {:induction false} NormalizeErrorSpreads(iso: DateTime -> string, v: Value)
    requires Normalize(iso, v).Err?
    ensures Normalize(iso, v) == Err(InstantOutOfRange)
    ensures Encode(Archive, iso, v).Err?
    decreases v, 1
  {
    match v
    case PyDateTime(at) =>
    case PyDict(entries) =>
      var i :| 0 <= i < |entries| && Normalize(iso, entries[i].value) == Err(NormalizeEntries(iso, entries).error);
      NormalizeErrorSpreads(iso, entries[i].value);
      var slots := EncodeEntries(Archive, iso, entries);
      assert slots[i] in slots;
      SlotErrorSpreads(Sort(slots), slots[i]);
    case PyList(items) => ItemsErrorSpreads(iso, items);
    case PyTuple(items) => ItemsErrorSpreads(iso, items);
    case _ =>
  }

  lemma {:induction false} ItemsErrorSpreads(iso: DateTime -> string, items: seq<Value>)
    requires NormalizeItems(iso, items).Err?
    ensures NormalizeItems(iso, items) == Err(InstantOutOfRange)
    ensures EncodeItems(Archive, iso, items).Err?
    decreases items, 0
  {
    var i :| 0 <= i < |items| && Normalize(iso, items[i]) == Err(NormalizeItems(iso, items).error);
    NormalizeErrorSpreads(iso, items[i]);
    ItemErrorSpreads(Archive, iso, items, i);
  }

  // Main result: on every tree the archive canonicaliser and the normalise-then-canonicalise path
  // give the same text or both reject; the rejection is the same one too, unless the tree holds a
  // datetime without UTC representation, which normalisation reports before anything else.
  lemma ArchiveIsNormalizedOutbox(iso: DateTime -> string, v: Value)
    ensures Canonical(Archive, iso, v).Ok? <==> NormalizedCanonical(iso, v).Ok?
    ensures Normalize(iso, v).Ok? ==> Canonical(Archive, iso, v) == NormalizedCanonical(iso, v)
    ensures Normalize(iso, v).Err? ==> NormalizedCanonical(iso, v) == Err(InstantOutOfRange)
  {
    match Normalize(iso, v)
    case Ok(u) => NormalizedEncodes(iso, v, u);
    case Err(_) => NormalizeErrorSpreads(iso, v);
  }

  // ----- Normalisation itself -----

  // Main result: a normalised tree is a fixed point.
  lemma {:induction false} NormalizeIdempotent(iso: DateTime -> string, v: Value, u: Value)
    requires Normalize(iso, v) == Ok(u)
    ensures Normalize(iso, u) == Ok(u)
    decreases v
  {
    match v
    case PyDict(entries) =>
      forall i | 0 <= i < |u.entries| ensures Normalize(iso, u.entries[i].value) == Ok(u.entries[i].value) {
        NormalizeIdempotent(iso, entries[i].value, u.entries[i].value);
      }
      assert NormalizeEntries(iso, u.entries).Ok?;
      assert NormalizeEntries(iso, u.entries).value == u.entries;
    case PyList(items) =>
      forall i | 0 <= i < |u.items| ensures Normalize(iso, u.items[i]) == Ok(u.items[i]) {
        NormalizeIdempotent(iso, items[i], u.items[i]);
      }
      assert NormalizeItems(iso, u.items).value == u.items;
    case PyTuple(items) =>
      forall i | 0 <= i < |u.items| ensures Normalize(iso, u.items[i]) == Ok(u.items[i]) {
        NormalizeIdempotent(iso, items[i], u.items[i]);
      }
      assert NormalizeItems(iso, u.items).value == u.items;
    case _ =>
  }

  // The same tree up to replacing datetimes by others that denote the same instant.
  ghost predicate SameInstants(v: Value, w: Value)
    decreases v
  {
    match (v, w)
    case (PyDateTime(a), PyDateTime(b)) => Instant(a) == Instant(b)
    case (PyList(xs), PyList(ys)) => |xs| == |ys| && forall i | 0 <= i < |xs| :: SameInstants(xs[i], ys[i])
    case (PyTuple(xs), PyTuple(ys)) => |xs| == |ys| && forall i | 0 <= i < |xs| :: SameInstants(xs[i], ys[i])
    case (PyDict(es), PyDict(fs)) =>
      |es| == |fs| && forall i | 0 <= i < |es| :: es[i].key == fs[i].key && SameInstants(es[i].value, fs[i].value)
    case _ => v == w
  }

  lemma SameInstantSameUtc(a: DateTime, b: DateTime)
    requires Representable(a.local) && Representable(b.local) && Instant(a) == Instant(b)
    ensures EnsureUtc(a) == EnsureUtc(b)
  {
  }

  lemma {:induction false} SameInstantsEncode(iso: DateTime -> string, v: Value, w: Value)
    requires WellFormed(v) && WellFormed(w) && SameInstants(v, w)
    ensures Encode(Archive, iso, v) == Encode(Archive, iso, w)
    ensures HasFloat(v) <==> HasFloat(w)
    decreases v, 1
  {
    match (v, w)
    case (PyDateTime(a), PyDateTime(b)) => SameInstantSameUtc(a, b);
    case (PyList(xs), PyList(ys)) => SameInstantItems(iso, xs, ys);
    case (PyTuple(xs), PyTuple(ys)) => SameInstantItems(iso, xs, ys);
    case (PyDict(es), PyDict(fs)) => SameInstantEntries(iso, es, fs);
    case _ =>
  }

  lemma {:induction false} SameInstantEntries(iso: DateTime -> string, es: seq<Keyed<Value>>, fs: seq<Keyed<Value>>)
    requires WellFormed(PyDict(es)) && WellFormed(PyDict(fs)) && SameInstants(PyDict(es), PyDict(fs))
    ensures EncodeEntries(Archive, iso, es) == EncodeEntries(Archive, iso, fs)
    ensures HasFloat(PyDict(es)) <==> HasFloat(PyDict(fs))
    decreases es, 0
  {
    forall i | 0 <= i < |es|
      ensures Encode(Archive, iso, es[i].value) == Encode(Archive, iso, fs[i].value)
      ensures HasFloat(es[i].value) <==> HasFloat(fs[i].value)
    {
      SameInstantsEncode(iso, es[i].value, fs[i].value);
    }
  }

  lemma {:induction false} SameInstantItems(iso: DateTime -> string, xs: seq<Value>, ys: seq<Value>)
    requires |xs| == |ys|
    requires forall i | 0 <= i < |xs| :: WellFormed(xs[i]) && WellFormed(ys[i]) && SameInstants(xs[i], ys[i])
    ensures EncodeItems(Archive, iso, xs) == EncodeItems(Archive, iso, ys)
    ensures forall i | 0 <= i < |xs| :: HasFloat(xs[i]) <==> HasFloat(ys[i])
    decreases xs, 0
  {
    forall i | 0 <= i < |xs|
      ensures Encode(Archive, iso, xs[i]) == Encode(Archive, iso, ys[i]) && (HasFloat(xs[i]) <==> HasFloat(ys[i]))
    {
      SameInstantsEncode(iso, xs[i], ys[i]);
    }
    EncodeItemsPointwise(Archive, iso, xs, ys);
  }

  // Main result: datetimes denoting one instant at different offsets canonicalise alike, on the
  // archive path and on the normalised outbox path.
  lemma SameInstantsSameText(iso: DateTime -> string, v: Value, w: Value)
    requires WellFormed(v) && WellFormed(w) && SameInstants(v, w)
    ensures Canonical(Archive, iso, v) == Canonical(Archive, iso, w)
    ensures NormalizedCanonical(iso, v).Ok? ==> NormalizedCanonical(iso, v) == NormalizedCanonical(iso, w)
  {
    SameInstantsEncode(iso, v, w);
    ArchiveIsNormalizedOutbox(iso, v);
    ArchiveIsNormalizedOutbox(iso, w);
  }
}
