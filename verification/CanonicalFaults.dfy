/** Why a tree has no canonical text, and exactly when the two canonicalisers treat a tree alike,
    with and without datetime normalisation. */
module CanonicalFaults {
  import opened Wrappers
  import opened JsonText
  import opened KeyOrder
  import opened CanonicalJson
  import opened DatetimeNormalization

  // ----- Faulty leaves -----

  predicate HasOther(v: Value) {
    match v
    case PyOther => true
    case PyList(items) => exists i | 0 <= i < |items| :: HasOther(items[i])
    case PyTuple(items) => exists i | 0 <= i < |items| :: HasOther(items[i])
    case PyDict(entries) => exists i | 0 <= i < |entries| :: HasOther(entries[i].value)
    case _ => false
  }

  // Every datetime in the tree can be written in UTC.
  predicate HasUtcForms(v: Value) {
    match v
    case PyDateTime(at) => EnsureUtc(at).Ok?
    case PyList(items) => forall i | 0 <= i < |items| :: HasUtcForms(items[i])
    case PyTuple(items) => forall i | 0 <= i < |items| :: HasUtcForms(items[i])
    case PyDict(entries) => forall i | 0 <= i < |entries| :: HasUtcForms(entries[i].value)
    case _ => true
  }

  // The fault of the first faulty leaf, dictionaries read in key order.
  function FirstFault(flavour: Flavour, v: Value): Option<Rejection>
    decreases v, 1
  {
    match v
    case PyFloat => Some(BinaryFloat)
    case PyOther => Some(Unserializable)
    case PyDateTime(at) => if flavour.Archive? && EnsureUtc(at).Err? then Some(InstantOutOfRange) else None
    case PyList(items) => FirstItemFault(flavour, items)
    case PyTuple(items) => FirstItemFault(flavour, items)
    case PyDict(entries) => FirstSlotFault(Sort(EntryFaults(flavour, entries)))
    case _ => None
  }

  function FirstItemFault(flavour: Flavour, items: seq<Value>): Option<Rejection>
    decreases items, 0
  {
    if items == [] then None
    else
      match FirstFault(flavour, items[0])
      case Some(e) => Some(e)
      case None => FirstItemFault(flavour, items[1..])
  }

  function EntryFaults(flavour: Flavour, entries: seq<Keyed<Value>>): (r: seq<Keyed<Option<Rejection>>>)
    ensures |r| == |entries|
    ensures forall i | 0 <= i < |entries| :: r[i] == Keyed(entries[i].key, FirstFault(flavour, entries[i].value))
    decreases entries, 0
  {
    if entries == [] then []
    else [Keyed(entries[0].key, FirstFault(flavour, entries[0].value))] + EntryFaults(flavour, entries[1..])
  }

  function FirstSlotFault(slots: seq<Keyed<Option<Rejection>>>): Option<Rejection> {
    if slots == [] then None
    else if slots[0].value.Some? then slots[0].value
    else FirstSlotFault(slots[1..])
  }

  // ----- Sorting looks at keys only -----

  function MapValues<A, B>(f: A -> B, entries: seq<Keyed<A>>): (r: seq<Keyed<B>>)
    ensures |r| == |entries|
    ensures forall i | 0 <= i < |entries| :: r[i] == Keyed(entries[i].key, f(entries[i].value))
  {
    if entries == [] then []
    else [Keyed(entries[0].key, f(entries[0].value))] + MapValues(f, entries[1..])
  }

  lemma {:induction false} InsertMaps<A(!new), B(!new)>(f: A -> B, m: Keyed<A>, sorted: seq<Keyed<A>>)
    ensures Insert(Keyed(m.key, f(m.value)), MapValues(f, sorted)) == MapValues(f, Insert(m, sorted))
  {
    if sorted != [] && Less(sorted[0].key, m.key) {
      InsertMaps(f, m, sorted[1..]);
      assert MapValues(f, sorted)[1..] == MapValues(f, sorted[1..]);
    }
  }

  lemma {:induction false} SortMaps<A(!new), B(!new)>(f: A -> B, entries: seq<Keyed<A>>)
    ensures Sort(MapValues(f, entries)) == MapValues(f, Sort(entries))
  {
    if entries != [] {
      SortMaps(f, entries[1..]);
      InsertMaps(f, entries[0], Sort(entries[1..]));
      assert MapValues(f, entries)[1..] == MapValues(f, entries[1..]);
    }
  }

  // ----- The encoder reports the first faulty leaf -----

  function ErrorOf(r: Encoded): Option<Rejection> {
    if r.Err? then Some(r.error) else None
  }

  lemma {:induction false} CollectReports(slots: seq<Keyed<Encoded>>)
    ensures FirstSlotFault(MapValues(ErrorOf, slots)) ==
            if Collect(slots).Err? then Some(Collect(slots).error) else None
  {
    if slots != [] {
      CollectReports(slots[1..]);
      assert MapValues(ErrorOf, slots)[1..] == MapValues(ErrorOf, slots[1..]);
    }
  }

  lemma {:induction false} EncoderReports(flavour: Flavour, iso: DateTime -> string, v: Value)
    ensures ErrorOf(Encode(flavour, iso, v)) == FirstFault(flavour, v)
    decreases v, 1
  {
    match v
    case PyList(items) => ItemsReport(flavour, iso, items);
    case PyTuple(items) => ItemsReport(flavour, iso, items);
    case PyDict(entries) =>
      forall i | 0 <= i < |entries|
        ensures ErrorOf(Encode(flavour, iso, entries[i].value)) == FirstFault(flavour, entries[i].value)
      {
        EncoderReports(flavour, iso, entries[i].value);
      }
      var slots := EncodeEntries(flavour, iso, entries);
      assert MapValues(ErrorOf, slots) == EntryFaults(flavour, entries);
      SortMaps(ErrorOf, slots);
      CollectReports(Sort(slots));
    case _ =>
  }

  lemma {:induction false} ItemsReport(flavour: Flavour, iso: DateTime -> string, items: seq<Value>)
    ensures FirstItemFault(flavour, items) ==
            if EncodeItems(flavour, iso, items).Err? then Some(EncodeItems(flavour, iso, items).error) else None
    decreases items, 0
  {
    if items != [] {
      EncoderReports(flavour, iso, items[0]);
      ItemsReport(flavour, iso, items[1..]);
    }
  }

  // ----- Which leaves can be at fault -----

  // The tree holds a leaf with this fault.
  predicate Holds(v: Value, fault: Rejection) {
    match fault
    case BinaryFloat => HasFloat(v)
    case Unserializable => HasOther(v)
    case InstantOutOfRange => !HasUtcForms(v)
    case NotADictionary => false
  }

  predicate Clean(flavour: Flavour, v: Value) {
    !HasFloat(v) && !HasOther(v) && (flavour.Archive? ==> HasUtcForms(v))
  }

  lemma {:induction false} SlotFaultIsMember(slots: seq<Keyed<Option<Rejection>>>)
    ensures FirstSlotFault(slots).None? <==> forall slot | slot in slots :: slot.value.None?
    ensures FirstSlotFault(slots).Some? ==> exists slot | slot in slots :: slot.value == FirstSlotFault(slots)
  {
    if slots != [] && slots[0].value.None? {
      SlotFaultIsMember(slots[1..]);
    }
  }

  lemma {:induction false} ItemFaultIsMember(flavour: Flavour, items: seq<Value>)
    ensures FirstItemFault(flavour, items).None? <==> forall i | 0 <= i < |items| :: FirstFault(flavour, items[i]).None?
    ensures FirstItemFault(flavour, items).Some? ==>
              exists i | 0 <= i < |items| :: FirstFault(flavour, items[i]) == FirstItemFault(flavour, items)
  {
    if items != [] && FirstFault(flavour, items[0]).None? {
      ItemFaultIsMember(flavour, items[1..]);
    }
  }

  lemma SortedFaultIsMember(faults: seq<Keyed<Option<Rejection>>>)
    ensures FirstSlotFault(Sort(faults)).None? <==> forall i | 0 <= i < |faults| :: faults[i].value.None?
    ensures FirstSlotFault(Sort(faults)).Some? ==>
              exists i | 0 <= i < |faults| :: faults[i].value == FirstSlotFault(Sort(faults))
  {
    var sorted := Sort(faults);
    SlotFaultIsMember(sorted);
    if FirstSlotFault(sorted).Some? {
      var slot :| slot in sorted && slot.value == FirstSlotFault(sorted);
      assert slot in faults;
    } else {
      forall i | 0 <= i < |faults| ensures faults[i].value.None? { assert faults[i] in sorted; }
    }
  }

  lemma EntryFaultIsMember(flavour: Flavour, entries: seq<Keyed<Value>>) returns (k: nat)
    ensures var fault := FirstFault(flavour, PyDict(entries));
            && (fault.None? <==> forall i | 0 <= i < |entries| :: FirstFault(flavour, entries[i].value).None?)
            && (fault.Some? ==> k < |entries| && FirstFault(flavour, entries[k].value) == fault)
  {
    var faults := EntryFaults(flavour, entries);
    SortedFaultIsMember(faults);
    k := 0;
    if FirstSlotFault(Sort(faults)).Some? {
      k :| 0 <= k < |faults| && faults[k].value == FirstSlotFault(Sort(faults));
    } else {
      forall i | 0 <= i < |entries| ensures FirstFault(flavour, entries[i].value).None? {
        assert faults[i].value.None?;
      }
    }
  }

  // A tree is without fault exactly when it is clean, and a reported fault is one the tree holds.
  lemma {:induction false} FaultsAreReal(flavour: Flavour, v: Value)
    ensures FirstFault(flavour, v).None? <==> Clean(flavour, v)
    ensures FirstFault(flavour, v).Some? ==> Holds(v, FirstFault(flavour, v).value)
    ensures FirstFault(flavour, v) == Some(InstantOutOfRange) ==> flavour.Archive?
    decreases v
  {
    match v
    case PyList(items) =>
      forall i | 0 <= i < |items| { FaultsAreReal(flavour, items[i]); }
      ItemFaultIsMember(flavour, items);
    case PyTuple(items) =>
      forall i | 0 <= i < |items| { FaultsAreReal(flavour, items[i]); }
      ItemFaultIsMember(flavour, items);
    case PyDict(entries) =>
      forall i | 0 <= i < |entries| { FaultsAreReal(flavour, entries[i].value); }
      var _ := EntryFaultIsMember(flavour, entries);
    case _ =>
  }

  // ----- With normalisation -----

  lemma {:induction false} NormalizesExactly(iso: DateTime -> string, v: Value)
    ensures Normalize(iso, v).Ok? <==> HasUtcForms(v)
    decreases v
  {
    match v
    case PyList(items) => forall i | 0 <= i < |items| { NormalizesExactly(iso, items[i]); }
    case PyTuple(items) => forall i | 0 <= i < |items| { NormalizesExactly(iso, items[i]); }
    case PyDict(entries) => forall i | 0 <= i < |entries| { NormalizesExactly(iso, entries[i].value); }
    case _ =>
  }

  // Main result: on every tree, the archive canonicaliser and the outbox path with normalisation
  // give the same text or the same rejection exactly when every datetime has a UTC form, or the
  // tree holds no float and its first faulty leaf is such a datetime.
  lemma SameOutcomeExactly(iso: DateTime -> string, v: Value)
    ensures Canonical(Archive, iso, v) == NormalizedCanonical(iso, v) <==>
            HasUtcForms(v) || (!HasFloat(v) && FirstFault(Archive, v) == Some(InstantOutOfRange))
  {
    ArchiveIsNormalizedOutbox(iso, v);
    NormalizesExactly(iso, v);
    EncoderReports(Archive, iso, v);
    FaultsAreReal(Archive, v);
  }

  // Without unserializable leaves the condition needs no order.
  lemma SameOutcomeSerializable(iso: DateTime -> string, v: Value)
    requires !HasOther(v)
    ensures Canonical(Archive, iso, v) == NormalizedCanonical(iso, v) <==> HasUtcForms(v) || !HasFloat(v)
  {
    SameOutcomeExactly(iso, v);
    FaultsAreReal(Archive, v);
  }

  // The two paths can name different reasons for rejecting the same tree.
  lemma RejectionsMayDiffer(iso: DateTime -> string)
    ensures exists v :: WellFormed(v) && Canonical(Archive, iso, v) == Err(BinaryFloat) &&
                        NormalizedCanonical(iso, v) == Err(InstantOutOfRange)
  {
    var early := PyDateTime(DateTime(0, Some(1)));
    var v := PyList([early, PyFloat]);
    assert v.items[0] == early && HasFloat(v.items[1]);
    assert Canonical(Archive, iso, v) == Err(BinaryFloat);
    assert !HasUtcForms(v.items[0]);
    NormalizesExactly(iso, v);
    ArchiveIsNormalizedOutbox(iso, v);
    assert WellFormed(v);
  }

  // ----- Without normalisation -----

  // Every datetime's own text is that of its UTC form.
  predicate Agree(iso: DateTime -> string, v: Value) {
    match v
    case PyDateTime(at) => EnsureUtc(at).Ok? && iso(at) == iso(EnsureUtc(at).value)
    case PyList(items) => forall i | 0 <= i < |items| :: Agree(iso, items[i])
    case PyTuple(items) => forall i | 0 <= i < |items| :: Agree(iso, items[i])
    case PyDict(entries) => forall i | 0 <= i < |entries| :: Agree(iso, entries[i].value)
    case _ => true
  }

  lemma {:induction false} AgreeingHasUtcForms(iso: DateTime -> string, v: Value)
    requires Agree(iso, v)
    ensures HasUtcForms(v)
    decreases v
  {
    match v
    case PyList(items) => forall i | 0 <= i < |items| { AgreeingHasUtcForms(iso, items[i]); }
    case PyTuple(items) => forall i | 0 <= i < |items| { AgreeingHasUtcForms(iso, items[i]); }
    case PyDict(entries) => forall i | 0 <= i < |entries| { AgreeingHasUtcForms(iso, entries[i].value); }
    case _ =>
  }

  lemma CleanEncodes(flavour: Flavour, iso: DateTime -> string, v: Value)
    requires Clean(Archive, v)
    ensures Encode(flavour, iso, v).Ok?
  {
    EncoderReports(flavour, iso, v);
    FaultsAreReal(flavour, v);
  }

  lemma {:induction false} EncodingsAgreeExactly(iso: DateTime -> string, v: Value)
    requires Clean(Archive, v)
    ensures Encode(Outbox, iso, v) == Encode(Archive, iso, v) <==> Agree(iso, v)
    decreases v, 1
  {
    match v
    case PyList(items) => ItemsAgreeExactly(iso, items);
    case PyTuple(items) => ItemsAgreeExactly(iso, items);
    case PyDict(entries) =>
      forall i | 0 <= i < |entries|
        ensures Encode(Outbox, iso, entries[i].value).Ok? && Encode(Archive, iso, entries[i].value).Ok?
        ensures Encode(Outbox, iso, entries[i].value) == Encode(Archive, iso, entries[i].value)
                <==> Agree(iso, entries[i].value)
      {
        CleanEncodes(Outbox, iso, entries[i].value);
        CleanEncodes(Archive, iso, entries[i].value);
        EncodingsAgreeExactly(iso, entries[i].value);
      }
      EntriesAgreeExactly(iso, entries);
    case _ =>
  }

  lemma {:induction false} ItemsAgreeExactly(iso: DateTime -> string, items: seq<Value>)
    requires forall i | 0 <= i < |items| :: Clean(Archive, items[i])
    ensures EncodeItems(Outbox, iso, items) == EncodeItems(Archive, iso, items) <==>
            forall i | 0 <= i < |items| :: Agree(iso, items[i])
    decreases items, 0
  {
    forall i | 0 <= i < |items|
      ensures Encode(Outbox, iso, items[i]).Ok? && Encode(Archive, iso, items[i]).Ok?
      ensures Encode(Outbox, iso, items[i]) == Encode(Archive, iso, items[i]) <==> Agree(iso, items[i])
    {
      CleanEncodes(Outbox, iso, items[i]);
      CleanEncodes(Archive, iso, items[i]);
      EncodingsAgreeExactly(iso, items[i]);
    }
    EncodeItemsOk(Outbox, iso, items);
    EncodeItemsOk(Archive, iso, items);
    var xs, ys := EncodeItems(Outbox, iso, items).value, EncodeItems(Archive, iso, items).value;
    if forall i | 0 <= i < |items| :: Agree(iso, items[i]) {
      assert forall i | 0 <= i < |items| :: xs[i] == ys[i];
      assert xs == ys;
    }
  }

  lemma CollectInjective(xs: seq<Keyed<Encoded>>, ys: seq<Keyed<Encoded>>)
    requires forall x | x in xs :: x.value.Ok?
    requires forall y | y in ys :: y.value.Ok?
    requires Collect(xs) == Collect(ys)
    ensures xs == ys
  {
    CollectOk(xs);
    CollectOk(ys);
  }

  type Pair = (Encoded, Encoded)

  function Left(p: Pair): Encoded {
    p.0
  }

  function Right(p: Pair): Encoded {
    p.1
  }

  // What the two canonicalisers make of each entry, side by side.
  function Pairs(iso: DateTime -> string, entries: seq<Keyed<Value>>): (r: seq<Keyed<Pair>>)
    ensures |r| == |entries|
    ensures forall i | 0 <= i < |entries| ::
              r[i] == Keyed(entries[i].key,
              (Encode(Outbox, iso, entries[i].value), Encode(Archive, iso, entries[i].value)))
  {
    seq(|entries|, i requires 0 <= i < |entries| =>
      Keyed(entries[i].key, (Encode(Outbox, iso, entries[i].value), Encode(Archive, iso, entries[i].value))))
  }

  lemma PairsProject(iso: DateTime -> string, entries: seq<Keyed<Value>>)
    ensures MapValues(Left, Pairs(iso, entries)) == EncodeEntries(Outbox, iso, entries)
    ensures MapValues(Right, Pairs(iso, entries)) == EncodeEntries(Archive, iso, entries)
  {
  }

  lemma EqualProjections(sorted: seq<Keyed<Pair>>)
    requires MapValues(Left, sorted) == MapValues(Right, sorted)
    ensures forall p | p in sorted :: p.value.0 == p.value.1
  {
    forall i | 0 <= i < |sorted| ensures sorted[i].value.0 == sorted[i].value.1 {
      assert MapValues(Left, sorted)[i] == MapValues(Right, sorted)[i];
    }
  }

  lemma AllOkProject(sorted: seq<Keyed<Pair>>)
    requires forall p | p in sorted :: p.value.0.Ok? && p.value.1.Ok?
    ensures forall x | x in MapValues(Left, sorted) :: x.value.Ok?
    ensures forall x | x in MapValues(Right, sorted) :: x.value.Ok?
  {
    assert forall i | 0 <= i < |sorted| :: sorted[i] in sorted;
  }

  // Equal collected members come from equal slots, whatever order sorting put them in.
  lemma EqualCollections(pairs: seq<Keyed<Pair>>)
    requires forall p | p in pairs :: p.value.0.Ok? && p.value.1.Ok?
    requires Collect(Sort(MapValues(Left, pairs))) == Collect(Sort(MapValues(Right, pairs)))
    ensures forall p | p in pairs :: p.value.0 == p.value.1
  {
    SortMaps(Left, pairs);
    SortMaps(Right, pairs);
    AllOkProject(Sort(pairs));
    CollectInjective(MapValues(Left, Sort(pairs)), MapValues(Right, Sort(pairs)));
    EqualProjections(Sort(pairs));
  }

  lemma SortedOk(slots: seq<Keyed<Encoded>>)
    requires forall i | 0 <= i < |slots| :: slots[i].value.Ok?
    ensures Collect(Sort(slots)).Ok?
  {
    CollectOk(Sort(slots));
  }

  lemma EntriesAgreeExactly(iso: DateTime -> string, entries: seq<Keyed<Value>>)
    requires forall i | 0 <= i < |entries| ::
               Encode(Outbox, iso, entries[i].value).Ok? && Encode(Archive, iso, entries[i].value).Ok?
    ensures Encode(Outbox, iso, PyDict(entries)) == Encode(Archive, iso, PyDict(entries)) <==>
            forall i | 0 <= i < |entries| ::
            Encode(Outbox, iso, entries[i].value) == Encode(Archive, iso, entries[i].value)
  {
    SortedOk(EncodeEntries(Outbox, iso, entries));
    SortedOk(EncodeEntries(Archive, iso, entries));
    if Encode(Outbox, iso, PyDict(entries)) == Encode(Archive, iso, PyDict(entries)) {
      PairsProject(iso, entries);
      EqualCollections(Pairs(iso, entries));
      assert forall i | 0 <= i < |entries| :: Pairs(iso, entries)[i] in Pairs(iso, entries);
    } else {
      assert EncodeEntries(Outbox, iso, entries) != EncodeEntries(Archive, iso, entries);
    }
  }

  // Main result: on every tree, the two canonicalisers without normalisation give the same text or
  // the same rejection exactly when the tree holds a float, or its first faulty leaf is
  // unserializable, or every datetime's own text is that of its UTC form.
  lemma UnnormalizedTrees(iso: DateTime -> string, v: Value)
    ensures Canonical(Outbox, iso, v) == Canonical(Archive, iso, v) <==>
            HasFloat(v) || FirstFault(Archive, v) == Some(Unserializable) || Agree(iso, v)
  {
    EncoderReports(Outbox, iso, v);
    EncoderReports(Archive, iso, v);
    FaultsAreReal(Outbox, v);
    FaultsAreReal(Archive, v);
    if Agree(iso, v) {
      AgreeingHasUtcForms(iso, v);
    }
    if Clean(Archive, v) {
      EncodingsAgreeExactly(iso, v);
      if Canonical(Outbox, iso, v) == Canonical(Archive, iso, v) {
        PrintInjective(Encode(Outbox, iso, v).value, Encode(Archive, iso, v).value);
      }
    }
  }

  // On a tree without faults the datetimes alone decide.
  lemma UnnormalizedCleanTrees(iso: DateTime -> string, v: Value)
    requires Clean(Archive, v)
    ensures Canonical(Outbox, iso, v) == Canonical(Archive, iso, v) <==> Agree(iso, v)
  {
    UnnormalizedTrees(iso, v);
    FaultsAreReal(Archive, v);
  }

  // On a single datetime the condition is the one on its texts.
  lemma UnnormalizedDatetimes(iso: DateTime -> string, at: DateTime)
    requires EnsureUtc(at).Ok?
    ensures Canonical(Outbox, iso, PyDateTime(at)) == Canonical(Archive, iso, PyDateTime(at)) <==>
            iso(at) == iso(EnsureUtc(at).value)
  {
    UnnormalizedTrees(iso, PyDateTime(at));
  }
}
