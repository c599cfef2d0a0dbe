/** What a canonical text says: read back, it denotes the value it was made from, member by member. */
module CanonicalMeaning {
  import opened Wrappers
  import opened JsonText
  import opened JsonMinimal
  import opened KeyOrder
  import opened CanonicalJson
  import opened DatetimeNormalization

  // The datetime moved to UTC; a naive one is taken to be UTC already.
  function UtcOf(at: DateTime): DateTime {
    DateTime(if at.offset.Some? then at.local - at.offset.value else at.local, Some(0))
  }

  // The tree x stands for the Python value v.
  ghost predicate Denotes(flavour: Flavour, iso: DateTime -> string, v: Value, x: Json)
    decreases v
  {
    match v
    case PyNone => x == Null
    case PyBool(b) => x == Bool(b)
    case PyInt(n) => x == Int(n)
    case PyStr(s) => x == Str(s)
    case PyDecimal(text) => x == Str(text)
    case PyDateTime(at) => x == Str(iso(if flavour.Archive? then UtcOf(at) else at))
    case PyFloat => false
    case PyOther => false
    case PyList(items) =>
      x.Arr? && |x.items| == |items| && forall i | 0 <= i < |items| :: Denotes(flavour, iso, items[i], x.items[i])
    case PyTuple(items) =>
      x.Arr? && |x.items| == |items| && forall i | 0 <= i < |items| :: Denotes(flavour, iso, items[i], x.items[i])
    case PyDict(entries) =>
      && x.Obj? && |x.members| == |entries| && Sorted(x.members)
      && KeySet(x.members) == KeySet(entries)
      && forall i, j | 0 <= i < |entries| && 0 <= j < |entries| && entries[i].key == x.members[j].key ::
           Denotes(flavour, iso, entries[i].value, x.members[j].value)
  }

  lemma {:induction false} CollectedSlots(slots: seq<Keyed<Encoded>>, members: seq<Keyed<Json>>)
    requires Collect(slots) == Ok(members)
    ensures |members| == |slots|
    ensures forall i | 0 <= i < |slots| :: slots[i] == Keyed(members[i].key, Ok(members[i].value))
  {
    if slots != [] {
      CollectedSlots(slots[1..], members[1..]);
    }
  }

  lemma {:induction false} EncodedItems(flavour: Flavour, iso: DateTime -> string, items: seq<Value>, xs: seq<Json>)
    requires EncodeItems(flavour, iso, items) == Ok(xs)
    ensures |xs| == |items|
    ensures forall i | 0 <= i < |items| :: Encode(flavour, iso, items[i]) == Ok(xs[i])
  {
    if items != [] {
      EncodedItems(flavour, iso, items[1..], xs[1..]);
    }
  }

  lemma SortedFollows(slots: seq<Keyed<Encoded>>, members: seq<Keyed<Json>>)
    requires Sorted(slots) && |slots| == |members|
    requires forall i | 0 <= i < |slots| :: slots[i].key == members[i].key
    ensures Sorted(members)
  {
  }

  // The members of an encoded dictionary are its entries, each once and in key order.
  lemma EncodedMembers(flavour: Flavour, iso: DateTime -> string, entries: seq<Keyed<Value>>, members: seq<Keyed<Json>>)
    requires DistinctKeys(entries) && Encode(flavour, iso, PyDict(entries)) == Ok(Obj(members))
    ensures |members| == |entries| && Sorted(members)
    ensures forall j | 0 <= j < |members| ::
              Keyed(members[j].key, Ok(members[j].value)) in EncodeEntries(flavour, iso, entries)
    ensures forall i | 0 <= i < |entries| :: Encode(flavour, iso, entries[i].value).Ok?
    ensures forall i | 0 <= i < |entries| ::
              Keyed(entries[i].key, Encode(flavour, iso, entries[i].value).value) in members
  {
    var slots := EncodeEntries(flavour, iso, entries);
    var sorted := Sort(slots);
    CollectedSlots(sorted, members);
    SlotsDistinct(flavour, iso, entries);
    SortSorts(slots);
    SortedFollows(sorted, members);
    forall j | 0 <= j < |members| ensures Keyed(members[j].key, Ok(members[j].value)) in slots {
      assert sorted[j] in sorted;
    }
    forall i | 0 <= i < |entries|
      ensures Encode(flavour, iso, entries[i].value).Ok?
      ensures Keyed(entries[i].key, Encode(flavour, iso, entries[i].value).value) in members
    {
      assert slots[i] in sorted;
      var j :| 0 <= j < |sorted| && sorted[j] == slots[i];
      assert members[j] in members;
    }
  }

  lemma {:induction false} EncodingDenotes(flavour: Flavour, iso: DateTime -> string, v: Value, x: Json)
    requires WellFormed(v) && Encode(flavour, iso, v) == Ok(x)
    ensures Denotes(flavour, iso, v, x)
    decreases v
  {
    match v
    case PyList(items) =>
      EncodedItems(flavour, iso, items, x.items);
      forall i | 0 <= i < |items| { EncodingDenotes(flavour, iso, items[i], x.items[i]); }
    case PyTuple(items) =>
      EncodedItems(flavour, iso, items, x.items);
      forall i | 0 <= i < |items| { EncodingDenotes(flavour, iso, items[i], x.items[i]); }
    case PyDict(entries) =>
      EncodedMembers(flavour, iso, entries, x.members);
      MembersMatch(flavour, iso, entries, x.members);
      forall i, j | 0 <= i < |entries| && 0 <= j < |entries| && entries[i].key == x.members[j].key
        ensures Denotes(flavour, iso, entries[i].value, x.members[j].value)
      {
        EncodingDenotes(flavour, iso, entries[i].value, x.members[j].value);
      }
    case _ =>
  }

  // Two lists with the same slots have the same keys, and a shared key has one value.
  lemma SlotsMatch(slots: seq<Keyed<Encoded>>, members: seq<Keyed<Json>>)
    requires DistinctKeys(slots)
    requires forall j | 0 <= j < |members| :: Keyed(members[j].key, Ok(members[j].value)) in slots
    requires forall i | 0 <= i < |slots| :: slots[i].value.Ok? && Keyed(slots[i].key, slots[i].value.value) in members
    ensures KeySet(members) == KeySet(slots)
    ensures forall i, j | 0 <= i < |slots| && 0 <= j < |members| && slots[i].key == members[j].key ::
              slots[i].value == Ok(members[j].value)
  {
    forall j | 0 <= j < |members| ensures members[j].key in KeySet(slots) {
      var k :| 0 <= k < |slots| && slots[k] == Keyed(members[j].key, Ok(members[j].value));
    }
    forall i | 0 <= i < |slots| ensures slots[i].key in KeySet(members) {
      var j :| 0 <= j < |members| && members[j] == Keyed(slots[i].key, slots[i].value.value);
    }
  }

  lemma MembersMatch(flavour: Flavour, iso: DateTime -> string, entries: seq<Keyed<Value>>, members: seq<Keyed<Json>>)
    requires DistinctKeys(entries) && Encode(flavour, iso, PyDict(entries)) == Ok(Obj(members))
    requires |members| == |entries|
    ensures KeySet(members) == KeySet(entries)
    ensures forall i, j | 0 <= i < |entries| && 0 <= j < |entries| && entries[i].key == members[j].key ::
              Encode(flavour, iso, entries[i].value) == Ok(members[j].value)
  {
    EncodedMembers(flavour, iso, entries, members);
    var slots := EncodeEntries(flavour, iso, entries);
    SlotsDistinct(flavour, iso, entries);
    SlotsMatch(slots, members);
    assert KeySet(slots) == KeySet(entries) by {
      assert forall i | 0 <= i < |entries| :: slots[i].key == entries[i].key;
    }
  }

  // Main result: a canonical text is minimal and reads as a tree that denotes the value.
  lemma CanonicalReadsBack(flavour: Flavour, iso: DateTime -> string, v: Value) returns (x: Json)
    requires WellFormed(v) && Canonical(flavour, iso, v).Ok?
    ensures var text := Canonical(flavour, iso, v).value;
            ReadValue(text) == Some((x, [])) && Minimal(text, false) && Denotes(flavour, iso, v, x)
  {
    x := Encode(flavour, iso, v).value;
    EncodingDenotes(flavour, iso, v, x);
    PrintIsTheMinimalText(x, Print(x));
  }

  // A text that reads as a tree denoting the value, in minimal form, is the canonical one: at most
  // one tree denotes a value.
  lemma {:induction false} DenotedOnce(flavour: Flavour, iso: DateTime -> string, v: Value, x: Json, y: Json)
    requires Denotes(flavour, iso, v, x) && Denotes(flavour, iso, v, y)
    ensures x == y
    decreases v
  {
    match v
    case PyList(items) => forall i | 0 <= i < |items| { DenotedOnce(flavour, iso, items[i], x.items[i], y.items[i]); }
    case PyTuple(items) => forall i | 0 <= i < |items| { DenotedOnce(flavour, iso, items[i], x.items[i], y.items[i]); }
    case PyDict(entries) =>
      forall i, j | 0 <= i < |entries| && 0 <= j < |entries| && x.members[i].key == y.members[j].key
        ensures x.members[i].value == y.members[j].value
      {
        assert x.members[i].key in KeySet(x.members);
        var k := KeyedAt(entries, x.members[i].key);
        DenotedOnce(flavour, iso, entries[k].value, x.members[i].value, y.members[j].value);
      }
      SameMembersByKey(x.members, y.members);
    case _ =>
  }

  lemma SameMembersByKey(a: seq<Keyed<Json>>, b: seq<Keyed<Json>>)
    requires Sorted(a) && Sorted(b) && |a| == |b| && KeySet(a) == KeySet(b)
    requires forall i, j | 0 <= i < |a| && 0 <= j < |b| && a[i].key == b[j].key :: a[i].value == b[j].value
    ensures a == b
  {
    forall i | 0 <= i < |a| ensures a[i] in b {
      assert a[i].key in KeySet(b);
      var j := KeyedAt(b, a[i].key);
      assert b[j] == a[i];
    }
    forall j | 0 <= j < |b| ensures b[j] in a {
      assert b[j].key in KeySet(a);
      var i := KeyedAt(a, b[j].key);
      assert a[i] == b[j];
    }
    SortedUnique(a, b);
  }

  // Main result: the canonical text of a value is the one minimal text that reads as a tree
  // denoting it.
  lemma CanonicalTextExactly(flavour: Flavour, iso: DateTime -> string, v: Value, text: string, x: Json)
    requires WellFormed(v) && Canonical(flavour, iso, v).Ok?
    requires ReadValue(text) == Some((x, [])) && Minimal(text, false) && Denotes(flavour, iso, v, x)
    ensures Canonical(flavour, iso, v) == Ok(text)
  {
    var y := CanonicalReadsBack(flavour, iso, v);
    DenotedOnce(flavour, iso, v, x, y);
    PrintIsTheMinimalText(x, text);
    PrintIsTheMinimalText(x, Canonical(flavour, iso, v).value);
  }
}
