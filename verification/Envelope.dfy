/** The envelope and archive hashes.  SHA-256 is a parameter `sha` from text to digest. */
module Envelope {
  import opened Wrappers
  import opened JsonText
  import opened KeyOrder
  import opened CanonicalJson
  import opened DatetimeNormalization
  import opened CanonicalMeaning
  import opened JsonMinimal

  datatype Occurred = At(at: DateTime) | Text(text: string) | Absent

  datatype Envelope = Envelope(
    eventSchemaVersion: string,
    eventType: string,
    aggregateType: string,
    aggregateId: string,
    actor: string,
    correlationId: string,
    occurredAt: Occurred,
    eventIdentity: Option<string>,
    requestId: Option<string>,
    identityId: Option<string>,
    attemptId: Option<string>,
    calculationRunId: Option<string>,
    sourceBindingId: Option<string>,
    payload: Value)

  const KEYS: seq<string> := [
    "event_schema_version", "event_type", "aggregate_type", "aggregate_id", "actor", "correlation_id",
    "occurred_at", "event_identity", "request_id", "identity_id", "attempt_id", "calculation_run_id",
    "source_binding_id", "payload"]

  function Nullable(s: Option<string>): Value {
    match s
    case None => PyNone
    case Some(text) => PyStr(text)
  }

  function OccurredValue(iso: DateTime -> string, occurred: Occurred): Result<Value, Rejection> {
    match occurred
    case At(at) => Normalize(iso, PyDateTime(at))
    case Text(text) => Ok(PyStr(text))
    case Absent => Ok(PyNone)
  }

  function Columns(e: Envelope, occurred: Value, payload: Value): (values: seq<Value>)
    ensures |values| == |KEYS|
  {
    [PyStr(e.eventSchemaVersion), PyStr(e.eventType), PyStr(e.aggregateType), PyStr(e.aggregateId),
     PyStr(e.actor), PyStr(e.correlationId), occurred, Nullable(e.eventIdentity), Nullable(e.requestId),
     Nullable(e.identityId), Nullable(e.attemptId), Nullable(e.calculationRunId), Nullable(e.sourceBindingId),
     payload]
  }

  function Zip(keys: seq<string>, values: seq<Value>): (entries: seq<Keyed<Value>>)
    requires |keys| == |values|
    ensures |entries| == |keys|
    ensures forall i | 0 <= i < |keys| :: entries[i] == Keyed(keys[i], values[i])
  {
    seq(|keys|, i requires 0 <= i < |keys| => Keyed(keys[i], values[i]))
  }

  // The text that is hashed.
  function EnvelopeText(iso: DateTime -> string, e: Envelope): Result<string, Rejection> {
    match (OccurredValue(iso, e.occurredAt), Normalize(iso, e.payload))
    case (Err(error), _) => Err(error)
    case (_, Err(error)) => Err(error)
    case (Ok(occurred), Ok(payload)) => Canonical(Outbox, iso, PyDict(Zip(KEYS, Columns(e, occurred, payload))))
  }

  function EnvelopeHash(iso: DateTime -> string, sha: string -> string, e: Envelope): Result<string, Rejection> {
    match EnvelopeText(iso, e)
    case Ok(text) => Ok(sha(text))
    case Err(error) => Err(error)
  }

  function ArchiveHash(iso: DateTime -> string, sha: string -> string, payload: Value): Result<string, Rejection> {
    if !payload.PyDict? then Err(NotADictionary)
    else
      match Canonical(Archive, iso, payload)
      case Ok(text) => Ok(sha(text))
      case Err(error) => Err(error)
  }

  predicate DistinctStrings(keys: seq<string>) {
    forall i, j | 0 <= i < j < |keys| :: keys[i] != keys[j]
  }

  lemma KeysDistinct()
    ensures DistinctStrings(KEYS)
  {
  }

  lemma {:induction false} NormalizeKeepsWellFormed(iso: DateTime -> string, v: Value, u: Value)
    requires WellFormed(v) && Normalize(iso, v) == Ok(u)
    ensures WellFormed(u)
    decreases v
  {
    match v
    case PyDict(entries) =>
      forall i | 0 <= i < |u.entries| ensures WellFormed(u.entries[i].value) {
        NormalizeKeepsWellFormed(iso, entries[i].value, u.entries[i].value);
      }
    case PyList(items) =>
      forall i | 0 <= i < |u.items| ensures WellFormed(u.items[i]) {
        NormalizeKeepsWellFormed(iso, items[i], u.items[i]);
      }
    case PyTuple(items) =>
      forall i | 0 <= i < |u.items| ensures WellFormed(u.items[i]) {
        NormalizeKeepsWellFormed(iso, items[i], u.items[i]);
      }
    case _ =>
  }

  // Dictionaries with the same distinct keys in the same order are equal entry by entry.
  lemma SameColumns(keys: seq<string>, xs: seq<Value>, ys: seq<Value>)
    requires |keys| == |xs| == |ys| && DistinctStrings(keys)
    ensures SameValue(PyDict(Zip(keys, xs)), PyDict(Zip(keys, ys))) <==>
            forall i | 0 <= i < |keys| :: SameValue(xs[i], ys[i])
  {
  }

  // What the envelope text commits to.
  ghost predicate SameEnvelope(iso: DateTime -> string, e: Envelope, f: Envelope)
    requires Normalize(iso, e.payload).Ok? && Normalize(iso, f.payload).Ok?
  {
    && e.eventSchemaVersion == f.eventSchemaVersion
    && e.eventType == f.eventType
    && e.aggregateType == f.aggregateType
    && e.aggregateId == f.aggregateId
    && e.actor == f.actor
    && e.correlationId == f.correlationId
    && OccurredValue(iso, e.occurredAt) == OccurredValue(iso, f.occurredAt)
    && e.eventIdentity == f.eventIdentity
    && e.requestId == f.requestId
    && e.identityId == f.identityId
    && e.attemptId == f.attemptId
    && e.calculationRunId == f.calculationRunId
    && e.sourceBindingId == f.sourceBindingId
    && SameValue(Normalize(iso, e.payload).value, Normalize(iso, f.payload).value)
  }

  lemma NullableInjective(a: Option<string>, b: Option<string>)
    requires Nullable(a) == Nullable(b)
    ensures a == b
  {
  }

  predicate Leaf(v: Value) {
    v.PyStr? || v.PyNone?
  }

  lemma ColumnsAreLeaves(e: Envelope, occurred: Value, payload: Value)
    requires Leaf(occurred)
    ensures forall i | 0 <= i < 13 :: Leaf(Columns(e, occurred, payload)[i])
  {
  }

  lemma LeafColumnsSame(xs: seq<Value>, ys: seq<Value>)
    requires |xs| == |ys| == 14
    requires forall i | 0 <= i < 13 :: Leaf(xs[i]) && Leaf(ys[i])
    ensures (forall i | 0 <= i < 14 :: SameValue(xs[i], ys[i])) <==>
            (forall i | 0 <= i < 13 :: xs[i] == ys[i]) && SameValue(xs[13], ys[13])
  {
  }

  // The columns agree exactly when the envelopes do.
  lemma SameColumnsSameEnvelope(iso: DateTime -> string, e: Envelope, f: Envelope)
    requires OccurredValue(iso, e.occurredAt).Ok? && OccurredValue(iso, f.occurredAt).Ok?
    requires Normalize(iso, e.payload).Ok? && Normalize(iso, f.payload).Ok?
    ensures var xs := Columns(e, OccurredValue(iso, e.occurredAt).value, Normalize(iso, e.payload).value);
            var ys := Columns(f, OccurredValue(iso, f.occurredAt).value, Normalize(iso, f.payload).value);
            (forall i | 0 <= i < |KEYS| :: SameValue(xs[i], ys[i])) <==> SameEnvelope(iso, e, f)
  {
    var xs := Columns(e, OccurredValue(iso, e.occurredAt).value, Normalize(iso, e.payload).value);
    var ys := Columns(f, OccurredValue(iso, f.occurredAt).value, Normalize(iso, f.payload).value);
    ColumnsAreLeaves(e, OccurredValue(iso, e.occurredAt).value, Normalize(iso, e.payload).value);
    ColumnsAreLeaves(f, OccurredValue(iso, f.occurredAt).value, Normalize(iso, f.payload).value);
    LeafColumnsSame(xs, ys);
    if (forall i | 0 <= i < 13 :: xs[i] == ys[i]) && SameValue(xs[13], ys[13]) {
      ColumnsGiveEnvelope(iso, e, f, xs, ys);
    }
    if SameEnvelope(iso, e, f) {
      EnvelopeGivesColumns(iso, e, f, xs, ys);
    }
  }

  lemma EnvelopeGivesColumns(iso: DateTime -> string, e: Envelope, f: Envelope, xs: seq<Value>, ys: seq<Value>)
    requires OccurredValue(iso, e.occurredAt).Ok? && OccurredValue(iso, f.occurredAt).Ok?
    requires Normalize(iso, e.payload).Ok? && Normalize(iso, f.payload).Ok?
    requires xs == Columns(e, OccurredValue(iso, e.occurredAt).value, Normalize(iso, e.payload).value)
    requires ys == Columns(f, OccurredValue(iso, f.occurredAt).value, Normalize(iso, f.payload).value)
    requires SameEnvelope(iso, e, f)
    ensures forall i | 0 <= i < 13 :: xs[i] == ys[i]
    ensures SameValue(xs[13], ys[13])
  {
  }

  lemma ColumnsGiveEnvelope(iso: DateTime -> string, e: Envelope, f: Envelope, xs: seq<Value>, ys: seq<Value>)
    requires OccurredValue(iso, e.occurredAt).Ok? && OccurredValue(iso, f.occurredAt).Ok?
    requires Normalize(iso, e.payload).Ok? && Normalize(iso, f.payload).Ok?
    requires xs == Columns(e, OccurredValue(iso, e.occurredAt).value, Normalize(iso, e.payload).value)
    requires ys == Columns(f, OccurredValue(iso, f.occurredAt).value, Normalize(iso, f.payload).value)
    requires forall i | 0 <= i < 13 :: xs[i] == ys[i]
    requires SameValue(xs[13], ys[13])
    ensures SameEnvelope(iso, e, f)
  {
    assert xs[0] == ys[0] && xs[1] == ys[1] && xs[2] == ys[2] && xs[3] == ys[3] && xs[4] == ys[4] && xs[5] == ys[5];
    assert xs[6] == ys[6] && xs[7] == ys[7] && xs[8] == ys[8] && xs[9] == ys[9];
    assert xs[10] == ys[10] && xs[11] == ys[11] && xs[12] == ys[12];
    NullableInjective(e.eventIdentity, f.eventIdentity);
    NullableInjective(e.requestId, f.requestId);
    NullableInjective(e.identityId, f.identityId);
    NullableInjective(e.attemptId, f.attemptId);
    NullableInjective(e.calculationRunId, f.calculationRunId);
    NullableInjective(e.sourceBindingId, f.sourceBindingId);
  }

  // An envelope whose normalised payload is a plain tree always has a text.
  lemma EnvelopeEncodes(iso: DateTime -> string, e: Envelope, occurred: Value, payload: Value)
    requires WellFormed(e.payload) && Normalize(iso, e.payload) == Ok(payload) && Plain(payload)
    requires OccurredValue(iso, e.occurredAt) == Ok(occurred)
    ensures var d := PyDict(Zip(KEYS, Columns(e, occurred, payload)));
            WellFormed(d) && Plain(d) && EnvelopeText(iso, e) == Canonical(Outbox, iso, d)
  {
    KeysDistinct();
    NormalizeKeepsWellFormed(iso, e.payload, payload);
    var values := Columns(e, occurred, payload);
    forall i | 0 <= i < |KEYS|
      ensures WellFormed(values[i]) && Plain(values[i])
    {
    }
  }

  // Main result: two envelopes have the same text exactly when they agree on all fourteen fields,
  // payloads compared with SameValue after normalisation.
  lemma EnvelopeTextCommits(iso: DateTime -> string, e: Envelope, f: Envelope)
    requires WellFormed(e.payload) && WellFormed(f.payload)
    requires OccurredValue(iso, e.occurredAt).Ok? && OccurredValue(iso, f.occurredAt).Ok?
    requires Normalize(iso, e.payload).Ok? && Plain(Normalize(iso, e.payload).value)
    requires Normalize(iso, f.payload).Ok? && Plain(Normalize(iso, f.payload).value)
    ensures EnvelopeText(iso, e).Ok?
    ensures EnvelopeText(iso, e) == EnvelopeText(iso, f) <==> SameEnvelope(iso, e, f)
  {
    var xs := Columns(e, OccurredValue(iso, e.occurredAt).value, Normalize(iso, e.payload).value);
    var ys := Columns(f, OccurredValue(iso, f.occurredAt).value, Normalize(iso, f.payload).value);
    EnvelopeEncodes(iso, e, OccurredValue(iso, e.occurredAt).value, Normalize(iso, e.payload).value);
    EnvelopeEncodes(iso, f, OccurredValue(iso, f.occurredAt).value, Normalize(iso, f.payload).value);
    CanonicalInjective(Outbox, iso, PyDict(Zip(KEYS, xs)), PyDict(Zip(KEYS, ys)));
    KeysDistinct();
    SameColumns(KEYS, xs, ys);
    SameColumnsSameEnvelope(iso, e, f);
  }

  lemma {:induction false} PlainIsNormal(iso: DateTime -> string, v: Value)
    requires Plain(v)
    ensures Normalize(iso, v) == Ok(v)
    decreases v
  {
    match v
    case PyList(items) =>
      forall i | 0 <= i < |items| ensures Normalize(iso, items[i]) == Ok(items[i]) { PlainIsNormal(iso, items[i]); }
      assert NormalizeItems(iso, items).Ok?;
      assert NormalizeItems(iso, items).value == items;
    case PyDict(entries) =>
      forall i | 0 <= i < |entries| ensures Normalize(iso, entries[i].value) == Ok(entries[i].value) {
        PlainIsNormal(iso, entries[i].value);
      }
      assert NormalizeEntries(iso, entries).Ok?;
      assert NormalizeEntries(iso, entries).value == entries;
    case _ =>
  }

  // ----- What the text says -----

  function TextOrNull(s: Option<string>): Json {
    if s.Some? then Str(s.value) else Null
  }

  function OccurredJson(iso: DateTime -> string, occurred: Occurred): Json {
    match occurred
    case At(at) => Str(iso(UtcOf(at)))
    case Text(text) => Str(text)
    case Absent => Null
  }

  predicate ListsTexts(e: Envelope, members: seq<Keyed<Json>>) {
    && Keyed("event_schema_version", Str(e.eventSchemaVersion)) in members
    && Keyed("event_type", Str(e.eventType)) in members
    && Keyed("aggregate_type", Str(e.aggregateType)) in members
    && Keyed("aggregate_id", Str(e.aggregateId)) in members
    && Keyed("actor", Str(e.actor)) in members
    && Keyed("correlation_id", Str(e.correlationId)) in members
  }

  predicate ListsIds(e: Envelope, members: seq<Keyed<Json>>) {
    && Keyed("event_identity", TextOrNull(e.eventIdentity)) in members
    && Keyed("request_id", TextOrNull(e.requestId)) in members
    && Keyed("identity_id", TextOrNull(e.identityId)) in members
    && Keyed("attempt_id", TextOrNull(e.attemptId)) in members
    && Keyed("calculation_run_id", TextOrNull(e.calculationRunId)) in members
    && Keyed("source_binding_id", TextOrNull(e.sourceBindingId)) in members
  }

  // The members of the hashed object, key by key.
  ghost predicate ListsEnvelope(iso: DateTime -> string, e: Envelope, members: seq<Keyed<Json>>) {
    && |members| == 14 && Sorted(members)
    && ListsTexts(e, members)
    && ListsIds(e, members)
    && Keyed("occurred_at", OccurredJson(iso, e.occurredAt)) in members
    && exists p :: Keyed("payload", p) in members && Denotes(Archive, iso, e.payload, p)
  }

  // Column i is encoded as the member under its key.
  predicate HasColumn(iso: DateTime -> string, values: seq<Value>, members: seq<Keyed<Json>>, i: nat)
    requires |values| == |KEYS| && i < |KEYS|
  {
    Encode(Outbox, iso, values[i]).Ok? && Keyed(KEYS[i], Encode(Outbox, iso, values[i]).value) in members
  }

  lemma ColumnMembers(iso: DateTime -> string, values: seq<Value>, members: seq<Keyed<Json>>)
    requires |values| == |KEYS| && Encode(Outbox, iso, PyDict(Zip(KEYS, values))) == Ok(Obj(members))
    ensures |members| == 14 && Sorted(members)
    ensures forall i | 0 <= i < 14 :: HasColumn(iso, values, members, i)
  {
    var entries := Zip(KEYS, values);
    KeysDistinct();
    EncodedMembers(Outbox, iso, entries, members);
    assert forall i | 0 <= i < 14 :: entries[i] == Keyed(KEYS[i], values[i]);
  }

  lemma TextMembers(iso: DateTime -> string, e: Envelope, occurred: Value, payload: Value, members: seq<Keyed<Json>>)
    requires forall i | 0 <= i < 14 :: HasColumn(iso, Columns(e, occurred, payload), members, i)
    ensures ListsTexts(e, members)
  {
    var values := Columns(e, occurred, payload);
    assert HasColumn(iso, values, members, 0) && HasColumn(iso, values, members, 1);
    assert HasColumn(iso, values, members, 2) && HasColumn(iso, values, members, 3);
    assert HasColumn(iso, values, members, 4) && HasColumn(iso, values, members, 5);
  }

  lemma NullableMember(iso: DateTime -> string, s: Option<string>)
    ensures Encode(Outbox, iso, Nullable(s)) == Ok(TextOrNull(s))
  {
  }

  lemma IdMembers(iso: DateTime -> string, e: Envelope, occurred: Value, payload: Value, members: seq<Keyed<Json>>)
    requires forall i | 0 <= i < 14 :: HasColumn(iso, Columns(e, occurred, payload), members, i)
    ensures ListsIds(e, members)
  {
    var values := Columns(e, occurred, payload);
    forall s { NullableMember(iso, s); }
    assert HasColumn(iso, values, members, 7) && HasColumn(iso, values, members, 8);
    assert HasColumn(iso, values, members, 9) && HasColumn(iso, values, members, 10);
    assert HasColumn(iso, values, members, 11) && HasColumn(iso, values, members, 12);
  }

  lemma OccurredMember(iso: DateTime -> string, e: Envelope, payload: Value, members: seq<Keyed<Json>>)
    requires OccurredValue(iso, e.occurredAt).Ok?
    requires forall i | 0 <= i < 14 ::
               HasColumn(iso, Columns(e, OccurredValue(iso, e.occurredAt).value, payload), members, i)
    ensures Keyed("occurred_at", OccurredJson(iso, e.occurredAt)) in members
  {
    assert HasColumn(iso, Columns(e, OccurredValue(iso, e.occurredAt).value, payload), members, 6);
  }

  lemma PayloadMember(iso: DateTime -> string, e: Envelope, occurred: Value, payload: Value,
                      members: seq<Keyed<Json>>) returns (p: Json)
    requires WellFormed(e.payload) && Normalize(iso, e.payload) == Ok(payload)
    requires forall i | 0 <= i < 14 :: HasColumn(iso, Columns(e, occurred, payload), members, i)
    ensures Keyed("payload", p) in members && Denotes(Archive, iso, e.payload, p)
  {
    assert HasColumn(iso, Columns(e, occurred, payload), members, 13);
    p := Encode(Outbox, iso, payload).value;
    NormalizedEncodes(iso, e.payload, payload);
    EncodingDenotes(Archive, iso, e.payload, p);
  }

  // Main result: the hashed text is minimal and reads as an object with exactly fourteen members in
  // key order, each field under its own key, absent ids as null, datetimes in UTC.
  lemma EnvelopeTextReadsBack(iso: DateTime -> string, e: Envelope) returns (members: seq<Keyed<Json>>)
    requires WellFormed(e.payload) && EnvelopeText(iso, e).Ok?
    ensures var text := EnvelopeText(iso, e).value;
            ReadValue(text) == Some((Obj(members), [])) && Minimal(text, false) && ListsEnvelope(iso, e, members)
  {
    var occurred, payload := OccurredValue(iso, e.occurredAt).value, Normalize(iso, e.payload).value;
    var values := Columns(e, occurred, payload);
    members := Encode(Outbox, iso, PyDict(Zip(KEYS, values))).value.members;
    PrintIsTheMinimalText(Obj(members), Print(Obj(members)));
    ColumnMembers(iso, values, members);
    TextMembers(iso, e, occurred, payload, members);
    IdMembers(iso, e, occurred, payload, members);
    OccurredMember(iso, e, payload, members);
    var _ := PayloadMember(iso, e, occurred, payload, members);
  }

  // Two different texts with the same digest.
  ghost predicate Collision(sha: string -> string, a: string, b: string) {
    a != b && sha(a) == sha(b)
  }

  // Main result: on plain payloads equal envelope hashes mean equal envelopes, payloads compared
  // with SameValue, or exhibit a digest collision between the two canonical texts.
  lemma EnvelopeHashCommits(iso: DateTime -> string, sha: string -> string, e: Envelope, f: Envelope)
    requires WellFormed(e.payload) && WellFormed(f.payload) && Plain(e.payload) && Plain(f.payload)
    requires OccurredValue(iso, e.occurredAt).Ok? && OccurredValue(iso, f.occurredAt).Ok?
    requires EnvelopeHash(iso, sha, e) == EnvelopeHash(iso, sha, f)
    ensures EnvelopeText(iso, e).Ok? && EnvelopeText(iso, f).Ok?
    ensures Normalize(iso, e.payload) == Ok(e.payload) && Normalize(iso, f.payload) == Ok(f.payload)
    ensures SameEnvelope(iso, e, f) || Collision(sha, EnvelopeText(iso, e).value, EnvelopeText(iso, f).value)
  {
    PlainIsNormal(iso, e.payload);
    PlainIsNormal(iso, f.payload);
    EnvelopeTextCommits(iso, e, f);
    EnvelopeTextCommits(iso, f, e);
  }

  // Main result: on plain archive payloads equal hashes mean equal payloads, list order included,
  // or exhibit a collision.
  lemma ArchiveHashCommits(iso: DateTime -> string, sha: string -> string, v: Value, w: Value)
    requires WellFormed(v) && WellFormed(w) && Plain(v) && Plain(w)
    requires ArchiveHash(iso, sha, v) == ArchiveHash(iso, sha, w) && ArchiveHash(iso, sha, v).Ok?
    ensures Canonical(Archive, iso, v).Ok? && Canonical(Archive, iso, w).Ok?
    ensures SameValue(v, w) || Collision(sha, Canonical(Archive, iso, v).value, Canonical(Archive, iso, w).value)
  {
    CanonicalInjective(Archive, iso, v, w);
    CanonicalInjective(Archive, iso, w, v);
  }

  // ----- Ordered source slots -----

  datatype SlotError = NotAPair | NameNotText | PayloadNotMapping

  function SlotFault(entry: Value): Option<SlotError> {
    if !(entry.PyTuple? || entry.PyList?) || |entry.items| != 2 then Some(NotAPair)
    else if !entry.items[0].PyStr? then Some(NameNotText)
    else if !entry.items[1].PyDict? then Some(PayloadNotMapping)
    else None
  }

  // The JSON-safe slot list: each pair as a two-element list, in the caller's order; or the fault
  // of the first bad entry.
  method PrepareSlots(entries: seq<Value>) returns (r: Result<seq<Value>, SlotError>)
    ensures r.Ok? <==> forall i | 0 <= i < |entries| :: SlotFault(entries[i]).None?
    ensures r.Ok? ==> |r.value| == |entries| &&
                      forall i | 0 <= i < |entries| :: r.value[i] == PyList([entries[i].items[0], entries[i].items[1]])
    ensures r.Err? ==> exists i | 0 <= i < |entries| ::
              SlotFault(entries[i]) == Some(r.error) && forall j | 0 <= j < i :: SlotFault(entries[j]).None?
  {
    var prepared: seq<Value> := [];
    for k := 0 to |entries|
      invariant |prepared| == k
      invariant forall i | 0 <= i < k :: SlotFault(entries[i]).None?
      invariant forall i | 0 <= i < k :: prepared[i] == PyList([entries[i].items[0], entries[i].items[1]])
    {
      var entry := entries[k];
      if !(entry.PyTuple? || entry.PyList?) || |entry.items| != 2 {
        return Err(NotAPair);
      }
      var name, payload := entry.items[0], entry.items[1];
      if !name.PyStr? {
        return Err(NameNotText);
      }
      if !payload.PyDict? {
        return Err(PayloadNotMapping);
      }
      prepared := prepared + [PyList([name, payload])];
    }
    return Ok(prepared);
  }

  function ArchivePayload(rest: seq<Keyed<Value>>, slots: seq<Value>): Value {
    PyDict([Keyed("source_slots", PyList(slots))] + rest)
  }

  // The archive hash commits to the slots one by one, in order, whatever the other columns are.
  lemma ArchiveHashCommitsToSlots(iso: DateTime -> string, sha: string -> string,
                                  restA: seq<Keyed<Value>>, slotsA: seq<Value>,
                                  restB: seq<Keyed<Value>>, slotsB: seq<Value>)
    requires WellFormed(ArchivePayload(restA, slotsA)) && Plain(ArchivePayload(restA, slotsA))
    requires WellFormed(ArchivePayload(restB, slotsB)) && Plain(ArchivePayload(restB, slotsB))
    requires ArchiveHash(iso, sha, ArchivePayload(restA, slotsA)) ==
             ArchiveHash(iso, sha, ArchivePayload(restB, slotsB))
    ensures Canonical(Archive, iso, ArchivePayload(restA, slotsA)).Ok?
            && Canonical(Archive, iso, ArchivePayload(restB, slotsB)).Ok?
    ensures || (|slotsA| == |slotsB| && forall i | 0 <= i < |slotsA| :: SameValue(slotsA[i], slotsB[i]))
            || Collision(sha, Canonical(Archive, iso, ArchivePayload(restA, slotsA)).value,
                         Canonical(Archive, iso, ArchivePayload(restB, slotsB)).value)
  {
    var a, b := ArchivePayload(restA, slotsA), ArchivePayload(restB, slotsB);
    CanonicalInjective(Archive, iso, a, b);
    ArchiveHashCommits(iso, sha, a, b);
    if SameValue(a, b) {
      assert a.entries[0].key == b.entries[0].key;
      assert SameValue(a.entries[0].value, b.entries[0].value);
    }
  }
}
