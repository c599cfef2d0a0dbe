/** The five-stage execution store for one project version: which idempotency key each submission
    carries, and what late responses may change. */
module IdempotencyKeys {
  import opened Wrappers

  type Key = string
  type Response = string  // a success body

  datatype Content = Content(fields: string, payload: string)

  datatype Request = Request(content: Content, key: Key)

  // Requests are numbered in the order they are sent; each has its own abort controller.
  datatype Store = Store(
    storedKey: Option<Key>,
    storedFields: Option<string>,
    storedPayload: Option<string>,
    lastSubmitted: Option<string>,
    lastSuccess: Option<Response>,
    executing: bool,
    controller: Option<nat>,
    aborted: set<nat>,
    inFlight: set<nat>,
    sent: seq<Request>)

  datatype Completion = Success(response: Response) | Rejected | Failed

  datatype Action =
    | Execute(content: Content, uuid: Key)   // uuid is the key drawn if a new one is needed
    | Complete(id: nat, completion: Completion)
    | Cancel

  // ----- Specification -----

  // The stored key was stored with exactly this content.
  predicate Reuses(s: Store, content: Content) {
    && s.storedKey.Some?
    && s.storedFields == Some(content.fields)
    && (if s.storedPayload.Some? then s.storedPayload else s.lastSubmitted) == Some(content.payload)
  }

  function AbortCurrent(s: Store): set<nat> {
    if s.controller.Some? then s.aborted + {s.controller.value} else s.aborted
  }

  function Remember(s: Store, request: Request): Store {
    s.(storedKey := Some(request.key), storedFields := Some(request.content.fields),
       storedPayload := Some(request.content.payload))
  }

  function Submitted(s: Store, content: Content, uuid: Key): Store {
    var request := Request(content, if Reuses(s, content) then s.storedKey.value else uuid);
    (if Reuses(s, content) then s else Remember(s, request)).(
      executing := true, controller := Some(|s.sent|), aborted := AbortCurrent(s),
      inFlight := s.inFlight + {|s.sent|}, sent := s.sent + [request])
  }

  function Completed(s: Store, id: nat, completion: Completion): Store {
    if id !in s.inFlight || id >= |s.sent| then s
    else
      var landed := s.(inFlight := s.inFlight - {id});
      if id in s.aborted then landed
      else if !completion.Success? then landed.(executing := false)
      else
        Remember(landed, s.sent[id]).(
          lastSuccess := Some(completion.response), lastSubmitted := Some(s.sent[id].content.payload),
          executing := false)
  }

  function Step(s: Store, action: Action): Store {
    match action
    case Execute(content, uuid) => Submitted(s, content, uuid)
    case Complete(id, completion) => Completed(s, id, completion)
    case Cancel => s.(aborted := AbortCurrent(s), executing := false)
  }

  function Run(s: Store, actions: seq<Action>): Store
    decreases |actions|
  {
    if actions == [] then s else Run(Step(s, actions[0]), actions[1..])
  }

  // ----- Implementation -----

  class ExecutionStore {
    var storedKey: Option<Key>
    var storedFields: Option<string>
    var storedPayload: Option<string>
    var lastSubmitted: Option<string>
    var lastSuccess: Option<Response>
    var executing: bool
    var controller: Option<nat>
    var aborted: set<nat>
    var inFlight: set<nat>
    var sent: seq<Request>

    ghost function Contents(): Store
      reads this
    {
      Store(storedKey, storedFields, storedPayload, lastSubmitted, lastSuccess, executing, controller, aborted,
            inFlight, sent)
    }

    // Session storage may hold values from before the page was reloaded.
    constructor (storedKey: Option<Key>, storedFields: Option<string>, storedPayload: Option<string>)
      ensures Contents() == Opened(storedKey, storedFields, storedPayload)
    {
      this.storedKey, this.storedFields, this.storedPayload := storedKey, storedFields, storedPayload;
      lastSubmitted, lastSuccess, executing, controller := None, None, false, None;
      aborted, inFlight, sent := {}, {}, [];
    }

    method ResolveIdempotencyKey(fields: string, payload: string, uuid: Key) returns (key: Key)
      modifies this`storedKey, this`storedFields, this`storedPayload
      ensures var reused := Reuses(old(Contents()), Content(fields, payload));
              && key == (if reused then old(storedKey).value else uuid)
              && storedKey == Some(key) && storedFields == Some(fields)
              && storedPayload == if reused then old(storedPayload) else Some(payload)
    {
      var stored := if storedPayload.Some? then storedPayload else lastSubmitted;
      if storedKey.Some? && storedFields == Some(fields) && stored == Some(payload) {
        return storedKey.value;
      }
      key := uuid;
      storedKey := Some(key);
      storedFields := Some(fields);
      storedPayload := Some(payload);
    }

    // execute up to the point where the request is handed to the API.
    method Execute(content: Content, uuid: Key) returns (id: nat)
      modifies this
      ensures Contents() == Step(old(Contents()), Action.Execute(content, uuid))
      ensures id == |old(sent)| && controller == Some(id)
    {
      if controller.Some? {
        aborted := aborted + {controller.value};
      }
      id := |sent|;
      controller := Some(id);
      executing := true;
      var key := ResolveIdempotencyKey(content.fields, content.payload, uuid);
      sent := sent + [Request(content, key)];
      inFlight := inFlight + {id};
    }

    // execute from the point where the API answers or throws.
    method Complete(id: nat, completion: Completion)
      requires id in inFlight && id < |sent|
      modifies this
      ensures Contents() == Step(old(Contents()), Action.Complete(id, completion))
    {
      inFlight := inFlight - {id};
      if id in aborted {
        return;
      }
      if completion.Success? {
        lastSuccess := Some(completion.response);
        lastSubmitted := Some(sent[id].content.payload);
        storedPayload := Some(sent[id].content.payload);
        storedKey := Some(sent[id].key);
        storedFields := Some(sent[id].content.fields);
      }
      executing := false;
    }

    method Cancel()
      modifies this
      ensures Contents() == Step(old(Contents()), Action.Cancel)
    {
      if controller.Some? {
        aborted := aborted + {controller.value};
      }
      executing := false;
    }
  }

  function Opened(storedKey: Option<Key>, storedFields: Option<string>, storedPayload: Option<string>): Store {
    Store(storedKey, storedFields, storedPayload, None, None, false, None, {}, {}, [])
  }

  // ----- Invariant -----

  // An unbroken stretch of submissions with one content.
  predicate SameContent(sent: seq<Request>, i: nat, j: nat)
    requires i <= j < |sent|
  {
    forall k | i <= k <= j :: sent[k].content == sent[i].content
  }

  ghost predicate KeysMatchStretches(sent: seq<Request>) {
    forall i, j | 0 <= i <= j < |sent| :: sent[i].key == sent[j].key <==> SameContent(sent, i, j)
  }

  // Only the latest submission can be live, and storage describes it.
  ghost predicate Inv(s: Store) {
    && (s.controller.Some? <==> s.sent != [])
    && (s.controller.Some? ==> s.controller.value == |s.sent| - 1)
    && (forall id | id in s.inFlight :: id < |s.sent|)
    && (forall id | 0 <= id < |s.sent| - 1 :: id in s.aborted)
    && (forall id | id in s.aborted :: id < |s.sent|)
    && (s.executing <==> s.sent != [] && |s.sent| - 1 in s.inFlight && |s.sent| - 1 !in s.aborted)
    && (s.sent != [] ==>
          var last := s.sent[|s.sent| - 1];
          && s.storedKey == Some(last.key)
          && s.storedFields == Some(last.content.fields)
          && s.storedPayload == Some(last.content.payload))
    && (s.sent == [] ==> s.lastSubmitted.None?)
    && KeysMatchStretches(s.sent)
  }

  // The uuid drawn differs from every key used before.
  predicate Fresh(s: Store, action: Action) {
    action.Execute? ==> Some(action.uuid) != s.storedKey && forall i | 0 <= i < |s.sent| :: s.sent[i].key != action.uuid
  }

  predicate FreshThroughout(s: Store, actions: seq<Action>)
    decreases |actions|
  {
    actions != [] ==> Fresh(s, actions[0]) && FreshThroughout(Step(s, actions[0]), actions[1..])
  }

  lemma SendKeepsStretches(sent: seq<Request>, request: Request)
    requires KeysMatchStretches(sent)
    requires if sent != [] && sent[|sent| - 1].content == request.content then request.key == sent[|sent| - 1].key
             else forall i | 0 <= i < |sent| :: sent[i].key != request.key
    ensures KeysMatchStretches(sent + [request])
  {
    var all := sent + [request];
    var n := |sent|;
    forall i, j | 0 <= i <= j <= n
      ensures all[i].key == all[j].key <==> SameContent(all, i, j)
    {
      if j < n {
        assert all[i].key == all[j].key <==> SameContent(sent, i, j);
        assert forall k | i <= k <= j :: all[k] == sent[k];
      } else if i < n {
        assert sent[i].key == sent[n - 1].key <==> SameContent(sent, i, n - 1);
        assert forall k | i <= k < n :: all[k] == sent[k];
        assert SameContent(all, i, n) <==> SameContent(sent, i, n - 1) && sent[n - 1].content == request.content by {
          if SameContent(all, i, n) {
            assert all[n].content == all[i].content && all[n - 1].content == all[i].content;
          }
          if SameContent(sent, i, n - 1) {
            assert sent[n - 1].content == sent[i].content;
          }
        }
      }
    }
  }

  lemma StepKeepsInv(s: Store, action: Action)
    requires Inv(s) && Fresh(s, action)
    ensures Inv(Step(s, action))
  {
    if action.Execute? {
      var next := Step(s, action);
      SendKeepsStretches(s.sent, next.sent[|s.sent|]);
    }
  }

  lemma {:induction false} RunKeepsInv(s: Store, actions: seq<Action>)
    requires Inv(s) && FreshThroughout(s, actions)
    ensures Inv(Run(s, actions))
    decreases |actions|
  {
    if actions != [] {
      StepKeepsInv(s, actions[0]);
      RunKeepsInv(Step(s, actions[0]), actions[1..]);
    }
  }

  // ----- Theorems -----

  // Main result: over every run, two submissions carry one key exactly when nothing different was
  // submitted between them.  So no key is ever sent with two contents, and an identical
  // resubmission reuses its key, whatever responses, failures or cancellations come in between.
  lemma KeysAreExact(storedKey: Option<Key>, storedFields: Option<string>, storedPayload: Option<string>,
                     actions: seq<Action>, i: nat, j: nat)
    requires var s := Opened(storedKey, storedFields, storedPayload);
             FreshThroughout(s, actions) && i <= j < |Run(s, actions).sent|
    ensures var sent := Run(Opened(storedKey, storedFields, storedPayload), actions).sent;
            && (sent[i].key == sent[j].key <==> SameContent(sent, i, j))
            && (sent[i].key == sent[j].key ==> sent[i].content == sent[j].content)
  {
    RunKeepsInv(Opened(storedKey, storedFields, storedPayload), actions);
  }

  // Main result: after a page reload the first submission carries the key found in session storage
  // exactly when fields and payload were stored with it; otherwise it carries the new one.
  lemma FirstSubmissionAfterReload(key: Option<Key>, fields: Option<string>, payload: Option<string>,
                                   content: Content, uuid: Key)
    ensures var sent := Step(Opened(key, fields, payload), Execute(content, uuid)).sent;
            && |sent| == 1 && sent[0].content == content
            && sent[0].key == if key != None && fields == Some(content.fields) && payload == Some(content.payload)
                              then key.value else uuid
  {
  }

  // What a reload or another component can see.
  predicate SameStored(s: Store, t: Store) {
    && s.storedKey == t.storedKey && s.storedFields == t.storedFields && s.storedPayload == t.storedPayload
    && s.lastSubmitted == t.lastSubmitted && s.lastSuccess == t.lastSuccess
  }

  // Main result: a response to a superseded or cancelled submission changes nothing that is
  // stored, nor whether the store is executing.  A response to the live one leaves session storage
  // as the submission wrote it.
  lemma CompletionEffects(s: Store, id: nat, completion: Completion)
    requires Inv(s)
    ensures var next := Step(s, Complete(id, completion));
            && (id != |s.sent| - 1 || id in s.aborted ==> SameStored(s, next) && next.executing == s.executing)
            && next.storedKey == s.storedKey && next.storedFields == s.storedFields
            && next.storedPayload == s.storedPayload && next.sent == s.sent
            && (s.executing && id == |s.sent| - 1 ==>
                  && !next.executing
                  && next.lastSuccess == if completion.Success? then Some(completion.response) else s.lastSuccess)
  {
  }

  // Actions that send nothing keep what an identical resubmission compares with.
  predicate SendsNothing(actions: seq<Action>) {
    forall a | a in actions :: !a.Execute?
  }

  lemma {:induction false} ResubmissionReusesKey(s: Store, content: Content, first: Key,
                                                 between: seq<Action>, second: Key)
    requires Inv(s) && Fresh(s, Execute(content, first)) && SendsNothing(between)
    ensures var sent := Step(s, Execute(content, first));
            var later := Run(sent, between);
            var again := Step(later, Execute(content, second));
            |again.sent| == |s.sent| + 2 && again.sent[|s.sent| + 1] == again.sent[|s.sent|]
  {
    var sent := Step(s, Execute(content, first));
    StepKeepsInv(s, Execute(content, first));
    QuietRun(sent, between);
  }

  lemma {:induction false} QuietRun(s: Store, actions: seq<Action>)
    requires Inv(s) && SendsNothing(actions)
    ensures Inv(Run(s, actions)) && Run(s, actions).sent == s.sent
    decreases |actions|
  {
    if actions != [] {
      assert actions[0] in actions;
      assert forall a | a in actions[1..] :: a in actions;
      StepKeepsInv(s, actions[0]);
      QuietRun(Step(s, actions[0]), actions[1..]);
    }
  }
}
