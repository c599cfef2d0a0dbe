/** The strict capability audit: binding manifest, composition tokens and registered routes. */
module StrictAudit {
  import opened Wrappers
  import opened AgentCapability
  import opened AgentApp

  // Endpoints and providers are compared by object identity.
  type Identity = nat

  // A registered route, or a wrapper that keeps the routes of an included router.
  datatype Route =
    | Concrete(path: string, methods: seq<string>, endpoint: Option<Identity>)
    | Included(routes: seq<Route>)

  datatype Endpoint = Endpoint(httpMethod: string, path: string, identity: Identity)

  datatype AuditAuthority = AuditAuthority(
    state: State,
    candidate: bool,
    factoryCallable: bool,
    agentRoutes: seq<Endpoint>,
    coefficientProvider: Option<Identity>,
    coefficientRoutes: seq<Endpoint>)

  const AGENT := "model_backed_agent"
  const COEFFICIENT := "coefficient_http"
  const AGENT_PREFIX := "/api/v1/agent/"
  const COEFFICIENT_PREFIX := "/api/v1/coefficients"

  const PROVIDER_ERROR := "COMPOSITION_MANIFEST_PROVIDER_ERROR"
  const FAKE_GATEWAY := "FAKE_AGENT_MODEL_GATEWAY_INSTANTIATED"
  const REAL_GATEWAY := "MIMO_AGENT_MODEL_GATEWAY_INSTANTIATED"
  const REAL_SERVICE := "REAL_PLANNING_AGENT_SERVICE_COMPOSED"
  const PROCESS_LOCAL_COEFFICIENTS := "PROCESS_LOCAL_COEFFICIENT_SERVICE_INSTANTIATED"
  const DATABASE_COEFFICIENTS := "DATABASE_COEFFICIENT_SERVICE_INSTANTIATED"

  const AGENT_MATRIX: set<(string, string)> := {
    ("POST", "/api/v1/agent/sessions"),
    ("GET", "/api/v1/agent/sessions"),
    ("GET", "/api/v1/agent/sessions/{session_id}"),
    ("GET", "/api/v1/agent/sessions/{session_id}/messages"),
    ("POST", "/api/v1/agent/sessions/{session_id}/messages"),
    ("GET", "/api/v1/agent/sessions/{session_id}/turns/{turn_id}"),
    ("GET", "/api/v1/agent/sessions/{session_id}/tool-calls"),
    ("POST", "/api/v1/agent/tool-calls/{tool_call_id}/confirm"),
    ("POST", "/api/v1/agent/tool-calls/{tool_call_id}/reject"),
    ("POST", "/api/v1/agent/sessions/{session_id}/cancel")}

  // ----- Binding manifest -----

  datatype Entry = Pair(name: string, identity: string) | MalformedEntry

  datatype Bindings = Missing | NotTuple | Tuple(entries: seq<Entry>)

  datatype ManifestError =
    | ManifestMissing
    | ManifestNotTuple
    | EntryMalformed
    | DuplicateIdentical
    | DuplicateConflicting
    | MissingRequired
    | UnknownCapability
    | UnknownBinding

  // Exactly the expected bindings, each once, in any order.
  predicate MatchesManifest(bindings: Bindings, expected: map<string, string>) {
    && bindings.Tuple?
    && (forall i | 0 <= i < |bindings.entries| :: bindings.entries[i].Pair?)
    && (forall i, j | 0 <= i < j < |bindings.entries| :: bindings.entries[i].name != bindings.entries[j].name)
    && (forall i | 0 <= i < |bindings.entries| ::
          bindings.entries[i].name in expected && expected[bindings.entries[i].name] == bindings.entries[i].identity)
    && (forall name | name in expected :: Pair(name, expected[name]) in bindings.entries)
  }

  // The entries are pairs with distinct names, and `seen` holds exactly them.
  ghost predicate Holds(seen: map<string, string>, entries: seq<Entry>) {
    && (forall i | 0 <= i < |entries| ::
          entries[i].Pair? && entries[i].name in seen && seen[entries[i].name] == entries[i].identity)
    && (forall i, j | 0 <= i < j < |entries| :: entries[i].name != entries[j].name)
    && (forall name | name in seen :: Pair(name, seen[name]) in entries)
  }

  lemma HoldsOneMore(seen: map<string, string>, entries: seq<Entry>, entry: Entry)
    requires Holds(seen, entries) && entry.Pair?
    ensures entry.name !in seen ==> Holds(seen[entry.name := entry.identity], entries + [entry])
    ensures entry.name in seen ==> exists i | 0 <= i < |entries| :: entries[i].Pair? && entries[i].name == entry.name
  {
  }

  lemma HeldMatches(seen: map<string, string>, entries: seq<Entry>, expected: map<string, string>)
    requires Holds(seen, entries)
    ensures MatchesManifest(Tuple(entries), expected) <==> seen == expected
  {
  }

  // The loop over the entries: the bindings seen, or the first malformed or duplicate entry.
  method ReadEntries(entries: seq<Entry>) returns (r: Result<map<string, string>, ManifestError>)
    ensures r.Ok? ==> Holds(r.value, entries)
    ensures r.Err? ==> forall expected :: !MatchesManifest(Tuple(entries), expected)
  {
    var seen: map<string, string> := map[];
    for i := 0 to |entries|
      invariant Holds(seen, entries[..i])
    {
      if entries[i].MalformedEntry? {
        return Err(EntryMalformed);
      }
      var name, identity := entries[i].name, entries[i].identity;
      HoldsOneMore(seen, entries[..i], entries[i]);
      if name in seen {
        assert exists k | 0 <= k < i :: entries[k].Pair? && entries[k].name == name;
        return Err(if seen[name] == identity then DuplicateIdentical else DuplicateConflicting);
      }
      seen := seen[name := identity];
      assert entries[..i + 1] == entries[..i] + [entries[i]];
    }
    assert entries[..|entries|] == entries;
    return Ok(seen);
  }

  // The loops over the expected names and over the names seen.
  method CompareBindings(seen: map<string, string>, expected: map<string, string>)
    returns (error: Option<ManifestError>)
    ensures error.None? <==> seen == expected
  {
    var todo := expected.Keys;
    while todo != {}
      invariant todo <= expected.Keys
      invariant forall name | name in expected && name !in todo :: name in seen
      decreases |todo|
    {
      var name :| name in todo;
      if name !in seen {
        return Some(MissingRequired);
      }
      todo := todo - {name};
    }
    var names := seen.Keys;
    while names != {}
      invariant names <= seen.Keys
      invariant forall name | name in seen && name !in names :: name in expected && expected[name] == seen[name]
      decreases |names|
    {
      var name :| name in names;
      if name !in expected {
        return Some(UnknownCapability);
      }
      if seen[name] != expected[name] {
        return Some(UnknownBinding);
      }
      names := names - {name};
    }
    return None;
  }

  // Main result: the validation passes exactly on the expected bindings.
  method ValidateManifest(bindings: Bindings, expected: map<string, string>) returns (error: Option<ManifestError>)
    ensures error.None? <==> MatchesManifest(bindings, expected)
  {
    if bindings.Missing? {
      return Some(ManifestMissing);
    }
    if bindings.NotTuple? {
      return Some(ManifestNotTuple);
    }
    var read := ReadEntries(bindings.entries);
    if read.Err? {
      return Some(read.error);
    }
    HeldMatches(read.value, bindings.entries, expected);
    error := CompareBindings(read.value, expected);
  }

  function ExpectedManifest(auth: Option<AuditAuthority>): map<string, string> {
    map[COEFFICIENT := "database_backed",
        AGENT := BindingName(if auth.Some? then auth.value.state else Disabled)]
  }

  // ----- Routes -----

  // The concrete route occurs somewhere below the wrappers.
  ghost predicate Occurs(r: Route, routes: seq<Route>)
    decreases routes
  {
    exists i | 0 <= i < |routes| ::
      if routes[i].Included? then Occurs(r, routes[i].routes) else routes[i] == r
  }

  function Flattened(routes: seq<Route>): seq<Route>
    decreases routes
  {
    if routes == [] then []
    else
      (match routes[0]
       case Included(nested) => Flattened(nested)
       case Concrete(_, _, _) => [routes[0]]) + Flattened(routes[1..])
  }

  lemma {:induction false} FlattenedExactly(routes: seq<Route>, r: Route)
    ensures r in Flattened(routes) <==> r.Concrete? && Occurs(r, routes)
    decreases routes
  {
    if routes != [] {
      FlattenedExactly(routes[1..], r);
      if routes[0].Included? {
        FlattenedExactly(routes[0].routes, r);
      }
      OccursSplits(r, routes);
    }
  }

  lemma OccursSplits(r: Route, routes: seq<Route>)
    requires routes != []
    ensures Occurs(r, routes) <==>
            (if routes[0].Included? then Occurs(r, routes[0].routes) else routes[0] == r) || Occurs(r, routes[1..])
  {
  }

  method Flatten(routes: seq<Route>) returns (flattened: seq<Route>)
    ensures flattened == Flattened(routes)
    decreases routes
  {
    flattened := [];
    assert routes[0..] == routes;
    for i := 0 to |routes|
      invariant flattened + Flattened(routes[i..]) == Flattened(routes)
    {
      assert routes[i..][1..] == routes[i + 1..];
      match routes[i]
      case Included(nested) =>
        var inner := Flatten(nested);
        assert flattened + (inner + Flattened(routes[i + 1..])) == (flattened + inner) + Flattened(routes[i + 1..]);
        flattened := flattened + inner;
      case Concrete(_, _, _) =>
        assert flattened + ([routes[i]] + Flattened(routes[i + 1..])) ==
               (flattened + [routes[i]]) + Flattened(routes[i + 1..]);
        flattened := flattened + [routes[i]];
    }
  }

  predicate Serves(r: Route, prefix: string, e: Endpoint) {
    r.Concrete? && prefix <= r.path && r.path == e.path && e.httpMethod in r.methods && r.endpoint == Some(e.identity)
  }

  // The (method, path, endpoint) triples registered below a prefix.
  ghost predicate Registered(routes: seq<Route>, prefix: string, e: Endpoint) {
    exists r :: Occurs(r, routes) && Serves(r, prefix, e)
  }

  ghost predicate HasRoute(routes: seq<Route>, prefix: string) {
    exists r: Route :: r.Concrete? && Occurs(r, routes) && prefix <= r.path
  }

  // ----- Specification -----

  predicate RealAgentRequired(auth: Option<AuditAuthority>) {
    auth.Some? && (auth.value.candidate || auth.value.state.EnabledReady?)
  }

  predicate AgentTokensHold(tokens: set<string>, auth: Option<AuditAuthority>) {
    && PROVIDER_ERROR !in tokens && FAKE_GATEWAY !in tokens
    && (RealAgentRequired(auth) ==> {REAL_GATEWAY, REAL_SERVICE} <= tokens && auth.value.factoryCallable)
  }

  predicate CoefficientTokensHold(tokens: set<string>) {
    PROVIDER_ERROR !in tokens && PROCESS_LOCAL_COEFFICIENTS !in tokens && DATABASE_COEFFICIENTS in tokens
  }

  // The registered endpoints below the prefix are exactly the frozen ones.
  ghost predicate SameEndpoints(routes: seq<Route>, prefix: string, frozen: seq<Endpoint>) {
    forall e :: Registered(routes, prefix, e) <==> e in frozen
  }

  function MethodPaths(endpoints: seq<Endpoint>): set<(string, string)> {
    set e | e in endpoints :: (e.httpMethod, e.path)
  }

  ghost predicate AgentSafe(tokens: set<string>, auth: Option<AuditAuthority>, routes: seq<Route>) {
    && AgentTokensHold(tokens, auth)
    && (HasRoute(routes, AGENT_PREFIX) ==>
          && auth.Some?
          && MethodPaths(auth.value.agentRoutes) == AGENT_MATRIX
          && SameEndpoints(routes, AGENT_PREFIX, auth.value.agentRoutes))
  }

  ghost predicate CoefficientSafe(tokens: set<string>, auth: Option<AuditAuthority>, routes: seq<Route>,
                                  production: Identity) {
    && CoefficientTokensHold(tokens)
    && (HasRoute(routes, COEFFICIENT_PREFIX) ==>
          && auth.Some?
          && auth.value.coefficientRoutes != []
          && auth.value.coefficientProvider == Some(production)
          && SameEndpoints(routes, COEFFICIENT_PREFIX, auth.value.coefficientRoutes))
  }

  // ----- Implementation -----

  method CollectEndpoints(flattened: seq<Route>, prefix: string) returns (actual: seq<Endpoint>)
    ensures forall e :: e in actual <==> exists r :: r in flattened && Serves(r, prefix, e)
  {
    actual := [];
    for i := 0 to |flattened|
      invariant forall e :: e in actual <==> exists r :: r in flattened[..i] && Serves(r, prefix, e)
    {
      var r := flattened[i];
      assert flattened[..i + 1] == flattened[..i] + [r];
      ghost var before := actual;
      if r.Concrete? && prefix <= r.path && r.endpoint.Some? {
        for j := 0 to |r.methods|
          invariant forall e :: e in actual <==>
                      e in before ||
                      (e.httpMethod in r.methods[..j] && e.path == r.path && Some(e.identity) == r.endpoint)
        {
          actual := actual + [Endpoint(r.methods[j], r.path, r.endpoint.value)];
        }
        assert r.methods[..|r.methods|] == r.methods;
      }
      assert forall e :: e in actual <==> e in before || Serves(r, prefix, e);
    }
    assert flattened[..|flattened|] == flattened;
  }

  // The loop over the flattened routes that looks for a path below the prefix.
  method AnyBelow(flattened: seq<Route>, prefix: string) returns (found: bool)
    ensures found <==> exists i | 0 <= i < |flattened| :: flattened[i].Concrete? && prefix <= flattened[i].path
  {
    for i := 0 to |flattened|
      invariant forall k | 0 <= k < i :: !(flattened[k].Concrete? && prefix <= flattened[k].path)
    {
      if flattened[i].Concrete? && prefix <= flattened[i].path {
        return true;
      }
    }
    return false;
  }

  // The final loops: every actual endpoint is one of the frozen ones.
  method EveryEndpointFound(actual: seq<Endpoint>, frozen: seq<Endpoint>) returns (ok: bool)
    ensures ok <==> forall i | 0 <= i < |actual| :: actual[i] in frozen
  {
    for i := 0 to |actual|
      invariant forall k | 0 <= k < i :: actual[k] in frozen
    {
      var found := false;
      for j := 0 to |frozen|
        invariant found <==> actual[i] in frozen[..j]
      {
        if actual[i] == frozen[j] {
          found := true;
          break;
        }
      }
      if !found {
        return false;
      }
    }
    return true;
  }

  function ToSet(endpoints: seq<Endpoint>): set<Endpoint> {
    set e | e in endpoints
  }

  // Once the endpoint sets are equal the final loops find every endpoint: they never decide.
  lemma FinalLoopsNeverDecide(actual: seq<Endpoint>, frozen: seq<Endpoint>)
    requires ToSet(actual) == ToSet(frozen)
    ensures forall i | 0 <= i < |actual| :: actual[i] in frozen
    ensures MethodPaths(actual) == MethodPaths(frozen)
  {
    assert forall e :: e in actual <==> e in ToSet(actual);
    assert forall e :: e in frozen <==> e in ToSet(frozen);
  }

  lemma CollectedIsRegistered(routes: seq<Route>, prefix: string, actual: seq<Endpoint>, frozen: seq<Endpoint>)
    requires forall e :: e in actual <==> exists r :: r in Flattened(routes) && Serves(r, prefix, e)
    ensures ToSet(actual) == ToSet(frozen) <==> SameEndpoints(routes, prefix, frozen)
  {
    forall e
      ensures e in actual <==> Registered(routes, prefix, e)
    {
      forall r: Route | r.Concrete?
        ensures r in Flattened(routes) <==> Occurs(r, routes)
      {
        FlattenedExactly(routes, r);
      }
    }
    if ToSet(actual) == ToSet(frozen) {
      assert forall e :: e in actual <==> e in ToSet(actual);
      assert forall e :: e in frozen <==> e in ToSet(frozen);
    }
  }

  lemma FoundIsHasRoute(routes: seq<Route>, prefix: string)
    ensures HasRoute(routes, prefix) <==>
            exists i | 0 <= i < |Flattened(routes)| ::
            Flattened(routes)[i].Concrete? && prefix <= Flattened(routes)[i].path
  {
    forall r: Route
      ensures r in Flattened(routes) <==> r.Concrete? && Occurs(r, routes)
    {
      FlattenedExactly(routes, r);
    }
    if HasRoute(routes, prefix) {
      var r: Route :| r.Concrete? && Occurs(r, routes) && prefix <= r.path;
      assert r in Flattened(routes);
    }
  }

  method AuditAgentTokens(tokens: set<string>, auth: Option<AuditAuthority>) returns (ok: bool)
    ensures ok <==> AgentTokensHold(tokens, auth)
  {
    if PROVIDER_ERROR in tokens || FAKE_GATEWAY in tokens {
      return false;
    }
    var required := auth.Some? && (auth.value.candidate || auth.value.state.EnabledReady?);
    if required && REAL_GATEWAY !in tokens {
      return false;
    }
    if required && REAL_SERVICE !in tokens {
      return false;
    }
    if required && !auth.value.factoryCallable {
      return false;
    }
    return true;
  }

  method AuditAgent(tokens: set<string>, auth: Option<AuditAuthority>, routes: seq<Route>) returns (reachable: bool)
    ensures reachable <==> !AgentSafe(tokens, auth, routes)
  {
    var tokensOk := AuditAgentTokens(tokens, auth);
    if !tokensOk {
      return true;
    }
    var flattened := Flatten(routes);
    FoundIsHasRoute(routes, AGENT_PREFIX);
    var hasRoute := AnyBelow(flattened, AGENT_PREFIX);
    if !hasRoute {
      return false;
    }
    if auth.None? {
      return true;
    }
    var frozen := auth.value.agentRoutes;
    var actual := CollectEndpoints(flattened, AGENT_PREFIX);
    CollectedIsRegistered(routes, AGENT_PREFIX, actual, frozen);
    if ToSet(actual) == ToSet(frozen) {
      FinalLoopsNeverDecide(actual, frozen);
    }
    if MethodPaths(frozen) != AGENT_MATRIX {
      return true;
    }
    if MethodPaths(actual) != AGENT_MATRIX {
      return true;
    }
    if ToSet(actual) - ToSet(frozen) != {} {
      return true;
    }
    if ToSet(frozen) - ToSet(actual) != {} {
      return true;
    }
    assert ToSet(actual) == ToSet(frozen);
    var found := EveryEndpointFound(actual, frozen);
    return !found;
  }

  method AuditCoefficients(tokens: set<string>, auth: Option<AuditAuthority>, routes: seq<Route>, production: Identity)
    returns (reachable: bool)
    ensures reachable <==> !CoefficientSafe(tokens, auth, routes, production)
  {
    if PROVIDER_ERROR in tokens || PROCESS_LOCAL_COEFFICIENTS in tokens || DATABASE_COEFFICIENTS !in tokens {
      return true;
    }
    var flattened := Flatten(routes);
    FoundIsHasRoute(routes, COEFFICIENT_PREFIX);
    var hasRoute := AnyBelow(flattened, COEFFICIENT_PREFIX);
    if !hasRoute {
      return false;
    }
    if auth.None? || auth.value.coefficientProvider.None? || auth.value.coefficientRoutes == [] {
      return true;
    }
    if auth.value.coefficientProvider.value != production {
      return true;
    }
    var frozen := auth.value.coefficientRoutes;
    var actual := CollectEndpoints(flattened, COEFFICIENT_PREFIX);
    CollectedIsRegistered(routes, COEFFICIENT_PREFIX, actual, frozen);
    if ToSet(actual) != ToSet(frozen) {
      return true;
    }
    FinalLoopsNeverDecide(actual, frozen);
    var found := EveryEndpointFound(actual, frozen);
    return !found;
  }

  datatype AuditResult = Raised | Reachable(capabilities: seq<string>)

  // The mode of the canonical settings, absent before they are initialised.
  predicate Audited(canonicalMode: Option<Mode>) {
    canonicalMode.Some? && canonicalMode.value.Strict()
  }

  // Main result: in strict modes, given an application and a matching manifest, the audit lists
  // exactly the capabilities that are not safe.  Outside strict modes, and as long as there are no
  // canonical settings, it lists nothing.
  method Enumerate(canonicalMode: Option<Mode>, app: Option<seq<Route>>, bindings: Bindings, tokens: set<string>,
                   auth: Option<AuditAuthority>, production: Identity)
    returns (r: AuditResult)
    ensures !Audited(canonicalMode) ==> r == Reachable([])
    ensures Audited(canonicalMode) ==>
              (r.Raised? <==> app.None? || !MatchesManifest(bindings, ExpectedManifest(auth)))
    ensures Audited(canonicalMode) && r.Reachable? ==>
              r.capabilities == (if AgentSafe(tokens, auth, app.value) then [] else [AGENT]) +
                                (if CoefficientSafe(tokens, auth, app.value, production) then [] else [COEFFICIENT])
  {
    if canonicalMode.None? || !canonicalMode.value.Strict() {
      return Reachable([]);
    }
    if app.None? {
      return Raised;
    }
    var error := ValidateManifest(bindings, ExpectedManifest(auth));
    if error.Some? {
      return Raised;
    }
    var reachable: seq<string> := [];
    var agent := AuditAgent(tokens, auth, app.value);
    if agent {
      reachable := reachable + [AGENT];
    }
    var coefficients := AuditCoefficients(tokens, auth, app.value, production);
    if coefficients {
      reachable := reachable + [COEFFICIENT];
    }
    return Reachable(reachable);
  }

  // What the assertion around the audit yields: a proof of both flags, or an exception.
  ghost function AuditOutcome(canonicalMode: Option<Mode>, app: Option<seq<Route>>, bindings: Bindings,
                              tokens: set<string>, auth: Option<AuditAuthority>, production: Identity): Audit {
    if Audited(canonicalMode) &&
       !(&& app.Some? && MatchesManifest(bindings, ExpectedManifest(auth))
         && AgentSafe(tokens, auth, app.value) && CoefficientSafe(tokens, auth, app.value, production))
    then Unsafe
    else Proof(AuditProof(true, true))
  }

  // The assertion never returns a proof that did not pass; without canonical settings it returns
  // one without looking.
  method AssertNoUnsafeCapabilities(canonicalMode: Option<Mode>, app: Option<seq<Route>>, bindings: Bindings,
                                    tokens: set<string>, auth: Option<AuditAuthority>, production: Identity)
    returns (r: Audit)
    ensures r == AuditOutcome(canonicalMode, app, bindings, tokens, auth, production)
    ensures r.Proof? ==> r.proof.Passed()
    ensures canonicalMode.None? ==> r.Proof?
  {
    var audit := Enumerate(canonicalMode, app, bindings, tokens, auth, production);
    if audit.Raised? || audit.capabilities != [] {
      return Unsafe;
    }
    return Proof(AuditProof(true, true));
  }

  function EntriesOf(manifest: Manifest): seq<Entry> {
    seq(|manifest|, i requires 0 <= i < |manifest| => Pair(manifest[i].0, manifest[i].1))
  }

  lemma ManifestMatchesState(state: State, auth: AuditAuthority)
    ensures MatchesManifest(Tuple(EntriesOf(BindingManifest(state))), ExpectedManifest(Some(auth))) <==>
            auth.state == state
  {
    var entries := EntriesOf(BindingManifest(state));
    var expected := ExpectedManifest(Some(auth));
    assert entries[0] == Pair(COEFFICIENT, "database_backed") && entries[1] == Pair(AGENT, BindingName(state));
    assert COEFFICIENT[0] != AGENT[0];
    BindingNamesDiffer(auth.state, state);
    assert forall name | name in expected :: name == COEFFICIENT || name == AGENT;
  }

  // The manifest an application publishes passes the validation exactly when the audited authority
  // carries the published state.
  lemma PublishedManifestPasses(app: AppState, auth: AuditAuthority)
    requires Coherent(app) && app.mode.Strict()
    ensures MatchesManifest(Tuple(EntriesOf(app.bindings)), ExpectedManifest(Some(auth))) <==>
            auth.state == app.box.state
  {
    ManifestMatchesState(app.box.state, auth);
  }

  lemma BindingNamesDiffer(a: State, b: State)
    ensures BindingName(a) == BindingName(b) <==> a == b
  {
  }

  // ----- What the tokens must say -----

  // The token requirements, spelled out.
  lemma TokensExactly(tokens: set<string>, auth: Option<AuditAuthority>)
    ensures AgentTokensHold(tokens, auth) <==>
            && "COMPOSITION_MANIFEST_PROVIDER_ERROR" !in tokens && "FAKE_AGENT_MODEL_GATEWAY_INSTANTIATED" !in tokens
            && (auth.Some? && (auth.value.candidate || auth.value.state == EnabledReady) ==>
                  && "MIMO_AGENT_MODEL_GATEWAY_INSTANTIATED" in tokens
                  && "REAL_PLANNING_AGENT_SERVICE_COMPOSED" in tokens
                  && auth.value.factoryCallable)
    ensures CoefficientTokensHold(tokens) <==>
            && "COMPOSITION_MANIFEST_PROVIDER_ERROR" !in tokens
            && "PROCESS_LOCAL_COEFFICIENT_SERVICE_INSTANTIATED" !in tokens
            && "DATABASE_COEFFICIENT_SERVICE_INSTANTIATED" in tokens
  {
  }

  // ----- The two audits of a transition -----

  // The audit of an authority that carries `state`, against the manifest of that state.
  ghost function AuditIn(state: State, mode: Mode, routes: seq<Route>, tokens: set<string>, auth: AuditAuthority,
                         production: Identity): Audit {
    AuditOutcome(Some(mode), Some(routes), Tuple(EntriesOf(BindingManifest(state))), tokens,
                 Some(auth.(state := state)), production)
  }

  // Main result: for a candidate the audit of the final authority and manifest says what the audit
  // of the provisional ones said; with tokens and routes unchanged it never decides.
  lemma SecondAuditNeverDecides(mode: Mode, routes: seq<Route>, tokens: set<string>, auth: AuditAuthority,
                                production: Identity)
    requires auth.candidate && mode.Strict()
    ensures AuditIn(EnabledReady, mode, routes, tokens, auth, production) ==
            AuditIn(EnabledNotReady, mode, routes, tokens, auth, production)
    ensures AuditIn(EnabledNotReady, mode, routes, tokens, auth, production).Proof? <==>
            AgentSafe(tokens, Some(auth), routes) && CoefficientSafe(tokens, Some(auth), routes, production)
  {
    ManifestMatchesState(EnabledReady, auth.(state := EnabledReady));
    ManifestMatchesState(EnabledNotReady, auth.(state := EnabledNotReady));
  }

  // Main result: with its real audits, a refresh under a valid configuration leaves the guard
  // admitting exactly when the probe proves the configuration and the audited application is safe.
  lemma RefreshUnderRealAudits(app: AppState, s: Settings, probe: Option<ProbeResult>, routes: seq<Route>,
                               tokens: set<string>, auth: AuditAuthority, production: Identity)
    requires Coherent(app) && app.box.candidate && auth.candidate && ValidConfiguration(s)
    ensures var first := AuditIn(EnabledNotReady, app.mode, routes, tokens, auth, production);
            var second := AuditIn(EnabledReady, app.mode, routes, tokens, auth, production);
            Guard(Step(app, Refresh(s, probe, first, second)).box).Admitted? <==>
            && ProbeProves(s, probe)
            && AgentSafe(tokens, Some(auth), routes) && CoefficientSafe(tokens, Some(auth), routes, production)
  {
    SecondAuditNeverDecides(app.mode, routes, tokens, auth, production);
    RefreshDecidesAfresh(app, s, probe, AuditIn(EnabledNotReady, app.mode, routes, tokens, auth, production),
                         AuditIn(EnabledReady, app.mode, routes, tokens, auth, production));
  }

  // ----- Extra routes -----

  lemma OccursAppended(r: Route, routes: seq<Route>, extra: Route)
    requires extra.Concrete?
    ensures Occurs(r, routes + [extra]) <==> Occurs(r, routes) || r == extra
  {
    var all := routes + [extra];
    if Occurs(r, routes) {
      var i :| 0 <= i < |routes| && if routes[i].Included? then Occurs(r, routes[i].routes) else routes[i] == r;
      assert all[i] == routes[i];
    }
    if r == extra {
      assert all[|routes|] == extra;
    }
    if Occurs(r, all) {
      var i :| 0 <= i < |all| && if all[i].Included? then Occurs(r, all[i].routes) else all[i] == r;
      assert i < |routes| ==> all[i] == routes[i];
    }
  }

  lemma RegisteredAppended(routes: seq<Route>, extra: Route)
    requires forall r :: Occurs(r, routes + [extra]) <==> Occurs(r, routes) || r == extra
    ensures forall e :: Registered(routes + [extra], AGENT_PREFIX, e) <==>
                        Registered(routes, AGENT_PREFIX, e) || Serves(extra, AGENT_PREFIX, e)
  {
    forall e | Registered(routes, AGENT_PREFIX, e)
      ensures Registered(routes + [extra], AGENT_PREFIX, e)
    {
      var r :| Occurs(r, routes) && Serves(r, AGENT_PREFIX, e);
      assert Occurs(r, routes + [extra]);
    }
  }

  // Main result: an extra agent route beside the frozen ones is reported exactly when it serves some
  // endpoint that is not frozen.
  lemma ExtraRouteReportedExactly(tokens: set<string>, auth: AuditAuthority, routes: seq<Route>, extra: Route)
    requires AgentSafe(tokens, Some(auth), routes) && HasRoute(routes, AGENT_PREFIX)
    requires extra.Concrete? && AGENT_PREFIX <= extra.path
    ensures !AgentSafe(tokens, Some(auth), routes + [extra]) <==>
            exists e :: Serves(extra, AGENT_PREFIX, e) && e !in auth.agentRoutes
  {
    forall r: Route
      ensures Occurs(r, routes + [extra]) <==> Occurs(r, routes) || r == extra
    {
      OccursAppended(r, routes, extra);
    }
    RegisteredAppended(routes, extra);
    assert HasRoute(routes + [extra], AGENT_PREFIX);
  }

  // So a route without methods or without an endpoint, such as a mount, is never reported.
  lemma SilentRouteEscapes(tokens: set<string>, auth: AuditAuthority, routes: seq<Route>, extra: Route)
    requires AgentSafe(tokens, Some(auth), routes) && HasRoute(routes, AGENT_PREFIX)
    requires extra.Concrete? && AGENT_PREFIX <= extra.path && (extra.methods == [] || extra.endpoint.None?)
    ensures AgentSafe(tokens, Some(auth), routes + [extra])
  {
    ExtraRouteReportedExactly(tokens, auth, routes, extra);
  }
}
