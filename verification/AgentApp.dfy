/** Creation, startup, refresh and shutdown of one application, and the copies of the agent
    capability state that each of them publishes. */
module AgentApp {
  import opened Wrappers
  import opened AgentCapability

  datatype Mode = Local | Test | Staging | Production {
    predicate Strict() {
      Staging? || Production?
    }
  }

  // The route tuples of the real record take no part in the transitions below.
  datatype Authority = Authority(state: State, evidence: Evidence, candidate: bool)

  datatype ProjectionStatus = StatusDisabled | StatusNotReady | StatusAvailable

  datatype ProjectionCode = OutOfProductionScope | Provider(failure: FailureCode)

  datatype Projection = Projection(
    status: ProjectionStatus,
    code: Option<ProjectionCode>,
    blocking: bool,
    state: State,
    exposure: Exposure)

  type Manifest = seq<(string, string)>

  // The result of one strict audit: a proof, or the exception it raised.
  datatype Audit = Proof(proof: AuditProof) | Unsafe | RaisedRuntimeError | RaisedAnother

  function BindingName(state: State): string {
    match state
    case Disabled => "disabled"
    case EnabledNotReady => "enabled_not_ready"
    case EnabledReady => "enabled_ready"
  }

  function BindingManifest(state: State): Manifest {
    [("coefficient_http", "database_backed"), ("model_backed_agent", BindingName(state))]
  }

  function ProjectionEntry(mode: Mode, e: Evidence): Projection {
    if !mode.Strict() then Projection(StatusDisabled, Some(OutOfProductionScope), false, Disabled, DisabledMatrix)
    else
      match e.state
      case EnabledReady => Projection(StatusAvailable, None, false, EnabledReady, RealRoutes)
      case EnabledNotReady =>
        Projection(StatusNotReady, Some(Provider(e.failure.GetOr(Unavailable))), true, EnabledNotReady, DisabledMatrix)
      case Disabled => Projection(StatusDisabled, Some(OutOfProductionScope), false, Disabled, DisabledMatrix)
  }

  // Every place the capability state is kept.
  datatype AppState = AppState(
    mode: Mode,
    box: Authority,                  // read by the request guard
    stateAuthority: Authority,       // diagnostic copy on app.state
    bindings: Manifest,              // read by the strict audit
    evidence: Evidence,              // read by the readiness endpoint
    projection: Projection,
    singleton: Option<Evidence>)     // process-wide copy, absent while dependencies are down

  datatype Event =
    | Startup(initialized: bool, first: Audit, second: Audit)
    | Refresh(settings: Settings, probe: Option<ProbeResult>, first: Audit, second: Audit)
    | Shutdown

  // ----- Specification -----

  function Candidate(mode: Mode, s: Settings): bool {
    mode.Strict() && Resolve(s).intent && Resolve(s).valid
  }

  function Created(mode: Mode, s: Settings, probe: Option<ProbeResult>): AppState {
    var e := ResolveEvidence(s, probe);
    var authority := Authority(e.state, e, Candidate(mode, s));
    AppState(mode, authority, authority, if mode.Strict() then BindingManifest(e.state) else [], e,
             ProjectionEntry(mode, e), None)
  }

  function Published(app: AppState, e: Evidence): AppState {
    var authority := app.box.(state := e.state, evidence := e);
    AppState(app.mode, authority, authority, BindingManifest(e.state), e, ProjectionEntry(app.mode, e), Some(e))
  }

  // What an audit failure during a refresh leaves of a passed preflight.
  function Demoted(preflight: Evidence): Evidence {
    preflight.(state := EnabledNotReady, compositionPassed := false, routeAuditPassed := false,
               failure := Some(Unavailable), readiness := Fail, exposure := DisabledMatrix)
  }

  // The evidence a refresh publishes, if it publishes any.
  function RefreshVerdict(app: AppState, s: Settings, probe: Option<ProbeResult>, first: Audit, second: Audit)
    : Option<Evidence>
  {
    var preflight := ResolveEvidence(s, probe);
    if !app.box.candidate || !ValidConfiguration(s) then None
    else if !preflight.probePassed then Some(preflight)
    else if first.RaisedAnother? then None
    else if !first.Proof? then Some(Demoted(preflight))
    else if !first.proof.Passed() then Some(Finalize(preflight, first.proof))
    else if second.RaisedAnother? then None
    else if second.Proof? && second.proof.Passed() then Some(Finalize(preflight, first.proof))
    else Some(Demoted(preflight))
  }

  // The evidence a startup publishes; None when an audit or the initialisation stops it.
  function StartupVerdict(app: AppState, initialized: bool, first: Audit, second: Audit): Option<Evidence> {
    if !initialized || !first.Proof? then None
    else
      var final := Finalize(app.box.evidence, first.proof);
      if final.state.EnabledReady? && !(second.Proof? && second.proof.Passed()) then None else Some(final)
  }

  function Step(app: AppState, event: Event): AppState {
    match event
    case Shutdown => app.(singleton := None)
    case Startup(initialized, first, second) =>
      if initialized && !app.box.candidate then app.(singleton := Some(app.box.evidence))
      else
        (match StartupVerdict(app, initialized, first, second)
         case None => app.(singleton := None)
         case Some(e) => Published(app, e))
    case Refresh(s, probe, first, second) =>
      (match RefreshVerdict(app, s, probe, first, second)
       case None => app
       case Some(e) => Published(app, e))
  }

  function Run(app: AppState, events: seq<Event>): AppState
    decreases |events|
  {
    if events == [] then app else Run(Step(app, events[0]), events[1..])
  }

  // ----- Implementation -----

  datatype GuardResult = Admitted | NotReady(failure: FailureCode)

  class App {
    const mode: Mode
    var box: Option<Authority>
    var stateAuthority: Option<Authority>
    var bindings: Manifest
    var evidence: Evidence
    var projection: Projection
    var singleton: Option<Evidence>

    ghost predicate Ready()
      reads this
    {
      box.Some? && stateAuthority.Some?
    }

    ghost function Contents(): AppState
      requires Ready()
      reads this
    {
      AppState(mode, box.value, stateAuthority.value, bindings, evidence, projection, singleton)
    }

    // create_app: the box is filled last, after the routes are registered.
    constructor (mode: Mode, s: Settings, probe: Option<ProbeResult>)
      ensures Ready() && Contents() == Created(mode, s, probe)
    {
      this.mode := mode;
      box, stateAuthority, singleton := None, None, None;
      var initial := ResolveEvidence(s, probe);
      evidence := initial;
      projection := ProjectionEntry(mode, initial);
      new;
      var resolution := Resolve(s);
      var candidate := mode.Strict() && (resolution.intent && resolution.valid);
      if mode.Strict() {
        bindings := [("coefficient_http", "database_backed"), ("model_backed_agent", BindingName(initial.state))];
      } else {
        bindings := [];
      }
      var authority := Authority(initial.state, initial, candidate);
      stateAuthority := Some(authority);
      box := Some(authority);
    }

    method Publish(authority: Authority, e: Evidence)
      modifies this
      ensures Ready()
      ensures box == stateAuthority == Some(authority) && bindings == BindingManifest(authority.state)
      ensures evidence == e && singleton == Some(e) && projection == ProjectionEntry(mode, e)
    {
      box := Some(authority);
      stateAuthority := Some(authority);
      bindings := BindingManifest(authority.state);
      evidence := e;
      projection := ProjectionEntry(mode, e);
      singleton := Some(e);
    }

    // shutdown_dependencies, as far as it concerns the capability.
    method Shutdown()
      requires Ready()
      modifies this`singleton
      ensures Contents() == Step(old(Contents()), Event.Shutdown)
    {
      singleton := None;
    }

    // The lifespan up to its yield.  When it fails, its finally clause shuts dependencies down.
    method Startup(initialized: bool, first: Audit, second: Audit) returns (started: bool)
      requires Ready()
      modifies this
      ensures Ready() && Contents() == Step(old(Contents()), Event.Startup(initialized, first, second))
      ensures started <==>
              initialized && (old(box.value.candidate) ==>
              StartupVerdict(old(Contents()), initialized, first, second).Some?)
    {
      var auth := box.value;
      if !initialized {
        Shutdown();
        return false;
      }
      singleton := Some(auth.evidence);
      if auth.candidate {
        if !first.Proof? {
          Shutdown();
          return false;
        }
        var final := Finalize(auth.evidence, first.proof);
        var finalAuthority := auth.(state := final.state, evidence := final);
        if final.state.EnabledReady? {
          if !second.Proof? || !(second.proof.compositionPassed && second.proof.routeAuditPassed) {
            Shutdown();
            return false;
          }
        }
        Publish(finalAuthority, final);
      }
      return true;
    }

    method PublishNotReady(current: Authority, e: Evidence)
      requires e.state.EnabledNotReady? && current.candidate && Ready() && box.value == current
      modifies this
      ensures Ready() && Contents() == Published(old(Contents()), e)
    {
      Publish(current.(state := EnabledNotReady, evidence := e, candidate := true), e);
    }

    method Refresh(s: Settings, probe: Option<ProbeResult>, first: Audit, second: Audit)
      requires Ready()
      modifies this
      ensures Ready() && Contents() == Step(old(Contents()), Event.Refresh(s, probe, first, second))
    {
      var current := box.value;
      var resolution := Resolve(s);
      ResolvesExactly(s);
      ResolvedIsHonest(s, probe);
      if !current.candidate || !resolution.intent || !resolution.valid {
        return;
      }
      var preflight := ResolveEvidence(s, probe);
      if !preflight.probePassed {
        PublishNotReady(current, preflight);
        return;
      }
      var candidateAuthority := current.(state := EnabledNotReady, evidence := preflight, candidate := true);
      var notReady := Demoted(preflight);
      match first
      case RaisedAnother =>
        return;
      case Unsafe =>
        PublishNotReady(current, notReady);
      case RaisedRuntimeError =>
        PublishNotReady(current, notReady);
      case Proof(proof) =>
        var final := Finalize(preflight, proof);
        var finalAuthority := candidateAuthority.(state := final.state, evidence := final);
        if !final.state.EnabledReady? {
          Publish(finalAuthority, final);
          return;
        }
        if second.RaisedAnother? {
          return;
        }
        if second.Proof? && second.proof.compositionPassed && second.proof.routeAuditPassed {
          Publish(finalAuthority, final);
        } else {
          PublishNotReady(current, notReady);
        }
    }

    // The request dependency of the guarded routes reads the box and nothing else.  On coherent
    // copies it answers what the published projection says.
    method EnsureReady() returns (r: GuardResult)
      requires Ready()
      ensures r == Guard(box.value)
      ensures Coherent(Contents()) ==>
                && (r.Admitted? <==> projection.status.StatusAvailable?)
                && (projection.blocking ==> r.NotReady? && projection.code == Some(Provider(r.failure)))
      ensures Coherent(Contents()) && r.Admitted? ==>
                && Configured(evidence.provider, evidence.model, evidence.timeoutSeconds, evidence.maxRetries)
                && evidence.probePassed && evidence.compositionPassed && evidence.routeAuditPassed
    {
      var authority := box.value;
      var e := authority.evidence;
      var verified := authority.state.EnabledReady? && e.state.EnabledReady? && e.probePassed && e.schemaVerified
                      && e.compositionPassed && e.routeAuditPassed;
      if !verified {
        return NotReady(e.failure.GetOr(Unavailable));
      }
      return Admitted;
    }
  }

  function Guard(authority: Authority): GuardResult {
    var e := authority.evidence;
    if authority.state.EnabledReady? && e.state.EnabledReady? && e.probePassed && e.schemaVerified
       && e.compositionPassed && e.routeAuditPassed
    then Admitted
    else NotReady(e.failure.GetOr(Unavailable))
  }

  // ----- Coherence -----

  // All copies describe one state, backed by honest evidence.
  predicate Coherent(app: AppState) {
    && Honest(app.box.evidence)
    && app.box.state == app.box.evidence.state
    && app.stateAuthority == app.box
    && app.evidence == app.box.evidence
    && app.projection == ProjectionEntry(app.mode, app.box.evidence)
    && app.bindings == (if app.mode.Strict() then BindingManifest(app.box.state) else [])
    && (app.singleton.Some? ==> app.singleton.value == app.box.evidence)
    && (app.box.candidate ==> app.mode.Strict() && !app.box.state.Disabled?)
    && (app.box.state.EnabledReady? ==> app.box.candidate)
  }

  lemma CreatedCoherent(mode: Mode, s: Settings, probe: Option<ProbeResult>)
    ensures Coherent(Created(mode, s, probe))
  {
    ResolvesExactly(s);
    ResolvedIsHonest(s, probe);
  }

  lemma PublishedCoherent(app: AppState, e: Evidence)
    requires Coherent(app) && app.box.candidate && Honest(e) && !e.state.Disabled?
    ensures Coherent(Published(app, e))
  {
  }

  lemma VerdictsAreHonest(app: AppState, event: Event)
    requires Coherent(app) && app.box.candidate
    ensures event.Startup? ==>
              match StartupVerdict(app, event.initialized, event.first, event.second)
              case None => true
              case Some(e) => Honest(e) && !e.state.Disabled?
    ensures event.Refresh? ==>
              match RefreshVerdict(app, event.settings, event.probe, event.first, event.second)
              case None => true
              case Some(e) => Honest(e) && !e.state.Disabled?
  {
    if event.Refresh? {
      ResolvesExactly(event.settings);
      ResolvedIsHonest(event.settings, event.probe);
    }
  }

  lemma StepKeepsCoherent(app: AppState, event: Event)
    requires Coherent(app)
    ensures Coherent(Step(app, event))
    ensures Step(app, event).mode == app.mode && Step(app, event).box.candidate == app.box.candidate
  {
    if app.box.candidate {
      VerdictsAreHonest(app, event);
      forall e | Honest(e) && !e.state.Disabled?
        ensures Coherent(Published(app, e))
      {
        PublishedCoherent(app, e);
      }
    }
  }

  // Main result: the copies agree after any sequence of startups, refreshes and shutdowns, with
  // arbitrary probe and audit results.
  lemma {:induction false} RunKeepsCoherent(app: AppState, events: seq<Event>)
    requires Coherent(app)
    ensures Coherent(Run(app, events))
    ensures Run(app, events).mode == app.mode && Run(app, events).box.candidate == app.box.candidate
    decreases |events|
  {
    if events != [] {
      StepKeepsCoherent(app, events[0]);
      RunKeepsCoherent(Step(app, events[0]), events[1..]);
    }
  }

  // Main result: in every reachable state the guard admits exactly when the published state is
  // READY, and then every copy says so and the evidence was earned.
  lemma GuardAdmitsExactlyWhenReady(mode: Mode, s: Settings, probe: Option<ProbeResult>, events: seq<Event>)
    ensures var app := Run(Created(mode, s, probe), events);
            && (Guard(app.box).Admitted? <==> app.box.state.EnabledReady?)
            && (Guard(app.box).Admitted? <==> app.evidence.state.EnabledReady?)
            && (Guard(app.box).Admitted? <==> app.projection.status.StatusAvailable?)
            && (Guard(app.box).Admitted? <==> app.bindings == BindingManifest(EnabledReady))
            && (Guard(app.box).Admitted? ==>
                  mode.Strict() && app.evidence.probePassed && app.evidence.schemaVerified
                  && Configured(app.evidence.provider, app.evidence.model,
                     app.evidence.timeoutSeconds, app.evidence.maxRetries))
            && (app.projection.blocking <==> mode.Strict() && app.box.state.EnabledNotReady?)
            && (Guard(app.box).NotReady? && app.projection.status.StatusNotReady? ==>
                  app.projection.code == Some(Provider(Guard(app.box).failure)))
  {
    CreatedCoherent(mode, s, probe);
    RunKeepsCoherent(Created(mode, s, probe), events);
    assert BindingManifest(EnabledReady)[1].1 == "enabled_ready";
    assert BindingManifest(EnabledNotReady)[1].1 == "enabled_not_ready";
    assert BindingManifest(Disabled)[1].1 == "disabled";
  }

  // ----- What a READY state goes back to -----

  // The evidence an event publishes, if it publishes any.
  function Verdict(app: AppState, event: Event): Option<Evidence> {
    match event
    case Startup(initialized, first, second) =>
      if app.box.candidate then StartupVerdict(app, initialized, first, second) else None
    case Refresh(s, probe, first, second) => RefreshVerdict(app, s, probe, first, second)
    case Shutdown => None
  }

  predicate AuditsPassed(event: Event) {
    && !event.Shutdown?
    && event.first.Proof? && event.first.proof.Passed()
    && event.second.Proof? && event.second.proof.Passed()
  }

  // Settings and probe result a preflight was resolved from.
  datatype Source = Source(settings: Settings, probe: Option<ProbeResult>)

  function NextSource(app: AppState, source: Source, event: Event): Source {
    if event.Refresh? && Verdict(app, event).Some? then Source(event.settings, event.probe) else source
  }

  // The source of the evidence in force: that of the last publishing refresh, or of the creation.
  function SourceOf(app: AppState, source: Source, events: seq<Event>): Source
    decreases |events|
  {
    if events == [] then source
    else SourceOf(Step(app, events[0]), NextSource(app, source, events[0]), events[1..])
  }

  predicate Proves(source: Source, e: Evidence) {
    && ValidConfiguration(source.settings) && ProbeProves(source.settings, source.probe)
    && e.provider == source.settings.provider && e.model == source.settings.model
    && e.timeoutSeconds == source.settings.timeoutSeconds && e.maxRetries == source.settings.maxRetries
  }

  lemma ResolvedIsProved(s: Settings, probe: Option<ProbeResult>)
    ensures ResolveEvidence(s, probe).probePassed ==> Proves(Source(s, probe), ResolveEvidence(s, probe))
  {
    ResolvedIsHonest(s, probe);
    ResolvesExactly(s);
  }

  lemma StepKeepsProved(app: AppState, source: Source, event: Event)
    requires app.box.evidence.probePassed ==> Proves(source, app.box.evidence)
    ensures var e := Step(app, event).box.evidence;
            e.probePassed ==> Proves(NextSource(app, source, event), e)
  {
    if event.Refresh? {
      ResolvedIsProved(event.settings, event.probe);
    }
  }

  lemma {:induction false} PassedProbesAreProved(app: AppState, source: Source, events: seq<Event>)
    requires app.box.evidence.probePassed ==> Proves(source, app.box.evidence)
    ensures var e := Run(app, events).box.evidence;
            e.probePassed ==> Proves(SourceOf(app, source, events), e)
    decreases |events|
  {
    if events != [] {
      StepKeepsProved(app, source, events[0]);
      PassedProbesAreProved(Step(app, events[0]), NextSource(app, source, events[0]), events[1..]);
    }
  }

  lemma {:induction false} RunSnoc(app: AppState, events: seq<Event>, event: Event)
    ensures Run(app, events + [event]) == Step(Run(app, events), event)
    decreases |events|
  {
    if events == [] {
      assert (events + [event])[1..] == [];
    } else {
      assert (events + [event])[1..] == events[1..] + [event];
      RunSnoc(Step(app, events[0]), events[1..], event);
    }
  }

  predicate PublishesAt(app: AppState, events: seq<Event>, k: nat)
    requires k < |events|
  {
    Verdict(Run(app, events[..k]), events[k]).Some?
  }

  // Event k is the last one that publishes, and its audits passed.
  ghost predicate Decisive(app: AppState, events: seq<Event>, k: nat) {
    && k < |events| && PublishesAt(app, events, k) && AuditsPassed(events[k])
    && forall j: nat | k < j < |events| :: !PublishesAt(app, events, j)
  }

  lemma ReadyNeedsAudits(app: AppState, event: Event)
    requires Honest(app.box.evidence)
    requires Verdict(app, event).Some? && Verdict(app, event).value.state.EnabledReady?
    ensures AuditsPassed(event)
  {
    if event.Refresh? {
      ResolvedIsHonest(event.settings, event.probe);
    }
  }

  lemma QuietStep(app: AppState, event: Event)
    requires Verdict(app, event).None?
    ensures Step(app, event).box == app.box
  {
  }

  lemma DecisiveExtends(app: AppState, before: seq<Event>, last: Event, k: nat)
    requires Decisive(app, before, k) && Verdict(Run(app, before), last).None?
    ensures Decisive(app, before + [last], k)
  {
    var events := before + [last];
    assert events[..|before|] == before;
    forall j: nat | j < |before|
      ensures PublishesAt(app, events, j) <==> PublishesAt(app, before, j)
    {
      assert before[..j] == events[..j];
    }
  }

  lemma {:induction false} ReadyIsDecided(app: AppState, events: seq<Event>) returns (k: nat)
    requires Coherent(app)
    requires !app.box.state.EnabledReady? && Run(app, events).box.state.EnabledReady?
    ensures Decisive(app, events, k)
    decreases |events|
  {
    var n := |events| - 1;
    assert events != [];
    var before, last := events[..n], events[n];
    assert events == before + [last];
    RunSnoc(app, before, last);
    if Verdict(Run(app, before), last).Some? {
      RunKeepsCoherent(app, before);
      ReadyNeedsAudits(Run(app, before), last);
      return n;
    }
    QuietStep(Run(app, before), last);
    k := ReadyIsDecided(app, before);
    DecisiveExtends(app, before, last, k);
  }

  // Main result: whenever a run ends READY, its last publishing event passed both audits, and the
  // settings behind the evidence in force, key included, were valid and proved by their probe.
  lemma ReadyHasCause(mode: Mode, s: Settings, probe: Option<ProbeResult>, events: seq<Event>)
    requires Run(Created(mode, s, probe), events).box.state.EnabledReady?
    ensures exists k: nat :: Decisive(Created(mode, s, probe), events, k)
    ensures Proves(SourceOf(Created(mode, s, probe), Source(s, probe), events),
                   Run(Created(mode, s, probe), events).box.evidence)
  {
    var app := Created(mode, s, probe);
    ResolvedIsHonest(s, probe);
    ResolvedIsProved(s, probe);
    CreatedCoherent(mode, s, probe);
    var k := ReadyIsDecided(app, events);
    PassedProbesAreProved(app, Source(s, probe), events);
    GuardAdmitsExactlyWhenReady(mode, s, probe, events);
  }

  // ----- Transitions to and from READY -----

  predicate Acts(app: AppState, event: Event)
    requires event.Refresh?
  {
    RefreshVerdict(app, event.settings, event.probe, event.first, event.second).Some?
  }

  // Main result: a refresh that publishes anything decides readiness afresh from its own inputs,
  // so the same process is demoted and recovers without being rebuilt; one that does not publish
  // changes nothing at all.
  lemma RefreshDecidesAfresh(app: AppState, s: Settings, probe: Option<ProbeResult>, first: Audit, second: Audit)
    requires Coherent(app)
    ensures var event := Refresh(s, probe, first, second);
            var next := Step(app, event);
            if Acts(app, event)
            then Guard(next.box).Admitted? <==>
                 ProbeProves(s, probe) && first.Proof? && first.proof.Passed() && second.Proof? && second.proof.Passed()
            else next == app
    ensures Acts(app, Refresh(s, probe, first, second)) <==>
            app.box.candidate && ValidConfiguration(s) &&
            (ProbeProves(s, probe) ==>
               !first.RaisedAnother? && (first.Proof? && first.proof.Passed() ==> !second.RaisedAnother?))
  {
    ResolvesExactly(s);
    ResolvedIsHonest(s, probe);
  }

  // Main result: what a refresh of a candidate leaves, field by field.  A probe that does not prove
  // the settings leaves its cause; an audit that fails leaves `Unavailable` and the flags of that
  // audit; an unexpected exception leaves everything as it was.
  lemma RefreshPublishesExactly(app: AppState, s: Settings, probe: Option<ProbeResult>, first: Audit, second: Audit)
    requires Coherent(app) && app.box.candidate && ValidConfiguration(s)
    ensures var next := Step(app, Refresh(s, probe, first, second));
            var (verified, identity) := SchemaSeen(probe);
            if !ProbeProves(s, probe) then
              && next.evidence == RefusedEvidence(s, verified, identity, ProbeCause(s, probe))
              && next.projection.code == Some(Provider(ProbeCause(s, probe)))
            else if first.RaisedAnother? then next == app
            else if !first.Proof? then
              next.evidence == ProvedEvidence(s, identity, false, false, Some(Unavailable))
            else if !(first.proof.compositionPassed && first.proof.routeAuditPassed) then
              next.evidence == ProvedEvidence(s, identity, first.proof.compositionPassed, first.proof.routeAuditPassed,
                                              Some(Unavailable))
            else if second.RaisedAnother? then next == app
            else if second.Proof? && second.proof.compositionPassed && second.proof.routeAuditPassed then
              next.evidence == ReadyEvidence(s, identity)
            else next.evidence == ProvedEvidence(s, identity, false, false, Some(Unavailable))
    ensures Coherent(Step(app, Refresh(s, probe, first, second)))
  {
    PreflightExactly(s, probe);
    StepKeepsCoherent(app, Refresh(s, probe, first, second));
  }

  // Main result: what the startup of a candidate leaves of the evidence it finds.
  lemma StartupPublishesExactly(app: AppState, initialized: bool, first: Audit, second: Audit)
    requires Coherent(app) && app.box.candidate
    ensures var next := Step(app, Startup(initialized, first, second));
            var e := app.box.evidence;
            if !initialized || !first.Proof? then next == app.(singleton := None)
            else
              var (composition, route) := (first.proof.compositionPassed, first.proof.routeAuditPassed);
              if !e.probePassed then next.evidence == e.(compositionPassed := composition, routeAuditPassed := route)
              else if !(composition && route) then
                next.evidence == e.(state := EnabledNotReady, compositionPassed := composition,
                                    routeAuditPassed := route, failure := Some(Unavailable), readiness := Fail,
                                    exposure := DisabledMatrix)
              else if second.Proof? && second.proof.compositionPassed && second.proof.routeAuditPassed then
                next.evidence == e.(state := EnabledReady, compositionPassed := true, routeAuditPassed := true,
                                    failure := None, readiness := PassWithProviderAndOtherGates, exposure := RealRoutes)
              else next == app.(singleton := None)
    ensures Coherent(Step(app, Startup(initialized, first, second)))
  {
    StepKeepsCoherent(app, Startup(initialized, first, second));
  }

  // What the published copies say in each state, spelled out.
  lemma PublishedCopies(app: AppState)
    requires Coherent(app) && app.mode.Strict()
    ensures match app.box.state
            case Disabled =>
              && app.bindings == [("coefficient_http", "database_backed"), ("model_backed_agent", "disabled")]
              && app.projection == Projection(StatusDisabled, Some(OutOfProductionScope), false,
                                              Disabled, DisabledMatrix)
            case EnabledNotReady =>
              && app.bindings == [("coefficient_http", "database_backed"), ("model_backed_agent", "enabled_not_ready")]
              && app.projection == Projection(StatusNotReady, Some(Provider(app.evidence.failure.GetOr(Unavailable))),
                                              true, EnabledNotReady, DisabledMatrix)
            case EnabledReady =>
              && app.bindings == [("coefficient_http", "database_backed"), ("model_backed_agent", "enabled_ready")]
              && app.projection == Projection(StatusAvailable, None, false, EnabledReady, RealRoutes)
    ensures app.stateAuthority == app.box && app.evidence == app.box.evidence && app.evidence.state == app.box.state
  {
  }

  // Main result: a freshly created application admits requests after startup exactly when it is
  // strict, its configuration is valid, the probe proved it, initialisation succeeded and both
  // audits passed.
  lemma ReadyAfterStartup(mode: Mode, s: Settings, probe: Option<ProbeResult>,
                          initialized: bool, first: Audit, second: Audit)
    ensures Guard(Step(Created(mode, s, probe), Startup(initialized, first, second)).box).Admitted? <==>
            && mode.Strict() && ValidConfiguration(s) && ProbeProves(s, probe) && initialized
            && first.Proof? && first.proof.Passed() && second.Proof? && second.proof.Passed()
  {
    ResolvesExactly(s);
    ResolvedIsHonest(s, probe);
  }

  // An application that was not a candidate when it was created never admits a request.
  lemma NonCandidateNeverReady(mode: Mode, s: Settings, probe: Option<ProbeResult>, events: seq<Event>)
    requires !mode.Strict() || !ValidConfiguration(s)
    ensures Guard(Run(Created(mode, s, probe), events).box).NotReady?
  {
    ResolvesExactly(s);
    CreatedCoherent(mode, s, probe);
    RunKeepsCoherent(Created(mode, s, probe), events);
  }
}
