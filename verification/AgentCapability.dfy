/** Configuration, provider evidence and final state of the model-backed agent capability. */
module AgentCapability {
  import opened Wrappers
  import opened Whitespace

  datatype FailureCode =
    | ConfigurationMissing
    | ConfigurationInvalid
    | CredentialInvalid
    | Timeout
    | ConnectionFailed
    | RateLimited
    | Upstream5xx
    | ResponseMalformed
    | ResponseTooLarge
    | Unavailable

  datatype State = Disabled | EnabledNotReady | EnabledReady

  datatype Settings = Settings(
    provider: Option<string>,
    model: Option<string>,
    timeoutSeconds: Option<int>,
    maxRetries: Option<int>,
    apiKey: Option<string>)

  datatype Resolution = Resolution(
    intent: bool,
    state: State,
    valid: bool,
    provider: Option<string>,
    model: Option<string>,
    timeoutSeconds: Option<int>,
    maxRetries: Option<int>,
    failure: Option<FailureCode>)

  const PROVIDER := "mimo"
  const MODEL := "mimo-v2.5"
  const KEY_PREFIX := "sk-"

  predicate NonEmpty(value: Option<string>) {
    value.Some? && Strip(value.value) != ""
  }

  function Resolve(s: Settings): Resolution {
    var intent := s.provider.Some? || s.model.Some?;
    var notReady := Resolution(intent, if intent then EnabledNotReady else Disabled, false,
                               s.provider, s.model, s.timeoutSeconds, s.maxRetries, None);
    if (s.timeoutSeconds.Some? && !(1 <= s.timeoutSeconds.value <= 30))
       || (s.maxRetries.Some? && !(0 <= s.maxRetries.value <= 1))
    then notReady.(failure := Some(ConfigurationInvalid))
    else if !intent then notReady.(valid := true)
    else if !NonEmpty(s.provider) || !NonEmpty(s.model) || s.timeoutSeconds.None? || s.maxRetries.None?
    then notReady.(failure := Some(ConfigurationMissing))
    else if s.provider != Some(PROVIDER) || s.model != Some(MODEL)
    then notReady.(failure := Some(ConfigurationInvalid))
    else if !NonEmpty(s.apiKey)
    then notReady.(failure := Some(ConfigurationMissing))
    else if !(KEY_PREFIX <= s.apiKey.value) || |s.apiKey.value| <= |KEY_PREFIX|
    then notReady.(failure := Some(CredentialInvalid))
    else notReady.(valid := true)
  }

  // The documented configuration: fixed provider and model, bounded timeout and retries, and a key
  // that carries the prefix and something after it.
  predicate Configured(provider: Option<string>, model: Option<string>, timeoutSeconds: Option<int>,
                       maxRetries: Option<int>) {
    && provider == Some(PROVIDER) && model == Some(MODEL)
    && timeoutSeconds.Some? && 1 <= timeoutSeconds.value <= 30
    && maxRetries.Some? && 0 <= maxRetries.value <= 1
  }

  predicate KeyWellFormed(apiKey: Option<string>) {
    apiKey.Some? && |apiKey.value| > 3 && apiKey.value[..3] == KEY_PREFIX
  }

  predicate ValidConfiguration(s: Settings) {
    Configured(s.provider, s.model, s.timeoutSeconds, s.maxRetries) && KeyWellFormed(s.apiKey)
  }

  lemma ConstantsNonEmpty(apiKey: Option<string>)
    ensures NonEmpty(Some(PROVIDER)) && NonEmpty(Some(MODEL))
    ensures KeyWellFormed(apiKey) ==> NonEmpty(apiKey)
  {
    StripRightKeepsFirst(PROVIDER);
    StripRightKeepsFirst(MODEL);
    if KeyWellFormed(apiKey) {
      assert apiKey.value[0] == apiKey.value[..3][0];
      StripRightKeepsFirst(apiKey.value);
    }
  }

  // An enabled configuration resolves as valid exactly when it is the documented one; the state
  // follows the intent, and an invalid resolution always carries a failure code.
  lemma ResolvesExactly(s: Settings)
    ensures var r := Resolve(s);
            && (r.intent && r.valid <==> ValidConfiguration(s))
            && (r.state.Disabled? <==> s.provider.None? && s.model.None?)
            && r.state != EnabledReady
            && (r.intent <==> r.state.EnabledNotReady?)
            && (r.failure.None? <==> r.valid)
            && r.provider == s.provider && r.model == s.model
            && r.timeoutSeconds == s.timeoutSeconds && r.maxRetries == s.maxRetries
  {
    ConstantsNonEmpty(s.apiKey);
    if KeyWellFormed(s.apiKey) {
      assert KEY_PREFIX <= s.apiKey.value;
    }
  }

  predicate InRange(s: Settings) {
    && (s.timeoutSeconds.Some? ==> 1 <= s.timeoutSeconds.value <= 30)
    && (s.maxRetries.Some? ==> 0 <= s.maxRetries.value <= 1)
  }

  predicate Complete(s: Settings) {
    NonEmpty(s.provider) && NonEmpty(s.model) && s.timeoutSeconds.Some? && s.maxRetries.Some?
  }

  // Which code an invalid resolution carries.
  lemma FailureCodesAreExact(s: Settings)
    ensures var code := Resolve(s).failure;
            var intent := s.provider.Some? || s.model.Some?;
            && (code == Some(ConfigurationInvalid) <==>
                  !InRange(s) || (Complete(s) && !(s.provider == Some(PROVIDER) && s.model == Some(MODEL))))
            && (code == Some(ConfigurationMissing) <==>
                  InRange(s) && intent &&
                  (Complete(s) ==> s.provider == Some(PROVIDER) && s.model == Some(MODEL) && !NonEmpty(s.apiKey)))
            && (code == Some(CredentialInvalid) <==>
                  Configured(s.provider, s.model, s.timeoutSeconds, s.maxRetries) && NonEmpty(s.apiKey) &&
                  !KeyWellFormed(s.apiKey))
            && code in {None, Some(ConfigurationInvalid), Some(ConfigurationMissing), Some(CredentialInvalid)}
  {
  }

  // ----- Provider evidence -----

  datatype ProbeEvidence = ProbeEvidence(
    passed: bool,
    failure: Option<FailureCode>,
    provider: Option<string>,
    model: Option<string>,
    schemaVerified: bool,
    schemaIdentity: Option<string>)

  // What calling the configured probe yields.
  datatype ProbeResult =
    | Returned(evidence: ProbeEvidence)
    | ReturnedSomethingElse
    | RaisedGatewayError(code: Option<FailureCode>)
    | RaisedOther

  datatype GlobalReadiness = Fail | PassWithOtherGates | PassWithProviderAndOtherGates

  datatype Exposure = DisabledMatrix | RealRoutes

  datatype Evidence = Evidence(
    state: State,
    provider: Option<string>,
    model: Option<string>,
    timeoutSeconds: Option<int>,
    maxRetries: Option<int>,
    probePassed: bool,
    schemaVerified: bool,
    schemaIdentity: Option<string>,
    compositionPassed: bool,
    routeAuditPassed: bool,
    failure: Option<FailureCode>,
    readiness: GlobalReadiness,
    exposure: Exposure)

  datatype AuditProof = AuditProof(compositionPassed: bool, routeAuditPassed: bool) {
    predicate Passed() {
      compositionPassed && routeAuditPassed
    }
  }

  function UnavailableProbe(s: Settings): ProbeEvidence {
    ProbeEvidence(false, Some(Unavailable), s.provider, s.model, false, None)
  }

  // Binds probe evidence to the canonical settings, failing closed.
  function NormalizeProbe(s: Settings, e: ProbeEvidence): ProbeEvidence {
    if !e.passed then e.(failure := Some(e.failure.GetOr(Unavailable)))
    else if e.provider != s.provider || e.model != s.model
    then e.(passed := false, failure := Some(ConfigurationInvalid))
    else if !e.schemaVerified then e.(passed := false, failure := Some(ResponseMalformed))
    else e.(failure := None)
  }

  function RunProbe(s: Settings, probe: Option<ProbeResult>): ProbeEvidence {
    match probe
    case None => UnavailableProbe(s)
    case Some(Returned(e)) => NormalizeProbe(s, e)
    case Some(RaisedGatewayError(code)) =>
      NormalizeProbe(s, ProbeEvidence(false, Some(code.GetOr(Unavailable)), s.provider, s.model, false, None))
    case Some(ReturnedSomethingElse) => NormalizeProbe(s, UnavailableProbe(s))
    case Some(RaisedOther) => NormalizeProbe(s, UnavailableProbe(s))
  }

  function ResolveEvidence(s: Settings, probe: Option<ProbeResult>): Evidence {
    var r := Resolve(s);
    var closed := Evidence(EnabledNotReady, r.provider, r.model, r.timeoutSeconds, r.maxRetries,
                           false, false, None, false, false, None, Fail, DisabledMatrix);
    if r.state.Disabled? then
      closed.(state := Disabled, compositionPassed := true, routeAuditPassed := true, readiness := PassWithOtherGates)
    else if !r.valid then closed.(failure := r.failure)
    else
      var p := RunProbe(s, probe);
      if !p.passed then
        closed.(schemaVerified := p.schemaVerified, schemaIdentity := p.schemaIdentity,
                failure := Some(p.failure.GetOr(Unavailable)))
      else closed.(probePassed := true, schemaVerified := true, schemaIdentity := p.schemaIdentity)
  }

  function Finalize(e: Evidence, audit: AuditProof): Evidence {
    if e.state.Disabled? then e
    else if !e.probePassed || !e.schemaVerified then
      e.(compositionPassed := audit.compositionPassed, routeAuditPassed := audit.routeAuditPassed)
    else if !audit.Passed() then
      e.(state := EnabledNotReady, compositionPassed := audit.compositionPassed,
         routeAuditPassed := audit.routeAuditPassed, failure := Some(Unavailable),
         readiness := Fail, exposure := DisabledMatrix)
    else
      e.(state := EnabledReady, compositionPassed := true, routeAuditPassed := true, failure := None,
         readiness := PassWithProviderAndOtherGates, exposure := RealRoutes)
  }

  // The probe returned passing evidence for exactly this provider and model with a verified schema.
  predicate ProbeProves(s: Settings, probe: Option<ProbeResult>) {
    && probe.Some? && probe.value.Returned?
    && probe.value.evidence.passed
    && probe.value.evidence.provider == s.provider
    && probe.value.evidence.model == s.model
    && probe.value.evidence.schemaVerified
  }

  // Main result: READY is earned, and what earns it suffices.
  lemma ReadyIsEarned(s: Settings, probe: Option<ProbeResult>, audit: AuditProof)
    ensures Finalize(ResolveEvidence(s, probe), audit).state.EnabledReady? <==>
            ValidConfiguration(s) && ProbeProves(s, probe) && audit.Passed()
  {
    ResolvesExactly(s);
  }

  // What any evidence the program builds says about itself.
  predicate Honest(e: Evidence) {
    && (e.probePassed ==> e.schemaVerified && Configured(e.provider, e.model, e.timeoutSeconds, e.maxRetries))
    && (e.state.EnabledReady? ==>
          e.probePassed && e.compositionPassed && e.routeAuditPassed && e.failure.None?)
    && (e.exposure.RealRoutes? <==> e.state.EnabledReady?)
    && (e.readiness.Fail? <==> e.state.EnabledNotReady?)
    && (e.state.Disabled? ==> !e.probePassed)
  }

  lemma ResolvedIsHonest(s: Settings, probe: Option<ProbeResult>)
    ensures Honest(ResolveEvidence(s, probe))
    ensures ResolveEvidence(s, probe).state != EnabledReady
    ensures ResolveEvidence(s, probe).probePassed <==> ValidConfiguration(s) && ProbeProves(s, probe)
  {
    ResolvesExactly(s);
  }

  // Why a probe result does not prove the settings: the probe's own code, or the reason its evidence
  // is refused.
  function ProbeCause(s: Settings, probe: Option<ProbeResult>): FailureCode {
    match probe
    case None => Unavailable
    case Some(RaisedOther) => Unavailable
    case Some(ReturnedSomethingElse) => Unavailable
    case Some(RaisedGatewayError(c)) => c.GetOr(Unavailable)
    case Some(Returned(e)) =>
      if !e.passed then e.failure.GetOr(Unavailable)
      else if e.provider == s.provider && e.model == s.model then ResponseMalformed
      else ConfigurationInvalid
  }

  // A failed preflight keeps the cause.
  lemma PreflightFailureCode(s: Settings, probe: Option<ProbeResult>)
    requires ValidConfiguration(s) && !ProbeProves(s, probe)
    ensures ResolveEvidence(s, probe).failure == Some(ProbeCause(s, probe))
  {
    ResolvesExactly(s);
  }

  // The evidence of capability that is off, refused for `failure`, or held back by an audit.
  function DisabledEvidence(s: Settings): Evidence {
    Evidence(Disabled, s.provider, s.model, s.timeoutSeconds, s.maxRetries, false, false, None, true, true, None,
             PassWithOtherGates, DisabledMatrix)
  }

  function RefusedEvidence(s: Settings, schemaVerified: bool, schemaIdentity: Option<string>, failure: FailureCode)
    : Evidence
  {
    Evidence(EnabledNotReady, s.provider, s.model, s.timeoutSeconds, s.maxRetries, false, schemaVerified,
             schemaIdentity, false, false, Some(failure), Fail, DisabledMatrix)
  }

  function ProvedEvidence(s: Settings, schemaIdentity: Option<string>, composition: bool, route: bool,
                          failure: Option<FailureCode>): Evidence {
    Evidence(EnabledNotReady, s.provider, s.model, s.timeoutSeconds, s.maxRetries, true, true, schemaIdentity,
             composition, route, failure, Fail, DisabledMatrix)
  }

  function ReadyEvidence(s: Settings, schemaIdentity: Option<string>): Evidence {
    Evidence(EnabledReady, s.provider, s.model, s.timeoutSeconds, s.maxRetries, true, true, schemaIdentity,
             true, true, None, PassWithProviderAndOtherGates, RealRoutes)
  }

  // What a probe result says about the schema.
  function SchemaSeen(probe: Option<ProbeResult>): (bool, Option<string>) {
    if probe.Some? && probe.value.Returned? then
      (probe.value.evidence.schemaVerified, probe.value.evidence.schemaIdentity)
    else (false, None)
  }

  // Main result: the preflight evidence, field by field, in each of its four cases.
  lemma PreflightExactly(s: Settings, probe: Option<ProbeResult>)
    ensures var e := ResolveEvidence(s, probe);
            if s.provider.None? && s.model.None? then e == DisabledEvidence(s)
            else if !ValidConfiguration(s) then
              Resolve(s).failure.Some? && e == RefusedEvidence(s, false, None, Resolve(s).failure.value)
            else if !ProbeProves(s, probe) then
              e == RefusedEvidence(s, SchemaSeen(probe).0, SchemaSeen(probe).1, ProbeCause(s, probe))
            else e == ProvedEvidence(s, SchemaSeen(probe).1, false, false, None)
  {
    ResolvesExactly(s);
  }
}
