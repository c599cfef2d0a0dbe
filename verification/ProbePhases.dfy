/** The probe runner and the two phases that call it. */
module ProbePhases {
  import opened Wrappers

  datatype Outcome = Outcome(name: string, passed: bool, code: Option<string>)

  // How a probe call ends, as the runner sees it.
  datatype Behaviour =
    | AlarmFires
    | Raises
    | Reports(passed: bool, code: Option<string>, declaredSeconds: real, elapsedSeconds: real)

  datatype Probe = Probe(qualifiedName: string, behaviour: Behaviour)

  const STARTUP_PROBE_TIMEOUT := "STARTUP_PROBE_TIMEOUT"
  const READINESS_PROBE_TIMEOUT := "READINESS_PROBE_TIMEOUT"
  const DATABASE_SCHEMA_HEAD_INVALID := "DATABASE_SCHEMA_HEAD_INVALID"
  const PROBE_SCHEMA := "database_exact_alembic_head"

  // The stable names of the mandatory probes.  Each probe function is named after one of them, with
  // a prefix.
  const PROBE_NAMES := {
    "lifecycle_initialization_completed",
    "process_not_draining_or_shutting_down",
    "database_connectivity",
    PROBE_SCHEMA,
    "environment_and_resource_identities",
    "artifact_storage_isolated_exists_writable",
    "approved_coefficient_readiness_in_strict_modes",
    "build_and_deployment_identity"}

  function FunctionName(probeName: string): string {
    "probe_" + probeName
  }

  // A probe passes when it says so within its budget.
  predicate Passes(b: Behaviour, timeoutSeconds: nat) {
    b.Reports? && b.passed && b.declaredSeconds <= timeoutSeconds as real && b.elapsedSeconds <= timeoutSeconds as real
  }

  // The code of a failed probe; None when its exception escapes unclassified.
  function FailureCode(b: Behaviour, onTimeout: string, onNonTimeout: Option<string>): Option<string> {
    match b
    case AlarmFires => Some(onTimeout)
    case Raises => onNonTimeout
    case Reports(passed, code, _, _) => if passed || code == None || code == Some("") then Some(onTimeout) else code
  }

  // run_probe_with_timeout; Err is the exception for an unclassified failure.
  method RunProbe(probe: Probe, timeoutSeconds: nat, onTimeout: string, onNonTimeout: Option<string>)
    returns (r: Result<Outcome, string>)
    ensures Passes(probe.behaviour, timeoutSeconds) ==> r == Ok(Outcome(probe.qualifiedName, true, None))
    ensures !Passes(probe.behaviour, timeoutSeconds) ==>
              match FailureCode(probe.behaviour, onTimeout, onNonTimeout)
              case None => r == Err(probe.qualifiedName)
              case Some(code) => r == Ok(Outcome(probe.qualifiedName, false, Some(code)))
  {
    var name := probe.qualifiedName;
    match probe.behaviour
    case AlarmFires =>
      return Ok(Outcome(name, false, Some(onTimeout)));
    case Raises =>
      if onNonTimeout.Some? {
        return Ok(Outcome(name, false, onNonTimeout));
      }
      return Err(name);
    case Reports(passed, code, declared, elapsed) =>
      var effective := if elapsed < declared then declared else elapsed;
      if passed && effective > timeoutSeconds as real {
        return Ok(Outcome(name, false, Some(onTimeout)));
      }
      if passed {
        return Ok(Outcome(name, true, None));
      }
      if code == None || code == Some("") {
        return Ok(Outcome(name, false, Some(onTimeout)));
      }
      return Ok(Outcome(name, false, code));
  }

  datatype StartupFailure =
    | ProbeTimeout(name: string)
    | ProbeFailure(name: string, code: string)
    | NonTimeoutProbeFailure(name: string)
    | UnsafeWiring

  // The channel through which a failed startup probe is reported.
  function Channel(probe: Probe): StartupFailure {
    var onNonTimeout := if probe.qualifiedName == PROBE_SCHEMA then Some(DATABASE_SCHEMA_HEAD_INVALID) else None;
    match FailureCode(probe.behaviour, STARTUP_PROBE_TIMEOUT, onNonTimeout)
    case None => NonTimeoutProbeFailure(probe.qualifiedName)
    case Some(code) =>
      if code == STARTUP_PROBE_TIMEOUT then ProbeTimeout(probe.qualifiedName)
      else ProbeFailure(probe.qualifiedName, code)
  }

  predicate FirstFailing(probes: seq<Probe>, timeoutSeconds: nat, k: nat) {
    && k < |probes| && !Passes(probes[k].behaviour, timeoutSeconds)
    && forall i | 0 <= i < k :: Passes(probes[i].behaviour, timeoutSeconds)
  }

  // Main result: startup publishes READY exactly when every probe passes within its budget and the
  // strict audit finds nothing; otherwise it reports the first failing probe through its channel.
  method RunStartupPhase(probes: seq<Probe>, timeoutSeconds: nat, auditPasses: bool)
    returns (failure: Option<StartupFailure>, published: Option<seq<Outcome>>)
    ensures published.Some? <==> failure.None?
    ensures published.Some? <==>
            auditPasses && forall i | 0 <= i < |probes| :: Passes(probes[i].behaviour, timeoutSeconds)
    ensures published.Some? ==>
              && |published.value| == |probes|
              && forall i | 0 <= i < |probes| :: published.value[i] == Outcome(probes[i].qualifiedName, true, None)
    ensures failure == Some(UnsafeWiring) <==>
            !auditPasses && forall i | 0 <= i < |probes| :: Passes(probes[i].behaviour, timeoutSeconds)
    ensures failure.Some? && failure.value != UnsafeWiring ==>
              exists k: nat :: FirstFailing(probes, timeoutSeconds, k) && failure.value == Channel(probes[k])
  {
    var outcomes: seq<Outcome> := [];
    for i := 0 to |probes|
      invariant |outcomes| == i
      invariant forall k | 0 <= k < i ::
                  Passes(probes[k].behaviour, timeoutSeconds) &&
                  outcomes[k] == Outcome(probes[k].qualifiedName, true, None)
    {
      var onNonTimeout := if probes[i].qualifiedName == PROBE_SCHEMA then Some(DATABASE_SCHEMA_HEAD_INVALID) else None;
      var r := RunProbe(probes[i], timeoutSeconds, STARTUP_PROBE_TIMEOUT, onNonTimeout);
      if r.Err? || !r.value.passed {
        assert FirstFailing(probes, timeoutSeconds, i);
        if r.Err? {
          return Some(NonTimeoutProbeFailure(r.error)), None;
        }
        if r.value.code == Some(STARTUP_PROBE_TIMEOUT) {
          return Some(ProbeTimeout(r.value.name)), None;
        }
        return Some(ProbeFailure(r.value.name, r.value.code.GetOr(""))), None;
      }
      outcomes := outcomes + [r.value];
    }
    if !auditPasses {
      return Some(UnsafeWiring), None;
    }
    return None, Some(outcomes);
  }

  // The readiness phase runs every probe and publishes all outcomes, passing or not; only an
  // exception stops it.
  method RunReadinessPhase(probes: seq<Probe>, timeoutSeconds: nat) returns (r: Result<seq<Outcome>, string>)
    ensures r.Ok? <==> forall i | 0 <= i < |probes| :: !probes[i].behaviour.Raises?
    ensures r.Ok? ==>
              && |r.value| == |probes|
              && forall i | 0 <= i < |probes| ::
                   r.value[i].name == probes[i].qualifiedName &&
                   (r.value[i].passed <==> Passes(probes[i].behaviour, timeoutSeconds))
  {
    var outcomes: seq<Outcome> := [];
    for i := 0 to |probes|
      invariant |outcomes| == i
      invariant forall k | 0 <= k < i ::
                  !probes[k].behaviour.Raises? && outcomes[k].name == probes[k].qualifiedName &&
                  (outcomes[k].passed <==> Passes(probes[k].behaviour, timeoutSeconds))
    {
      var outcome := RunProbe(probes[i], timeoutSeconds, READINESS_PROBE_TIMEOUT, None);
      if outcome.Err? {
        return Err(outcome.error);
      }
      outcomes := outcomes + [outcome.value];
    }
    return Ok(outcomes);
  }

  // The channel meant for an exception inside the schema probe is taken exactly when the probe's
  // qualified name is the schema probe's name.
  lemma SchemaCodeSelected(probe: Probe)
    requires probe.behaviour.Raises?
    ensures Channel(probe) == ProbeFailure(probe.qualifiedName, DATABASE_SCHEMA_HEAD_INVALID) <==>
            probe.qualifiedName == PROBE_SCHEMA
    ensures Channel(probe) == NonTimeoutProbeFailure(probe.qualifiedName) <==> probe.qualifiedName != PROBE_SCHEMA
  {
  }

  // No mandatory probe function has that name, so an exception inside any of them, the schema probe
  // included, escapes unclassified.
  lemma MandatoryProbesEscapeUnclassified(probe: Probe, name: string)
    requires name in PROBE_NAMES && probe.qualifiedName == FunctionName(name) && probe.behaviour.Raises?
    ensures Channel(probe) == NonTimeoutProbeFailure(probe.qualifiedName)
  {
    assert probe.qualifiedName[0] == "probe_"[0] != PROBE_SCHEMA[0];
  }
}
