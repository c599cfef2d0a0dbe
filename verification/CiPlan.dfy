/** The change classifier that plans the CI jobs and the gate that checks what they reported. */
module CiPlan {
  import opened Wrappers

  // ----- Jobs and scopes -----

  datatype Scope = DocsArchitectureOnly | BackendScope | FrontendScope | BackendFrontend | Full

  datatype Job =
    | Lightweight
    | BackendSqlite
    | BackendPostgresql
    | FrontendJob
    | ComposeConfig
    | ReleaseEvidence
    | RecoveryFoundation
    | LiveEvidenceCapture
    | LiveEvidenceArtifactTransportVerify
    | LiveEvidenceAttestationCreate
    | LiveEvidenceAssembly
    | LiveEvidenceVerifiedTransportHandoffVerify
    | ControlledRecoveryAcceptance

  // The regular jobs, then the manual ones.
  const GATED_JOBS := [
    Lightweight, BackendSqlite, BackendPostgresql, FrontendJob, ComposeConfig, ReleaseEvidence, RecoveryFoundation,
    LiveEvidenceCapture, LiveEvidenceArtifactTransportVerify, LiveEvidenceAttestationCreate, LiveEvidenceAssembly,
    LiveEvidenceVerifiedTransportHandoffVerify, ControlledRecoveryAcceptance]

  function AllButLightweight(): set<Job> {
    {BackendSqlite, BackendPostgresql, FrontendJob, ComposeConfig, ReleaseEvidence, RecoveryFoundation}
  }

  function ScopeJobs(scope: Scope): set<Job> {
    match scope
    case DocsArchitectureOnly => {Lightweight}
    case BackendScope => {BackendSqlite, BackendPostgresql, ComposeConfig, ReleaseEvidence, RecoveryFoundation}
    case FrontendScope => {FrontendJob, ReleaseEvidence}
    case BackendFrontend => AllButLightweight()
    case Full => AllButLightweight()
  }

  // ----- Paths -----

  datatype Kind = Unclean | Trigger | Docs | Backend | Frontend | Elsewhere

  function Split(s: string, separator: char): (parts: seq<string>)
    ensures parts != []
  {
    if s == "" then [""]
    else
      var rest := Split(s[1..], separator);
      if s[0] == separator then [""] + rest else [[s[0]] + rest[0]] + rest[1..]
  }

  predicate EndsWith(s: string, suffix: string) {
    |suffix| <= |s| && s[|s| - |suffix|..] == suffix
  }

  predicate StartsWithAny(s: string, prefixes: set<string>) {
    exists p | p in prefixes :: p <= s
  }

  const FULL_PREFIXES := {
    ".github/", "scripts/ci/", "backend/alembic/", "deployment/", "backend/src/cold_storage/bootstrap/",
    "backend/src/cold_storage/release/"}

  const MANIFEST_NAMES := {
    "pyproject.toml", "package.json", "Pipfile", "Pipfile.lock", "uv.lock", "poetry.lock", "pdm.lock",
    "package-lock.json", "npm-shrinkwrap.json", "yarn.lock", "pnpm-lock.yaml", "bun.lock", "bun.lockb", "Cargo.toml",
    "Cargo.lock", "go.mod", "go.sum", "Gemfile", "Gemfile.lock", ".python-version", ".node-version", ".nvmrc", ".npmrc"}

  predicate IsUnclean(raw: string) {
    raw == "" || raw[0] == '/' || '\\' in raw || exists part | part in Split(raw, '/') :: part in {"", ".", ".."}
  }

  predicate IsTrigger(raw: string) {
    var parts := Split(raw, '/');
    var name := parts[|parts| - 1];
    || StartsWithAny(raw, FULL_PREFIXES)
    || name in MANIFEST_NAMES
    || EndsWith(name, ".lock")
    || ("requirements" <= name && (EndsWith(name, ".txt") || EndsWith(name, ".in")))
    || name == "Dockerfile"
    || "Dockerfile." <= name
    || (("docker-compose" <= name || "compose" <= name) && (EndsWith(name, ".yml") || EndsWith(name, ".yaml")))
    || raw == "backend/alembic.ini"
    || ("backend/src/" <= raw && ("infrastructure" in parts || name in {"config.py", "settings.py", "entrypoint.py"}))
  }

  function KindOf(raw: string): Kind {
    if IsUnclean(raw) then Unclean
    else if IsTrigger(raw) then Trigger
    else if "docs/" <= raw || "backend/tests/architecture/" <= raw then Docs
    else if "backend/src/" <= raw || "backend/tests/" <= raw then Backend
    else if "frontend/" <= raw then Frontend
    else Elsewhere
  }

  predicate ForcesFull(kind: Kind) {
    kind.Unclean? || kind.Trigger? || kind.Elsewhere?
  }

  // ----- Classification -----

  datatype Reason =
    | EmptyChangeSet
    | UnknownFailSafe
    | DatabaseInfraFull
    | OnlyDocsAndArchitecture
    | BackendAndFrontend
    | BackendChanged
    | MixedFrontendAndContract
    | FrontendChanged

  datatype Plan = Plan(scope: Scope, reason: Reason)

  function Kinds(kindOf: string -> Kind, paths: set<string>): set<Kind> {
    set p | p in paths :: kindOf(p)
  }

  function ScopeOfKinds(kinds: set<Kind>): Scope {
    if kinds == {} || Unclean in kinds || Trigger in kinds || Elsewhere in kinds then Full
    else if Backend in kinds then if Frontend in kinds then BackendFrontend else BackendScope
    else if Frontend !in kinds then DocsArchitectureOnly
    else if Docs in kinds then Full
    else FrontendScope
  }

  // The scope of a set of changed paths.
  function ScopeOf(paths: set<string>): Scope {
    ScopeOfKinds(Kinds(KindOf, paths))
  }

  function ToSet(paths: seq<string>): set<string> {
    set p | p in paths
  }

  function FullReason(kind: Kind): Reason {
    if kind.Trigger? then DatabaseInfraFull else UnknownFailSafe
  }

  // Path i is the first one that forces the full plan.
  predicate FirstForcing(kindOf: string -> Kind, paths: seq<string>, i: nat) {
    i < |paths| && ForcesFull(kindOf(paths[i])) && forall j | 0 <= j < i :: !ForcesFull(kindOf(paths[j]))
  }

  lemma FirstForcingUnique(kindOf: string -> Kind, paths: seq<string>, i: nat)
    requires FirstForcing(kindOf, paths, i)
    ensures forall k: nat | FirstForcing(kindOf, paths, k) :: k == i
  {
  }

  lemma OneMoreKind(kindOf: string -> Kind, paths: seq<string>, i: nat)
    requires i < |paths|
    ensures Kinds(kindOf, ToSet(paths[..i + 1])) == Kinds(kindOf, ToSet(paths[..i])) + {kindOf(paths[i])}
  {
  }

  // The loop over the paths, given how a single path is inspected.
  method ClassifyBy(kindOf: string -> Kind, paths: seq<string>) returns (plan: Plan)
    ensures plan.scope == ScopeOfKinds(Kinds(kindOf, ToSet(paths)))
    ensures forall i: nat | FirstForcing(kindOf, paths, i) :: plan.reason == FullReason(kindOf(paths[i]))
  {
    if paths == [] {
      assert Kinds(kindOf, ToSet(paths)) == {};
      return Plan(Full, EmptyChangeSet);
    }
    var kinds: set<Kind> := {};
    for i := 0 to |paths|
      invariant kinds == Kinds(kindOf, ToSet(paths[..i]))
      invariant kinds <= {Docs, Backend, Frontend}
      invariant forall j | 0 <= j < i :: !ForcesFull(kindOf(paths[j])) && kindOf(paths[j]) in kinds
    {
      OneMoreKind(kindOf, paths, i);
      var kind := kindOf(paths[i]);
      assert paths[i] in ToSet(paths) && kind in Kinds(kindOf, ToSet(paths));
      if ForcesFull(kind) {
        FirstForcingUnique(kindOf, paths, i);
      }
      match kind
      case Unclean =>
        return Plan(Full, UnknownFailSafe);
      case Trigger =>
        return Plan(Full, DatabaseInfraFull);
      case Elsewhere =>
        return Plan(Full, UnknownFailSafe);
      case Docs =>
        kinds := kinds + {Docs};
      case Backend =>
        kinds := kinds + {Backend};
      case Frontend =>
        kinds := kinds + {Frontend};
    }
    assert paths[..|paths|] == paths;
    assert kindOf(paths[0]) in kinds;
    if kinds == {Docs} {
      return Plan(DocsArchitectureOnly, OnlyDocsAndArchitecture);
    }
    if {Backend, Frontend} <= kinds {
      return Plan(BackendFrontend, BackendAndFrontend);
    }
    if Backend in kinds {
      return Plan(BackendScope, BackendChanged);
    }
    if Docs in kinds {
      return Plan(Full, MixedFrontendAndContract);
    }
    return Plan(FrontendScope, FrontendChanged);
  }

  // Main result: the scope depends on the set of paths only; the reason of an early full plan is
  // that of the first path that forces it.
  method ClassifyPaths(paths: seq<string>) returns (plan: Plan)
    ensures plan.scope == ScopeOf(ToSet(paths))
    ensures forall i: nat | FirstForcing(KindOf, paths, i) :: plan.reason == FullReason(KindOf(paths[i]))
  {
    plan := ClassifyBy(KindOf, paths);
  }

  lemma MoreKindsMoreJobs(kinds: set<Kind>, more: set<Kind>)
    requires kinds != {} && kinds <= more
    ensures ScopeJobs(ScopeOfKinds(kinds)) - {Lightweight} <= ScopeJobs(ScopeOfKinds(more))
  {
  }

  // Main result: adding paths to a non-empty change never drops a required job other than
  // `lightweight`.
  lemma MorePathsMoreJobs(paths: set<string>, more: set<string>)
    requires paths != {} && paths <= more
    ensures ScopeJobs(ScopeOf(paths)) - {Lightweight} <= ScopeJobs(ScopeOf(more))
  {
    KindsGrow(KindOf, paths, more);
    MoreKindsMoreJobs(Kinds(KindOf, paths), Kinds(KindOf, more));
  }

  lemma KindsGrow(kindOf: string -> Kind, paths: set<string>, more: set<string>)
    requires paths != {} && paths <= more
    ensures Kinds(kindOf, paths) != {} && Kinds(kindOf, paths) <= Kinds(kindOf, more)
  {
    var p :| p in paths;
    assert kindOf(p) in Kinds(kindOf, paths);
  }

  ghost predicate Changes(kindOf: string -> Kind, paths: set<string>, kind: Kind) {
    exists p | p in paths :: kindOf(p) == kind
  }

  ghost predicate ForcedFull(kindOf: string -> Kind, paths: set<string>) {
    paths == {} || exists p | p in paths :: ForcesFull(kindOf(p))
  }

  lemma JobsOfKinds(kinds: set<Kind>)
    ensures var jobs := ScopeJobs(ScopeOfKinds(kinds));
            var forced := kinds == {} || Unclean in kinds || Trigger in kinds || Elsewhere in kinds;
            && (FrontendJob in jobs <==> forced || Frontend in kinds)
            && (BackendSqlite in jobs <==> forced || Backend in kinds || (Frontend in kinds && Docs in kinds))
            && (Lightweight in jobs <==> kinds == {Docs})
            && (BackendPostgresql in jobs <==> BackendSqlite in jobs)
            && (ComposeConfig in jobs <==> BackendSqlite in jobs)
            && (RecoveryFoundation in jobs <==> BackendSqlite in jobs)
            && (ReleaseEvidence in jobs <==> Lightweight !in jobs)
  {
    if kinds != {} && {Unclean, Trigger, Elsewhere, Backend, Frontend} !! kinds {
      assert forall kind | kind in kinds :: kind == Docs;
      assert kinds == {Docs};
    }
  }

  lemma KindsByPath(kindOf: string -> Kind, paths: set<string>)
    ensures var kinds := Kinds(kindOf, paths);
            && (forall kind :: kind in kinds <==> Changes(kindOf, paths, kind))
            && (ForcedFull(kindOf, paths) <==>
                  kinds == {} || Unclean in kinds || Trigger in kinds || Elsewhere in kinds)
            && (kinds == {Docs} <==> paths != {} && forall p | p in paths :: kindOf(p).Docs?)
  {
    var kinds := Kinds(kindOf, paths);
    assert forall p | p in paths :: kindOf(p) in kinds;
    if paths != {} {
      var p :| p in paths;
      assert kindOf(p) in kinds;
    }
  }

  // Main result: which changes call for which jobs, however a path is inspected (ScopeOf inspects it
  // with KindOf).  The frontend job and the backend jobs follow their own paths, documents beside
  // frontend paths call for both, release evidence runs with either, and `lightweight` stands for
  // changes to documents and architecture tests alone.
  lemma RequiredJobsExactly(kindOf: string -> Kind, paths: set<string>)
    ensures var jobs := ScopeJobs(ScopeOfKinds(Kinds(kindOf, paths)));
            var forced := ForcedFull(kindOf, paths);
            && (FrontendJob in jobs <==> forced || Changes(kindOf, paths, Frontend))
            && (BackendSqlite in jobs <==>
                  || forced || Changes(kindOf, paths, Backend)
                  || (Changes(kindOf, paths, Frontend) && Changes(kindOf, paths, Docs)))
            && (Lightweight in jobs <==> paths != {} && forall p | p in paths :: kindOf(p).Docs?)
            && (BackendPostgresql in jobs <==> BackendSqlite in jobs)
            && (ComposeConfig in jobs <==> BackendSqlite in jobs)
            && (RecoveryFoundation in jobs <==> BackendSqlite in jobs)
            && (ReleaseEvidence in jobs <==> Lightweight !in jobs)
  {
    JobsOfKinds(Kinds(kindOf, paths));
    KindsByPath(kindOf, paths);
  }

  // ----- Gate -----

  datatype Result = Succeeded | Skipped | Other(text: string)

  type Outputs = map<string, string>

  // What the workflow reports about a job: its result and, for the classifier, its outputs.
  datatype JobInfo = NotAMapping | Info(result: Option<Result>, outputs: Option<Outputs>)

  datatype Needs = Needs(classifier: Option<JobInfo>, jobs: map<Job, JobInfo>)

  datatype GateError =
    | ClassifierFailed
    | InvalidClassification
    | InvalidOutput(key: string)
    | RequiredFailed(job: Job)
    | UnexpectedResult(job: Job)

  function ScopeName(scope: Scope): string {
    match scope
    case DocsArchitectureOnly => "DOCS_ARCHITECTURE_ONLY"
    case BackendScope => "BACKEND"
    case FrontendScope => "FRONTEND"
    case BackendFrontend => "BACKEND_FRONTEND"
    case Full => "FULL"
  }

  // The scope a name in the classification stands for.
  function ScopeNamed(name: string): (scope: Option<Scope>)
    ensures forall s :: scope == Some(s) <==> ScopeName(s) == name
  {
    if name == ScopeName(DocsArchitectureOnly) then Some(DocsArchitectureOnly)
    else if name == ScopeName(BackendScope) then Some(BackendScope)
    else if name == ScopeName(FrontendScope) then Some(FrontendScope)
    else if name == ScopeName(BackendFrontend) then Some(BackendFrontend)
    else if name == ScopeName(Full) then Some(Full)
    else None
  }

  // The output keys the gate compares, with the job each one announces.
  const OUTPUT_JOBS := [
    ("lightweight", Lightweight), ("backend", BackendSqlite), ("frontend", FrontendJob), ("infra", ComposeConfig),
    ("release", ReleaseEvidence), ("recovery", RecoveryFoundation)]

  function Flag(scope: Scope, job: Job): string {
    if job in ScopeJobs(scope) then "true" else "false"
  }

  // The classifier's outputs announce exactly the jobs of the scope they name.
  predicate Consistent(outputs: Outputs, scope: Scope) {
    && "scope" in outputs && outputs["scope"] == ScopeName(scope)
    && forall i | 0 <= i < |OUTPUT_JOBS| ::
         OUTPUT_JOBS[i].0 in outputs && outputs[OUTPUT_JOBS[i].0] == Flag(scope, OUTPUT_JOBS[i].1)
  }

  predicate Says(outputs: Outputs, key: string, value: string) {
    key in outputs && outputs[key] == value
  }

  // The comparison, output by output.
  lemma ConsistentByKey(outputs: Outputs, scope: Scope)
    ensures Consistent(outputs, scope) <==>
            && Says(outputs, "scope", ScopeName(scope))
            && Says(outputs, "lightweight", Flag(scope, Lightweight))
            && Says(outputs, "backend", Flag(scope, BackendSqlite))
            && Says(outputs, "frontend", Flag(scope, FrontendJob))
            && Says(outputs, "infra", Flag(scope, ComposeConfig))
            && Says(outputs, "release", Flag(scope, ReleaseEvidence))
            && Says(outputs, "recovery", Flag(scope, RecoveryFoundation))
  {
    var jobs := OUTPUT_JOBS;
    assert jobs[0] == ("lightweight", Lightweight) && jobs[1] == ("backend", BackendSqlite);
    assert jobs[2] == ("frontend", FrontendJob) && jobs[3] == ("infra", ComposeConfig);
    assert jobs[4] == ("release", ReleaseEvidence) && jobs[5] == ("recovery", RecoveryFoundation);
  }

  function ResultOf(needs: Needs, job: Job): Option<Result> {
    if job in needs.jobs && needs.jobs[job].Info? then needs.jobs[job].result else None
  }

  predicate JobOk(needs: Needs, scope: Scope, job: Job) {
    ResultOf(needs, job) == Some(Succeeded) || (job !in ScopeJobs(scope) && ResultOf(needs, job) == Some(Skipped))
  }

  predicate ClassifierOk(needs: Needs) {
    && needs.classifier.Some? && needs.classifier.value.Info?
    && needs.classifier.value.result == Some(Succeeded) && needs.classifier.value.outputs.Some?
  }

  // What the gate asks for.
  predicate GateHolds(needs: Needs, scope: Scope) {
    && ClassifierOk(needs)
    && Consistent(needs.classifier.value.outputs.value, scope)
    && forall job: Job :: JobOk(needs, scope, job)
  }

  lemma EveryJobIsGated(job: Job)
    ensures job in GATED_JOBS
  {
  }

  method OutputErrors(outputs: Outputs, scope: Scope) returns (errors: seq<GateError>)
    requires "scope" in outputs && outputs["scope"] == ScopeName(scope)
    ensures errors == [] <==> Consistent(outputs, scope)
  {
    errors := [];
    for i := 0 to |OUTPUT_JOBS|
      invariant errors == [] <==>
                forall k | 0 <= k < i ::
                  OUTPUT_JOBS[k].0 in outputs && outputs[OUTPUT_JOBS[k].0] == Flag(scope, OUTPUT_JOBS[k].1)
    {
      var (key, job) := OUTPUT_JOBS[i];
      if key !in outputs || outputs[key] != Flag(scope, job) {
        errors := errors + [InvalidOutput(key)];
      }
    }
  }

  method JobErrors(needs: Needs, scope: Scope) returns (errors: seq<GateError>)
    ensures errors == [] <==> forall job: Job :: JobOk(needs, scope, job)
  {
    errors := [];
    for i := 0 to |GATED_JOBS|
      invariant errors == [] <==> forall k | 0 <= k < i :: JobOk(needs, scope, GATED_JOBS[k])
    {
      var job := GATED_JOBS[i];
      var result := ResultOf(needs, job);
      if job in ScopeJobs(scope) {
        if result != Some(Succeeded) {
          errors := errors + [RequiredFailed(job)];
        }
      } else if result != Some(Succeeded) && result != Some(Skipped) {
        errors := errors + [UnexpectedResult(job)];
      }
    }
    if errors == [] {
      forall job: Job
        ensures JobOk(needs, scope, job)
      {
        EveryJobIsGated(job);
        var k :| 0 <= k < |GATED_JOBS| && GATED_JOBS[k] == job;
      }
    }
  }

  // Main result: the gate reports no error exactly when the classifier succeeded with consistent
  // outputs, every required job succeeded, and every other job succeeded or was skipped.
  method GateErrors(needs: Needs) returns (errors: seq<GateError>)
    ensures errors == [] <==> exists scope :: GateHolds(needs, scope)
  {
    if needs.classifier.None? || needs.classifier.value.NotAMapping?
       || needs.classifier.value.result != Some(Succeeded) {
      return [ClassifierFailed];
    }
    if needs.classifier.value.outputs.None? || "scope" !in needs.classifier.value.outputs.value {
      return [InvalidClassification];
    }
    var outputs := needs.classifier.value.outputs.value;
    var found := ScopeNamed(outputs["scope"]);
    if found.None? {
      return [InvalidClassification];
    }
    var scope := found.value;
    var outputErrors := OutputErrors(outputs, scope);
    var jobErrors := JobErrors(needs, scope);
    errors := outputErrors + jobErrors;
    assert errors == [] <==> GateHolds(needs, scope);
  }

  // A change whose gate holds has run everything any part of it would have required, except
  // `lightweight`.
  lemma GateCoversParts(needs: Needs, paths: set<string>, part: set<string>, job: Job)
    requires GateHolds(needs, ScopeOf(paths)) && part != {} && part <= paths
    requires job in ScopeJobs(ScopeOf(part)) && job != Lightweight
    ensures ResultOf(needs, job) == Some(Succeeded)
  {
    MorePathsMoreJobs(part, paths);
    assert JobOk(needs, ScopeOf(paths), job);
  }
}
