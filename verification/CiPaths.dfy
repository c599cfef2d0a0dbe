/** The change classifier on path text: where a path must lie, and how its file may be called, for
    each scope. */
module CiPaths {
  import opened Wrappers
  import opened CiPlan

  // ----- Components -----

  function Join(parts: seq<string>, separator: char): string
    requires parts != []
  {
    if |parts| == 1 then parts[0] else parts[0] + [separator] + Join(parts[1..], separator)
  }

  // Splitting is undone by joining, and no part contains the separator.
  lemma {:induction false} SplitJoins(s: string, separator: char)
    ensures Join(Split(s, separator), separator) == s
    ensures forall part | part in Split(s, separator) :: separator !in part
  {
    if s != "" {
      var rest := Split(s[1..], separator);
      SplitJoins(s[1..], separator);
      if s[0] == separator {
        assert Split(s, separator)[1..] == rest;
      } else {
        assert Split(s, separator)[1..] == rest[1..];
        assert rest[0] in rest;
      }
      assert s == [s[0]] + s[1..];
    }
  }

  function FileName(path: string): string {
    var parts := Split(path, '/');
    parts[|parts| - 1]
  }

  predicate CleanComponents(path: string) {
    path != "" && '\\' !in path && forall part | part in Split(path, '/') :: part != "" && part != "." && part != ".."
  }

  // ----- Names and places that call for the full plan -----

  predicate IsYaml(name: string) {
    EndsWith(name, ".yml") || EndsWith(name, ".yaml")
  }

  // The file is no manifest, lock file, requirements file, container or compose file.
  predicate PlainName(name: string) {
    && name !in MANIFEST_NAMES
    && !EndsWith(name, ".lock")
    && !("requirements" <= name && EndsWith(name, ".txt"))
    && !("requirements" <= name && EndsWith(name, ".in"))
    && name != "Dockerfile" && !("Dockerfile." <= name)
    && !("docker-compose" <= name && IsYaml(name)) && !("compose" <= name && IsYaml(name))
  }

  predicate InFullPlace(path: string) {
    || ".github/" <= path
    || "scripts/ci/" <= path
    || "backend/alembic/" <= path
    || "deployment/" <= path
    || "backend/src/cold_storage/bootstrap/" <= path
    || "backend/src/cold_storage/release/" <= path
    || path == "backend/alembic.ini"
  }

  predicate IsBackendInfrastructure(path: string) {
    && "backend/src/" <= path
    && ("infrastructure" in Split(path, '/') || FileName(path) in {"config.py", "settings.py", "entrypoint.py"})
  }

  predicate Ordinary(path: string) {
    CleanComponents(path) && PlainName(FileName(path)) && !InFullPlace(path) && !IsBackendInfrastructure(path)
  }

  predicate IsDocsPath(path: string) {
    Ordinary(path) && ("docs/" <= path || "backend/tests/architecture/" <= path)
  }

  predicate IsBackendPath(path: string) {
    && Ordinary(path)
    && ("backend/src/" <= path || ("backend/tests/" <= path && !("backend/tests/architecture/" <= path)))
  }

  predicate IsFrontendPath(path: string) {
    Ordinary(path) && "frontend/" <= path
  }

  // A leading slash is an empty first component.
  lemma CleanIsNotUnclean(path: string)
    ensures CleanComponents(path) <==> !IsUnclean(path)
  {
    if path != "" && path[0] == '/' {
      assert Split(path, '/')[0] == "" && "" in Split(path, '/');
    }
  }

  lemma InFullPrefix(path: string)
    ensures StartsWithAny(path, FULL_PREFIXES) || path == "backend/alembic.ini" <==> InFullPlace(path)
  {
    assert ".github/" in FULL_PREFIXES && "scripts/ci/" in FULL_PREFIXES && "backend/alembic/" in FULL_PREFIXES;
    assert "deployment/" in FULL_PREFIXES && "backend/src/cold_storage/bootstrap/" in FULL_PREFIXES;
    assert "backend/src/cold_storage/release/" in FULL_PREFIXES;
  }

  lemma TriggerExactly(path: string)
    ensures IsTrigger(path) <==> !PlainName(FileName(path)) || InFullPlace(path) || IsBackendInfrastructure(path)
  {
    InFullPrefix(path);
  }

  lemma PlacesDiffer(path: string)
    ensures "frontend/" <= path ==> !("docs/" <= path) && !("backend/src/" <= path) && !("backend/tests/" <= path)
    ensures "docs/" <= path ==> !("backend/src/" <= path) && !("backend/tests/" <= path)
    ensures "backend/src/" <= path ==> !("backend/tests/" <= path)
    ensures "backend/tests/architecture/" <= path ==> "backend/tests/" <= path
  {
    assert "frontend/"[0] == 'f' && "docs/"[0] == 'd' && "backend/src/"[0] == 'b' && "backend/tests/"[0] == 'b';
    assert "backend/src/"[8] == 's' && "backend/tests/"[8] == 't';
    assert "backend/tests/architecture/"[..14] == "backend/tests/";
  }

  // Main result: what kind of change a path is, by its place and its name.
  lemma KindExactly(path: string)
    ensures KindOf(path).Docs? <==> IsDocsPath(path)
    ensures KindOf(path).Backend? <==> IsBackendPath(path)
    ensures KindOf(path).Frontend? <==> IsFrontendPath(path)
  {
    CleanIsNotUnclean(path);
    TriggerExactly(path);
    PlacesDiffer(path);
  }

  // ----- Scopes -----

  // The predicates sort paths as kindOf does.
  ghost predicate Sorts(kindOf: string -> Kind, docs: string -> bool, backend: string -> bool, frontend: string -> bool,
                        paths: set<string>) {
    forall p | p in paths ::
      && (kindOf(p).Docs? <==> docs(p))
      && (kindOf(p).Backend? <==> backend(p))
      && (kindOf(p).Frontend? <==> frontend(p))
  }

  lemma KindsSorted(kindOf: string -> Kind, docs: string -> bool, backend: string -> bool, frontend: string -> bool,
                    paths: set<string>)
    requires Sorts(kindOf, docs, backend, frontend, paths)
    ensures var kinds := Kinds(kindOf, paths);
            && (Backend in kinds <==> exists p | p in paths :: backend(p))
            && (Frontend in kinds <==> exists p | p in paths :: frontend(p))
            && (Docs in kinds <==> exists p | p in paths :: docs(p))
            && (kinds != {} && Unclean !in kinds && Trigger !in kinds && Elsewhere !in kinds <==>
                  paths != {} && forall p | p in paths :: docs(p) || backend(p) || frontend(p))
  {
    var kinds := Kinds(kindOf, paths);
    assert forall p | p in paths :: kindOf(p) in kinds;
    KindsByPath(kindOf, paths);
  }

  lemma ScopeByPath(kindOf: string -> Kind, docs: string -> bool, backend: string -> bool, frontend: string -> bool,
                    paths: set<string>)
    requires Sorts(kindOf, docs, backend, frontend, paths)
    ensures var scope := ScopeOfKinds(Kinds(kindOf, paths));
            var known := paths != {} && forall p | p in paths :: docs(p) || backend(p) || frontend(p);
            && (scope.FrontendScope? <==> known && forall p | p in paths :: frontend(p))
            && (scope.DocsArchitectureOnly? <==> known && forall p | p in paths :: docs(p))
            && (scope.BackendScope? <==> known && (exists p | p in paths :: backend(p)) &&
                                         forall p | p in paths :: !frontend(p))
            && (scope.BackendFrontend? <==> known && (exists p | p in paths :: backend(p)) &&
                                            exists p | p in paths :: frontend(p))
            && (!known ==> scope.Full?)
  {
    KindsSorted(kindOf, docs, backend, frontend, paths);
    assert forall p | p in paths :: !(frontend(p) && docs(p)) && !(frontend(p) && backend(p));
    assert forall p | p in paths :: !(docs(p) && backend(p));
  }

  // Main result: the scope of a change, by where its paths lie.  A change with a path that is neither
  // documents, backend nor frontend is FULL, and so is one of documents and frontend together.
  lemma ScopeExactly(paths: set<string>)
    ensures var known := paths != {} && forall p | p in paths :: IsDocsPath(p) || IsBackendPath(p) || IsFrontendPath(p);
            && (ScopeOf(paths).FrontendScope? <==> known && forall p | p in paths :: IsFrontendPath(p))
            && (ScopeOf(paths).DocsArchitectureOnly? <==> known && forall p | p in paths :: IsDocsPath(p))
            && (ScopeOf(paths).BackendScope? <==> known && (exists p | p in paths :: IsBackendPath(p)) &&
                                                  forall p | p in paths :: !IsFrontendPath(p))
            && (ScopeOf(paths).BackendFrontend? <==> known && (exists p | p in paths :: IsBackendPath(p)) &&
                                                     exists p | p in paths :: IsFrontendPath(p))
            && (!known ==> ScopeOf(paths).Full?)
  {
    forall p | p in paths { KindExactly(p); }
    ScopeByPath(KindOf, IsDocsPath, IsBackendPath, IsFrontendPath, paths);
  }

  // Main result: one malformed path, manifest or path in a full place makes the whole change FULL.
  lemma OnePathForcesFull(paths: set<string>, path: string)
    requires path in paths && !Ordinary(path)
    ensures ScopeOf(paths).Full?
  {
    ScopeExactly(paths);
  }
}
