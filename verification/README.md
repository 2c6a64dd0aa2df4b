# skaffold-generator core, modelled in Dafny

skaffold-generator reads a list of services, each with build artifacts,
Kubernetes manifest paths and the services it depends on, plus a base
`skaffold.yaml` document. It writes a `skaffold.yaml` whose `build.artifacts`
and `deploy.kubectl.manifests` come from the requested services. This project
models the two parts of that computation that hold real logic:

- **Dependency resolution** (`calcTargets` and `calcTargetsRecursively` in
  `pkg/config/parse.go`). This is a depth-first closure over the depends-on
  relation. It tolerates cycles and fails with `undefined service: <name>`.
- **Configuration merge** (`Parse`, `setDependencyMap`, `setArtifacts` and
  `setManifests`). It keeps the services in the closure, or all of them when
  nothing was requested. It concatenates their artifacts, collects their
  distinct manifests, and overwrites exactly the two fields of the base. It
  fails if `build`, `deploy` or `deploy.kubectl` is present but not a map.

The older parser in `pkg/cli` is modelled too. It exists twice:
`pkg/cli/parse.go` and `pkg/cli/runner.go:156-226` are identical. It selects
services by their literal names and does no dependency expansion. Its
`SetArtifacts` and `SetManifests` are the same code as the `pkg/config`
functions, so they are modelled once, as `Merger.SetArtifacts` and
`Merger.SetManifests`.

## Layout

| file | module | what it holds |
|---|---|---|
| `document.dfy` | `Document` | the untyped YAML `Value`, path lookup `At`, `Overlaps` |
| `errors.dfy` | `Errors` | the `Error` variants, the wrapping phases, `Result`, message texts |
| `configs.dfy` | `Configs` | `ServiceConfig`, `Config`, unique-name and last-named predicates |
| `resolver.dfy` | `Resolver` | dependency map, `Visit`/`VisitAll`, reachability and closure proofs |
| `merger.dfy` | `Merger` | selection, aggregation, the two field writers, the shared merge |
| `parser.dfy` | `Parser` | the `pkg/config` parser and its properties |
| `legacy.dfy` | `LegacyParser` | the `pkg/cli` parser and its properties |
| `fixtures.dfy` | `Fixtures` | the services of the dependency case in the program's tests |

## Modelling choices

- The document is a tagged `Value`. `At(v, path)` follows map keys. "Nothing
  else changes" is stated like this: at every path that overlaps neither
  `build.artifacts` nor `deploy.kubectl.manifests`, `At` gives the same value
  before and after. Two paths overlap when one is a prefix of the other.
- The dependency graph is `map<string, seq<string>>`, and each service's
  `DependsOn` list is its visiting order. The program turns the list into a
  set and walks it in Go map order. Every proved result depends only on the
  elements: the closure is the reachable set, whatever the order.
- `calcTargets` is `Resolver.VisitAll`. `calcTargetsRecursively` is
  `Resolver.Visit`. The loop inside `calcTargetsRecursively` is the same fold
  over a list of names as `calcTargets`, so `Visit` calls `VisitAll` on the
  dependency list. Termination is proved with the number of graph keys not
  yet visited as the measure.
- The requested targets of `Parse` are a `seq<string>` enumerating the
  program's target set. `Parser.ParseOrderIndependent` proves that the order
  of the list does not matter. The `pkg/cli` parser only tests membership, so
  its targets stay a `set<string>`.
- The manifests are gathered in first-seen order. The program collects them
  in a set and writes them in map iteration order, which is unspecified.
  `Merger.UniqueManifests`'s own contract states only that there are no
  duplicates and which elements are present. The model itself fixes the
  first-seen order, so the members that equate a manifest list with
  `UniqueManifests(...)` (`Merger.Assemble`, `Parser.ParseSelectsReachable`,
  `LegacyParser.LegacyParseSelectsLiterally`, `Parser.ParseDependencyExample`)
  and the lemmas that equate whole documents (`Parser.ParseMergesClosure`,
  `LegacyParser.ParseIsLegacyOfClosure`, `Parser.ParseOrderIndependent`) hold
  for the program only up to the order of `deploy.kubectl.manifests`.
- Unique service names are a precondition only where they matter
  (`Resolver.DependencyMapOfUnique`, `Parser.ClosureFollowsDependsOn`). For
  duplicate names, the model does what the code does: the dependency map
  keeps the last service of a name, and aggregation keeps every entry.
- A nil base is `None` and is read as an empty map. Errors are values:
  `Wrapped(phase, cause)` stands for the `fmt.Errorf` wrapping, and
  `Errors.Message` produces the program's texts.
- `DependsOn` is a list of names (pkg/config/config.go:21). Artifacts are
  concatenated in service-list order, not in traversal order
  (pkg/config/parse.go:35-42).

## Model

| member | source | states |
|---|---|---|
| Resolver.DependencyMap | pkg/config/parse.go:68-76 | every service name is a key, and the last service in the list sets its own name's dependency list |
| Resolver.DependencyMapLastWins | pkg/config/parse.go:68-76 | the map's keys are exactly the service names; each key maps to the dependency list of the last service with that name |
| Resolver.DependencyMapOfUnique | pkg/config/config.go:12-21 | with unique names, every service's name maps to its own `DependsOn` list |
| Resolver.Visit | pkg/config/parse.go:136-157 | an already visited target leaves the set unchanged; an unvisited undefined target is `undefined service` and is not inserted; on success the set only grows, contains the target, and every newly added name is a defined service whose dependencies are all in the result; any error names an undefined, unvisited service |
| Resolver.VisitAll | pkg/config/parse.go:120-130 | no targets returns the set unchanged; on success every target is in the result, the set only grows, and new names are defined with their dependencies inside; errors name an undefined service |
| Resolver.VisitFreshReachable | pkg/config/parse.go:149-156 | every name the traversal adds is reachable from the target along dependency edges |
| Resolver.VisitAllFreshReachable | pkg/config/parse.go:123-127 | every name added while visiting a list of targets is reachable from one of them |
| Resolver.VisitErrReachable | pkg/config/parse.go:145-148 | the undefined name reported is reachable from the target |
| Resolver.VisitAllErrReachable | pkg/config/parse.go:123-128 | the undefined name reported is reachable from one of the targets |
| Resolver.VisitExact | pkg/config/parse.go:132-157 | from a dependency-closed visited set, success returns that set plus exactly the names reachable from the target, and the result is closed |
| Resolver.VisitAllExact | pkg/config/parse.go:118-130 | from a dependency-closed set, success returns that set plus exactly the names reachable from some target, still closed |
| Resolver.VisitAllSucceedsIff | pkg/config/parse.go:139-148 | from a closed set, resolution succeeds if and only if every name reachable from the targets is defined; cycles alone never cause failure |
| Resolver.CalcTargetsCorrect | pkg/config/parse.go:18-23 | from the empty set the parser starts with: success iff all reachable names are defined, the result is then exactly the reachable set, and a failure names an undefined reachable service |
| Resolver.ReachSetOrderIndependent | pkg/config/parse.go:123-124 | the closure and whether it succeeds depend only on which names are requested, not their order |
| Resolver.CircularDependency | pkg/config/parse_internal_test.go:114-130 | `app` and `mongodb` depending on each other resolve from `app` to `{app, mongodb}` |
| Resolver.DependencyFromPartialSet | pkg/config/parse_internal_test.go:91-113 | starting from `{foo}`, `app` adds `app`, `api` and `mongodb` and keeps `foo` |
| Merger.Filter | pkg/config/parse.go:35-41 | a service is kept iff it is in the list and its name is selected; never more services than given |
| Merger.FilterAppend | pkg/config/parse.go:35-41 | filtering a concatenation filters each part, so kept services stay in list order |
| Merger.Select | pkg/config/parse.go:33-41 | an empty selection keeps every service; otherwise a service is kept iff its name is selected |
| Merger.ConcatArtifacts | pkg/config/parse.go:42 | an artifact is in the output iff some given service has it |
| Merger.ConcatArtifactsAppend | pkg/config/parse.go:35-42 | artifacts of a concatenation are the concatenated artifacts: order and duplicates are kept |
| Merger.AddManifests | pkg/config/parse.go:43-45 | adding manifests keeps the list duplicate-free and its elements are the old ones plus the added ones |
| Merger.CollectManifests | pkg/config/parse.go:35-46 | folding the services into a duplicate-free collection keeps it duplicate-free, and its elements are the old ones plus every manifest of every service |
| Merger.UniqueManifests | pkg/config/parse.go:43-53 | the manifest list has no duplicates and holds exactly the manifests of the given services |
| Merger.SetArtifacts | pkg/config/parse.go:80-92 | fails with `ShouldBeMap("build")` ("the configuration 'build' should be map") iff `build` is present and not a map; otherwise `build.artifacts` is exactly the given list |
| Merger.SetArtifactsFrame | pkg/config/parse.go:89-90 | every path not overlapping `build.artifacts` is unchanged, e.g. other keys of `build` and every top-level key |
| Merger.SetArtifactsReplaces | pkg/cli/runner.go:156-168 | setting artifacts twice equals setting the second list once: replace, not append |
| Merger.SetManifests | pkg/config/parse.go:94-116 | succeeds iff `deploy` and `deploy.kubectl` are each absent or a map; fails naming `deploy` before `deploy.kubectl`; otherwise `deploy.kubectl.manifests` is exactly the given list |
| Merger.SetManifestsFrame | pkg/config/parse.go:111-114 | every path not overlapping `deploy.kubectl.manifests` is unchanged, e.g. `kubectl.flags` and `apiVersion` |
| Merger.Assemble | pkg/config/parse.go:55-65 | succeeds iff the (defaulted) base has map-or-absent `build`, `deploy`, `deploy.kubectl`; a failure is exactly `MergeError` of the base: `Wrapped(UpdateArtifacts, ShouldBeMap("build"))` when `build` is bad, otherwise `Wrapped(UpdateManifests, ShouldBeMap("deploy"))`, or `ShouldBeMap("deploy.kubectl")` when `deploy` is fine; on success the two fields hold the kept services' artifacts and distinct manifests |
| Merger.BuildRejectedMessage | pkg/config/parse.go:59-61 | when `build` is present and not a map, the merge error reads "failed to update artifacts: the configuration 'build' should be map" (the cause text at pkg/config/parse.go:87) |
| Merger.DeployRejectedMessage | pkg/config/parse.go:62-64 | when `build` is fine and `deploy` is not a map, the merge error reads "failed to update manifests: the configuration 'deploy' should be map" (pkg/config/parse.go:101) |
| Merger.KubectlRejectedMessage | pkg/config/parse.go:62-64 | when `build` and `deploy` are fine, a merge error reads "failed to update manifests: the configuration 'deploy.kubectl' should be map" (pkg/config/parse.go:109) |
| Merger.AssembleFrame | pkg/config/parse.go:59-65 | on success every base path overlapping neither written field is unchanged |
| Parser.Parse | pkg/config/parse.go:16-66 | succeeds iff every name reachable from the targets is defined and the base's `build`, `deploy`, `deploy.kubectl` are each absent or a map; every error is wrapped, and an error outside dependency parsing is exactly the merge error for that base |
| Parser.ParseMissingBase | pkg/config/parse.go:55-57 | a missing base gives the same result as an empty one |
| Parser.ParseResolutionError | pkg/config/parse.go:20-23 | a `failed to parse dependencies` error occurs iff some reachable name is undefined, and it names such a service |
| Resolver.ReachSetEmpty | pkg/config/parse.go:33 | the closure is empty iff no targets were requested |
| Parser.ParseMergesClosure | pkg/config/parse.go:18-46 | when resolution succeeds, the parse is the merge of the reference closure |
| Parser.ParseSelectsReachable | pkg/config/parse.go:33-53 | on success the kept services are all of them for no targets, else exactly those reachable from the targets; artifacts and manifests are theirs |
| Parser.ParseEmptyTargetsKeepsAll | pkg/config/parse.go:12-15 | with no targets every service's artifacts and manifests are written |
| Parser.ParseFrame | pkg/config/config.go:7-9 | only `build.artifacts` and `deploy.kubectl.manifests` of the base are overwritten; all other content passes through |
| Parser.ParseOrderIndependent | pkg/config/parse.go:16-23 | listing the same targets in another order gives the same success and the same document |
| Parser.ClosureFollowsDependsOn | pkg/config/config.go:13-21 | with unique names, if a kept service depends on another service, that one is kept too |
| Parser.ExampleClosure | pkg/config/parse_internal_test.go:26-40 | requesting `app`, which depends on `mongodb`, resolves to `{app, mongodb}` without `foo` |
| Parser.ExampleAssemble | pkg/config/parse.go:33-65 | merging the closure `{app, mongodb}` of the test configuration over no base succeeds, writes the `mongodb` and `nginx` artifacts in service order, and takes manifests only from those two services; the manifests are exactly `app.yaml` and `mongodb.yaml` (pkg/config/parse_test.go:98) |
| Parser.ParseDependencyExample | pkg/config/parse_test.go:50-102 | requesting `app` writes the `mongodb` and `nginx` artifacts in service order and leaves out `foo`; the manifests are exactly `app.yaml` and `mongodb.yaml` (pkg/config/parse_test.go:98) |
| LegacyParser.LegacyParse | pkg/cli/parse.go:46-78 | succeeds iff the base accepts the merge; unknown targets never cause an error; every error is exactly the wrapped `should be map` error for the first bad one of `build`, `deploy`, `deploy.kubectl` |
| LegacyParser.LegacyParseSelectsLiterally | pkg/cli/runner.go:194-213 | kept services are all of them for no targets, else exactly those whose name is requested; the artifacts are their concatenation and the manifests are their distinct manifests |
| LegacyParser.LegacyParseFrame | pkg/cli/runner.go:215-226 | on success every base path overlapping neither written field is unchanged |
| LegacyParser.ParseIsLegacyOfClosure | pkg/cli/parse.go:49-54 | the newer parser equals the older one applied to the dependency closure |
| LegacyParser.LegacyNoExpansion | pkg/cli/parse.go:50-54 | requesting `app` writes only `app`'s artifact, not that of the `mongodb` it depends on |
| LegacyParser.SetArtifactsCreatesBuild | pkg/cli/parse.go:8-20 | an absent `build` is created holding only `artifacts`; the rest of the base is kept |
| LegacyParser.SetManifestsCreatesLevels | pkg/cli/parse.go:22-44 | an absent `deploy` is created with a `kubectl` map holding only `manifests` |
| LegacyParser.SetManifestsMergesBase | pkg/cli/runner.go:170-192 | old manifests are replaced while `kubectl.flags` and `apiVersion` stay |

## Left out

- YAML reading and writing (`pkg/config/read.go`, `pkg/config/write.go`,
  `ConfigParser.Read`, `ConfigWriter.Write`): thin wrappers over the file
  system and a YAML library. The model starts from decoded values.
- File watching, signal handling and the generation loop (`pkg/watch`,
  `Runner.action`, `cmd/skaffold-generator/main.go`): concurrency and I/O,
  not logic.
- Orchestration and the command-line surface (`pkg/controller`,
  `Runner.Run`, `Runner.Generate`): sequencing and flag parsing.
- Go map iteration order: no particular visiting order or manifest order is
  modelled or asserted. When several undefined names are reachable, nothing
  is said about which one is reported.
- Partial mutation on failure: the program has already written
  `build.artifacts` into the caller's base when the manifest step fails. The
  model is pure and returns only the error.
- In-place update and shared maps: on success the program writes into the
  maps it finds in the caller's base and returns that same map
  (pkg/config/parse.go:65, 85-90, 99-114; the `pkg/cli` parser assigns
  `cfg.Base` through its pointer, pkg/cli/parse.go:67-68). The model returns
  a new value. Go maps are references, so one map can sit at two places of a
  base, and a write through one place shows at the other. The frame lemmas
  (`Merger.SetArtifactsFrame`, `Merger.SetManifestsFrame`,
  `Merger.AssembleFrame`, `Parser.ParseFrame`, `LegacyParser.LegacyParseFrame`)
  hold for the program only for bases that do not hold one Go map at two
  places. Bases decoded from YAML never share a map.
- The `[]string` / `[]interface{}` distinction: both are `Value.List`. Numbers
  other than integers are not represented, since the merge never inspects
  them.
- `Obj` stands only for Go's `map[string]interface{}`. The program's type
  assertions (pkg/config/parse.go:85, 99, 107 and pkg/cli/parse.go:13, 27,
  35) reject every other map type with "should be map". One such type is
  `map[interface{}]interface{}`, which the YAML library produces for nested
  mappings. The model does not represent other map types, so it accepts
  every nested mapping that the program would reject for its Go type.
- Nil nested maps: `Obj` stands for a non-nil map. Go's type assertions
  accept a nil `map[string]interface{}`, and the write that follows then
  panics with "assignment to entry in nil map": at pkg/config/parse.go:89 for
  a nil `build`, :112 for a nil `deploy` and :111 for a nil `deploy.kubectl`
  (pkg/cli/parse.go:17, 40 and 39). The model has no such value and no panic
  path: for these bases the program panics where `Merger.SetArtifacts`,
  `Merger.SetManifests`, `Merger.Assemble`, `Parser.Parse` and
  `LegacyParser.LegacyParse` return `Ok`. Only the top-level nil base is
  handled, as the empty map (pkg/config/parse.go:55-57). YAML decoding never
  produces a nil nested map.
- Lists are not entered by `At`. The frame lemmas compare a list that is not
  written as a whole value, which covers everything inside it.
- Errors.Message: only the texts of the merge errors are stated
  (`Merger.BuildRejectedMessage`, `Merger.DeployRejectedMessage`,
  `Merger.KubectlRejectedMessage`); the `undefined service` text is defined but
  no lemma states it.
- The `pkg/cli` tests that call a `calcTargets` the package does not define,
  or that expect dependency expansion or a fixed manifest order. They
  contradict the `pkg/cli` code, and the model follows the code.
