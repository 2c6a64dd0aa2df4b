/**
  The parser of the current configuration format: resolve the requested
  services' dependency closure, then merge exactly that closure into the base.
*/
module Parser {
  import opened Document
  import opened Errors
  import opened Configs
  import opened Resolver
  import opened Merger
  import opened Fixtures

  /**
    The generated document for the requested services. `targets` lists the
    requested names in any order; an empty list requests every service.
  */
  function Parse(cfg: Config, targets: seq<string>): (r: Result<map<string, Value>>)
    ensures r.Err? ==> r.error.Wrapped?
    ensures r.Err? && r.error.phase != ParseDependencies ==> r.error == MergeError(BaseOrEmpty(cfg.base))
    ensures r.Ok? <==> AllDefined(DependencyMap(cfg.services), targets) && BaseAccepts(BaseOrEmpty(cfg.base))
  {
    CalcTargetsCorrect(DependencyMap(cfg.services), targets);
    match VisitAll(DependencyMap(cfg.services), targets, {})
    case Err(e) => Err(Wrapped(ParseDependencies, e))
    case Ok(closure) => Assemble(cfg.services, closure, cfg.base)
  }

  /**
    Resolution fails exactly when an undefined name is reachable from the
    targets; that failure is reported before the base is looked at and names
    such an undefined, reachable service.
  */
  lemma ParseResolutionError(cfg: Config, targets: seq<string>)
    ensures var r := Parse(cfg, targets);
      r.Err? && r.error.phase == ParseDependencies <==> !AllDefined(DependencyMap(cfg.services), targets)
    ensures var r := Parse(cfg, targets);
      r.Err? && r.error.phase == ParseDependencies ==>
        && r.error.cause.UndefinedService?
        && r.error.cause.name !in DependencyMap(cfg.services)
        && ReachableFrom(DependencyMap(cfg.services), targets, r.error.cause.name)
  {
    CalcTargetsCorrect(DependencyMap(cfg.services), targets);
  }

  /** When resolution succeeds, the parse is the merge of the reference closure. */
  lemma ParseMergesClosure(cfg: Config, targets: seq<string>)
    requires AllDefined(DependencyMap(cfg.services), targets)
    ensures Parse(cfg, targets) == Assemble(cfg.services, ReachSet(DependencyMap(cfg.services), targets), cfg.base)
  {
    CalcTargetsCorrect(DependencyMap(cfg.services), targets);
  }

  /**
    A successful parse keeps, in list order, every service when nothing is
    requested and otherwise exactly the services reachable from the request;
    `build.artifacts` is their artifacts concatenated and
    `deploy.kubectl.manifests` their distinct manifests.
  */
  lemma ParseSelectsReachable(cfg: Config, targets: seq<string>)
    requires Parse(cfg, targets).Ok?
    ensures var kept := Select(cfg.services, ReachSet(DependencyMap(cfg.services), targets));
      && (forall s :: s in kept <==>
            s in cfg.services && (targets == [] || ReachableFrom(DependencyMap(cfg.services), targets, s.name)))
      && At(Obj(Parse(cfg, targets).value), BuildArtifacts) == Some(List(ConcatArtifacts(kept)))
      && At(Obj(Parse(cfg, targets).value), KubectlManifests) == Some(List(Strings(UniqueManifests(kept))))
  {
    var g := DependencyMap(cfg.services);
    ParseMergesClosure(cfg, targets);
    ReachSetEmpty(g, targets);
    forall s | s in cfg.services && targets != [] && ReachableFrom(g, targets, s.name)
      ensures s.name in ReachSet(g, targets)
    {
      ReachableIsCandidate(g, targets, s.name);
    }
  }

  /** With no targets every service contributes, whatever it depends on. */
  lemma ParseEmptyTargetsKeepsAll(cfg: Config)
    requires Parse(cfg, []).Ok?
    ensures At(Obj(Parse(cfg, []).value), BuildArtifacts) == Some(List(ConcatArtifacts(cfg.services)))
    ensures At(Obj(Parse(cfg, []).value), KubectlManifests) == Some(List(Strings(UniqueManifests(cfg.services))))
  {
    ParseSelectsReachable(cfg, []);
    ReachSetEmpty(DependencyMap(cfg.services), []);
  }

  /** Only `build.artifacts` and `deploy.kubectl.manifests` are written; the rest of the base passes through. */
  lemma ParseFrame(cfg: Config, targets: seq<string>, p: seq<string>)
    requires Parse(cfg, targets).Ok?
    requires !Overlaps(p, BuildArtifacts) && !Overlaps(p, KubectlManifests)
    ensures At(Obj(Parse(cfg, targets).value), p) == At(Obj(BaseOrEmpty(cfg.base)), p)
  {
    ParseMergesClosure(cfg, targets);
    AssembleFrame(cfg.services, ReachSet(DependencyMap(cfg.services), targets), cfg.base, p);
  }

  /** The order in which the targets are listed changes neither success nor the document. */
  lemma ParseOrderIndependent(cfg: Config, ts1: seq<string>, ts2: seq<string>)
    requires forall t :: t in ts1 <==> t in ts2
    ensures Parse(cfg, ts1).Ok? <==> Parse(cfg, ts2).Ok?
    ensures Parse(cfg, ts1).Ok? ==> Parse(cfg, ts1) == Parse(cfg, ts2)
  {
    var g := DependencyMap(cfg.services);
    ReachSetOrderIndependent(g, ts1, ts2);
    if Parse(cfg, ts1).Ok? {
      ParseMergesClosure(cfg, ts1);
      ParseMergesClosure(cfg, ts2);
    }
  }

  /** A missing base behaves as an empty one. */
  lemma ParseMissingBase(cfg: Config, targets: seq<string>)
    ensures Parse(cfg.(base := None), targets) == Parse(cfg.(base := Some(map[])), targets)
  {
  }

  /**
    With unique service names the graph is the services' own dependency
    lists, so the closure the parser keeps contains the dependencies of every
    service it keeps.
  */
  lemma ClosureFollowsDependsOn(cfg: Config, targets: seq<string>, i: int, j: int)
    requires UniqueNames(cfg.services)
    requires 0 <= i < |cfg.services| && 0 <= j < |cfg.services|
    requires cfg.services[i] in Select(cfg.services, ReachSet(DependencyMap(cfg.services), targets))
    requires cfg.services[j].name in cfg.services[i].dependsOn
    ensures cfg.services[j] in Select(cfg.services, ReachSet(DependencyMap(cfg.services), targets))
  {
    var g := DependencyMap(cfg.services);
    var si, sj := cfg.services[i], cfg.services[j];
    ReachSetEmpty(g, targets);
    if targets != [] {
      DependencyMapOfUnique(cfg.services);
      assert si.name in ReachSet(g, targets);
      var t :| t in targets && Reachable(g, t, si.name);
      ReachAppend(g, t, si.name, sj.name);
      ReachableIsCandidate(g, targets, sj.name);
      assert sj.name in ReachSet(g, targets);
    }
  }

  lemma ExampleClosure()
    ensures VisitAll(DependencyMap([Mongodb, App, Foo]), ["app"], {}) == Ok({"app", "mongodb"})
  {
    var services := [Mongodb, App, Foo];
    assert [Mongodb][..0] == [];
    assert DependencyMap([Mongodb]) == map["mongodb" := []];
    assert [Mongodb, App][..1] == [Mongodb];
    assert DependencyMap([Mongodb, App]) == map["mongodb" := [], "app" := ["mongodb"]];
    assert services[..2] == [Mongodb, App];
    var g := DependencyMap(services);
    assert g == map["mongodb" := [], "app" := ["mongodb"], "foo" := []];
    var none: set<string> := {};
    var both := {"app", "mongodb"};
    assert none + {"app"} == {"app"} && {"app"} + {"mongodb"} == both;
    assert VisitAll(g, [], both) == Ok(both);
    assert Visit(g, "mongodb", {"app"}) == Ok(both);
    assert VisitAll(g, ["mongodb"], {"app"}) == Ok(both);
    assert Visit(g, "app", none) == Ok(both);
  }

  /** Merging `{app, mongodb}` over no base keeps `mongodb` and `app` in list order. */
  lemma ExampleAssemble()
    ensures var r := Assemble([Mongodb, App, Foo], {"app", "mongodb"}, None);
      && r.Ok?
      && At(Obj(r.value), BuildArtifacts) == Some(List([MongodbImage, NginxImage]))
      && At(Obj(r.value), KubectlManifests) == Some(List(Strings(UniqueManifests([Mongodb, App]))))
    ensures forall m :: m in UniqueManifests([Mongodb, App]) <==> m == "app.yaml" || m == "mongodb.yaml"
  {
    var services := [Mongodb, App, Foo];
    var both := {"app", "mongodb"};
    var empty: map<string, Value> := map[];
    assert At(Obj(empty), ["build"]) == None && At(Obj(empty), ["deploy"]) == None;
    assert At(Obj(empty), ["deploy", "kubectl"]) == None;
    assert BaseAccepts(BaseOrEmpty(None));
    assert Filter([Foo], both) == [];
    assert Filter([App, Foo], both) == [App];
    assert Select(services, both) == [Mongodb, App];
    assert ConcatArtifacts([App]) == [NginxImage];
    assert ConcatArtifacts([Mongodb, App]) == [MongodbImage, NginxImage];
  }

  /**
    Requesting `app` brings in the `mongodb` it depends on, leaves out the
    unrelated `foo`, and lists the artifacts in service order.
  */
  lemma ParseDependencyExample()
    ensures var r := Parse(Config([Mongodb, App, Foo], None), ["app"]);
      && r.Ok?
      && At(Obj(r.value), BuildArtifacts) == Some(List([MongodbImage, NginxImage]))
      && At(Obj(r.value), KubectlManifests) == Some(List(Strings(UniqueManifests([Mongodb, App]))))
    ensures forall m :: m in UniqueManifests([Mongodb, App]) <==> m == "app.yaml" || m == "mongodb.yaml"
  {
    ExampleClosure();
    ExampleAssemble();
    assert Parse(Config([Mongodb, App, Foo], None), ["app"]) == Assemble([Mongodb, App, Foo], {"app", "mongodb"}, None);
  }
}
