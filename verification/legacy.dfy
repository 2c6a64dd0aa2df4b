/**
  The older parser: it keeps the services whose names are requested
  literally, with no dependency expansion, and then performs the same merge.
*/
module LegacyParser {
  import opened Document
  import opened Errors
  import opened Configs
  import opened Resolver
  import opened Merger
  import opened Parser
  import opened Fixtures

  /**
    Unknown requested names simply match no service: the only failures are a
    `build`, `deploy` or `deploy.kubectl` of the base that is not a map.
  */
  function LegacyParse(cfg: Config, targets: set<string>): (r: Result<map<string, Value>>)
    ensures r.Ok? <==> BaseAccepts(BaseOrEmpty(cfg.base))
    ensures r.Err? ==> r.error == MergeError(BaseOrEmpty(cfg.base))
  {
    Assemble(cfg.services, targets, cfg.base)
  }

  /**
    The services kept are all of them for an empty request and otherwise
    exactly those whose name is requested, in list order.
  */
  lemma LegacyParseSelectsLiterally(cfg: Config, targets: set<string>)
    requires LegacyParse(cfg, targets).Ok?
    ensures var kept := Select(cfg.services, targets);
      && (forall s :: s in kept <==> s in cfg.services && (targets == {} || s.name in targets))
      && At(Obj(LegacyParse(cfg, targets).value), BuildArtifacts) == Some(List(ConcatArtifacts(kept)))
      && At(Obj(LegacyParse(cfg, targets).value), KubectlManifests) == Some(List(Strings(UniqueManifests(kept))))
  {
  }

  /** The older parser leaves the same base content untouched as the newer one. */
  lemma LegacyParseFrame(cfg: Config, targets: set<string>, p: seq<string>)
    requires LegacyParse(cfg, targets).Ok?
    requires !Overlaps(p, BuildArtifacts) && !Overlaps(p, KubectlManifests)
    ensures At(Obj(LegacyParse(cfg, targets).value), p) == At(Obj(BaseOrEmpty(cfg.base)), p)
  {
    AssembleFrame(cfg.services, targets, cfg.base, p);
  }

  /** The newer parser is the older one applied to the dependency closure of the request. */
  lemma ParseIsLegacyOfClosure(cfg: Config, targets: seq<string>)
    requires AllDefined(DependencyMap(cfg.services), targets)
    ensures Parse(cfg, targets) == LegacyParse(cfg, ReachSet(DependencyMap(cfg.services), targets))
  {
    ParseMergesClosure(cfg, targets);
  }

  /** Requesting `app` alone does not bring in the `mongodb` it depends on. */
  lemma LegacyNoExpansion()
    ensures var r := LegacyParse(Config([Mongodb, App], None), {"app"});
      r.Ok? && At(Obj(r.value), BuildArtifacts) == Some(List([NginxImage]))
  {
    assert Filter([App], {"app"}) == [App];
    assert Filter([Mongodb, App], {"app"}) == [App];
    assert ConcatArtifacts([App]) == [NginxImage];
  }

  /** An absent `build` is created holding only the artifacts; the rest of the base is kept. */
  lemma SetArtifactsCreatesBuild(base: map<string, Value>, artifacts: seq<Value>)
    requires "build" !in base
    ensures SetArtifacts(base, artifacts) == Ok(base["build" := Obj(map["artifacts" := List(artifacts)])])
  {
  }

  /** An absent `deploy` is created with a `kubectl` map holding only the manifests. */
  lemma SetManifestsCreatesLevels(base: map<string, Value>, manifests: seq<string>)
    requires "deploy" !in base
    ensures SetManifests(base, manifests)
         == Ok(base["deploy" := Obj(map["kubectl" := Obj(map["manifests" := List(Strings(manifests))])])])
  {
  }

  /** The merge case of the program's tests: old manifests are replaced, `flags` and `apiVersion` stay. */
  lemma SetManifestsMergesBase()
    ensures var flags := Obj(map["disableValidation" := Bool(false)]);
      var base := map[
        "apiVersion" := Str("skaffold/v2beta1"),
        "deploy" := Obj(map["kubectl" := Obj(map[
          "manifests" := List([Str("deployment.yaml")]),
          "flags" := flags])])];
      SetManifests(base, ["service.yaml"]) == Ok(map[
        "apiVersion" := Str("skaffold/v2beta1"),
        "deploy" := Obj(map["kubectl" := Obj(map[
          "manifests" := List([Str("service.yaml")]),
          "flags" := flags])])])
  {
    var flags := Obj(map["disableValidation" := Bool(false)]);
    var kubectl := map["manifests" := List([Str("deployment.yaml")]), "flags" := flags];
    var deploy := map["kubectl" := Obj(kubectl)];
    var base := map["apiVersion" := Str("skaffold/v2beta1"), "deploy" := Obj(deploy)];
    var kubectl' := map["manifests" := List([Str("service.yaml")]), "flags" := flags];
    assert Strings(["service.yaml"]) == [Str("service.yaml")];
    assert kubectl["manifests" := List([Str("service.yaml")])] == kubectl';
    assert deploy["kubectl" := Obj(kubectl')] == map["kubectl" := Obj(kubectl')];
    assert SetManifests(base, ["service.yaml"]) == Ok(base["deploy" := Obj(map["kubectl" := Obj(kubectl')])]);
    assert base["deploy" := Obj(map["kubectl" := Obj(kubectl')])]
        == map["apiVersion" := Str("skaffold/v2beta1"), "deploy" := Obj(map["kubectl" := Obj(kubectl')])];
  }
}
