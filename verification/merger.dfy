/**
  The merge: keep the selected services, gather their artifacts and manifests,
  and overwrite `build.artifacts` and `deploy.kubectl.manifests` of the base
  document, leaving everything else in it as it was.
*/
module Merger {
  import opened Document
  import opened Errors
  import opened Configs

  const BuildArtifacts: seq<string> := ["build", "artifacts"]
  const KubectlManifests: seq<string> := ["deploy", "kubectl", "manifests"]

  // ---------------------------------------------------------------------------
  // Selecting and aggregating services

  /** The services whose name is in `names`, in list order. */
  function Filter(services: seq<ServiceConfig>, names: set<string>): (kept: seq<ServiceConfig>)
    ensures |kept| <= |services|
    ensures forall s :: s in kept <==> s in services && s.name in names
    decreases |services|
  {
    if services == [] then []
    else
      assert forall s :: s in services[1..] ==> s in services;
      (if services[0].name in names then [services[0]] else []) + Filter(services[1..], names)
  }

  /** Filtering a concatenation filters each part: the relative order of kept services is the list order. */
  lemma {:induction false} FilterAppend(a: seq<ServiceConfig>, b: seq<ServiceConfig>, names: set<string>)
    ensures Filter(a + b, names) == Filter(a, names) + Filter(b, names)
    decreases |a|
  {
    if a == [] {
      assert a + b == b;
    } else {
      assert (a + b)[0] == a[0] && (a + b)[1..] == a[1..] + b;
      FilterAppend(a[1..], b, names);
    }
  }

  /** An empty selection keeps every service; otherwise exactly those named in it. */
  function Select(services: seq<ServiceConfig>, keep: set<string>): (kept: seq<ServiceConfig>)
    ensures keep == {} ==> kept == services
    ensures keep != {} ==> forall s :: s in kept <==> s in services && s.name in keep
  {
    if |keep| == 0 then services else Filter(services, keep)
  }

  /** The artifacts of the services, service by service, duplicates kept. */
  function ConcatArtifacts(services: seq<ServiceConfig>): (r: seq<Value>)
    ensures forall a :: a in r <==> exists s :: s in services && a in s.artifacts
    decreases |services|
  {
    if services == [] then []
    else
      assert forall s :: s in services[1..] ==> s in services;
      services[0].artifacts + ConcatArtifacts(services[1..])
  }

  /** Concatenation is in service order and keeps every occurrence. */
  lemma {:induction false} ConcatArtifactsAppend(a: seq<ServiceConfig>, b: seq<ServiceConfig>)
    ensures ConcatArtifacts(a + b) == ConcatArtifacts(a) + ConcatArtifacts(b)
    decreases |a|
  {
    if a == [] {
      assert a + b == b;
    } else {
      assert (a + b)[0] == a[0] && (a + b)[1..] == a[1..] + b;
      ConcatArtifactsAppend(a[1..], b);
    }
  }

  /** A single service contributes exactly its own artifacts, in its own order. */
  lemma ConcatArtifactsSingle(s: ServiceConfig)
    ensures ConcatArtifacts([s]) == s.artifacts
  {
    assert [s][1..] == [];
  }

  predicate NoDuplicates(ms: seq<string>) {
    forall i, j :: 0 <= i < j < |ms| ==> ms[i] != ms[j]
  }

  /** Adds the manifests not yet collected, keeping the collection duplicate-free. */
  function AddManifests(acc: seq<string>, ms: seq<string>): (r: seq<string>)
    requires NoDuplicates(acc)
    ensures NoDuplicates(r)
    ensures forall m :: m in r <==> m in acc || m in ms
    decreases |ms|
  {
    if ms == [] then acc
    else
      var next := if ms[0] in acc then acc else acc + [ms[0]];
      assert forall m :: m in ms[1..] ==> m in ms;
      AddManifests(next, ms[1..])
  }

  function CollectManifests(acc: seq<string>, services: seq<ServiceConfig>): (r: seq<string>)
    requires NoDuplicates(acc)
    ensures NoDuplicates(r)
    ensures forall m :: m in r <==> m in acc || exists s :: s in services && m in s.manifests
    decreases |services|
  {
    if services == [] then acc
    else
      assert forall s :: s in services[1..] ==> s in services;
      CollectManifests(AddManifests(acc, services[0].manifests), services[1..])
  }

  /**
    The distinct manifests of the services. The program gathers them in a set
    and lists that in no particular order; this picks first-seen order, and
    nothing proved about it depends on the order.
  */
  function UniqueManifests(services: seq<ServiceConfig>): (r: seq<string>)
    ensures NoDuplicates(r)
    ensures forall m :: m in r <==> exists s :: s in services && m in s.manifests
  {
    CollectManifests([], services)
  }

  // ---------------------------------------------------------------------------
  // Writing into the base document

  /** Sets `build.artifacts`, creating `build` if absent; fails if `build` is not a map. */
  function SetArtifacts(base: map<string, Value>, artifacts: seq<Value>): (r: Result<map<string, Value>>)
    ensures r.Ok? <==> MapOrAbsent(At(Obj(base), ["build"]))
    ensures r.Err? ==> r.error == ShouldBeMap("build")
    ensures r.Ok? ==> At(Obj(r.value), BuildArtifacts) == Some(List(artifacts))
  {
    if "build" in base && !base["build"].Obj? then Err(ShouldBeMap("build"))
    else
      var build := if "build" in base then base["build"].fields else map[];
      Ok(base["build" := Obj(build["artifacts" := List(artifacts)])])
  }

  /** Only `build.artifacts` and the containers above it differ after the update. */
  lemma SetArtifactsFrame(base: map<string, Value>, artifacts: seq<Value>, p: seq<string>)
    requires SetArtifacts(base, artifacts).Ok?
    requires !Overlaps(p, BuildArtifacts)
    ensures At(Obj(SetArtifacts(base, artifacts).value), p) == At(Obj(base), p)
  {
    var r := SetArtifacts(base, artifacts).value;
    if p[0] == "build" {
      var build := if "build" in base then base["build"].fields else map[];
      var build' := build["artifacts" := List(artifacts)];
      assert r["build"] == Obj(build');
      assert |p| >= 2 && p[1] != "artifacts";
      assert At(Obj(r), p) == At(Obj(build'), p[1..]);
      if "build" in base {
        assert At(Obj(base), p) == At(Obj(build), p[1..]);
      }
    }
  }

  /** Setting the artifacts again replaces them rather than appending. */
  lemma SetArtifactsReplaces(base: map<string, Value>, first: seq<Value>, second: seq<Value>)
    requires SetArtifacts(base, first).Ok?
    ensures SetArtifacts(SetArtifacts(base, first).value, second) == SetArtifacts(base, second)
  {
    var build := if "build" in base then base["build"].fields else map[];
    var once := SetArtifacts(base, first).value;
    assert once == base["build" := Obj(build["artifacts" := List(first)])];
    assert once["build"].fields == build["artifacts" := List(first)];
    assert build["artifacts" := List(first)]["artifacts" := List(second)] == build["artifacts" := List(second)];
    assert once["build" := Obj(build["artifacts" := List(second)])]
        == base["build" := Obj(build["artifacts" := List(second)])];
  }

  /**
    Sets `deploy.kubectl.manifests`, creating `deploy` and `kubectl` if absent;
    fails naming `deploy` or `deploy.kubectl`, whichever is present but not a map.
  */
  function SetManifests(base: map<string, Value>, manifests: seq<string>): (r: Result<map<string, Value>>)
    ensures r.Ok? <==>
      MapOrAbsent(At(Obj(base), ["deploy"])) && MapOrAbsent(At(Obj(base), ["deploy", "kubectl"]))
    ensures r.Err? ==>
      r.error == (if MapOrAbsent(At(Obj(base), ["deploy"])) then ShouldBeMap("deploy.kubectl") else ShouldBeMap("deploy"))
    ensures r.Ok? ==> At(Obj(r.value), KubectlManifests) == Some(List(Strings(manifests)))
  {
    if "deploy" in base && !base["deploy"].Obj? then Err(ShouldBeMap("deploy"))
    else
      var deploy := if "deploy" in base then base["deploy"].fields else map[];
      if "kubectl" in deploy && !deploy["kubectl"].Obj? then Err(ShouldBeMap("deploy.kubectl"))
      else
        var kubectl := if "kubectl" in deploy then deploy["kubectl"].fields else map[];
        var kubectl' := kubectl["manifests" := List(Strings(manifests))];
        Ok(base["deploy" := Obj(deploy["kubectl" := Obj(kubectl')])])
  }

  /** Only `deploy.kubectl.manifests` and the containers above it differ after the update. */
  lemma SetManifestsFrame(base: map<string, Value>, manifests: seq<string>, p: seq<string>)
    requires SetManifests(base, manifests).Ok?
    requires !Overlaps(p, KubectlManifests)
    ensures At(Obj(SetManifests(base, manifests).value), p) == At(Obj(base), p)
  {
    var r := SetManifests(base, manifests).value;
    if p[0] == "deploy" {
      var deploy := if "deploy" in base then base["deploy"].fields else map[];
      var kubectl := if "kubectl" in deploy then deploy["kubectl"].fields else map[];
      var kubectl' := kubectl["manifests" := List(Strings(manifests))];
      var deploy' := deploy["kubectl" := Obj(kubectl')];
      assert r["deploy"] == Obj(deploy');
      assert |p| >= 2;
      assert At(Obj(r), p) == At(Obj(deploy'), p[1..]);
      if "deploy" in base {
        assert At(Obj(base), p) == At(Obj(deploy), p[1..]);
      }
      if p[1] == "kubectl" {
        assert |p| >= 3 && p[2] != "manifests";
        assert At(Obj(deploy'), p[1..]) == At(Obj(kubectl'), p[2..]);
        if "kubectl" in deploy {
          assert At(Obj(deploy), p[1..]) == At(Obj(kubectl), p[2..]);
        }
      }
    }
  }

  // ---------------------------------------------------------------------------
  // The merge shared by both parsers

  /** The base accepts the merge: `build`, `deploy` and `deploy.kubectl` are each absent or a map. */
  predicate BaseAccepts(base: map<string, Value>) {
    && MapOrAbsent(At(Obj(base), ["build"]))
    && MapOrAbsent(At(Obj(base), ["deploy"]))
    && MapOrAbsent(At(Obj(base), ["deploy", "kubectl"]))
  }

  /**
    The error the merge reports for a base it does not accept: a bad `build`
    stops the artifacts step; otherwise the manifests step names `deploy`
    before `deploy.kubectl`.
  */
  function MergeError(base: map<string, Value>): Error {
    if !MapOrAbsent(At(Obj(base), ["build"])) then Wrapped(UpdateArtifacts, ShouldBeMap("build"))
    else if !MapOrAbsent(At(Obj(base), ["deploy"])) then Wrapped(UpdateManifests, ShouldBeMap("deploy"))
    else Wrapped(UpdateManifests, ShouldBeMap("deploy.kubectl"))
  }

  /** The text reported when `build` is not a map: the artifacts step's prefix, then the cause. */
  lemma BuildRejectedMessage(base: map<string, Value>)
    requires !MapOrAbsent(At(Obj(base), ["build"]))
    ensures Message(MergeError(base)) == "failed to update artifacts: " + "the configuration 'build' should be map"
  {
  }

  /** The text reported when `build` is fine and `deploy` is not a map. */
  lemma DeployRejectedMessage(base: map<string, Value>)
    requires MapOrAbsent(At(Obj(base), ["build"])) && !MapOrAbsent(At(Obj(base), ["deploy"]))
    ensures Message(MergeError(base)) == "failed to update manifests: " + "the configuration 'deploy' should be map"
  {
  }

  /** The text reported when `build` and `deploy` are fine and the merge still fails. */
  lemma KubectlRejectedMessage(base: map<string, Value>)
    requires MapOrAbsent(At(Obj(base), ["build"])) && MapOrAbsent(At(Obj(base), ["deploy"]))
    ensures Message(MergeError(base)) == "failed to update manifests: " + "the configuration 'deploy.kubectl' should be map"
  {
  }

  /**
    Keeps the services selected by `keep` (all of them when it is empty),
    writes their artifacts and their distinct manifests into the base (an
    empty document when there is none), artifacts first.
  */
  function Assemble(services: seq<ServiceConfig>, keep: set<string>, base: Option<map<string, Value>>)
    : (r: Result<map<string, Value>>)
    ensures r.Ok? <==> BaseAccepts(BaseOrEmpty(base))
    ensures r.Err? ==> r.error == MergeError(BaseOrEmpty(base))
    ensures r.Ok? ==>
      && At(Obj(r.value), BuildArtifacts) == Some(List(ConcatArtifacts(Select(services, keep))))
      && At(Obj(r.value), KubectlManifests) == Some(List(Strings(UniqueManifests(Select(services, keep)))))
  {
    var kept := Select(services, keep);
    var doc := BaseOrEmpty(base);
    match SetArtifacts(doc, ConcatArtifacts(kept))
    case Err(e) => Err(Wrapped(UpdateArtifacts, e))
    case Ok(withArtifacts) =>
      SetArtifactsFrame(doc, ConcatArtifacts(kept), ["deploy"]);
      SetArtifactsFrame(doc, ConcatArtifacts(kept), ["deploy", "kubectl"]);
      match SetManifests(withArtifacts, UniqueManifests(kept))
      case Err(e) => Err(Wrapped(UpdateManifests, e))
      case Ok(merged) =>
        SetManifestsFrame(withArtifacts, UniqueManifests(kept), BuildArtifacts);
        Ok(merged)
  }

  /** Every path of the base that overlaps neither overwritten field passes through unchanged. */
  lemma AssembleFrame(services: seq<ServiceConfig>, keep: set<string>, base: Option<map<string, Value>>, p: seq<string>)
    requires Assemble(services, keep, base).Ok?
    requires !Overlaps(p, BuildArtifacts) && !Overlaps(p, KubectlManifests)
    ensures At(Obj(Assemble(services, keep, base).value), p) == At(Obj(BaseOrEmpty(base)), p)
  {
    var kept := Select(services, keep);
    var doc := BaseOrEmpty(base);
    SetArtifactsFrame(doc, ConcatArtifacts(kept), p);
    SetManifestsFrame(SetArtifacts(doc, ConcatArtifacts(kept)).value, UniqueManifests(kept), p);
  }
}
