/**
  Dependency resolution: the depth-first closure of requested services under
  the depends-on relation, tolerant of cycles and failing on undefined names.
*/
module Resolver {
  import opened Errors
  import opened Configs

  /**
    Service name to the names it depends on. The sequence is the order the
    traversal visits them in; every result below depends only on its elements.
  */
  type Graph = map<string, seq<string>>

  /** Builds the graph from the service list; a later service with the same name replaces an earlier one. */
  function DependencyMap(services: seq<ServiceConfig>): (g: Graph)
    ensures forall i :: 0 <= i < |services| ==> services[i].name in g
    ensures services != [] ==> g[services[|services| - 1].name] == services[|services| - 1].dependsOn
    decreases |services|
  {
    if services == [] then map[]
    else
      var last := services[|services| - 1];
      DependencyMap(services[..|services| - 1])[last.name := last.dependsOn]
  }

  /**
    Every service name is a key, nothing else is, and each key maps to the
    dependency list of the last service with that name.
  */
  lemma {:induction false} DependencyMapLastWins(services: seq<ServiceConfig>)
    ensures DependencyMap(services).Keys == set i | 0 <= i < |services| :: services[i].name
    ensures forall i :: 0 <= i < |services| && LastNamed(services, i) ==>
      DependencyMap(services)[services[i].name] == services[i].dependsOn
    decreases |services|
  {
    if services != [] {
      var n := |services| - 1;
      var init := services[..n];
      var last := services[n];
      DependencyMapLastWins(init);
      var g := DependencyMap(services);
      assert forall i :: 0 <= i < n ==> init[i] == services[i];
      calc {
        g.Keys;
        (set i | 0 <= i < n :: init[i].name) + {last.name};
        (set i | 0 <= i < |services| :: services[i].name);
      }
      forall i | 0 <= i < |services| && LastNamed(services, i)
        ensures g[services[i].name] == services[i].dependsOn
      {
        if i < n {
          assert LastNamed(init, i);
          assert services[i].name != last.name;
        }
      }
    }
  }

  /** With unique names every service's own dependency list is its entry in the graph. */
  lemma DependencyMapOfUnique(services: seq<ServiceConfig>)
    requires UniqueNames(services)
    ensures forall i :: 0 <= i < |services| ==>
      services[i].name in DependencyMap(services) &&
      DependencyMap(services)[services[i].name] == services[i].dependsOn
  {
    DependencyMapLastWins(services);
    forall i | 0 <= i < |services|
      ensures LastNamed(services, i)
    {
    }
  }

  // ---------------------------------------------------------------------------
  // Reachability

  ghost predicate Edge(g: Graph, x: string, y: string) {
    x in g && y in g[x]
  }

  /** A non-empty walk along dependency edges; only defined services have edges. */
  ghost predicate IsPath(g: Graph, p: seq<string>) {
    |p| > 0 && forall i :: 0 <= i < |p| - 1 ==> Edge(g, p[i], p[i + 1])
  }

  ghost predicate Reachable(g: Graph, x: string, y: string) {
    exists p :: IsPath(g, p) && p[0] == x && p[|p| - 1] == y
  }

  ghost predicate ReachableFrom(g: Graph, ts: seq<string>, y: string) {
    exists t :: t in ts && Reachable(g, t, y)
  }

  /** Every name reachable from the targets is a service of the graph. */
  ghost predicate AllDefined(g: Graph, ts: seq<string>) {
    forall y :: ReachableFrom(g, ts, y) ==> y in g
  }

  /** Every member of `xs` is defined and all its dependencies lie in `s`. */
  ghost predicate ClosedOn(g: Graph, s: set<string>, xs: set<string>) {
    forall x :: x in xs ==> x in g && forall y :: y in g[x] ==> y in s
  }

  ghost predicate Closed(g: Graph, s: set<string>) {
    ClosedOn(g, s, s)
  }

  /** Every name that can be reachable from `ts`: the targets and the dependency lists. */
  ghost function Candidates(g: Graph, ts: seq<string>): set<string> {
    (set t | t in ts) + (set k, d | k in g && d in g[k] :: d)
  }

  /** The reference closure: the targets plus everything reachable from them. */
  ghost function ReachSet(g: Graph, ts: seq<string>): set<string> {
    set y | y in Candidates(g, ts) && ReachableFrom(g, ts, y)
  }

  lemma ReachRefl(g: Graph, x: string)
    ensures Reachable(g, x, x)
  {
    assert IsPath(g, [x]);
  }

  lemma ReachPrepend(g: Graph, x: string, y: string, z: string)
    requires Edge(g, x, y) && Reachable(g, y, z)
    ensures Reachable(g, x, z)
  {
    var p :| IsPath(g, p) && p[0] == y && p[|p| - 1] == z;
    var q := [x] + p;
    forall i | 0 <= i < |q| - 1
      ensures Edge(g, q[i], q[i + 1])
    {
      if i > 0 {
        assert q[i] == p[i - 1] && q[i + 1] == p[i];
      }
    }
    assert IsPath(g, q) && q[0] == x && q[|q| - 1] == z;
  }

  lemma ReachAppend(g: Graph, x: string, y: string, z: string)
    requires Reachable(g, x, y) && Edge(g, y, z)
    ensures Reachable(g, x, z)
  {
    var p :| IsPath(g, p) && p[0] == x && p[|p| - 1] == y;
    var q := p + [z];
    forall k | 0 <= k < |q| - 1
      ensures Edge(g, q[k], q[k + 1])
    {
      if k < |p| - 1 {
        assert q[k] == p[k] && q[k + 1] == p[k + 1];
      }
    }
    assert IsPath(g, q) && q[0] == x && q[|q| - 1] == z;
  }

  lemma {:induction false} PathStaysIn(g: Graph, s: set<string>, p: seq<string>)
    requires Closed(g, s) && IsPath(g, p) && p[0] in s
    ensures p[|p| - 1] in s
    decreases |p|
  {
    if |p| > 1 {
      assert Edge(g, p[0], p[1]);
      var q := p[1..];
      assert IsPath(g, q) by {
        forall i | 0 <= i < |q| - 1
          ensures Edge(g, q[i], q[i + 1])
        {
          assert q[i] == p[i + 1] && q[i + 1] == p[i + 2];
        }
      }
      PathStaysIn(g, s, q);
    }
  }

  /** A closed set holds everything reachable from its members. */
  lemma ClosedHoldsReachable(g: Graph, s: set<string>, x: string, y: string)
    requires Closed(g, s) && x in s && Reachable(g, x, y)
    ensures y in s
  {
    var p :| IsPath(g, p) && p[0] == x && p[|p| - 1] == y;
    PathStaysIn(g, s, p);
  }

  lemma ReachableIsCandidate(g: Graph, ts: seq<string>, y: string)
    requires ReachableFrom(g, ts, y)
    ensures y in Candidates(g, ts)
  {
    var t :| t in ts && Reachable(g, t, y);
    var p :| IsPath(g, p) && p[0] == t && p[|p| - 1] == y;
    if |p| > 1 {
      assert Edge(g, p[|p| - 2], p[|p| - 1]);
    }
  }

  // ---------------------------------------------------------------------------
  // Traversal

  lemma RemoveShrinks(keys: set<string>, v: set<string>, t: string)
    requires t in keys && t !in v
    ensures |keys - (v + {t})| < |keys - v|
  {
    assert keys - v == (keys - (v + {t})) + {t};
  }

  lemma SubsetCard(keys: set<string>, v: set<string>, w: set<string>)
    requires v <= w
    ensures |keys - w| <= |keys - v|
  {
    var x, y := keys - w, keys - v;
    assert y == x + (y - x);
    assert x * (y - x) == {};
  }

  /**
    Adds `t` and everything it depends on to the visited set `v`. A target
    already visited is left alone, which is what makes cycles harmless; an
    unvisited target that is not a service is an error.
  */
  function Visit(g: Graph, t: string, v: set<string>): (r: Result<set<string>>)
    ensures t in v ==> r == Ok(v)
    ensures t !in v && t !in g ==> r == Err(UndefinedService(t))
    ensures r.Ok? ==> v <= r.value && t in r.value
    ensures r.Ok? ==> ClosedOn(g, r.value, r.value - v)
    ensures r.Err? ==> r.error.UndefinedService? && r.error.name !in g && r.error.name !in v
    decreases |g.Keys - v|, 0, 0
  {
    if t in v then Ok(v)
    else if t !in g then Err(UndefinedService(t))
    else
      RemoveShrinks(g.Keys, v, t);
      VisitAll(g, g[t], v + {t})
  }

  /** Visits each of `ts` in turn, threading the visited set; stops at the first error. */
  function VisitAll(g: Graph, ts: seq<string>, v: set<string>): (r: Result<set<string>>)
    ensures ts == [] ==> r == Ok(v)
    ensures r.Ok? ==> v <= r.value && forall t :: t in ts ==> t in r.value
    ensures r.Ok? ==> ClosedOn(g, r.value, r.value - v)
    ensures r.Err? ==> r.error.UndefinedService? && r.error.name !in g && r.error.name !in v
    decreases |g.Keys - v|, 1, |ts|
  {
    if ts == [] then Ok(v)
    else
      match Visit(g, ts[0], v)
      case Err(e) => Err(e)
      case Ok(v1) =>
        SubsetCard(g.Keys, v, v1);
        VisitAll(g, ts[1..], v1)
  }

  // ---------------------------------------------------------------------------
  // What the traversal computes

  lemma {:induction false} VisitFreshReachable(g: Graph, t: string, v: set<string>)
    requires Visit(g, t, v).Ok?
    ensures forall x :: x in Visit(g, t, v).value && x !in v ==> Reachable(g, t, x)
    decreases |g.Keys - v|, 0, 0
  {
    if t !in v {
      var w := v + {t};
      RemoveShrinks(g.Keys, v, t);
      VisitAllFreshReachable(g, g[t], w);
      var r := Visit(g, t, v).value;
      forall x | x in r && x !in v
        ensures Reachable(g, t, x)
      {
        if x == t {
          ReachRefl(g, t);
        } else {
          var d :| d in g[t] && Reachable(g, d, x);
          ReachPrepend(g, t, d, x);
        }
      }
    }
  }

  lemma {:induction false} VisitAllFreshReachable(g: Graph, ts: seq<string>, v: set<string>)
    requires VisitAll(g, ts, v).Ok?
    ensures forall x :: x in VisitAll(g, ts, v).value && x !in v ==> ReachableFrom(g, ts, x)
    decreases |g.Keys - v|, 1, |ts|
  {
    if ts != [] {
      var v1 := Visit(g, ts[0], v).value;
      VisitFreshReachable(g, ts[0], v);
      SubsetCard(g.Keys, v, v1);
      VisitAllFreshReachable(g, ts[1..], v1);
      var r := VisitAll(g, ts, v).value;
      forall x | x in r && x !in v
        ensures ReachableFrom(g, ts, x)
      {
        if x in v1 {
          assert ts[0] in ts && Reachable(g, ts[0], x);
        } else {
          var t :| t in ts[1..] && Reachable(g, t, x);
          assert t in ts;
        }
      }
    }
  }

  /** The reported undefined name is reachable from the target. */
  lemma {:induction false} VisitErrReachable(g: Graph, t: string, v: set<string>)
    requires Visit(g, t, v).Err?
    ensures Reachable(g, t, Visit(g, t, v).error.name)
    decreases |g.Keys - v|, 0, 0
  {
    if t !in g {
      ReachRefl(g, t);
    } else {
      RemoveShrinks(g.Keys, v, t);
      VisitAllErrReachable(g, g[t], v + {t});
      var n := Visit(g, t, v).error.name;
      var d :| d in g[t] && Reachable(g, d, n);
      ReachPrepend(g, t, d, n);
    }
  }

  lemma {:induction false} VisitAllErrReachable(g: Graph, ts: seq<string>, v: set<string>)
    requires VisitAll(g, ts, v).Err?
    ensures ReachableFrom(g, ts, VisitAll(g, ts, v).error.name)
    decreases |g.Keys - v|, 1, |ts|
  {
    var n := VisitAll(g, ts, v).error.name;
    if Visit(g, ts[0], v).Err? {
      VisitErrReachable(g, ts[0], v);
      assert ts[0] in ts;
    } else {
      var v1 := Visit(g, ts[0], v).value;
      SubsetCard(g.Keys, v, v1);
      VisitAllErrReachable(g, ts[1..], v1);
      var t :| t in ts[1..] && Reachable(g, t, n);
      assert t in ts;
    }
  }

  /**
    Started from a closed visited set, a successful traversal returns that set
    plus exactly the names reachable from the targets, and the result is closed.
  */
  lemma VisitAllExact(g: Graph, ts: seq<string>, v: set<string>)
    requires Closed(g, v)
    requires VisitAll(g, ts, v).Ok?
    ensures Closed(g, VisitAll(g, ts, v).value)
    ensures forall x :: x in VisitAll(g, ts, v).value <==> x in v || ReachableFrom(g, ts, x)
  {
    var r := VisitAll(g, ts, v).value;
    VisitAllFreshReachable(g, ts, v);
    assert Closed(g, r);
    forall x | ReachableFrom(g, ts, x)
      ensures x in r
    {
      var t :| t in ts && Reachable(g, t, x);
      ClosedHoldsReachable(g, r, t, x);
    }
  }

  /** The single-target form of `VisitAllExact`. */
  lemma VisitExact(g: Graph, t: string, v: set<string>)
    requires Closed(g, v)
    requires Visit(g, t, v).Ok?
    ensures Closed(g, Visit(g, t, v).value)
    ensures forall x :: x in Visit(g, t, v).value <==> x in v || Reachable(g, t, x)
  {
    var r := Visit(g, t, v).value;
    VisitFreshReachable(g, t, v);
    assert Closed(g, r);
    forall x | Reachable(g, t, x)
      ensures x in r
    {
      ClosedHoldsReachable(g, r, t, x);
    }
  }

  /** From a closed visited set the traversal fails exactly when an undefined name is reachable. */
  lemma VisitAllSucceedsIff(g: Graph, ts: seq<string>, v: set<string>)
    requires Closed(g, v)
    ensures VisitAll(g, ts, v).Ok? <==> AllDefined(g, ts)
  {
    if VisitAll(g, ts, v).Ok? {
      VisitAllExact(g, ts, v);
    } else {
      VisitAllErrReachable(g, ts, v);
    }
  }

  /**
    calcTargets as the parser calls it, from an empty set: on success the
    result is the reference closure, and it fails exactly when some reachable
    name is undefined, naming such a name.
  */
  lemma CalcTargetsCorrect(g: Graph, ts: seq<string>)
    ensures VisitAll(g, ts, {}).Ok? <==> AllDefined(g, ts)
    ensures VisitAll(g, ts, {}).Ok? ==> VisitAll(g, ts, {}).value == ReachSet(g, ts)
    ensures VisitAll(g, ts, {}).Err? ==>
      var n := VisitAll(g, ts, {}).error.name;
      n !in g && ReachableFrom(g, ts, n)
  {
    VisitAllSucceedsIff(g, ts, {});
    if VisitAll(g, ts, {}).Ok? {
      VisitAllExact(g, ts, {});
      forall x | ReachableFrom(g, ts, x)
        ensures x in Candidates(g, ts)
      {
        ReachableIsCandidate(g, ts, x);
      }
    } else {
      VisitAllErrReachable(g, ts, {});
    }
  }

  /** An empty closure only comes from an empty request. */
  lemma ReachSetEmpty(g: Graph, ts: seq<string>)
    ensures ReachSet(g, ts) == {} <==> ts == []
  {
    if ts != [] {
      ReachRefl(g, ts[0]);
      assert ReachableFrom(g, ts, ts[0]);
      assert ts[0] in Candidates(g, ts);
      assert ts[0] in ReachSet(g, ts);
    }
  }

  /** The closure depends only on which names are requested, not on their order. */
  lemma ReachSetOrderIndependent(g: Graph, ts1: seq<string>, ts2: seq<string>)
    requires forall t :: t in ts1 <==> t in ts2
    ensures ReachSet(g, ts1) == ReachSet(g, ts2)
    ensures AllDefined(g, ts1) <==> AllDefined(g, ts2)
  {
    assert Candidates(g, ts1) == Candidates(g, ts2);
    assert forall y :: ReachableFrom(g, ts1, y) <==> ReachableFrom(g, ts2, y);
  }

  // ---------------------------------------------------------------------------
  // The cases the program's own tests exercise

  /** Two services that depend on each other: the traversal stops at the visited one. */
  lemma CircularDependency()
    ensures Visit(map["mongodb" := ["app"], "app" := ["mongodb"]], "app", {}) == Ok({"app", "mongodb"})
  {
    var g: Graph := map["mongodb" := ["app"], "app" := ["mongodb"]];
    var both := {"app", "mongodb"};
    assert g["app"] == ["mongodb"] && g["mongodb"] == ["app"];
    assert Visit(g, "app", both) == Ok(both);
    assert VisitAll(g, ["app"], both) == Ok(both);
    assert {"app"} + {"mongodb"} == both;
    assert Visit(g, "mongodb", {"app"}) == Ok(both);
    assert VisitAll(g, ["mongodb"], {"app"}) == Ok(both);
    var none: set<string> := {};
    assert none + {"app"} == {"app"};
    assert Visit(g, "app", none) == Ok(both);
  }

  /** An already visited unrelated service stays; the target's dependencies are added. */
  lemma DependencyFromPartialSet()
    ensures Visit(map["mongodb" := [], "app" := ["mongodb", "api"], "api" := ["mongodb"], "foo" := [], "bar" := []],
                  "app", {"foo"})
         == Ok({"app", "api", "mongodb", "foo"})
  {
    var g: Graph := map["mongodb" := [], "app" := ["mongodb", "api"], "api" := ["mongodb"], "foo" := [], "bar" := []];
    var s1 := {"foo", "app"};
    var s2 := {"foo", "app", "mongodb"};
    var s3 := {"foo", "app", "mongodb", "api"};
    assert g["app"] == ["mongodb", "api"] && g["api"] == ["mongodb"] && g["mongodb"] == [];
    assert {"foo"} + {"app"} == s1 && s1 + {"mongodb"} == s2 && s2 + {"api"} == s3;
    assert Visit(g, "mongodb", s1) == Ok(s2);
    assert Visit(g, "mongodb", s3) == Ok(s3);
    assert VisitAll(g, ["mongodb"], s3) == Ok(s3);
    assert Visit(g, "api", s2) == Ok(s3);
    assert VisitAll(g, ["api"], s2) == Ok(s3);
    assert VisitAll(g, ["mongodb", "api"], s1) == Ok(s3);
    assert Visit(g, "app", {"foo"}) == Ok(s3);
    assert s3 == {"app", "api", "mongodb", "foo"};
  }
}
