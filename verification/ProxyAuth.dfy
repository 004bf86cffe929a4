/**
  `extendsProxyAuthBaseType`: a depth-first search over a possibly cyclic `extends` graph,
  with one `seen` set shared by all recursive calls.
 */
module ProxyAuth {
  import opened Wrappers
  import opened TypeGraph

  const BASE_TYPES: seq<string> := ["oAuth2Api", "googleOAuth2Api", "oAuth1Api"]

  /** The set that the recursive calls share and grow. */
  class SeenNames {
    var names: set<string>

    constructor ()
      ensures names == {}
    {
      names := {};
    }
  }

  /** Reachability from an `extends` list: a listed name, or anything above one. */
  ghost predicate ReachedFrom(g: Graph, names: seq<string>, x: string) {
    x in names || exists p :: p in names && Reaches(g, p, x)
  }

  ghost predicate ReachesBase(g: Graph, names: seq<string>) {
    exists b :: b in BASE_TYPES && ReachedFrom(g, names, b)
  }

  /** Names whose parents have all been seen and which are not base types themselves. */
  ghost predicate Exhausted(g: Graph, done: set<string>, seen: set<string>) {
    forall x :: x in done ==> x !in BASE_TYPES && forall p :: p in Parents(g, x) ==> p in seen
  }

  lemma {:induction false} ExhaustedIsClosed(g: Graph, seen: set<string>, a: string, b: string, n: nat)
    requires Exhausted(g, seen, seen) && a in seen && ReachesIn(g, a, b, n)
    ensures b in seen
    decreases n
  {
    if n > 0 {
      var p :| p in Parents(g, a) && ReachesIn(g, p, b, n - 1);
      ExhaustedIsClosed(g, seen, p, b, n - 1);
    }
  }

  /** A fully searched set without a base type rules out every base type. */
  lemma ExhaustedHasNoBase(g: Graph, names: seq<string>, seen: set<string>)
    requires Exhausted(g, seen, seen) && forall p :: p in names ==> p in seen
    ensures !ReachesBase(g, names)
  {
    if ReachesBase(g, names) {
      var b :| b in BASE_TYPES && ReachedFrom(g, names, b);
      if b !in names {
        var p :| p in names && Reaches(g, p, b);
        var n: nat :| ReachesIn(g, p, b, n);
        ExhaustedIsClosed(g, seen, p, b, n);
      }
    }
  }

  lemma ReachesBaseThrough(g: Graph, names: seq<string>, p: string)
    requires p in names
    ensures p in BASE_TYPES ==> ReachesBase(g, names)
    ensures ReachesBase(g, Parents(g, p)) ==> ReachesBase(g, names)
  {
    if p in BASE_TYPES {
      assert ReachedFrom(g, names, p);
    }
    if ReachesBase(g, Parents(g, p)) {
      var b :| b in BASE_TYPES && ReachedFrom(g, Parents(g, p), b);
      if b in Parents(g, p) {
        ParentIsReached(g, p, b);
      } else {
        var q :| q in Parents(g, p) && Reaches(g, q, b);
        ReachesThroughParent(g, p, q, b);
      }
      assert ReachedFrom(g, names, b);
    }
  }

  /**
    The recursive search.  A `false` answer leaves every listed name seen and every newly
    seen name searched; names seen by callers may still be under search.
   */
  method Search(g: Graph, parents: Option<seq<string>>, seen: SeenNames) returns (found: bool)
    requires parents.Some? ==> forall p :: p in parents.value ==> p in ParentNames(g)
    modifies seen
    ensures old(seen.names) <= seen.names
    ensures found ==> parents.Some? && ReachesBase(g, parents.value)
    ensures !found && parents.Some? ==> forall p :: p in parents.value ==> p in seen.names && p !in BASE_TYPES
    ensures !found ==> Exhausted(g, seen.names - old(seen.names), seen.names)
    decreases ParentNames(g) - seen.names, 1
  {
    if parents.None? {
      return false;
    }
    var names := parents.value;
    var i := 0;
    while i < |names|
      invariant 0 <= i <= |names|
      invariant old(seen.names) <= seen.names
      invariant forall j :: 0 <= j < i ==> names[j] in seen.names && names[j] !in BASE_TYPES
      invariant Exhausted(g, seen.names - old(seen.names), seen.names)
    {
      var hit := SearchParent(g, names[i], seen);
      ReachesBaseThrough(g, names, names[i]);
      if hit {
        return true;
      }
      i := i + 1;
    }
    return false;
  }

  /** The body of the `some` callback for one parent name. */
  method SearchParent(g: Graph, parentName: string, seen: SeenNames) returns (found: bool)
    requires parentName in ParentNames(g)
    modifies seen
    ensures old(seen.names) <= seen.names
    ensures found ==> parentName in BASE_TYPES || ReachesBase(g, Parents(g, parentName))
    ensures !found ==> parentName in seen.names && parentName !in BASE_TYPES
    ensures !found ==> Exhausted(g, seen.names - old(seen.names), seen.names)
    decreases ParentNames(g) - seen.names, 0
  {
    if parentName in BASE_TYPES {
      return true;
    }
    if parentName in seen.names {
      return false;
    }
    seen.names := seen.names + {parentName};
    if parentName !in g {
      return false;
    }
    assert forall p :: p in Parents(g, parentName) ==> p in ParentNames(g);
    found := Search(g, g[parentName].parents, seen);
  }

  /** The call made for a node's credential type: a fresh `seen` set, any graph, cycles included. */
  method ExtendsProxyAuthBaseType(g: Graph, typeName: string) returns (found: bool)
    requires typeName in g
    ensures found <==>
              || Reaches(g, typeName, "oAuth2Api")
              || Reaches(g, typeName, "googleOAuth2Api")
              || Reaches(g, typeName, "oAuth1Api")
  {
    var seen := new SeenNames();
    assert forall p :: p in Parents(g, typeName) ==> p in ParentNames(g);
    found := Search(g, g[typeName].parents, seen);
    var names := Parents(g, typeName);
    if !found {
      ExhaustedHasNoBase(g, names, seen.names);
    }
    ReachesBaseFromType(g, typeName);
    assert BASE_TYPES[0] == "oAuth2Api" && BASE_TYPES[1] == "googleOAuth2Api" && BASE_TYPES[2] == "oAuth1Api";
  }

  lemma ReachesBaseFromType(g: Graph, t: string)
    ensures ReachesBase(g, Parents(g, t)) <==> exists b :: b in BASE_TYPES && Reaches(g, t, b)
  {
    if ReachesBase(g, Parents(g, t)) {
      var b :| b in BASE_TYPES && ReachedFrom(g, Parents(g, t), b);
      if b in Parents(g, t) {
        ParentIsReached(g, t, b);
      } else {
        var q :| q in Parents(g, t) && Reaches(g, q, b);
        ReachesThroughParent(g, t, q, b);
      }
    }
    if b :| b in BASE_TYPES && Reaches(g, t, b) {
      var p := FirstEdge(g, t, b);
      assert ReachedFrom(g, Parents(g, t), b);
    }
  }
}
