/**
  The `extends` graph of credential types.  A type is known when it has an entry;
  an unknown name can still appear in an `extends` list.
 */
module TypeGraph {
  import opened Wrappers

  datatype CredentialType = CredentialType(parents: Option<seq<string>>)

  type Graph = map<string, CredentialType>

  /** The declared parents; a missing type or a missing `extends` has none. */
  function Parents(g: Graph, t: string): seq<string> {
    if t in g && g[t].parents.Some? then g[t].parents.value else []
  }

  /** Every name that occurs as a parent. */
  ghost function ParentNames(g: Graph): set<string> {
    set t, p | t in g && p in Parents(g, t) :: p
  }

  ghost predicate ReachesIn(g: Graph, a: string, b: string, n: nat)
    decreases n
  {
    if n == 0 then b in Parents(g, a)
    else exists p :: p in Parents(g, a) && ReachesIn(g, p, b, n - 1)
  }

  /** `b` is a strict ancestor of `a`: one or more `extends` edges lead from `a` to `b`. */
  ghost predicate Reaches(g: Graph, a: string, b: string) {
    exists n: nat :: ReachesIn(g, a, b, n)
  }

  ghost predicate Acyclic(g: Graph) {
    forall t :: !Reaches(g, t, t)
  }

  ghost predicate SingleParent(g: Graph) {
    forall t :: |Parents(g, t)| <= 1
  }

  ghost function Ancestors(g: Graph, t: string): (r: set<string>) {
    set x | x in ParentNames(g) && Reaches(g, t, x)
  }

  ghost function Rank(g: Graph, t: string): nat {
    |Ancestors(g, t)|
  }

  lemma ParentIsReached(g: Graph, t: string, p: string)
    requires p in Parents(g, t)
    ensures Reaches(g, t, p)
  {
    assert ReachesIn(g, t, p, 0);
  }

  lemma ReachesThroughParent(g: Graph, t: string, p: string, x: string)
    requires p in Parents(g, t) && Reaches(g, p, x)
    ensures Reaches(g, t, x)
  {
    var n: nat :| ReachesIn(g, p, x, n);
    assert ReachesIn(g, t, x, n + 1);
  }

  /** The first edge of a path: either it is the whole path or the rest starts at a parent. */
  lemma FirstEdge(g: Graph, t: string, x: string) returns (p: string)
    requires Reaches(g, t, x)
    ensures p in Parents(g, t) && (p == x || Reaches(g, p, x))
  {
    var n: nat :| ReachesIn(g, t, x, n);
    if n == 0 {
      p := x;
    } else {
      p :| p in Parents(g, t) && ReachesIn(g, p, x, n - 1);
    }
  }

  lemma {:induction false} ReachesInTransitive(g: Graph, a: string, b: string, c: string, n: nat)
    requires ReachesIn(g, a, b, n) && Reaches(g, b, c)
    ensures Reaches(g, a, c)
    decreases n
  {
    if n == 0 {
      ReachesThroughParent(g, a, b, c);
    } else {
      var p :| p in Parents(g, a) && ReachesIn(g, p, b, n - 1);
      ReachesInTransitive(g, p, b, c, n - 1);
      ReachesThroughParent(g, a, p, c);
    }
  }

  lemma ReachesTransitive(g: Graph, a: string, b: string, c: string)
    requires Reaches(g, a, b) && Reaches(g, b, c)
    ensures Reaches(g, a, c)
  {
    var n: nat :| ReachesIn(g, a, b, n);
    ReachesInTransitive(g, a, b, c, n);
  }

  lemma {:induction false} ReachedInIsParentName(g: Graph, a: string, b: string, n: nat)
    requires ReachesIn(g, a, b, n)
    ensures b in ParentNames(g)
    decreases n
  {
    if n > 0 {
      var p :| p in Parents(g, a) && ReachesIn(g, p, b, n - 1);
      ReachedInIsParentName(g, p, b, n - 1);
    } else {
      assert a in g;
    }
  }

  lemma AncestorsAreReached(g: Graph, t: string, x: string)
    ensures x in Ancestors(g, t) <==> Reaches(g, t, x)
  {
    if Reaches(g, t, x) {
      var n: nat :| ReachesIn(g, t, x, n);
      ReachedInIsParentName(g, t, x, n);
    }
  }

  /** On an acyclic graph every step upwards loses an ancestor; this is what ends every walk. */
  lemma AncestorHasLowerRank(g: Graph, t: string, x: string)
    requires Acyclic(g) && Reaches(g, t, x)
    ensures Rank(g, x) < Rank(g, t)
  {
    forall y | y in Ancestors(g, x) ensures y in Ancestors(g, t) {
      AncestorsAreReached(g, x, y);
      ReachesTransitive(g, t, x, y);
      AncestorsAreReached(g, t, y);
    }
    AncestorsAreReached(g, t, x);
    AncestorsAreReached(g, x, x);
    ProperSubsetIsSmaller(Ancestors(g, x), Ancestors(g, t), x);
  }

  lemma ProperSubsetIsSmaller<T>(a: set<T>, b: set<T>, x: T)
    requires a <= b && x in b && x !in a
    ensures |a| < |b|
  {
    var rest := b - a;
    assert b == a + rest && a !! rest;
    assert x in rest;
  }
}
