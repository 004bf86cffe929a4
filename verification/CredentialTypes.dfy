/**
  `CredentialTypes.getParentTypes`: the ancestor list is built by iterating over an
  array that grows while it is iterated, with a recursive call for every element.
 */
module CredentialTypes {
  import opened Wrappers
  import opened TypeGraph

  ghost predicate RankedBelow(g: Graph, names: seq<string>, n: int) {
    forall x :: x in names ==> Rank(g, x) < n
  }

  /** The list the loop ends with, level by level: each pass appends the lists of the pass before. */
  ghost function ParentTypes(g: Graph, t: string): (r: seq<string>)
    requires Acyclic(g)
    ensures RankedBelow(g, r, Rank(g, t))
    decreases Rank(g, t), 2
  {
    ParentsRankLower(g, t);
    Expand(g, Parents(g, t), Rank(g, t))
  }

  ghost function Expand(g: Graph, queue: seq<string>, n: int): (r: seq<string>)
    requires Acyclic(g) && RankedBelow(g, queue, n)
    ensures RankedBelow(g, r, n)
    decreases n, 1
  {
    if queue == [] then []
    else
      assert n > 0 by { assert queue[0] in queue; }
      queue + Expand(g, NextLevel(g, queue, n), n - 1)
  }

  ghost function NextLevel(g: Graph, queue: seq<string>, n: int): (r: seq<string>)
    requires Acyclic(g) && RankedBelow(g, queue, n)
    ensures RankedBelow(g, r, n - 1)
    decreases n, 0, |queue|
  {
    if queue == [] then []
    else
      assert queue[0] in queue;
      ParentTypes(g, queue[0]) + NextLevel(g, queue[1..], n)
  }

  lemma ParentsRankLower(g: Graph, t: string)
    requires Acyclic(g)
    ensures RankedBelow(g, Parents(g, t), Rank(g, t))
  {
    forall x | x in Parents(g, t) ensures Rank(g, x) < Rank(g, t) {
      ParentIsReached(g, t, x);
      AncestorHasLowerRank(g, t, x);
    }
  }

  lemma {:induction false} NextLevelConcat(g: Graph, a: seq<string>, b: seq<string>, n: int)
    requires Acyclic(g) && RankedBelow(g, a, n) && RankedBelow(g, b, n)
    ensures RankedBelow(g, a + b, n)
    ensures NextLevel(g, a + b, n) == NextLevel(g, a, n) + NextLevel(g, b, n)
    decreases |a|
  {
    if a == [] {
      assert a + b == b;
    } else {
      assert a[0] in a && (a + b)[1..] == a[1..] + b;
      NextLevelConcat(g, a[1..], b, n);
    }
  }

  lemma {:induction false} NextLevelBound(g: Graph, a: seq<string>, n: int, m: int)
    requires Acyclic(g) && RankedBelow(g, a, n) && RankedBelow(g, a, m)
    ensures NextLevel(g, a, n) == NextLevel(g, a, m)
    decreases |a|
  {
    if a != [] {
      NextLevelBound(g, a[1..], n, m);
    }
  }

  lemma {:induction false} ExpandBound(g: Graph, a: seq<string>, n: int, m: int)
    requires Acyclic(g) && RankedBelow(g, a, n) && RankedBelow(g, a, m)
    ensures Expand(g, a, n) == Expand(g, a, m)
    decreases n
  {
    if a != [] {
      assert a[0] in a;
      NextLevelBound(g, a, n, m);
      ExpandBound(g, NextLevel(g, a, n), n - 1, m - 1);
    }
  }

  lemma ExpandOneLevel(g: Graph, a: seq<string>, n: int)
    requires Acyclic(g) && RankedBelow(g, a, n)
    ensures Expand(g, a, n) == a + Expand(g, NextLevel(g, a, n), n - 1)
  {
    if a == [] {
      assert NextLevel(g, a, n) == [];
    }
  }

  /**
    A queue served in order equals the level-by-level expansion: `whole` is `a + b`, and
    `later` is what is left once `a` has been served.
   */
  lemma {:induction false} ExpandServesHead(g: Graph, a: seq<string>, b: seq<string>, n: int,
                                            whole: seq<string>, later: seq<string>)
    requires Acyclic(g) && RankedBelow(g, a, n) && RankedBelow(g, b, n)
    requires RankedBelow(g, whole, n) && whole == a + b
    requires RankedBelow(g, later, n) && later == b + NextLevel(g, a, n)
    ensures Expand(g, whole, n) == a + Expand(g, later, n)
    decreases n
  {
    if a == [] {
      assert whole == b && later == b;
    } else {
      assert a[0] in a;
      var a', whole', later' := NextLevel(g, a, n), NextLevel(g, whole, n), NextLevel(g, later, n);
      NextLevelConcat(g, a, b, n);
      NextLevelConcat(g, b, a', n);
      NextLevelBound(g, a', n, n - 1);
      ExpandServesHead(g, a', NextLevel(g, b, n), n - 1, whole', later');
      ExpandOneLevel(g, whole, n);
      ExpandOneLevel(g, later, n);
      Regroup(a, b, a', Expand(g, later', n - 1));
    }
  }

  lemma Regroup<T>(a: seq<T>, b: seq<T>, c: seq<T>, d: seq<T>)
    ensures (a + b) + (c + d) == a + ((b + c) + d)
  {
  }

  lemma NextLevelOfOne(g: Graph, x: string, n: int)
    requires Acyclic(g) && RankedBelow(g, [x], n)
    ensures NextLevel(g, [x], n) == ParentTypes(g, x)
  {
    assert NextLevel(g, [x][1..], n) == [];
  }

  /** One turn of the loop in `GetParentTypes`: the head is served and its own list queued. */
  lemma ExpandTurn(g: Graph, queue: seq<string>, n: int)
    requires Acyclic(g) && RankedBelow(g, queue, n) && queue != []
    ensures RankedBelow(g, queue[1..] + ParentTypes(g, queue[0]), n)
    ensures Expand(g, queue, n) == [queue[0]] + Expand(g, queue[1..] + ParentTypes(g, queue[0]), n)
  {
    var x := queue[0];
    assert x in queue;
    NextLevelOfOne(g, x, n);
    assert queue == [x] + queue[1..];
    ExpandServesHead(g, [x], queue[1..], n, queue, queue[1..] + ParentTypes(g, x));
  }

  method GetParentTypes(g: Graph, typeName: string) returns (list: seq<string>)
    requires Acyclic(g)
    ensures list == ParentTypes(g, typeName)
    decreases Rank(g, typeName)
  {
    ParentsRankLower(g, typeName);
    ghost var n := Rank(g, typeName);
    list := Parents(g, typeName);
    if |list| == 0 {
      return;
    }
    var i := 0;
    ghost var done: seq<string>, pending := [], list;
    while i < |list|
      invariant list == done + pending && |done| == i
      invariant RankedBelow(g, pending, n)
      invariant ParentTypes(g, typeName) == done + Expand(g, pending, n)
      decreases |ParentTypes(g, typeName)| - i
    {
      assert list[i] == pending[0] && pending[0] in pending;
      ExpandTurn(g, pending, n);
      var more := GetParentTypes(g, list[i]);
      Advance(done, pending, more, Expand(g, pending[1..] + more, n));
      list := list + more;
      done, pending := done + [pending[0]], pending[1..] + more;
      i := i + 1;
    }
  }

  lemma Advance<T>(done: seq<T>, pending: seq<T>, more: seq<T>, rest: seq<T>)
    requires pending != []
    ensures (done + pending) + more == (done + [pending[0]]) + (pending[1..] + more)
    ensures done + ([pending[0]] + rest) == (done + [pending[0]]) + rest
  {
  }

  /** The list holds exactly the strict ancestors. */
  lemma ParentTypesAreAncestors(g: Graph, t: string, x: string)
    requires Acyclic(g)
    ensures x in ParentTypes(g, t) <==> Reaches(g, t, x)
  {
    if x in ParentTypes(g, t) {
      ParentTypesAreReached(g, t, x);
    }
    if Reaches(g, t, x) {
      ReachedIsParentType(g, t, x);
    }
  }

  lemma {:induction false} ParentTypesAreReached(g: Graph, t: string, x: string)
    requires Acyclic(g) && x in ParentTypes(g, t)
    ensures Reaches(g, t, x)
    decreases Rank(g, t), 2
  {
    ParentsRankLower(g, t);
    var p := ExpandIsReached(g, Parents(g, t), Rank(g, t), x);
    ParentIsReached(g, t, p);
    if p != x {
      ReachesThroughParent(g, t, p, x);
    }
  }

  lemma {:induction false} ExpandIsReached(g: Graph, queue: seq<string>, n: int, x: string) returns (p: string)
    requires Acyclic(g) && RankedBelow(g, queue, n) && x in Expand(g, queue, n)
    ensures p in queue && (p == x || Reaches(g, p, x))
    decreases n, 1, 0
  {
    if x in queue {
      p := x;
    } else {
      var level := ExpandedLater(g, queue, n, x);
      p := LaterIsReached(g, queue, n, level, x);
    }
  }

  lemma {:induction false} LaterIsReached(g: Graph, queue: seq<string>, n: int, level: seq<string>, x: string)
    returns (p: string)
    requires Acyclic(g) && RankedBelow(g, queue, n) && n > 0 && level == NextLevel(g, queue, n)
    requires RankedBelow(g, level, n - 1) && x in Expand(g, level, n - 1)
    ensures p in queue && Reaches(g, p, x)
    decreases n, 0, |queue| + 2
  {
    var y := ExpandIsReached(g, level, n - 1, x);
    p := AboveNextLevel(g, queue, n, y, x);
  }

  lemma {:induction false} AboveNextLevel(g: Graph, queue: seq<string>, n: int, y: string, x: string) returns (p: string)
    requires Acyclic(g) && RankedBelow(g, queue, n)
    requires y in NextLevel(g, queue, n) && (y == x || Reaches(g, y, x))
    ensures p in queue && Reaches(g, p, x)
    decreases n, 0, |queue| + 1
  {
    p := NextLevelIsReached(g, queue, n, y);
    if y != x {
      ReachesTransitive(g, p, y, x);
    }
  }

  lemma ExpandedLater(g: Graph, queue: seq<string>, n: int, x: string) returns (level: seq<string>)
    requires Acyclic(g) && RankedBelow(g, queue, n) && x in Expand(g, queue, n) && x !in queue
    ensures n > 0 && level == NextLevel(g, queue, n)
    ensures RankedBelow(g, level, n - 1) && x in Expand(g, level, n - 1)
  {
    assert queue[0] in queue;
    level := NextLevel(g, queue, n);
    ExpandOneLevel(g, queue, n);
  }

  lemma {:induction false} NextLevelIsReached(g: Graph, queue: seq<string>, n: int, x: string) returns (p: string)
    requires Acyclic(g) && RankedBelow(g, queue, n) && x in NextLevel(g, queue, n)
    ensures p in queue && Reaches(g, p, x)
    decreases n, 0, |queue|
  {
    assert queue[0] in queue;
    if x in ParentTypes(g, queue[0]) {
      p := queue[0];
      ParentTypesAreReached(g, p, x);
    } else {
      p := NextLevelIsReached(g, queue[1..], n, x);
    }
  }

  lemma {:induction false} ReachedIsParentType(g: Graph, t: string, x: string)
    requires Acyclic(g) && Reaches(g, t, x)
    ensures x in ParentTypes(g, t)
    decreases Rank(g, t)
  {
    var p := FirstEdge(g, t, x);
    var n := Rank(g, t);
    ParentsRankLower(g, t);
    ExpandOneLevel(g, Parents(g, t), n);
    if p != x {
      assert Rank(g, p) < n;
      ReachedIsParentType(g, p, x);
      NextLevelCovers(g, Parents(g, t), n, p, x);
      ExpandOneLevel(g, NextLevel(g, Parents(g, t), n), n - 1);
    }
  }

  lemma {:induction false} NextLevelCovers(g: Graph, queue: seq<string>, n: int, p: string, x: string)
    requires Acyclic(g) && RankedBelow(g, queue, n)
    requires p in queue && x in ParentTypes(g, p)
    ensures x in NextLevel(g, queue, n)
    decreases |queue|
  {
    if queue[0] != p {
      NextLevelCovers(g, queue[1..], n, p, x);
    }
  }

  /** The `extends` chain above `t`, nearest type first. */
  ghost function Chain(g: Graph, t: string): (r: seq<string>)
    requires Acyclic(g) && SingleParent(g)
    decreases Rank(g, t)
  {
    if Parents(g, t) == [] then []
    else
      var p := Parents(g, t)[0];
      ParentsRankLower(g, t);
      [p] + Chain(g, p)
  }

  /** With one parent each, the list starts with the chain in nearest-first order; what follows repeats it. */
  lemma {:induction false} ParentTypesStartWithChain(g: Graph, t: string)
    requires Acyclic(g) && SingleParent(g)
    ensures Chain(g, t) <= ParentTypes(g, t)
    ensures forall x :: x in ParentTypes(g, t) <==> x in Chain(g, t)
    decreases Rank(g, t)
  {
    ParentsRankLower(g, t);
    if Parents(g, t) != [] {
      var p := Parents(g, t)[0];
      ParentTypesStartWithChain(g, p);
      assert Parents(g, t) == [p];
      OnlyParentFirst(g, t, p);
      forall x ensures x in ParentTypes(g, t) <==> x in Chain(g, t) {
        OnlyParentMembers(g, t, p, x);
      }
    } else {
      assert ParentTypes(g, t) == [];
    }
  }

  lemma OnlyParentFirst(g: Graph, t: string, p: string)
    requires Acyclic(g) && Parents(g, t) == [p]
    ensures [p] + ParentTypes(g, p) <= ParentTypes(g, t)
  {
    ParentsRankLower(g, t);
    var n := Rank(g, t);
    NextLevelOfOne(g, p, n);
    ExpandOneLevel(g, [p], n);
    ExpandOneLevel(g, ParentTypes(g, p), n - 1);
  }

  lemma OnlyParentMembers(g: Graph, t: string, p: string, x: string)
    requires Acyclic(g) && Parents(g, t) == [p]
    ensures x in ParentTypes(g, t) <==> x == p || x in ParentTypes(g, p)
  {
    ParentTypesAreAncestors(g, t, x);
    ParentTypesAreAncestors(g, p, x);
    ParentIsReached(g, t, p);
    if Reaches(g, t, x) {
      var q := FirstEdge(g, t, x);
    }
    if Reaches(g, p, x) {
      ReachesThroughParent(g, t, p, x);
    }
  }
}
