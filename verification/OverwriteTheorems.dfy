/**
  Inheritance of overwrites: flattening gives every type the value of its nearest defining
  ancestor although the memo may answer incompletely, exactly on graphs without multiple
  inheritance; and saving the flattened table loses nothing.
 */
module OverwriteTheorems {
  import opened Wrappers
  import opened TypeGraph
  import opened CredentialTypes
  import opened OverwriteRules

  ghost predicate SubFields(a: Fields, b: Fields) {
    forall k :: k in a ==> k in b && a[k] == b[k]
  }

  /** The reference meaning of inheritance: a type's own fields over those of its parent. */
  ghost function Effective(g: Graph, raw: Table, t: string): Fields
    requires Acyclic(g) && SingleParent(g)
    decreases Rank(g, t)
  {
    var own := OrEmpty(Lookup(raw, t));
    if Parents(g, t) == [] then own
    else
      ParentsRankLower(g, t);
      Effective(g, raw, Parents(g, t)[0]) + own
  }

  /** What flattening keeps at every moment: raw entries below, effective fields above. */
  ghost predicate Sound(g: Graph, raw: Table, table: Table)
    requires Acyclic(g) && SingleParent(g)
  {
    && table.Keys == raw.Keys
    && (forall u :: u in raw ==> SubFields(raw[u], table[u]))
    && (forall u :: u in raw ==> SubFields(table[u], Effective(g, raw, u)))
  }

  /** An answer may lack inherited fields, but never a raw one, and never has a wrong one. */
  ghost predicate SoundAnswer(g: Graph, raw: Table, t: string, answer: Option<Fields>)
    requires Acyclic(g) && SingleParent(g)
  {
    answer.Some? ==>
      && SubFields(answer.value, Effective(g, raw, t))
      && SubFields(OrEmpty(Lookup(raw, t)), answer.value)
  }

  lemma MergeOneParent(g: Graph, table: Table, resolved: seq<string>, parents: seq<string>, bound: nat)
    requires Acyclic(g) && RankedBelow(g, parents, bound) && |parents| == 1
    ensures MergeParents(g, table, resolved, parents, map[], bound).fields
         == OrEmpty(GetOverwrites(g, table, resolved, parents[0]).answer)
  {
    assert parents[1..] == [];
    var fields := OrEmpty(GetOverwrites(g, table, resolved, parents[0]).answer);
    assert map[] + fields == fields;
  }

  lemma {:induction false} AnswerIsSound(g: Graph, raw: Table, table: Table, resolved: seq<string>, t: string)
    requires Acyclic(g) && SingleParent(g) && Sound(g, raw, table)
    ensures SoundAnswer(g, raw, t, GetOverwrites(g, table, resolved, t).answer)
    decreases Rank(g, t)
  {
    if t !in resolved && t in g && g[t].parents.Some? {
      var parents := g[t].parents.value;
      ParentsRankLower(g, t);
      assert parents == Parents(g, t);
      if parents != [] {
        assert parents[0] in parents;
        AnswerIsSound(g, raw, table, resolved, parents[0]);
        MergeOneParent(g, table, resolved, parents, Rank(g, t));
      }
    }
  }

  lemma {:induction false} FlattenIsSound(g: Graph, raw: Table, table: Table, resolved: seq<string>, keys: seq<string>)
    requires Acyclic(g) && SingleParent(g) && Sound(g, raw, table)
    requires forall k :: k in keys ==> k in raw
    ensures Sound(g, raw, Flatten(g, table, resolved, keys))
    decreases |keys|
  {
    if keys != [] {
      var r := GetOverwrites(g, table, resolved, keys[0]);
      AnswerIsSound(g, raw, table, resolved, keys[0]);
      assert keys[0] in keys;
      FlattenIsSound(g, raw, Store(table, keys[0], r.answer), r.resolved, keys[1..]);
    }
  }

  lemma RawIsSound(g: Graph, raw: Table)
    requires Acyclic(g) && SingleParent(g)
    ensures Sound(g, raw, raw)
  {
  }

  /** The list `get` merges: the type, then its ancestors nearest first. */
  ghost function Line(g: Graph, t: string): seq<string>
    requires Acyclic(g) && SingleParent(g)
  {
    [t] + Chain(g, t)
  }

  /** Names that repeat earlier ones add nothing to a merge. */
  lemma {:induction false} RepeatsAddNothing(table: Table, names: seq<string>, more: seq<string>)
    requires forall n :: n in more ==> n in names
    ensures MergeNearestFirst(table, names + more) == MergeNearestFirst(table, names)
  {
    MergeConcat(table, names, more);
    var m := MergeNearestFirst(table, names);
    forall k | k in MergeNearestFirst(table, more) ensures k in m {
      var n := MergedKeyHasOwner(table, more, k);
      OwnerIsMerged(table, names, n, k);
    }
    assert MergeNearestFirst(table, more) + m == m;
  }

  lemma {:induction false} MergeConcat(table: Table, a: seq<string>, b: seq<string>)
    ensures MergeNearestFirst(table, a + b) == MergeNearestFirst(table, b) + MergeNearestFirst(table, a)
    decreases |a|
  {
    if a == [] {
      assert a + b == b;
    } else {
      MergeConcat(table, a[1..], b);
      assert (a + b)[1..] == a[1..] + b && (a + b)[0] == a[0];
      AssignInTurn(MergeNearestFirst(table, b), MergeNearestFirst(table, a[1..]), OrEmpty(Lookup(table, a[0])));
    }
  }

  lemma AssignInTurn(a: Fields, b: Fields, c: Fields)
    ensures (a + b) + c == a + (b + c)
  {
  }

  lemma {:induction false} MergedKeyHasOwner(table: Table, names: seq<string>, k: string) returns (n: string)
    requires k in MergeNearestFirst(table, names)
    ensures n in names && n in table && k in table[n]
    decreases |names|
  {
    if k in OrEmpty(Lookup(table, names[0])) {
      n := names[0];
    } else {
      n := MergedKeyHasOwner(table, names[1..], k);
    }
  }

  lemma {:induction false} OwnerIsMerged(table: Table, names: seq<string>, n: string, k: string)
    requires n in names && n in table && k in table[n]
    ensures k in MergeNearestFirst(table, names)
    decreases |names|
  {
    if names[0] != n {
      OwnerIsMerged(table, names[1..], n, k);
    }
  }

  /** Fields between the own ones and the effective ones lead to the effective ones. */
  lemma Sandwich(inherited: Fields, own: Fields, stored: Fields)
    requires SubFields(own, stored) && SubFields(stored, inherited + own)
    ensures inherited + stored == inherited + own
  {
  }

  /** A sound table, merged along the chain, gives exactly the effective fields. */
  lemma {:induction false} MergeOfLine(g: Graph, raw: Table, table: Table, t: string)
    requires Acyclic(g) && SingleParent(g) && Sound(g, raw, table)
    ensures MergeNearestFirst(table, Line(g, t)) == Effective(g, raw, t)
    decreases Rank(g, t)
  {
    var line := Line(g, t);
    var own, stored := OrEmpty(Lookup(raw, t)), OrEmpty(Lookup(table, t));
    assert SubFields(own, stored) && SubFields(stored, Effective(g, raw, t));
    if Parents(g, t) == [] {
      assert line[1..] == [];
      assert stored == own;
    } else {
      var p := Parents(g, t)[0];
      ParentsRankLower(g, t);
      MergeOfLine(g, raw, table, p);
      assert line[1..] == Line(g, p);
      Sandwich(Effective(g, raw, p), own, stored);
    }
  }

  lemma GetIsEffective(g: Graph, raw: Table, table: Table, t: string)
    requires Acyclic(g) && SingleParent(g) && Sound(g, raw, table)
    ensures Get(g, table, t) == if forall n :: n in Line(g, t) ==> n !in raw then None else Some(Effective(g, raw, t))
  {
    var line := Line(g, t);
    var more := NamesAreLineAndRepeats(g, t);
    RepeatsAddNothing(table, line, more);
    MergeOfLine(g, raw, table, t);
    assert forall n :: n in line + more <==> n in line;
  }

  /** What `get` merges is the line followed by names that are on it already. */
  lemma NamesAreLineAndRepeats(g: Graph, t: string) returns (more: seq<string>)
    requires Acyclic(g) && SingleParent(g)
    ensures [t] + ParentTypes(g, t) == Line(g, t) + more
    ensures forall n :: n in more ==> n in Line(g, t)
  {
    ParentTypesStartWithChain(g, t);
    var parents, chain := ParentTypes(g, t), Chain(g, t);
    more := parents[|chain|..];
    assert parents == chain + more;
    assert forall n :: n in more ==> n in parents;
  }

  /** `i` is the position of the nearest type on the line that defines `k`. */
  ghost predicate NearestAt(raw: Table, line: seq<string>, k: string, i: nat) {
    && i < |line| && line[i] in raw && k in raw[line[i]]
    && forall j :: 0 <= j < i ==> line[j] !in raw || k !in raw[line[j]]
  }

  /** Effective fields, read off the ancestor line: each key from the nearest type that defines it. */
  lemma {:induction false} EffectiveIsNearest(g: Graph, raw: Table, t: string, k: string)
    requires Acyclic(g) && SingleParent(g)
    ensures k in Effective(g, raw, t) <==> exists i: nat :: NearestAt(raw, Line(g, t), k, i)
    ensures forall i: nat :: NearestAt(raw, Line(g, t), k, i) ==>
              k in Effective(g, raw, t) && Effective(g, raw, t)[k] == raw[Line(g, t)[i]][k]
    decreases Rank(g, t)
  {
    if t in raw && k in raw[t] {
      assert NearestAt(raw, Line(g, t), k, 0);
    } else if Parents(g, t) != [] {
      var p := Parents(g, t)[0];
      ParentsRankLower(g, t);
      EffectiveIsNearest(g, raw, p, k);
      assert Line(g, t) == [t] + Line(g, p);
      NearestFurtherUp(raw, t, Line(g, p), k);
    }
  }

  /** When the first type of a line does not define the key, the search goes on behind it. */
  lemma NearestFurtherUp(raw: Table, t: string, above: seq<string>, k: string)
    requires t !in raw || k !in raw[t]
    ensures forall i: nat :: NearestAt(raw, above, k, i) <==> NearestAt(raw, [t] + above, k, i + 1)
    ensures !NearestAt(raw, [t] + above, k, 0)
    ensures (exists i: nat :: NearestAt(raw, [t] + above, k, i)) <==> exists i: nat :: NearestAt(raw, above, k, i)
    ensures forall i: nat :: NearestAt(raw, [t] + above, k, i) ==> i > 0 && NearestAt(raw, above, k, i - 1)
  {
    var line := [t] + above;
    forall i: nat ensures NearestAt(raw, above, k, i) <==> NearestAt(raw, line, k, i + 1) {
      if NearestAt(raw, line, k, i + 1) {
        forall j | 0 <= j < i ensures above[j] !in raw || k !in raw[above[j]] {
          assert above[j] == line[j + 1];
        }
      }
    }
    forall i: nat | NearestAt(raw, line, k, i) ensures i > 0 && NearestAt(raw, above, k, i - 1) {
    }
    if i: nat :| NearestAt(raw, above, k, i) {
      assert NearestAt(raw, line, k, i + 1);
    }
  }

  /** Merging a list of entries from last to first: each key comes from the first name that defines it. */
  lemma {:induction false} MergeIsNearest(table: Table, names: seq<string>, k: string)
    ensures k in MergeNearestFirst(table, names) <==> exists i: nat :: NearestAt(table, names, k, i)
    ensures forall i: nat :: NearestAt(table, names, k, i) ==>
              k in MergeNearestFirst(table, names) && MergeNearestFirst(table, names)[k] == table[names[i]][k]
    decreases |names|
  {
    if names != [] {
      if names[0] in table && k in table[names[0]] {
        assert NearestAt(table, names, k, 0);
      } else {
        MergeIsNearest(table, names[1..], k);
        NearestFurtherUp(table, names[0], names[1..], k);
        assert names == [names[0]] + names[1..];
      }
    }
  }

  /**
    What a lookup answers on any acyclic graph, whatever the table: something iff the type or a
    listed ancestor has an entry, and each key from the first of them, in list order, that has it.
   */
  lemma GetIsNearest(g: Graph, table: Table, t: string)
    requires Acyclic(g)
    ensures var got, names := Get(g, table, t), [t] + ParentTypes(g, t);
            && (got.Some? <==> t in table || exists n :: Reaches(g, t, n) && n in table)
            && (got.Some? ==> forall k ::
                  && (k in got.value <==> exists i: nat :: NearestAt(table, names, k, i))
                  && forall i: nat :: NearestAt(table, names, k, i) ==> got.value[k] == table[names[i]][k])
  {
    var names := [t] + ParentTypes(g, t);
    forall n ensures n in names <==> n == t || Reaches(g, t, n) {
      ParentTypesAreAncestors(g, t, n);
    }
    forall k
      ensures k in MergeNearestFirst(table, names) <==> exists i: nat :: NearestAt(table, names, k, i)
      ensures forall i: nat :: NearestAt(table, names, k, i) ==>
                k in MergeNearestFirst(table, names) && MergeNearestFirst(table, names)[k] == table[names[i]][k]
    {
      MergeIsNearest(table, names, k);
    }
  }

  lemma FlattenedGetIsEffective(g: Graph, raw: Table, keys: seq<string>, t: string)
    requires Acyclic(g) && SingleParent(g) && IsOrder(keys, raw)
    ensures Get(g, Flatten(g, raw, [], keys), t)
         == if forall n :: n in Line(g, t) ==> n !in raw then None else Some(Effective(g, raw, t))
  {
    RawIsSound(g, raw);
    FlattenIsSound(g, raw, raw, [], keys);
    GetIsEffective(g, raw, Flatten(g, raw, [], keys), t);
  }

  /**
    Flattening is correct despite the incomplete memo: for every raw table, every visiting
    order and every type, known or not, `get` afterwards finds each key in the raw entry of
    the nearest type on the ancestor line, and answers at all iff some type there has an entry.
   */
  lemma FlatteningIsCorrect(g: Graph, raw: Table, keys: seq<string>, t: string)
    requires Acyclic(g) && SingleParent(g) && IsOrder(keys, raw)
    ensures var got, line := Get(g, Flatten(g, raw, [], keys), t), Line(g, t);
            && (got.Some? <==> exists n :: n in line && n in raw)
            && (got.Some? ==> forall k ::
                  && (k in got.value <==> exists i: nat :: NearestAt(raw, line, k, i))
                  && (forall i: nat :: NearestAt(raw, line, k, i) ==> got.value[k] == raw[line[i]][k]))
  {
    FlattenedGetIsEffective(g, raw, keys, t);
    var line := Line(g, t);
    if n :| n in line && n in raw {
      assert !(forall m :: m in line ==> m !in raw);
    }
    forall k ensures
      && (k in Effective(g, raw, t) <==> exists i: nat :: NearestAt(raw, line, k, i))
      && (forall i: nat :: NearestAt(raw, line, k, i) ==>
            k in Effective(g, raw, t) && Effective(g, raw, t)[k] == raw[line[i]][k])
    {
      EffectiveIsNearest(g, raw, t, k);
    }
  }

  /** Flattening never changes what `get` answers. */
  lemma FlatteningKeepsGet(g: Graph, raw: Table, keys: seq<string>, t: string)
    requires Acyclic(g) && SingleParent(g) && IsOrder(keys, raw)
    ensures Get(g, Flatten(g, raw, [], keys), t) == Get(g, raw, t)
  {
    FlattenedGetIsEffective(g, raw, keys, t);
    RawIsSound(g, raw);
    GetIsEffective(g, raw, raw, t);
  }

  /**
    Persist and reload: `setData` stores the table it has already flattened in place; another
    main that loads it flattens it once more, in its own order, and answers `get` alike.
   */
  lemma ReloadKeepsGet(g: Graph, raw: Table, savedKeys: seq<string>, loadedKeys: seq<string>, t: string)
    requires Acyclic(g) && SingleParent(g) && IsOrder(savedKeys, raw)
    requires IsOrder(loadedKeys, Flatten(g, raw, [], savedKeys))
    ensures Get(g, Flatten(g, Flatten(g, raw, [], savedKeys), [], loadedKeys), t)
         == Get(g, Flatten(g, raw, [], savedKeys), t)
         == Get(g, raw, t)
  {
    FlatteningKeepsGet(g, Flatten(g, raw, [], savedKeys), loadedKeys, t);
    FlatteningKeepsGet(g, raw, savedKeys, t);
  }

  /** Every parent name is a known type, and no `extends` list repeats a name. */
  ghost predicate WellFormed(g: Graph) {
    && (forall p :: p in ParentNames(g) ==> p in g)
    && (forall t, i, j :: 0 <= i < j < |Parents(g, t)| ==> Parents(g, t)[i] != Parents(g, t)[j])
  }

  ghost predicate FlatteningAlwaysKeepsGet(g: Graph)
    requires Acyclic(g)
  {
    forall raw: Table, keys: seq<string>, t ::
      IsOrder(keys, raw) ==> Get(g, Flatten(g, raw, [], keys), t) == Get(g, raw, t)
  }

  /** A known type with an entry always answers with at least that entry. */
  lemma OwnEntryWins(g: Graph, table: Table, resolved: seq<string>, t: string)
    requires Acyclic(g) && t in g && t in table
    ensures var answer := GetOverwrites(g, table, resolved, t).answer;
            answer.Some? && SubFields(table[t], answer.value)
  {
  }

  lemma {:induction false} LastParentWins(g: Graph, table: Table, resolved: seq<string>, parents: seq<string>,
                                         acc: Fields, bound: nat)
    requires Acyclic(g) && RankedBelow(g, parents, bound) && parents != []
    requires parents[|parents| - 1] in g && parents[|parents| - 1] in table
    ensures SubFields(table[parents[|parents| - 1]], MergeParents(g, table, resolved, parents, acc, bound).fields)
    decreases |parents|
  {
    var r := GetOverwrites(g, table, resolved, parents[0]);
    if |parents| == 1 {
      OwnEntryWins(g, table, resolved, parents[0]);
      assert parents[1..] == [];
      assert MergeParents(g, table, resolved, parents, acc, bound).fields == acc + OrEmpty(r.answer);
    } else {
      LastParentWins(g, table, r.resolved, parents[1..], acc + OrEmpty(r.answer), bound);
    }
  }

  lemma {:induction false} LaterStepsKeepEntry(g: Graph, table: Table, resolved: seq<string>, keys: seq<string>, t: string)
    requires Acyclic(g) && t in table && t !in keys
    ensures var flat := Flatten(g, table, resolved, keys); t in flat && flat[t] == table[t]
    decreases |keys|
  {
    if keys != [] {
      var r := GetOverwrites(g, table, resolved, keys[0]);
      LaterStepsKeepEntry(g, Store(table, keys[0], r.answer), r.resolved, keys[1..], t);
    }
  }

  /** The table and order on which a type with two or more parents gives itself away. */
  lemma MultipleParentsBreakFlattening(g: Graph, t: string) returns (raw: Table, keys: seq<string>)
    requires Acyclic(g) && WellFormed(g) && |Parents(g, t)| >= 2
    ensures IsOrder(keys, raw) && Get(g, Flatten(g, raw, [], keys), t) != Get(g, raw, t)
  {
    var p, q := FirstAndLastParent(g, t);
    raw := TwoValues(t, p, q);
    keys := [t, p, q];
    FlattenedGetsLast(g, t, p, q);
    RawGetsFirst(g, t, p, q);
  }

  lemma FirstAndLastParent(g: Graph, t: string) returns (p: string, q: string)
    requires Acyclic(g) && WellFormed(g) && |Parents(g, t)| >= 2
    ensures p == Parents(g, t)[0] && q == Parents(g, t)[|Parents(g, t)| - 1]
    ensures p != q && p != t && q != t && q in g
  {
    var parents := Parents(g, t);
    p, q := parents[0], parents[|parents| - 1];
    ParentIsReached(g, t, p);
    ParentIsReached(g, t, q);
    assert q in ParentNames(g);
  }

  function TwoValues(t: string, p: string, q: string): Table {
    map[t := map[], p := map["k" := Number(1)], q := map["k" := Number(2)]]
  }

  lemma FlattenedGetsLast(g: Graph, t: string, p: string, q: string)
    requires Acyclic(g) && Parents(g, t) != [] && q == Parents(g, t)[|Parents(g, t)| - 1]
    requires p != q && p != t && q != t && q in g
    ensures var got := Get(g, Flatten(g, TwoValues(t, p, q), [], [t, p, q]), t);
            got.Some? && "k" in got.value && got.value["k"] == Number(2)
  {
    var raw := TwoValues(t, p, q);
    LastParentIsStored(g, raw, t, [p, q], "k");
    assert [t] + [p, q] == [t, p, q];
    FirstDefinerWins(g, Flatten(g, raw, [], [t, p, q]), t, "k");
  }

  lemma RawGetsFirst(g: Graph, t: string, p: string, q: string)
    requires Acyclic(g) && Parents(g, t) != [] && p == Parents(g, t)[0]
    requires p != q && p != t && q != t
    ensures var got := Get(g, TwoValues(t, p, q), t); got.Some? && "k" in got.value && got.value["k"] == Number(1)
  {
    ParentsRankLower(g, t);
    ExpandOneLevel(g, Parents(g, t), Rank(g, t));
    SecondDefinerWins(g, TwoValues(t, p, q), t, p, "k");
  }

  /** When a type is flattened first, a field of its last parent ends up in its own entry. */
  lemma LastParentIsStored(g: Graph, raw: Table, t: string, others: seq<string>, k: string)
    requires Acyclic(g) && t in raw && raw[t] == map[] && t !in others && Parents(g, t) != []
    requires var q := Parents(g, t)[|Parents(g, t)| - 1]; q in g && q in raw && k in raw[q]
    ensures var flat := Flatten(g, raw, [], [t] + others); var q := Parents(g, t)[|Parents(g, t)| - 1];
            t in flat && k in flat[t] && flat[t][k] == raw[q][k]
  {
    ParentsRankLower(g, t);
    LastParentWins(g, raw, [], Parents(g, t), map[], Rank(g, t));
    var r := GetOverwrites(g, raw, [], t);
    assert k in r.answer.value;
    LaterStepsKeepEntry(g, Store(raw, t, r.answer), r.resolved, others, t);
    assert ([t] + others)[1..] == others;
  }

  lemma FirstDefinerWins(g: Graph, table: Table, t: string, k: string)
    requires Acyclic(g) && t in table && k in table[t]
    ensures Get(g, table, t).Some? && k in Get(g, table, t).value && Get(g, table, t).value[k] == table[t][k]
  {
    assert ([t] + ParentTypes(g, t))[0] == t;
  }

  lemma SecondDefinerWins(g: Graph, table: Table, t: string, p: string, k: string)
    requires Acyclic(g) && ParentTypes(g, t) != [] && ParentTypes(g, t)[0] == p
    requires t in table && k !in table[t] && p in table && k in table[p]
    ensures Get(g, table, t).Some? && k in Get(g, table, t).value && Get(g, table, t).value[k] == table[p][k]
  {
    var names := [t] + ParentTypes(g, t);
    assert names[0] == t && names[1..] == ParentTypes(g, t);
    assert MergeNearestFirst(table, ParentTypes(g, t))
        == MergeNearestFirst(table, ParentTypes(g, t)[1..]) + OrEmpty(Lookup(table, p));
  }

  /** Exactly when flattening is harmless: multiple inheritance is what breaks it. */
  lemma FlatteningIsSafeIffSingleParent(g: Graph)
    requires Acyclic(g) && WellFormed(g)
    ensures FlatteningAlwaysKeepsGet(g) <==> SingleParent(g)
  {
    if SingleParent(g) {
      forall raw: Table, keys: seq<string>, t | IsOrder(keys, raw)
        ensures Get(g, Flatten(g, raw, [], keys), t) == Get(g, raw, t)
      {
        FlatteningKeepsGet(g, raw, keys, t);
      }
    } else {
      var t :| |Parents(g, t)| > 1;
      var raw, keys := MultipleParentsBreakFlattening(g, t);
    }
  }

  /** Once a type has been resolved on the way to another, a second question misses what it inherits. */
  lemma MemoForgetsInheritance(g: Graph, table: Table, resolved: seq<string>, t: string)
    requires Acyclic(g) && t in g && g[t].parents.Some? && t !in table && t !in resolved
    ensures GetOverwrites(g, table, resolved, t).answer.Some?
    ensures GetOverwrites(g, table, GetOverwrites(g, table, resolved, t).resolved, t).answer == None
  {
  }

  /** A known type is remembered once it has been asked for. */
  lemma KnownTypesAreRemembered(g: Graph, table: Table, resolved: seq<string>, t: string)
    requires Acyclic(g) && t in g
    ensures t in GetOverwrites(g, table, resolved, t).resolved
  {
  }

  /** An unknown type answers nothing, even to a known child, and even if the table has an entry for it. */
  lemma UnknownTypesAnswerNothing(g: Graph, table: Table, resolved: seq<string>, t: string, child: string)
    requires Acyclic(g) && t !in g && t !in resolved && child !in resolved
    ensures GetOverwrites(g, table, resolved, t) == Resolution(None, resolved)
    ensures child in g && Parents(g, child) == [t] ==>
              GetOverwrites(g, table, resolved, child).answer == Some(if child in table then table[child] else map[])
  {
    if child in g && Parents(g, child) == [t] {
      ParentsRankLower(g, child);
      MergeOneParent(g, table, resolved, [t], Rank(g, child));
      var own := OrEmpty(Lookup(table, child));
      assert map[] + own == own;
    }
  }

  /**
    What an application does to each field, on the values: nothing at all when there is no
    overwrite or a field of a skip-list type has been customised; otherwise exactly the stored
    fields that are missing, null or "" receive an overwrite other than "".
   */
  lemma ApplyMeaning(overwrites: Option<Fields>, skipListed: bool, data: Fields, renew: Renewal)
    ensures var applied := Apply(overwrites, skipListed, data, renew);
            if overwrites.None? || (skipListed && exists key :: Customizes(overwrites.value, data, key))
            then applied == data
            else
              && applied.Keys == data.Keys + set key | key in overwrites.value && Receives(overwrites.value, data, key)
              && forall key :: key in applied ==>
                   if key in overwrites.value && Receives(overwrites.value, data, key)
                   then applied[key] == overwrites.value[key]
                   else key in data && SameContent(applied[key], data[key])
  {
    if overwrites.Some? {
      CustomizedIff(overwrites.value, data);
      FilledFields(overwrites.value, data, renew);
    }
  }

  lemma CustomizedIff(o: Fields, data: Fields)
    ensures IsCustomized(o, data) <==> exists key :: Customizes(o, data, key)
  {
    forall key | key in o ensures Customizes(o, data, key) <==> !IsEmpty(Read(data, key)) && !Same(Read(data, key), o[key]) {
    }
  }

  lemma FilledFields(o: Fields, data: Fields, renew: Renewal)
    ensures var filled := Fill(o, DeepCopy(data, renew), o.Keys);
            && filled.Keys == data.Keys + set key | key in o && Receives(o, data, key)
            && forall key :: key in filled ==>
                 if key in o && Receives(o, data, key) then filled[key] == o[key]
                 else key in data && SameContent(filled[key], data[key])
  {
    assert forall key :: Injects(o, DeepCopy(data, renew), key) <==> key in o && Receives(o, data, key);
  }

  /** The stored field is missing, null or the empty string, and its overwrite is not "". */
  predicate Receives(o: Fields, data: Fields, key: string)
    requires key in o
  {
    && (key !in data || data[key] == Undefined || data[key] == Null || data[key] == Text(""))
    && o[key] != Text("")
  }

  /** The stored field has a value of its own that is not the very value of the overwrite. */
  predicate Customizes(o: Fields, data: Fields, key: string) {
    && key in o && key in data && data[key] != Undefined && data[key] != Null && data[key] != Text("")
    && if data[key].Object? && o[key].Object? then data[key].identity != o[key].identity else data[key] != o[key]
  }

  /** A non-empty stored field keeps its content; only an object comes back as a copy. */
  lemma ApplyKeepsStoredValues(overwrites: Option<Fields>, skipListed: bool, data: Fields, renew: Renewal, key: string)
    requires !IsEmpty(Read(data, key))
    ensures SameContent(Read(Apply(overwrites, skipListed, data, renew), key), Read(data, key))
  {
  }

  ghost predicate Alike(a: Fields, b: Fields) {
    a.Keys == b.Keys && forall key :: key in a ==> SameContent(a[key], b[key])
  }

  /** Applying an overwrite again changes no content, whatever identities the copies get. */
  lemma ApplyIsIdempotent(overwrites: Option<Fields>, skipListed: bool, data: Fields, renew: Renewal, again: Renewal)
    ensures var once := Apply(overwrites, skipListed, data, renew);
            Alike(Apply(overwrites, skipListed, once, again), once)
  {
    if overwrites.Some? && !(skipListed && IsCustomized(overwrites.value, data)) {
      var o, copy := overwrites.value, DeepCopy(data, renew);
      forall key | Injects(o, Fill(o, copy, o.Keys), key)
        ensures key in Fill(o, copy, o.Keys) && Fill(o, copy, o.Keys)[key] == o[key]
      {
        assert Injects(o, copy, key);
      }
      FillAgain(o, Fill(o, copy, o.Keys), again);
    }
  }

  /** Where nothing new is left to inject, filling a copy changes no content. */
  lemma FillAgain(o: Fields, once: Fields, again: Renewal)
    requires forall key :: Injects(o, once, key) ==> key in once && once[key] == o[key]
    ensures Alike(Fill(o, DeepCopy(once, again), o.Keys), once)
  {
    var copy := DeepCopy(once, again);
    forall key ensures Injects(o, copy, key) <==> Injects(o, once, key) {
    }
  }

  ghost function Identities(fields: Fields): set<nat> {
    set key | key in fields && fields[key].Object? :: fields[key].identity
  }

  /** Copies are objects of their own. */
  ghost predicate Renews(renew: Renewal, overwrites: Option<Fields>, data: Fields) {
    forall key :: renew(key) !in Identities(data) && renew(key) !in Identities(OrEmpty(overwrites))
  }

  /** A field of the applied data, and that the copy of a stored object is the same as no older value. */
  lemma AppliedField(o: Fields, data: Fields, renew: Renewal, key: string)
    requires Renews(renew, Some(o), data) && key in o
    ensures var applied := Fill(o, DeepCopy(data, renew), o.Keys);
            if Injects(o, data, key) then Read(applied, key) == o[key]
            else if Read(data, key).Object? then
              && Read(applied, key).Object?
              && !Same(Read(applied, key), Read(data, key)) && !Same(Read(applied, key), o[key])
            else Read(applied, key) == Read(data, key)
  {
    assert Injects(o, DeepCopy(data, renew), key) <==> Injects(o, data, key);
    if Read(data, key).Object? {
      assert Read(data, key).identity in Identities(data);
    }
    if o[key].Object? {
      assert o[key].identity in Identities(o);
    }
  }

  predicate Changes(o: Fields, data: Fields, key: string) {
    (Injects(o, data, key) && o[key] != Read(data, key)) || Read(data, key).Object?
  }

  /**
    When a credential counts as managed: no customisation protects it, and some field that the
    overwrite names is injected with a visible value or holds an object, whose copy is another.
   */
  lemma ManagedIffInjected(overwrites: Option<Fields>, skipListed: bool, data: Fields, renew: Renewal)
    requires Renews(renew, overwrites, data)
    ensures UsesManaged(overwrites, skipListed, data, renew) <==>
              && overwrites.Some?
              && !(skipListed && IsCustomized(overwrites.value, data))
              && exists key :: key in overwrites.value && Changes(overwrites.value, data, key)
  {
    if overwrites.Some? && !(skipListed && IsCustomized(overwrites.value, data)) {
      forall key | key in overwrites.value
        ensures !Same(Read(Apply(overwrites, skipListed, data, renew), key), Read(data, key))
           <==> Changes(overwrites.value, data, key)
      {
        AppliedField(overwrites.value, data, renew, key);
      }
    }
  }

  ghost predicate HoldsObject(o: Fields, data: Fields) {
    exists key :: key in o && Read(data, key).Object?
  }

  ghost predicate InjectsObject(o: Fields, data: Fields) {
    exists key :: Injects(o, data, key) && o[key].Object?
  }

  /**
    When a credential still counts as managed after its overwrite has been applied: only on
    account of objects.  Without the skip list a stored or injected object under an overwritten
    key suffices.  On the skip list it takes an injected one, in a credential that was not
    customised and does not become so because a stored object has been copied.
   */
  lemma AppliedIsManagedIffObjects(overwrites: Option<Fields>, skipListed: bool, data: Fields,
                                   renew: Renewal, again: Renewal)
    requires Renews(renew, overwrites, data)
    requires Renews(again, overwrites, Apply(overwrites, skipListed, data, renew))
    ensures UsesManaged(overwrites, skipListed, Apply(overwrites, skipListed, data, renew), again) <==>
              && overwrites.Some?
              && var o := overwrites.value;
                 if skipListed then !IsCustomized(o, data) && !HoldsObject(o, data) && InjectsObject(o, data)
                 else HoldsObject(o, data) || InjectsObject(o, data)
  {
    var applied := Apply(overwrites, skipListed, data, renew);
    ManagedIffInjected(overwrites, skipListed, applied, again);
    if overwrites.Some? && !(skipListed && IsCustomized(overwrites.value, data)) {
      ObjectsAfterApply(overwrites.value, data, renew);
      if skipListed {
        CustomizedByCopies(overwrites.value, data, renew);
      }
    }
  }

  /** After filling, nothing visible is left to inject, and the objects are the stored and the injected ones. */
  lemma ObjectsAfterApply(o: Fields, data: Fields, renew: Renewal)
    requires Renews(renew, Some(o), data)
    ensures var applied := Fill(o, DeepCopy(data, renew), o.Keys);
            && (forall key :: Injects(o, applied, key) ==> o[key] == Read(applied, key))
            && (HoldsObject(o, applied) <==> HoldsObject(o, data) || InjectsObject(o, data))
  {
    var applied := Fill(o, DeepCopy(data, renew), o.Keys);
    forall key | key in o
      ensures Injects(o, applied, key) ==> o[key] == Read(applied, key)
      ensures Read(applied, key).Object? <==> Read(data, key).Object? || (Injects(o, data, key) && o[key].Object?)
    {
      AppliedField(o, data, renew, key);
    }
  }

  /** Of an uncustomised credential, only copied objects make it look customised. */
  lemma CustomizedByCopies(o: Fields, data: Fields, renew: Renewal)
    requires Renews(renew, Some(o), data) && !IsCustomized(o, data)
    ensures IsCustomized(o, Fill(o, DeepCopy(data, renew), o.Keys)) <==> HoldsObject(o, data)
  {
    var applied := Fill(o, DeepCopy(data, renew), o.Keys);
    forall key | key in o
      ensures !IsEmpty(Read(applied, key)) && !Same(Read(applied, key), o[key]) <==> Read(data, key).Object?
    {
      AppliedField(o, data, renew, key);
    }
  }

  ghost predicate Primitive(fields: Fields) {
    forall key :: key in fields ==> !fields[key].Object?
  }

  /** A credential of primitive values to which a primitive overwrite has been applied never counts as managed. */
  lemma AppliedIsNeverManaged(overwrites: Option<Fields>, skipListed: bool, data: Fields, renew: Renewal, again: Renewal)
    requires Primitive(data) && Primitive(OrEmpty(overwrites))
    ensures !UsesManaged(overwrites, skipListed, Apply(overwrites, skipListed, data, renew), again)
  {
    assert DeepCopy(data, renew) == data;
    if overwrites.Some? {
      assert Primitive(Fill(overwrites.value, data, overwrites.value.Keys));
    }
    AppliedIsManagedIffObjects(overwrites, skipListed, data, renew, again);
  }
}
