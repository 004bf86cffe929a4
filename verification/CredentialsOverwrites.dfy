/**
  `credentials-overwrites.ts` as it runs: the caller's table object is adopted and flattened
  in place, the memo list grows by side effect, and saving stores the flattened object.
 */
module CredentialsOverwrites {
  import opened Wrappers
  import opened Basics
  import opened TypeGraph
  import opened CredentialTypes
  import Rules = OverwriteRules

  /** An overwrite table object; the service and its caller share it. */
  class OverwriteTable {
    var entries: Rules.Table

    constructor (entries: Rules.Table)
      ensures this.entries == entries
    {
      this.entries := entries;
    }
  }

  /** The settings row that holds the persisted table. */
  class Settings {
    var saved: Option<Rules.Table>

    constructor ()
      ensures saved == None
    {
      saved := None;
    }
  }

  lemma FillOneMore(overwrites: Rules.Fields, data: Rules.Fields, done: set<string>, key: string)
    requires key in overwrites && key !in done
    ensures var r := Rules.Fill(overwrites, data, done);
            Rules.Fill(overwrites, data, done + {key})
            == if overwrites[key] != Rules.Text("") && Rules.IsEmpty(Rules.Read(r, key)) then r[key := overwrites[key]] else r
  {
    var r := Rules.Fill(overwrites, data, done);
    assert Rules.Read(r, key) == Rules.Read(data, key);
  }

  /** The loop of `applyOverwrite` over the overwrite keys. */
  method FillEmptyFields(overwrites: Rules.Fields, data: Rules.Fields) returns (r: Rules.Fields)
    ensures r == Rules.Fill(overwrites, data, overwrites.Keys)
  {
    r := data;
    var keys := KeysInOrder(overwrites);
    ghost var done: set<string> := {};
    for i := 0 to |keys|
      invariant forall j :: i <= j < |keys| ==> keys[j] !in done
      invariant done == set j | 0 <= j < i :: keys[j]
      invariant r == Rules.Fill(overwrites, data, done)
    {
      var key := keys[i];
      assert key in keys;
      FillOneMore(overwrites, data, done, key);
      if overwrites[key] != Rules.Text("") && Rules.IsEmpty(Rules.Read(r, key)) {
        r := r[key := overwrites[key]];
      }
      done := done + {key};
    }
    assert done == overwrites.Keys;
  }

  /** One step of the merge: a nearer entry is assigned over what lies further up. */
  lemma MergeOneMore(table: Rules.Table, n: string, names: seq<string>)
    ensures Rules.MergeEntries(table, [n] + names)
         == if n in table then Some(Rules.OrEmpty(Rules.MergeEntries(table, names)) + table[n])
            else Rules.MergeEntries(table, names)
  {
    var more := [n] + names;
    assert more[1..] == names;
    assert forall x :: x in more <==> x == n || x in names;
    if forall x :: x in names ==> x !in table {
      NothingToMerge(table, names);
    }
    assert Rules.MergeNearestFirst(table, names) + map[] == Rules.MergeNearestFirst(table, names);
  }

  lemma {:induction false} NothingToMerge(table: Rules.Table, names: seq<string>)
    requires forall x :: x in names ==> x !in table
    ensures Rules.MergeNearestFirst(table, names) == map[]
    decreases |names|
  {
    if names != [] {
      NothingToMerge(table, names[1..]);
    }
  }

  /** The `reverse`, `map`, `filter` and `reduce` of `get`: entries are assigned from the last name to the first. */
  method AssignFromLast(table: Rules.Table, names: seq<string>) returns (r: Option<Rules.Fields>)
    ensures r == Rules.MergeEntries(table, names)
  {
    r := None;
    var i := |names|;
    while i > 0
      invariant 0 <= i <= |names|
      invariant r == Rules.MergeEntries(table, names[i..])
    {
      i := i - 1;
      MergeOneMore(table, names[i], names[i + 1..]);
      assert names[i..] == [names[i]] + names[i + 1..];
      if names[i] in table {
        r := Some(Rules.OrEmpty(r) + table[names[i]]);
      }
    }
    assert names[0..] == names;
  }

  class Service {
    const types: Graph
    const skipTypes: set<string>
    const persistence: bool
    const settings: Settings
    var overwriteData: OverwriteTable
    var resolvedTypes: seq<string>

    constructor (types: Graph, skipTypes: set<string>, persistence: bool, settings: Settings)
      ensures this.types == types && this.skipTypes == skipTypes
      ensures this.persistence == persistence && this.settings == settings
      ensures fresh(overwriteData) && overwriteData.entries == map[] && resolvedTypes == []
    {
      this.types := types;
      this.skipTypes := skipTypes;
      this.persistence := persistence;
      this.settings := settings;
      overwriteData := new OverwriteTable(map[]);
      resolvedTypes := [];
    }

    method GetOverwrites(t: string) returns (answer: Option<Rules.Fields>)
      requires Acyclic(types)
      modifies this`resolvedTypes
      ensures Rules.Resolution(answer, resolvedTypes)
           == Rules.GetOverwrites(types, overwriteData.entries, old(resolvedTypes), t)
      decreases Rank(types, t)
    {
      if t in resolvedTypes {
        return Rules.Lookup(overwriteData.entries, t);
      }
      if t !in types {
        return None;
      }
      if types[t].parents.None? {
        resolvedTypes := resolvedTypes + [t];
        return Rules.Lookup(overwriteData.entries, t);
      }
      var parents := types[t].parents.value;
      ghost var table, bound := overwriteData.entries, Rank(types, t);
      ParentsRankLower(types, t);
      var overwrites: Rules.Fields := map[];
      assert parents[0..] == parents;
      var i := 0;
      while i < |parents|
        invariant 0 <= i <= |parents|
        invariant RankedBelow(types, parents[i..], bound)
        invariant Rules.MergeParents(types, table, resolvedTypes, parents[i..], overwrites, bound)
               == Rules.MergeParents(types, table, old(resolvedTypes), parents, map[], bound)
      {
        assert parents[i] in parents[i..] && parents[i..][1..] == parents[i + 1..];
        var inherited := GetOverwrites(parents[i]);
        overwrites := overwrites + Rules.OrEmpty(inherited);
        i := i + 1;
      }
      assert parents[i..] == [];
      assert Rules.MergeParents(types, table, old(resolvedTypes), parents, map[], bound)
          == Rules.Merge(overwrites, resolvedTypes);
      assert overwrites + map[] == overwrites;
      if t in overwriteData.entries {
        overwrites := overwrites + overwriteData.entries[t];
      }
      resolvedTypes := resolvedTypes + [t];
      return Some(overwrites);
    }

    /** Adopts the caller's object and flattens it in place, in whatever order its keys come. */
    method SetPlainData(data: OverwriteTable) returns (ghost order: seq<string>)
      requires Acyclic(types)
      modifies this, data
      ensures overwriteData == data
      ensures Rules.IsOrder(order, old(data.entries))
      ensures data.entries == Rules.Flatten(types, old(data.entries), [], order)
      ensures data.entries.Keys == old(data.entries.Keys)
    {
      resolvedTypes := [];
      overwriteData := data;
      var keys := KeysInOrder(data.entries);
      order := keys;
      FlattenEntries(keys);
    }

    /** The loop of `setPlainData` over the keys of the adopted object. */
    method FlattenEntries(keys: seq<string>)
      requires Acyclic(types)
      requires forall k :: k in keys ==> k in overwriteData.entries
      modifies this`resolvedTypes, overwriteData
      ensures overwriteData.entries == Rules.Flatten(types, old(overwriteData.entries), old(resolvedTypes), keys)
      ensures overwriteData.entries.Keys == old(overwriteData.entries.Keys)
    {
      ghost var rest := keys;
      for i := 0 to |keys|
        invariant rest == keys[i..]
        invariant overwriteData.entries.Keys == old(overwriteData.entries.Keys)
        invariant Rules.Flatten(types, overwriteData.entries, resolvedTypes, rest)
               == Rules.Flatten(types, old(overwriteData.entries), old(resolvedTypes), keys)
      {
        var t := keys[i];
        assert t in keys && rest[0] == t;
        var overwrites := GetOverwrites(t);
        if overwrites.Some? && |overwrites.value| > 0 {
          overwriteData.entries := overwriteData.entries[t := overwrites.value];
        }
        rest := rest[1..];
      }
    }

    method SetData(data: OverwriteTable, storeInDb: bool) returns (ghost order: seq<string>)
      requires Acyclic(types)
      modifies this, data, settings
      ensures overwriteData == data && Rules.IsOrder(order, old(data.entries))
      ensures data.entries == Rules.Flatten(types, old(data.entries), [], order)
      ensures settings.saved == if storeInDb && persistence then Some(data.entries) else old(settings.saved)
    {
      order := SetPlainData(data);
      if storeInDb && persistence {
        settings.saved := Some(data.entries);
      }
    }

    /** Another main reloading: the saved text is parsed into a new object and set without storing. */
    method LoadOverwriteDataFromDB() returns (ghost order: seq<string>)
      requires Acyclic(types)
      modifies this, settings
      ensures settings.saved == old(settings.saved)
      ensures settings.saved.None? ==> unchanged(this)
      ensures settings.saved.Some? ==>
        && fresh(overwriteData)
        && Rules.IsOrder(order, settings.saved.value)
        && overwriteData.entries == Rules.Flatten(types, settings.saved.value, [], order)
    {
      order := [];
      if settings.saved.Some? {
        var data := new OverwriteTable(settings.saved.value);
        order := SetData(data, false);
      }
    }

    method Get(name: string) returns (r: Option<Rules.Fields>)
      requires Acyclic(types)
      ensures r == Rules.Get(types, overwriteData.entries, name)
    {
      var parentTypes := GetParentTypes(types, name);
      r := AssignFromLast(overwriteData.entries, [name] + parentTypes);
    }

    method ApplyOverwrite(t: string, data: Rules.Fields, renew: Rules.Renewal) returns (r: Rules.Fields)
      requires Acyclic(types)
      ensures r == Rules.Apply(Rules.Get(types, overwriteData.entries, t), t in skipTypes, data, renew)
    {
      var got := Get(t);
      if got.None? {
        return data;
      }
      var overwrites := got.value;
      if t in skipTypes && Rules.IsCustomized(overwrites, data) {
        return data;
      }
      r := FillEmptyFields(overwrites, Rules.DeepCopy(data, renew));
    }

    method UsesManagedAuth(t: string, data: Rules.Fields, renew: Rules.Renewal) returns (r: bool)
      requires Acyclic(types)
      ensures r <==> Rules.UsesManaged(Rules.Get(types, overwriteData.entries, t), t in skipTypes, data, renew)
    {
      var overwrites := Get(t);
      if overwrites.None? {
        return false;
      }
      var applied := ApplyOverwrite(t, data, renew);
      r := exists key :: key in overwrites.value && !Rules.Same(Rules.Read(applied, key), Rules.Read(data, key));
    }
  }
}
