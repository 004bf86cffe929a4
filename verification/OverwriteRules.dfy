/**
  What `credentials-overwrites.ts` computes, as functions on values: resolution with the
  `resolvedTypes` memo, in-place flattening, lookup and application.  `CredentialsOverwrites`
  is proved against these functions; the theorems about them are in `OverwriteTheorems`.
 */
module OverwriteRules {
  import opened Wrappers
  import opened TypeGraph
  import opened CredentialTypes

  /**
    A property value.  `Undefined` is also what reading an absent key gives; an object or array
    is held by reference, and its content is text here.
   */
  datatype FieldValue =
    | Undefined
    | Null
    | Text(text: string)
    | Number(number: int)
    | Flag(flag: bool)
    | Object(identity: nat, content: string)

  /** The comparison `===`: objects are compared by identity. */
  predicate Same(a: FieldValue, b: FieldValue) {
    if a.Object? && b.Object? then a.identity == b.identity else a == b
  }

  /** Equal up to the identity of objects. */
  predicate SameContent(a: FieldValue, b: FieldValue) {
    if a.Object? && b.Object? then a.content == b.content else a == b
  }

  type Fields = map<string, FieldValue>

  type Table = map<string, Fields>

  function Lookup(table: Table, t: string): Option<Fields> {
    if t in table then Some(table[t]) else None
  }

  function OrEmpty(fields: Option<Fields>): Fields {
    if fields.Some? then fields.value else map[]
  }

  /** An answer of `getOverwrites` together with the memo list it leaves behind. */
  datatype Resolution = Resolution(answer: Option<Fields>, resolved: seq<string>)

  ghost function GetOverwrites(g: Graph, table: Table, resolved: seq<string>, t: string): Resolution
    requires Acyclic(g)
    decreases Rank(g, t), 1, 0
  {
    if t in resolved then Resolution(Lookup(table, t), resolved)
    else if t !in g then Resolution(None, resolved)
    else if g[t].parents.None? then Resolution(Lookup(table, t), resolved + [t])
    else
      ParentsRankLower(g, t);
      var inherited := MergeParents(g, table, resolved, g[t].parents.value, map[], Rank(g, t));
      Resolution(Some(inherited.fields + OrEmpty(Lookup(table, t))), inherited.resolved + [t])
  }

  datatype Merge = Merge(fields: Fields, resolved: seq<string>)

  /** `Object.assign` over the parents in order, so a later parent overrides an earlier one. */
  ghost function MergeParents(g: Graph, table: Table, resolved: seq<string>, parents: seq<string>,
                              acc: Fields, bound: nat): Merge
    requires Acyclic(g) && RankedBelow(g, parents, bound)
    decreases bound, 0, |parents|
  {
    if parents == [] then Merge(acc, resolved)
    else
      assert parents[0] in parents;
      var r := GetOverwrites(g, table, resolved, parents[0]);
      MergeParents(g, table, r.resolved, parents[1..], acc + OrEmpty(r.answer), bound)
  }

  /** One step of the `setPlainData` loop: a non-empty answer replaces the entry. */
  function Store(table: Table, t: string, answer: Option<Fields>): Table {
    if answer.Some? && answer.value != map[] then table[t := answer.value] else table
  }

  /** The `setPlainData` loop, visiting the keys in the given order. */
  ghost function Flatten(g: Graph, table: Table, resolved: seq<string>, keys: seq<string>): Table
    requires Acyclic(g)
    decreases |keys|
  {
    if keys == [] then table
    else
      var r := GetOverwrites(g, table, resolved, keys[0]);
      Flatten(g, Store(table, keys[0], r.answer), r.resolved, keys[1..])
  }

  /** A visiting order: every key exactly once. */
  ghost predicate IsOrder(keys: seq<string>, table: Table) {
    && (forall k :: k in keys <==> k in table)
    && (forall i, j :: 0 <= i < j < |keys| ==> keys[i] != keys[j])
  }

  /** Assigning the entries of `names` from last to first, so the first name wins. */
  ghost function MergeNearestFirst(table: Table, names: seq<string>): Fields {
    if names == [] then map[]
    else MergeNearestFirst(table, names[1..]) + OrEmpty(Lookup(table, names[0]))
  }

  /** Nothing at all when no name has an entry. */
  ghost function MergeEntries(table: Table, names: seq<string>): Option<Fields> {
    if forall n :: n in names ==> n !in table then None else Some(MergeNearestFirst(table, names))
  }

  /** The private `get`: the entries of the type and of its ancestors, merged. */
  ghost function Get(g: Graph, table: Table, t: string): Option<Fields>
    requires Acyclic(g)
  {
    MergeEntries(table, [t] + ParentTypes(g, t))
  }

  function Read(data: Fields, key: string): FieldValue {
    if key in data then data[key] else Undefined
  }

  predicate IsEmpty(v: FieldValue) {
    v == Undefined || v == Null || v == Text("")
  }

  /** A skip-list type is customised when some overwrite field holds a non-empty value of its own. */
  predicate IsCustomized(overwrites: Fields, data: Fields) {
    exists key :: key in overwrites && !IsEmpty(Read(data, key)) && !Same(Read(data, key), overwrites[key])
  }

  /** The field an overwrite reaches: empty so far, and not overwritten with the empty string. */
  predicate Injects(overwrites: Fields, data: Fields, key: string) {
    key in overwrites && overwrites[key] != Text("") && IsEmpty(Read(data, key))
  }

  /** The data with every injected field among `keys` filled in. */
  function Fill(overwrites: Fields, data: Fields, keys: set<string>): Fields {
    data + map key | key in keys && Injects(overwrites, data, key) :: overwrites[key]
  }

  /** Which new identity the copy of each field's object gets. */
  type Renewal = string -> nat

  function DeepCopy(data: Fields, renew: Renewal): Fields {
    map key | key in data :: if data[key].Object? then Object(renew(key), data[key].content) else data[key]
  }

  function Apply(overwrites: Option<Fields>, skipListed: bool, data: Fields, renew: Renewal): Fields {
    if overwrites.None? then data
    else if skipListed && IsCustomized(overwrites.value, data) then data
    else Fill(overwrites.value, DeepCopy(data, renew), overwrites.value.Keys)
  }

  /** `usesManagedAuth`: some field that the overwrite names is not the same after applying it. */
  predicate UsesManaged(overwrites: Option<Fields>, skipListed: bool, data: Fields, renew: Renewal) {
    overwrites.Some? && exists key ::
      key in overwrites.value && !Same(Read(Apply(overwrites, skipListed, data, renew), key), Read(data, key))
  }
}
