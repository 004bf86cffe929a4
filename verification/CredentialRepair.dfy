/**
  `replaceInvalidCredentials`: nodes are rewritten in place, and a cache shared by any number
  of calls stands in for most database reads.
 */
module CredentialRepair {
  import opened Wrappers
  import opened CredentialLookup

  /**
    A credential reference object; nodes and the cache hold such objects by reference.  The
    repair never writes to one, it only makes new ones, so the fields are constants here.
   */
  class CredentialDetails {
    const id: Option<string>
    const name: string
    const gatewayManaged: bool

    constructor (id: Option<string>, name: string, gatewayManaged: bool)
      ensures this.id == id && this.name == name && this.gatewayManaged == gatewayManaged
    {
      this.id := id;
      this.name := name;
      this.gatewayManaged := gatewayManaged;
    }

    ghost function View(): Reference {
      Details(id, name, gatewayManaged)
    }
  }

  datatype Slot = Empty | Name(text: string) | Object(details: CredentialDetails)

  ghost function ViewSlot(s: Slot): Reference {
    match s
    case Empty => Absent
    case Name(text) => BareName(text)
    case Object(d) => d.View()
  }

  /** A workflow node; `credentials` may be missing altogether. */
  class WorkflowNode {
    var disabled: bool
    var credentials: Option<map<string, Slot>>

    constructor (disabled: bool, credentials: Option<map<string, Slot>>)
      ensures this.disabled == disabled && this.credentials == credentials
    {
      this.disabled := disabled;
      this.credentials := credentials;
    }
  }

  /** The three kinds of cache key. */
  datatype CacheKey =
    | ByName(credentialType: string, name: string)
    | ById(credentialType: string, id: string)
    | ByIdAndName(credentialType: string, id: string, name: string)

  class Cache {
    var entries: map<CacheKey, CredentialDetails>

    constructor ()
      ensures entries == map[]
    {
      entries := map[];
    }
  }

  /** What an entry under this key must hold to agree with the database. */
  ghost predicate EntryAgrees(c: Context, key: CacheKey, value: Reference) {
    match key
    case ByName(t, name) =>
      var row := UniqueByName(c, name, t);
      value == if row.Some? then OfRow(row.value) else Details(None, name, false)
    case ById(t, id) =>
      var row := FindById(c.rows, id, t);
      row.Some? && value == OfRow(row.value)
    case ByIdAndName(t, id, name) =>
      var row := UniqueByName(c, name, t);
      && FindById(c.rows, id, t).None?
      && value == if row.Some? then OfRow(row.value) else Details(Some(id), name, false)
  }

  ghost predicate Agrees(c: Context, entries: map<CacheKey, CredentialDetails>)
  {
    forall k :: k in entries ==> EntryAgrees(c, k, entries[k].View())
  }

  /** No node slot holds an object that the cache also holds. */
  ghost predicate Unshared(slots: map<string, Slot>, entries: map<CacheKey, CredentialDetails>) {
    forall t :: t in slots && slots[t].Object? ==> slots[t].details !in entries.Values
  }

  /** The cache may have gained objects, but none of the `older` ones. */
  ghost predicate Grown(was: map<CacheKey, CredentialDetails>, now: map<CacheKey, CredentialDetails>, older: set<CredentialDetails>) {
    forall k :: k in now && now[k] in older ==> now[k] in was.Values
  }

  /** The objects held by a node's slots. */
  ghost function Held(slots: map<string, Slot>): set<CredentialDetails> {
    set t | t in slots && slots[t].Object? :: slots[t].details
  }

  method Copy(d: CredentialDetails) returns (r: CredentialDetails)
    ensures fresh(r) && r.View() == d.View()
  {
    r := new CredentialDetails(d.id, d.name, d.gatewayManaged);
  }

  /** The branch for references without an id. */
  method RepairByName(c: Context, cache: Cache, credentialType: string, name: string,
                      ghost older: set<CredentialDetails>) returns (r: Option<CredentialDetails>)
    requires UniqueIds(c) && Agrees(c, cache.entries)
    modifies cache
    ensures Agrees(c, cache.entries) && Grown(old(cache.entries), cache.entries, older)
    ensures r.Some? ==> r.value !in cache.entries.Values && r.value !in older
    ensures var row := UniqueByName(c, name, credentialType);
            && (row.Some? ==> r.Some? && r.value.View() == OfRow(row.value))
            && (row.None? && r.Some? ==> r.value.View() == Details(None, name, false))
  {
    r := None;
    var key := ByName(credentialType, name);
    if key in cache.entries {
      var copy := Copy(cache.entries[key]);
      return Some(copy);
    }
    var found := FindByName(c.rows, name, credentialType, c.project);
    if |found| == 1 {
      var resolved := new CredentialDetails(Some(found[0].id), found[0].name, false);
      cache.entries := cache.entries[key := resolved];
      var copy := Copy(resolved);
      return Some(copy);
    }
    var unresolved := new CredentialDetails(None, name, false);
    cache.entries := cache.entries[key := unresolved];
  }

  /**
    One turn of the inner loop: the slot's new content, or `None` when the slot is left alone.
    The cache keeps agreeing, keeps its old objects and gains only new ones.
   */
  method RepairSlot(c: Context, cache: Cache, credentialType: string, slot: Slot,
                    ghost older: set<CredentialDetails>) returns (r: Option<CredentialDetails>)
    requires UniqueIds(c) && Agrees(c, cache.entries)
    modifies cache
    ensures Agrees(c, cache.entries) && Grown(old(cache.entries), cache.entries, older)
    ensures r.Some? ==> r.value !in cache.entries.Values && r.value !in older
    ensures Agree(Resolve(c, credentialType, ViewSlot(slot)),
                  if r.Some? then r.value.View() else ViewSlot(slot))
  {
    r := None;
    if credentialType in c.unsafeNames || slot.Empty? {
      return;
    }
    if slot.Object? && slot.details.gatewayManaged {
      return;
    }
    if slot.Name? || slot.details.id.None? {
      r := RepairByName(c, cache, credentialType, if slot.Name? then slot.text else slot.details.name, older);
      return;
    }

    var id, name := slot.details.id.value, slot.details.name;
    var idKey := ById(credentialType, id);
    var idAndNameKey := ByIdAndName(credentialType, id, name);
    if idAndNameKey in cache.entries {
      var copy := Copy(cache.entries[idAndNameKey]);
      return Some(copy);
    }
    if idKey in cache.entries {
      var copy := Copy(cache.entries[idKey]);
      return Some(copy);
    }
    var row := FindById(c.rows, id, credentialType);
    FindByIdFinds(c.rows, id, credentialType);
    if row.Some? {
      var resolved := new CredentialDetails(Some(row.value.id), row.value.name, false);
      cache.entries := cache.entries[idKey := resolved];
      var copy := Copy(resolved);
      return Some(copy);
    }
    var found := FindByName(c.rows, name, credentialType, c.project);
    if |found| == 1 {
      assert found[0] in found;
      RowIsFoundById(c, found[0]);
      var resolved := new CredentialDetails(Some(found[0].id), found[0].name, false);
      cache.entries := cache.entries[idAndNameKey := resolved];
      cache.entries := cache.entries[ById(credentialType, found[0].id) := resolved];
      var copy := Copy(resolved);
      return Some(copy);
    }
    var fallback := Copy(slot.details);
    cache.entries := cache.entries[idAndNameKey := fallback];
  }

  /** What a node's slots hold, as values. */
  ghost function Views(slots: map<string, Slot>): map<string, Reference>
  {
    map t | t in slots :: ViewSlot(slots[t])
  }

  /** The slot holds what the resolver asks for; a changed slot holds an object of its own. */
  ghost predicate SlotRepaired(c: Context, credentialType: string, view: Reference, before: Slot, after: Slot,
                               older: set<CredentialDetails>)
  {
    && Agree(Resolve(c, credentialType, view), ViewSlot(after))
    && (after == before || (after.Object? && after.details !in older))
  }

  /** The slots of a node that has been repaired under every type but those in `rest`. */
  ghost predicate Repaired(c: Context, views: map<string, Reference>, before: map<string, Slot>, after: map<string, Slot>,
                           rest: set<string>, older: set<CredentialDetails>)
    requires views.Keys == before.Keys
  {
    && after.Keys == before.Keys
    && (forall t :: t in before && t in rest ==> after[t] == before[t])
    && (forall t :: t in before && t !in rest ==> SlotRepaired(c, t, views[t], before[t], after[t], older))
  }

  lemma RepairedStep(c: Context, views: map<string, Reference>, before: map<string, Slot>, after: map<string, Slot>,
                     rest: set<string>, older: set<CredentialDetails>, t: string, slot: Slot)
    requires views.Keys == before.Keys && Repaired(c, views, before, after, rest, older)
    requires t in before && SlotRepaired(c, t, views[t], before[t], slot, older)
    ensures Repaired(c, views, before, after[t := slot], rest - {t}, older)
  {
  }

  lemma StillUnshared(slots: map<string, Slot>, was: map<CacheKey, CredentialDetails>,
                      now: map<CacheKey, CredentialDetails>, older: set<CredentialDetails>)
    requires Unshared(slots, was) && Grown(was, now, older) && Held(slots) <= older
    ensures Unshared(slots, now)
  {
    forall t | t in slots && slots[t].Object? ensures slots[t].details !in now.Values {
      assert slots[t].details in Held(slots);
    }
  }

  lemma GrownTransitive(a: map<CacheKey, CredentialDetails>, b: map<CacheKey, CredentialDetails>,
                        c: map<CacheKey, CredentialDetails>, older: set<CredentialDetails>, wider: set<CredentialDetails>)
    requires Grown(a, b, older) && Grown(b, c, wider) && older <= wider
    ensures Grown(a, c, older)
  {
  }

  /** The object of a rewritten slot is held by no other slot of the node. */
  ghost predicate OwnObjects(before: map<string, Slot>, after: map<string, Slot>) {
    forall t, u :: (t in before && t in after && u in after && t != u && after[t] != before[t]
                    && after[t].Object? && after[u].Object?) ==> after[t].details != after[u].details
  }

  lemma OwnStep(before: map<string, Slot>, after: map<string, Slot>, t: string, d: CredentialDetails)
    requires OwnObjects(before, after) && d !in Held(after)
    ensures OwnObjects(before, after[t := Object(d)])
  {
    forall u | u in after && after[u].Object? ensures after[u].details != d {
      assert after[u].details in Held(after);
    }
  }

  ghost function Rewrite(slots: map<string, Slot>, t: string, replacement: Option<CredentialDetails>): map<string, Slot> {
    if replacement.Some? then slots[t := Object(replacement.value)] else slots
  }

  /** One turn of the inner loop, given what `RepairSlot` promises. */
  lemma SlotTurn(c: Context, before: map<string, Slot>, slots: map<string, Slot>, rest: set<string>,
                 older: set<CredentialDetails>, t: string, replacement: Option<CredentialDetails>)
    requires Repaired(c, Views(before), before, slots, rest, older) && OwnObjects(before, slots)
    requires t in before && t in rest
    requires replacement.Some? ==> replacement.value !in older && replacement.value !in Held(slots)
    requires Agree(Resolve(c, t, ViewSlot(before[t])),
                   if replacement.Some? then replacement.value.View() else ViewSlot(before[t]))
    ensures Repaired(c, Views(before), before, Rewrite(slots, t, replacement), rest - {t}, older)
    ensures OwnObjects(before, Rewrite(slots, t, replacement))
  {
    if replacement.Some? {
      RepairedStep(c, Views(before), before, slots, rest, older, t, Object(replacement.value));
      OwnStep(before, slots, t, replacement.value);
    } else {
      assert slots[t := before[t]] == slots;
      RepairedStep(c, Views(before), before, slots, rest, older, t, before[t]);
    }
  }

  lemma RewriteUnshared(slots: map<string, Slot>, entries: map<CacheKey, CredentialDetails>, t: string,
                        replacement: Option<CredentialDetails>)
    requires Unshared(slots, entries) && (replacement.Some? ==> replacement.value !in entries.Values)
    ensures Unshared(Rewrite(slots, t, replacement), entries)
  {
  }

  /** The loop body for one node; `older` is any set of objects that exist already. */
  method RepairNode(c: Context, cache: Cache, node: WorkflowNode, ghost older: set<CredentialDetails>)
    requires UniqueIds(c) && Agrees(c, cache.entries)
    requires node.credentials.Some? ==> Unshared(node.credentials.value, cache.entries)
    modifies cache, node`credentials
    ensures Agrees(c, cache.entries) && Grown(old(cache.entries), cache.entries, older)
    ensures node.credentials.Some? == old(node.credentials).Some?
    ensures node.credentials.Some? ==>
      && Unshared(node.credentials.value, cache.entries)
      && Repaired(c, Views(old(node.credentials.value)), old(node.credentials.value), node.credentials.value,
                  if node.disabled then old(node.credentials.value.Keys) else {}, older)
      && OwnObjects(old(node.credentials.value), node.credentials.value)
  {
    if node.credentials.None? || node.disabled {
      return;
    }
    var entries := node.credentials.value;
    var rest := entries.Keys;
    while rest != {}
      invariant rest <= entries.Keys
      invariant Agrees(c, cache.entries) && Grown(old(cache.entries), cache.entries, older)
      invariant node.credentials.Some? && Unshared(node.credentials.value, cache.entries)
      invariant Repaired(c, Views(entries), entries, node.credentials.value, rest, older)
      invariant OwnObjects(entries, node.credentials.value)
      decreases |rest|
    {
      var t :| t in rest;
      ghost var was, slots := cache.entries, node.credentials.value;
      ghost var wider := older + Held(slots);
      var replacement := RepairSlot(c, cache, t, entries[t], wider);
      StillUnshared(slots, was, cache.entries, wider);
      GrownTransitive(old(cache.entries), was, cache.entries, older, wider);
      RewriteUnshared(slots, cache.entries, t, replacement);
      SlotTurn(c, entries, slots, rest, older, t, replacement);
      if replacement.Some? {
        node.credentials := Some(node.credentials.value[t := Object(replacement.value)]);
      }
      rest := rest - {t};
    }
  }

  ghost function HeldBy(nodes: seq<WorkflowNode>): set<CredentialDetails>
    reads nodes
  {
    set n, t | n in nodes && n.credentials.Some? && t in n.credentials.value && n.credentials.value[t].Object?
      :: n.credentials.value[t].details
  }

  /** What a node holds, as a value that outlives later writes. */
  datatype Snapshot = Snapshot(disabled: bool, credentials: Option<map<string, Slot>>)

  function Snap(node: WorkflowNode): Snapshot
    reads node
  {
    Snapshot(node.disabled, node.credentials)
  }

  /** The rewriting of one node: nothing for a disabled one, every reference for an enabled one. */
  ghost predicate NodeRepaired(c: Context, before: Snapshot, after: Snapshot, older: set<CredentialDetails>) {
    && after.disabled == before.disabled
    && after.credentials.Some? == before.credentials.Some?
    && (before.credentials.Some? ==>
          Repaired(c, Views(before.credentials.value), before.credentials.value, after.credentials.value,
                   if before.disabled then before.credentials.value.Keys else {}, older)
          && OwnObjects(before.credentials.value, after.credentials.value))
  }

  /**
    Where a repaired node points: every slot that now names a credential it did not name before
    names one found by the old id, or one shared with the project of the workflow.
   */
  lemma RepairedNodeStaysInProject(c: Context, before: Snapshot, after: Snapshot, older: set<CredentialDetails>, t: string)
    requires NodeRepaired(c, before, after, older) && before.credentials.Some? && t in after.credentials.value
    ensures t in before.credentials.value
    ensures var was, now := ViewSlot(before.credentials.value[t]), ViewSlot(after.credentials.value[t]);
            now != was && now.Details? && now.id.Some? ==>
              exists row :: MayPointAt(c, t, was, row) && now == Details(Some(row.id), row.name, false)
  {
    NamesStayInProject(c, t, ViewSlot(before.credentials.value[t]));
  }

  ghost function HeldIn(node: Snapshot): set<CredentialDetails> {
    if node.credentials.Some? then Held(node.credentials.value) else {}
  }

  /** The objects of the slots that were rewritten. */
  ghost function NewIn(before: Snapshot, after: Snapshot): set<CredentialDetails> {
    if before.credentials.None? || after.credentials.None? then {}
    else
      var was, now := before.credentials.value, after.credentials.value;
      set t | t in was && t in now && now[t] != was[t] && now[t].Object? :: now[t].details
  }

  /** What a repair leaves in a node: objects it held before, and new ones, which are no older ones. */
  lemma RepairAddsOnlyNew(c: Context, before: Snapshot, after: Snapshot, older: set<CredentialDetails>)
    requires NodeRepaired(c, before, after, older)
    ensures HeldIn(after) <= HeldIn(before) + NewIn(before, after)
    ensures NewIn(before, after) !! older && NewIn(before, after) <= HeldIn(after)
  {
    if before.credentials.Some? {
      forall t | t in after.credentials.value && after.credentials.value[t].Object?
        ensures after.credentials.value[t].details in HeldIn(before) + NewIn(before, after)
      {
        assert after.credentials.value[t] == before.credentials.value[t]
            || after.credentials.value[t].details in NewIn(before, after);
      }
    }
  }

  /** No rewritten slot of any node shares its object with a slot of another node. */
  ghost predicate Apart(before: seq<Snapshot>, after: seq<Snapshot>)
    requires |before| == |after|
  {
    forall i, j :: 0 <= i < |after| && 0 <= j < |after| && i != j ==> NewIn(before[i], after[i]) !! HeldIn(after[j])
  }

  ghost function Snaps(nodes: seq<WorkflowNode>): (r: seq<Snapshot>)
    reads nodes
    ensures |r| == |nodes|
  {
    seq(|nodes|, i requires 0 <= i < |nodes| reads nodes => Snap(nodes[i]))
  }

  /** Repairing one more node, with nothing that any node holds given out as new. */
  lemma ApartStep(c: Context, first: seq<Snapshot>, before: seq<Snapshot>, k: nat, node: Snapshot,
                  older: set<CredentialDetails>)
    requires |first| == |before| && k < |before| && Apart(first, before) && before[k] == first[k]
    requires NodeRepaired(c, before[k], node, older)
    requires forall i :: 0 <= i < |before| ==> HeldIn(before[i]) <= older
    ensures Apart(first, before[k := node])
  {
    var after := before[k := node];
    RepairAddsOnlyNew(c, before[k], node, older);
    forall i, j | 0 <= i < |after| && 0 <= j < |after| && i != j ensures NewIn(first[i], after[i]) !! HeldIn(after[j]) {
      if j == k {
        assert NewIn(first[i], before[i]) !! HeldIn(before[k]);
        NewIsHeld(first[i], before[i]);
      }
    }
  }

  lemma NewIsHeld(before: Snapshot, after: Snapshot)
    ensures NewIn(before, after) <= HeldIn(after)
  {
  }

  ghost predicate NodeUnshared(node: Snapshot, entries: map<CacheKey, CredentialDetails>) {
    node.credentials.Some? ==> Unshared(node.credentials.value, entries)
  }

  lemma AllHeld(nodes: seq<WorkflowNode>)
    ensures forall i :: 0 <= i < |nodes| ==> HeldIn(Snaps(nodes)[i]) <= HeldBy(nodes)
  {
  }

  /** The state of the outer loop after `k` nodes. */
  ghost predicate RepairedUpTo(c: Context, first: seq<Snapshot>, now: seq<Snapshot>, k: nat,
                               older: set<CredentialDetails>, entries: map<CacheKey, CredentialDetails>)
  {
    && |now| == |first| && k <= |now|
    && (forall i :: k <= i < |now| ==> now[i] == first[i])
    && (forall i :: 0 <= i < k ==> NodeRepaired(c, first[i], now[i], older))
    && (forall i :: 0 <= i < |now| ==> NodeUnshared(now[i], entries))
    && Apart(first, now)
  }

  lemma NothingRepairedYet(c: Context, first: seq<Snapshot>, older: set<CredentialDetails>,
                           entries: map<CacheKey, CredentialDetails>)
    requires forall i :: 0 <= i < |first| ==> NodeUnshared(first[i], entries)
    ensures RepairedUpTo(c, first, first, 0, older, entries)
  {
  }

  /** One turn of the outer loop, given what `RepairNode` promises. */
  lemma NodeTurn(c: Context, first: seq<Snapshot>, before: seq<Snapshot>, k: nat, node: Snapshot,
                 was: map<CacheKey, CredentialDetails>, entries: map<CacheKey, CredentialDetails>,
                 older: set<CredentialDetails>, wider: set<CredentialDetails>)
    requires k < |before| && RepairedUpTo(c, first, before, k, older, was)
    requires NodeRepaired(c, before[k], node, wider) && NodeUnshared(node, entries)
    requires older <= wider && forall i :: 0 <= i < |before| ==> HeldIn(before[i]) <= wider
    requires Grown(was, entries, wider)
    ensures RepairedUpTo(c, first, before[k := node], k + 1, older, entries)
  {
    ApartStep(c, first, before, k, node, wider);
    forall i | 0 <= i < |before| && i != k ensures NodeUnshared(before[i], entries) {
      assert NodeUnshared(before[i], was);
      if before[i].credentials.Some? {
        StillUnshared(before[i].credentials.value, was, entries, wider);
      }
    }
  }

  /** The turn of the outer loop for node `k`. */
  method RepairNext(c: Context, cache: Cache, nodes: seq<WorkflowNode>, k: nat,
                    ghost first: seq<Snapshot>, ghost older: set<CredentialDetails>)
    requires UniqueIds(c) && Agrees(c, cache.entries) && k < |nodes|
    requires forall i, j :: 0 <= i < j < |nodes| ==> nodes[i] != nodes[j]
    requires RepairedUpTo(c, first, Snaps(nodes), k, older, cache.entries)
    modifies cache, nodes[k]
    ensures Agrees(c, cache.entries)
    ensures RepairedUpTo(c, first, Snaps(nodes), k + 1, older, cache.entries)
  {
    ghost var was, wider, snaps := cache.entries, older + HeldBy(nodes), Snaps(nodes);
    AllHeld(nodes);
    assert NodeUnshared(snaps[k], was);
    RepairNode(c, cache, nodes[k], wider);
    assert Snaps(nodes) == snaps[k := Snap(nodes[k])];
    NodeTurn(c, first, snaps, k, Snap(nodes[k]), was, cache.entries, older, wider);
  }

  /**
    Cache transparency.  Started from any agreeing cache, every reference of every enabled node
    ends up as the cache-free resolver has it, disabled nodes stay as they were, no rewritten
    slot shares its object with the cache or with another slot, and the cache agrees again: so
    the result composes over any number of workflows of one project that use the same cache.
   */
  method ReplaceInvalidCredentials(c: Context, nodes: seq<WorkflowNode>, cache: Cache)
    requires UniqueIds(c) && Agrees(c, cache.entries)
    requires forall i, j :: 0 <= i < j < |nodes| ==> nodes[i] != nodes[j]
    requires forall i :: 0 <= i < |nodes| ==> NodeUnshared(Snap(nodes[i]), cache.entries)
    modifies cache, nodes
    ensures Agrees(c, cache.entries)
    ensures var before, after := old(Snaps(nodes)), Snaps(nodes);
            && (forall i :: 0 <= i < |nodes| ==>
                  && NodeRepaired(c, before[i], after[i], old(HeldBy(nodes)))
                  && NodeUnshared(after[i], cache.entries))
            && Apart(before, after)
  {
    ghost var older, first := HeldBy(nodes), Snaps(nodes);
    NothingRepairedYet(c, first, older, cache.entries);
    for k := 0 to |nodes|
      invariant Agrees(c, cache.entries)
      invariant RepairedUpTo(c, first, Snaps(nodes), k, older, cache.entries)
    {
      RepairNext(c, cache, nodes, k, first, older);
    }
  }
}
