/**
  Each ledger operation told by what it leaves in the layers, versions, marks and lineages, one by one, and nothing
  else: the reference that the operations and their combinations are proved to meet.
 */
module LedgerEffects {
  import opened Outcomes
  import opened LedgerModel
  import opened LedgerLaws
  import opened TextLaws
  import opened VersionLaws

  type Answer = Result<Root, LedgerError>

  // ----- the vocabulary

  /** The fields listed for a key in a layer. */
  function Listed(layer: Changes, key: EntityKey): Fields {
    if key in layer then layer[key] else map[]
  }

  /** Only the top layer may differ. */
  ghost predicate OnlyTopDiffers(l: Ledger, r: Ledger) {
    && |r.layers| == |l.layers| && l.layers != []
    && forall i :: 0 <= i < |l.layers| - 1 ==> r.layers[i] == l.layers[i]
  }

  /** Both ledgers list the same fields everywhere, but nothing for these keys in the second. */
  ghost predicate Without(l: Ledger, r: Ledger, keys: set<EntityKey>) {
    && |r.layers| == |l.layers|
    && forall i :: 0 <= i < |l.layers| ==>
         forall key :: (key in r.layers[i] <==> key in l.layers[i] && key !in keys)
                       && (key in r.layers[i] ==> r.layers[i][key] == l.layers[i][key])
  }

  ghost predicate Differ(l: Ledger, key: EntityKey, version: int) {
    key in l.versions && l.versions[key] != version
  }

  ghost predicate SomethingPending(l: Ledger, key: EntityKey) {
    key in l.newKeys || key in l.deletedKeys || exists layer :: layer in l.layers && key in layer
  }

  // ----- single changes

  /** `set`: one cell of the top layer, and no other. */
  ghost predicate IsSet(l: Root, key: EntityKey, field: string, cell: Cell, r: Answer) {
    if OnlyStripped(field) then r == Err(FieldRequired)
    else
      && r.Ok? && OnlyTopDiffers(l, r.value)
      && r.value == l.(layers := r.value.layers)
      && (forall k, f :: f in Listed(Top(r.value), k) <==> f in Listed(Top(l), k) || (k == key && f == field))
      && (forall k, f :: f in Listed(Top(r.value), k) ==>
            Listed(Top(r.value), k)[f] == if k == key && f == field then cell else Listed(Top(l), k)[f])
  }

  lemma {:induction false} SetIs(l: Root, key: EntityKey, field: string, cell: Cell)
    ensures IsSet(l, key, field, cell, Set(l, key, field, cell))
  {
    BlankIs(field);
  }

  ghost predicate IsPop(l: Root, r: Result<(Root, Changes), LedgerError>) {
    if |l.layers| == 1 then r == Err(RootChangeSet)
    else r.Ok? && l == r.value.0.(layers := r.value.0.layers + [r.value.1])
  }

  lemma {:induction false} PopIs(l: Root)
    ensures IsPop(l, Pop(l))
  {
  }

  /** `mark_as_deleted`: everything listed for the key goes, in every layer. */
  ghost predicate IsMarkedDeleted(l: Root, key: EntityKey, r: Root) {
    && Without(l, r, {key}) && r == l.(layers := r.layers, deletedKeys := r.deletedKeys)
    && r.deletedKeys == l.deletedKeys + {key}
  }

  lemma {:induction false} MarkDeletedIs(l: Root, key: EntityKey)
    ensures IsMarkedDeleted(l, key, MarkDeleted(l, key))
  {
  }

  lemma {:induction false} MarkNewIs(l: Root, key: EntityKey)
    ensures var r := MarkNew(l, key);
      r == l.(newKeys := r.newKeys) && forall k :: k in r.newKeys <==> k in l.newKeys || k == key
  {
  }

  // ----- versions

  /** `set_original_version`: recorded, unless another one is. */
  ghost predicate IsVersionSet(l: Root, key: EntityKey, version: int, r: Answer) {
    if Differ(l, key, version) then r == Err(VersionConflict)
    else r.Ok? && r.value == l.(versions := r.value.versions) && r.value.versions == l.versions[key := version]
  }

  lemma {:induction false} SetOriginalVersionIs(l: Root, key: EntityKey, version: int)
    ensures IsVersionSet(l, key, version, SetOriginalVersion(l, key, version))
  {
  }

  /** `accept_committed_version`: recorded over whatever is, unless something is pending. */
  ghost predicate IsVersionAccepted(l: Root, key: EntityKey, version: int, r: Answer) {
    if SomethingPending(l, key) then r == Err(PendingChanges)
    else r.Ok? && r.value == l.(versions := r.value.versions) && r.value.versions == l.versions[key := version]
  }

  lemma {:induction false} PendingIs(l: Root, key: EntityKey)
    ensures HasPending(l, key) <==> SomethingPending(l, key)
  {
    if i :| 0 <= i < |l.layers| && key in l.layers[i] {
      assert l.layers[i] in l.layers;
    }
  }

  lemma {:induction false} AcceptCommittedIs(l: Root, key: EntityKey, version: int)
    ensures IsVersionAccepted(l, key, version, AcceptCommitted(l, key, version))
  {
    PendingIs(l, key);
  }

  // ----- clearing

  /** `clear_committed`: the top layer, all marks and all lineages go; versions and lower layers stay. */
  ghost predicate IsAllCleared(l: Root, r: Root) {
    && OnlyTopDiffers(l, r) && Top(r) == map[]
    && r.newKeys == {} && r.deletedKeys == {} && r.traces == map[] && r.versions == l.versions
  }

  lemma {:induction false} ClearCommittedIs(l: Root)
    ensures IsAllCleared(l, ClearCommitted(l))
  {
  }

  /** `clear_entity`: everything of the key goes but its version; of other keys nothing. */
  ghost predicate IsEntityCleared(l: Root, key: EntityKey, r: Root) {
    && Without(l, r, {key}) && r.versions == l.versions
    && (forall k :: k in r.newKeys <==> k in l.newKeys && k != key)
    && (forall k :: k in r.deletedKeys <==> k in l.deletedKeys && k != key)
    && (forall k :: k in r.traces <==> k in l.traces && k != key)
    && (forall k :: k in r.traces ==> r.traces[k] == l.traces[k])
  }

  lemma {:induction false} ClearEntityIs(l: Root, key: EntityKey)
    ensures IsEntityCleared(l, key, ClearEntity(l, key))
  {
  }

  // ----- lineages

  /** `set_trace_chain`: replaces the key's lineage, which must be of audit reasons. */
  ghost predicate IsTraceSet(l: Root, key: EntityKey, chain: Chain, r: Answer) {
    if exists i :: 0 <= i < |chain| && chain[i].kind != "auditReason" then r == Err(WrongLineage)
    else r.Ok? && r.value == l.(traces := r.value.traces) && r.value.traces == l.traces[key := chain]
  }

  lemma {:induction false} SetTraceChainIs(l: Root, key: EntityKey, chain: Chain)
    ensures IsTraceSet(l, key, chain, SetTraceChain(l, key, chain))
    ensures TraceChain(l, key) == if key in l.traces then l.traces[key] else []
  {
    if i :| 0 <= i < |chain| && chain[i].kind != "auditReason" {
      assert chain[i] in chain;
    }
  }

  // ----- merging

  /** Some key has different versions recorded in the two ledgers. */
  ghost predicate VersionsClash(target: Ledger, source: Ledger) {
    exists key :: key in target.versions && key in source.versions && target.versions[key] != source.versions[key]
  }

  /**
    Everything the source has is laid over the target: versions, lineages and marks, and the fields of its top
    layer; what the source deleted is listed nowhere any more. Nothing else changes.
   */
  ghost predicate IsOverlay(target: Root, source: Root, r: Root) {
    && r.versions == target.versions + source.versions && r.traces == target.traces + source.traces
    && r.newKeys == target.newKeys + source.newKeys && r.deletedKeys == target.deletedKeys + source.deletedKeys
    && |r.layers| == |target.layers|
    && (forall i :: 0 <= i < |target.layers| - 1 ==> r.layers[i] == target.layers[i] - source.deletedKeys)
    && (forall key :: key in Top(r) <==> (key in Top(target) || key in Top(source)) && key !in source.deletedKeys)
    && (forall key :: key in Top(r) ==> Top(r)[key] == Listed(Top(target), key) + Listed(Top(source), key))
  }

  /** A merge is refused exactly when versions clash, and otherwise brings everything. */
  ghost predicate IsMerge(target: Root, source: Root, r: Answer) {
    if VersionsClash(target, source) then r == Err(VersionConflict) else r.Ok? && IsOverlay(target, source, r.value)
  }

  lemma {:induction false} MergedIsOverlay(target: Root, source: Root)
    ensures IsOverlay(target, source, Merged(target, source, KeysOf(source)))
  {
    MergedMaps(target, source);
    MergedLayersAre(target, source, KeysOf(source));
    assert KeysOf(source) * source.deletedKeys == source.deletedKeys;
    MergedTop(Top(target), Top(source), KeysOf(source), source.deletedKeys);
  }

  lemma {:induction false} AllOfThem<T>(m: map<EntityKey, T>, keys: set<EntityKey>)
    requires m.Keys <= keys
    ensures Only(m, keys) == m
  {
  }

  lemma {:induction false} MergedMaps(target: Root, source: Root)
    ensures var r := Merged(target, source, KeysOf(source));
      && r.versions == target.versions + source.versions && r.traces == target.traces + source.traces
      && r.newKeys == target.newKeys + source.newKeys && r.deletedKeys == target.deletedKeys + source.deletedKeys
  {
    var keys := KeysOf(source);
    AllOfThem(source.versions, keys);
    AllOfThem(source.traces, keys);
    assert keys * source.deletedKeys == source.deletedKeys && keys * source.newKeys == source.newKeys;
  }

  lemma {:induction false} MergedTop(target: Changes, source: Changes, keys: set<EntityKey>, gone: set<EntityKey>)
    requires source.Keys <= keys
    ensures var r := MergedLayer(target, source, keys, gone);
      && (forall key :: key in r <==> (key in target || key in source) && key !in gone)
      && (forall key :: key in r ==> r[key] == Listed(target, key) + Listed(source, key))
  {
    var r := MergedLayer(target, source, keys, gone);
    forall key | key in r
      ensures r[key] == Listed(target, key) + Listed(source, key)
    {
      assert key !in keys ==> Listed(target, key) + map[] == Listed(target, key);
    }
  }

  lemma {:induction false} ConflictsAre(target: Root, source: Root, order: seq<EntityKey>)
    requires Elements(order) == KeysOf(source)
    ensures AnyConflict(target, source, order) <==> VersionsClash(target, source)
  {
    if key :| key in target.versions && key in source.versions && target.versions[key] != source.versions[key] {
      assert key in KeysOf(source) && key in Elements(order);
      assert key in order && Conflicts(target, key, VersionOf(source, key));
    }
  }

  lemma {:induction false} MergeFromIs(target: Root, source: Root, order: seq<EntityKey>)
    requires NoDuplicates(order) && Elements(order) == KeysOf(source) && source.Valid()
    ensures IsMerge(target, source, MergeFrom(target, source, order))
  {
    ConflictsAre(target, source, order);
    if !AnyConflict(target, source, order) {
      ImportAllIsMerged(target, source, order);
      MergedIsOverlay(target, source);
    }
  }

  /** The source as far as one key is concerned. */
  function OneKey(source: Root, key: EntityKey): Root {
    Ledger([if key in Top(source) then map[key := Top(source)[key]] else map[]],
           if key in source.versions then map[key := source.versions[key]] else map[],
           if key in source.newKeys then {key} else {}, if key in source.deletedKeys then {key} else {},
           if key in source.traces then map[key := source.traces[key]] else map[])
  }

  lemma {:induction false} ImportedTop(target: Root, source: Root, key: EntityKey, k: EntityKey)
    requires source.Valid()
    ensures var top, one, r := Top(target), OneKey(source, key), Top(Import(target, Snapshot(source, key)));
      && (k in r <==> (k in top || k in Top(one)) && k !in one.deletedKeys)
      && (k in r ==> r[k] == Listed(top, k) + Listed(Top(one), k))
  {
    ImportLayers(target, source, key);
    assert key in Top(source) ==> Top(source)[key] != map[];
    assert Listed(Top(target), k) + map[] == Listed(Top(target), k);
  }

  lemma {:induction false} ImportedBelow(target: Root, source: Root, key: EntityKey)
    ensures var one, r := OneKey(source, key), Import(target, Snapshot(source, key));
      && |r.layers| == |target.layers|
      && forall i :: 0 <= i < |target.layers| - 1 ==> r.layers[i] == target.layers[i] - one.deletedKeys
  {
    ImportLayers(target, source, key);
  }

  lemma {:induction false} OneOverlaid<T>(m: map<EntityKey, T>, source: map<EntityKey, T>, key: EntityKey)
    ensures (if key in source then m[key := source[key]] else m)
         == m + if key in source then map[key := source[key]] else map[]
  {
  }

  lemma {:induction false} OneAdded(s: set<EntityKey>, source: set<EntityKey>, key: EntityKey)
    ensures (if key in source then s + {key} else s) == s + if key in source then {key} else {}
  {
  }

  lemma {:induction false} ImportedMaps(target: Root, source: Root, key: EntityKey)
    ensures var one, r := OneKey(source, key), Import(target, Snapshot(source, key));
      && r.versions == target.versions + one.versions && r.traces == target.traces + one.traces
      && r.newKeys == target.newKeys + one.newKeys && r.deletedKeys == target.deletedKeys + one.deletedKeys
  {
    ImportParts(target, source, key);
    OneOverlaid(target.versions, source.versions, key);
    OneOverlaid(target.traces, source.traces, key);
    OneAdded(target.newKeys, source.newKeys, key);
    OneAdded(target.deletedKeys, source.deletedKeys, key);
  }

  lemma {:induction false} ImportIsOverlay(target: Root, source: Root, key: EntityKey)
    requires source.Valid()
    ensures IsOverlay(target, OneKey(source, key), Import(target, Snapshot(source, key)))
  {
    var top, one, r := Top(target), OneKey(source, key), Import(target, Snapshot(source, key));
    ImportedMaps(target, source, key);
    ImportedBelow(target, source, key);
    forall k
      ensures k in Top(r) <==> (k in top || k in Top(one)) && k !in one.deletedKeys
      ensures k in Top(r) ==> Top(r)[k] == Listed(top, k) + Listed(Top(one), k)
    {
      ImportedTop(target, source, key, k);
    }
  }

  /** `merge_entity_from` merges that part of the source. */
  lemma {:induction false} MergeEntityIs(target: Root, source: Root, key: EntityKey)
    requires source.Valid()
    ensures IsMerge(target, OneKey(source, key), MergeEntity(target, source, key))
  {
    ImportIsOverlay(target, source, key);
    if Conflicts(target, key, VersionOf(source, key)) {
      assert key in target.versions && key in OneKey(source, key).versions;
    }
  }

  // ----- rekeying

  /** A node that is about the old key gets the new number; the name goes before the type. */
  function Renamed(node: TraceNode, oldKey: EntityKey, newKey: EntityKey): TraceNode {
    var about := if node.name == "" then node.entityType else node.name;
    if about == oldKey.entity && node.entityId == Some(oldKey.id) then
      TraceNode(node.entityType, Some(newKey.id), node.comment, node.kind, node.name)
    else node
  }

  ghost predicate IsRenamed(chain: Chain, oldKey: EntityKey, newKey: EntityKey, r: Chain) {
    |r| == |chain| && forall i :: 0 <= i < |chain| ==> r[i] == Renamed(chain[i], oldKey, newKey)
  }

  /** Where a key's entries come from after the move. */
  function CameFrom(key: EntityKey, oldKey: EntityKey, newKey: EntityKey, has: bool): EntityKey {
    if key == newKey && has then oldKey else key
  }

  ghost predicate IsMovedSet(s: set<EntityKey>, oldKey: EntityKey, newKey: EntityKey, r: set<EntityKey>) {
    forall key :: key in r <==> (key in s && key != oldKey) || (key == newKey && oldKey in s)
  }

  ghost predicate IsMovedMap<T(!new)>(m: map<EntityKey, T>, oldKey: EntityKey, newKey: EntityKey, r: map<EntityKey, T>) {
    && IsMovedSet(m.Keys, oldKey, newKey, r.Keys)
    && forall key :: key in r ==> CameFrom(key, oldKey, newKey, oldKey in m) in m
                                  && r[key] == m[CameFrom(key, oldKey, newKey, oldKey in m)]
  }

  /** In one layer the moved fields win over those that are there. */
  ghost predicate IsMovedLayer(layer: Changes, oldKey: EntityKey, newKey: EntityKey, r: Changes) {
    && IsMovedSet(layer.Keys, oldKey, newKey, r.Keys)
    && forall key :: key in r ==>
         r[key] == if key == newKey then Listed(layer, newKey) + Listed(layer, oldKey) else layer[key]
  }

  /**
    `rekey`: refused when both keys have versions recorded that differ; else every layer, the version, the marks
    and the lineage move, and every lineage node about the old key gets the new number.
   */
  ghost predicate IsRekeyed(l: Root, oldKey: EntityKey, newKey: EntityKey, r: Answer) {
    if oldKey == newKey then r == Ok(l)
    else if oldKey in l.versions && Differ(l, newKey, l.versions[oldKey]) then r == Err(VersionConflict)
    else
      && r.Ok? && |r.value.layers| == |l.layers|
      && (forall i :: 0 <= i < |l.layers| ==> IsMovedLayer(l.layers[i], oldKey, newKey, r.value.layers[i]))
      && IsMovedMap(l.versions, oldKey, newKey, r.value.versions)
      && IsMovedSet(l.newKeys, oldKey, newKey, r.value.newKeys)
      && IsMovedSet(l.deletedKeys, oldKey, newKey, r.value.deletedKeys)
      && IsMovedSet(l.traces.Keys, oldKey, newKey, r.value.traces.Keys)
      && (forall key :: key in r.value.traces ==>
            CameFrom(key, oldKey, newKey, oldKey in l.traces) in l.traces
            && IsRenamed(l.traces[CameFrom(key, oldKey, newKey, oldKey in l.traces)], oldKey, newKey, r.value.traces[key]))
  }

  lemma {:induction false} LayerIsMoved(layer: Changes, oldKey: EntityKey, newKey: EntityKey)
    requires ValidLayer(layer) && oldKey != newKey
    ensures IsMovedLayer(layer, oldKey, newKey, RekeyLayer(layer, oldKey, newKey))
  {
    var r := RekeyLayer(layer, oldKey, newKey);
    assert Listed(layer, newKey) + map[] == Listed(layer, newKey);
    if oldKey in layer {
      assert layer[oldKey] != map[];
      assert FieldsOf(layer - {oldKey}, newKey) == Listed(layer, newKey);
    }
  }

  lemma {:induction false} TracesAreMoved(traces: map<EntityKey, Chain>, oldKey: EntityKey, newKey: EntityKey)
    requires oldKey != newKey
    ensures var r := RekeyTraces(traces, oldKey, newKey);
      && IsMovedSet(traces.Keys, oldKey, newKey, r.Keys)
      && forall key :: key in r ==>
           CameFrom(key, oldKey, newKey, oldKey in traces) in traces
           && IsRenamed(traces[CameFrom(key, oldKey, newKey, oldKey in traces)], oldKey, newKey, r[key])
  {
  }

  lemma {:induction false} RekeyIs(l: Root, oldKey: EntityKey, newKey: EntityKey)
    requires l.Valid()
    ensures IsRekeyed(l, oldKey, newKey, Rekey(l, oldKey, newKey))
  {
    if oldKey != newKey && !Conflicts(l, newKey, VersionOf(l, oldKey)) {
      var r := Rekeyed(l, oldKey, newKey);
      forall i | 0 <= i < |l.layers|
        ensures IsMovedLayer(l.layers[i], oldKey, newKey, r.layers[i])
      {
        LayerIsMoved(l.layers[i], oldKey, newKey);
      }
      TracesAreMoved(l.traces, oldKey, newKey);
    }
  }

  // ----- every operation

  /** What an operation may answer on a ledger. */
  ghost predicate Effect(l: Root, op: Operation, r: Answer) {
    match op
    case SetField(key, field, cell) => IsSet(l, key, field, cell, r)
    case PushChangeSet => r.Ok? && r.value == l.(layers := l.layers + [map[]])
    case PopChangeSet =>
      if |l.layers| == 1 then r == Err(RootChangeSet)
      else r.Ok? && exists layer :: l == r.value.(layers := r.value.layers + [layer])
    case MarkAsNew(key) =>
      r.Ok? && r.value == l.(newKeys := r.value.newKeys) && forall k :: k in r.value.newKeys <==> k in l.newKeys || k == key
    case MarkAsDeleted(key) => r.Ok? && IsMarkedDeleted(l, key, r.value)
    case RecordVersion(key, version) => IsVersionSet(l, key, version, r)
    case AcceptVersion(key, version) => IsVersionAccepted(l, key, version, r)
    case ClearAllCommitted => r.Ok? && IsAllCleared(l, r.value)
    case MergeAll(source, _) => IsMerge(l, source, r)
    case MergeOne(source, key) => IsMerge(l, OneKey(source, key), r)
    case Move(key, newKey) => IsRekeyed(l, key, newKey, r)
    case Clear(key) => r.Ok? && IsEntityCleared(l, key, r.value)
    case SetTrace(key, chain) => IsTraceSet(l, key, chain, r)
  }

  /** A merge runs through the source's keys, in some order. */
  ghost predicate RunsThroughSource(op: Operation) {
    op.MergeAll? ==> NoDuplicates(op.order) && Elements(op.order) == KeysOf(op.source)
  }

  /** Every operation, on every valid ledger, has its effect and no other. */
  lemma {:induction false} OperationsHaveTheirEffects(l: Root, op: Operation)
    requires l.Valid() && SourceValid(op) && RunsThroughSource(op)
    ensures Effect(l, op, Perform(l, op))
  {
    match op
    case SetField(key, field, cell) => SetIs(l, key, field, cell);
    case PopChangeSet => PopIs(l);
    case MarkAsNew(key) => MarkNewIs(l, key);
    case MarkAsDeleted(key) => MarkDeletedIs(l, key);
    case RecordVersion(key, version) => SetOriginalVersionIs(l, key, version);
    case AcceptVersion(key, version) => AcceptCommittedIs(l, key, version);
    case ClearAllCommitted => ClearCommittedIs(l);
    case MergeAll(source, order) => MergeFromIs(l, source, order);
    case MergeOne(source, key) => MergeEntityIs(l, source, key);
    case Move(key, newKey) => RekeyIs(l, key, newKey);
    case Clear(key) => ClearEntityIs(l, key);
    case SetTrace(key, chain) => SetTraceChainIs(l, key, chain);
    case PushChangeSet =>
  }
}
