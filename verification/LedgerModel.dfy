/**
  The pending-mutation ledger of one entity graph, as a value: what each operation of the
  `EntityRoot` class computes, and the laws those operations keep.
 */
module LedgerModel {
  import opened Outcomes
  import opened Text

  datatype EntityKey = EntityKey(entity: string, id: int)

  /** A plain value, or a relation to an entity object that has no id yet. */
  datatype Value = Int(n: int) | Str(s: string) | Ref(object: nat)

  /** A stored cell: `None` is the program's None, which lookups pass over. */
  type Cell = Option<Value>
  type Fields = map<string, Cell>
  type Changes = map<EntityKey, Fields>

  datatype TraceNode = TraceNode(entityType: string, entityId: Option<int>, comment: string, kind: string, name: string)
  type Chain = seq<TraceNode>

  datatype LedgerError = FieldRequired | VersionConflict | PendingChanges | RootChangeSet | WrongLineage

  datatype Ledger = Ledger(
    layers: seq<Changes>,
    versions: map<EntityKey, int>,
    newKeys: set<EntityKey>,
    deletedKeys: set<EntityKey>,
    traces: map<EntityKey, Chain>)
  {
    /** There is a root layer, no key is listed without a field, and no field name is blank. */
    ghost predicate Valid() {
      && |layers| > 0
      && forall i :: 0 <= i < |layers| ==> ValidLayer(layers[i])
    }
  }

  ghost predicate ValidLayer(layer: Changes) {
    && (forall key :: key in layer ==> layer[key] != map[])
    && (forall key, field :: key in layer && field in layer[key] ==> !Blank(field))
  }

  type Root = l: Ledger | |l.layers| > 0 witness Ledger([map[]], map[], {}, {}, map[])

  const EMPTY := Ledger([map[]], map[], {}, {}, map[])

  /** A map cut down to these keys. */
  function Only<K, V>(m: map<K, V>, keys: set<K>): map<K, V> {
    m - (m.Keys - keys)
  }

  // ----- one layer

  function FieldsOf(layer: Changes, key: EntityKey): Fields {
    if key in layer then layer[key] else map[]
  }

  function SetCell(layer: Changes, key: EntityKey, field: string, cell: Cell): Changes {
    layer[key := FieldsOf(layer, key)[field := cell]]
  }

  function AddFields(layer: Changes, key: EntityKey, fields: Fields): Changes {
    if fields == map[] then layer else layer[key := FieldsOf(layer, key) + fields]
  }

  function ClearLayer(layer: Changes, key: EntityKey): Changes {
    layer - {key}
  }

  function RekeyLayer(layer: Changes, oldKey: EntityKey, newKey: EntityKey): Changes {
    if oldKey in layer then AddFields(layer - {oldKey}, newKey, layer[oldKey]) else layer
  }

  function CellOf(layer: Changes, key: EntityKey, field: string): Cell {
    if key in layer && field in layer[key] then layer[key][field] else None
  }

  // ----- the whole ledger

  function Top(l: Root): Changes {
    l.layers[|l.layers| - 1]
  }

  function WithTop(l: Root, layer: Changes): Root {
    l.(layers := l.layers[..|l.layers| - 1] + [layer])
  }

  function EachLayer(layers: seq<Changes>, f: Changes -> Changes): (r: seq<Changes>)
    ensures |r| == |layers|
    ensures forall i :: 0 <= i < |r| ==> r[i] == f(layers[i])
  {
    seq(|layers|, i requires 0 <= i < |layers| => f(layers[i]))
  }

  function Set(l: Root, key: EntityKey, field: string, cell: Cell): Result<Root, LedgerError> {
    if Blank(field) then Err(FieldRequired) else Ok(WithTop(l, SetCell(Top(l), key, field, cell)))
  }

  /** The value in the topmost layer that has one. */
  function GetFrom(layers: seq<Changes>, key: EntityKey, field: string): Cell {
    if layers == [] then None
    else
      var cell := CellOf(layers[|layers| - 1], key, field);
      if cell.Some? then cell else GetFrom(layers[..|layers| - 1], key, field)
  }

  function Get(l: Ledger, key: EntityKey, field: string): Cell {
    GetFrom(l.layers, key, field)
  }

  function Push(l: Root): Root {
    l.(layers := l.layers + [map[]])
  }

  function Pop(l: Root): Result<(Root, Changes), LedgerError> {
    if |l.layers| == 1 then Err(RootChangeSet)
    else Ok((l.(layers := l.layers[..|l.layers| - 1]), Top(l)))
  }

  function MarkNew(l: Root, key: EntityKey): Root {
    l.(newKeys := l.newKeys + {key})
  }

  function MarkDeleted(l: Root, key: EntityKey): Root {
    l.(layers := EachLayer(l.layers, layer => ClearLayer(layer, key)), deletedKeys := l.deletedKeys + {key})
  }

  function VersionOf(l: Ledger, key: EntityKey): Option<int> {
    if key in l.versions then Some(l.versions[key]) else None
  }

  predicate Conflicts(l: Ledger, key: EntityKey, incoming: Option<int>) {
    incoming.Some? && key in l.versions && incoming.value != l.versions[key]
  }

  function SetOriginalVersion(l: Root, key: EntityKey, version: int): Result<Root, LedgerError> {
    if Conflicts(l, key, Some(version)) then Err(VersionConflict) else Ok(l.(versions := l.versions[key := version]))
  }

  predicate HasPending(l: Ledger, key: EntityKey) {
    key in l.newKeys || key in l.deletedKeys || exists i :: 0 <= i < |l.layers| && key in l.layers[i]
  }

  function AcceptCommitted(l: Root, key: EntityKey, version: int): Result<Root, LedgerError> {
    if HasPending(l, key) then Err(PendingChanges) else Ok(l.(versions := l.versions[key := version]))
  }

  function ClearCommitted(l: Root): Root {
    WithTop(l, map[]).(newKeys := {}, deletedKeys := {}, traces := map[])
  }

  function ClearEntity(l: Root, key: EntityKey): Root {
    Ledger(EachLayer(l.layers, layer => ClearLayer(layer, key)), l.versions,
           l.newKeys - {key}, l.deletedKeys - {key}, l.traces - {key})
  }

  function SetTraceChain(l: Root, key: EntityKey, chain: Chain): Result<Root, LedgerError> {
    if exists node :: node in chain && node.kind != "auditReason" then Err(WrongLineage)
    else Ok(l.(traces := l.traces[key := chain]))
  }

  function TraceChain(l: Ledger, key: EntityKey): Chain {
    if key in l.traces then l.traces[key] else []
  }

  // ----- merging

  /** One key's state in the source: only the top layer's fields travel. */
  datatype Entry = Entry(key: EntityKey, fields: Fields, version: Option<int>, added: bool, removed: bool, trace: Option<Chain>)

  function Snapshot(l: Root, key: EntityKey): Entry {
    Entry(key, FieldsOf(Top(l), key), VersionOf(l, key), key in l.newKeys, key in l.deletedKeys,
          if key in l.traces then Some(l.traces[key]) else None)
  }

  function Import(l: Root, e: Entry): Root {
    var l1 := WithTop(l, AddFields(Top(l), e.key, e.fields));
    var l2 := if e.version.Some? then l1.(versions := l1.versions[e.key := e.version.value]) else l1;
    var l3 := if e.added then MarkNew(l2, e.key) else l2;
    var l4 := if e.removed then MarkDeleted(l3, e.key) else l3;
    if e.trace.Some? then l4.(traces := l4.traces[e.key := e.trace.value]) else l4
  }

  function MergeEntity(target: Root, source: Root, key: EntityKey): Result<Root, LedgerError> {
    if Conflicts(target, key, VersionOf(source, key)) then Err(VersionConflict)
    else Ok(Import(target, Snapshot(source, key)))
  }

  function KeysOf(l: Root): set<EntityKey> {
    l.versions.Keys + l.newKeys + l.deletedKeys + l.traces.Keys + Top(l).Keys
  }

  function ImportAll(target: Root, source: Root, order: seq<EntityKey>): Root {
    if order == [] then target
    else Import(ImportAll(target, source, order[..|order| - 1]), Snapshot(source, order[|order| - 1]))
  }

  ghost predicate NoDuplicates(order: seq<EntityKey>) {
    forall i, j :: 0 <= i < j < |order| ==> order[i] != order[j]
  }

  function Elements(order: seq<EntityKey>): set<EntityKey> {
    set key | key in order
  }

  /** The entries are the snapshots of these keys, in this order. */
  ghost predicate AreSnapshots(entries: seq<Entry>, source: Root, order: seq<EntityKey>) {
    |order| == |entries| && forall i :: 0 <= i < |order| ==> entries[i] == Snapshot(source, order[i])
  }

  predicate AnyConflict(target: Root, source: Root, order: seq<EntityKey>) {
    exists key :: key in order && Conflicts(target, key, VersionOf(source, key))
  }

  /**
    Every key is checked before the first one is copied. `order` is the order the key set happens to be iterated
    in.
   */
  function MergeFrom(target: Root, source: Root, order: seq<EntityKey>): Result<Root, LedgerError> {
    if AnyConflict(target, source, order) then Err(VersionConflict)
    else Ok(ImportAll(target, source, order))
  }

  // ----- rekeying

  predicate Names(node: TraceNode, key: EntityKey) {
    (if node.name != "" then node.name else node.entityType) == key.entity && node.entityId == Some(key.id)
  }

  function RenameNode(node: TraceNode, oldKey: EntityKey, newKey: EntityKey): TraceNode {
    if Names(node, oldKey) then node.(entityId := Some(newKey.id)) else node
  }

  function RenameChain(chain: Chain, oldKey: EntityKey, newKey: EntityKey): (r: Chain)
    ensures |r| == |chain|
    ensures forall i :: 0 <= i < |r| ==> r[i] == RenameNode(chain[i], oldKey, newKey)
  {
    seq(|chain|, i requires 0 <= i < |chain| => RenameNode(chain[i], oldKey, newKey))
  }

  function MoveEntry<T>(m: map<EntityKey, T>, oldKey: EntityKey, newKey: EntityKey): map<EntityKey, T> {
    if oldKey in m then (m - {oldKey})[newKey := m[oldKey]] else m
  }

  function MoveMember(s: set<EntityKey>, oldKey: EntityKey, newKey: EntityKey): set<EntityKey> {
    if oldKey in s then s - {oldKey} + {newKey} else s
  }

  function RekeyTraces(traces: map<EntityKey, Chain>, oldKey: EntityKey, newKey: EntityKey): map<EntityKey, Chain> {
    var moved := MoveEntry(traces, oldKey, newKey);
    map key | key in moved :: RenameChain(moved[key], oldKey, newKey)
  }

  function Rekeyed(l: Root, oldKey: EntityKey, newKey: EntityKey): Root {
    Ledger(
      EachLayer(l.layers, layer => RekeyLayer(layer, oldKey, newKey)),
      MoveEntry(l.versions, oldKey, newKey),
      MoveMember(l.newKeys, oldKey, newKey),
      MoveMember(l.deletedKeys, oldKey, newKey),
      RekeyTraces(l.traces, oldKey, newKey))
  }

  function Rekey(l: Root, oldKey: EntityKey, newKey: EntityKey): Result<Root, LedgerError> {
    if oldKey == newKey then Ok(l)
    else if Conflicts(l, newKey, VersionOf(l, oldKey)) then Err(VersionConflict)
    else Ok(Rekeyed(l, oldKey, newKey))
  }
}
