/** The ledger objects: change sets and the root that layers them, updated in place. */
module EntityRoot {
  import opened Outcomes
  import opened Text
  import opened LedgerModel
  import opened LedgerEffects

  /** Final pending field values grouped by entity key. */
  class EntityChangeSet {
    var changes: Changes

    constructor ()
      ensures changes == map[]
    {
      changes := map[];
    }

    method Set(key: EntityKey, field: string, cell: Cell) returns (raised: Option<LedgerError>)
      modifies this
      ensures raised == if Blank(field) then Some(FieldRequired) else None
      ensures changes == if Blank(field) then old(changes) else SetCell(old(changes), key, field, cell)
    {
      if Blank(field) {
        return Some(FieldRequired);
      }
      if key !in changes {
        changes := changes[key := map[]];
      }
      changes := changes[key := changes[key][field := cell]];
      raised := None;
    }

    function Get(key: EntityKey, field: string): Cell
      reads this
    {
      CellOf(changes, key, field)
    }

    method ClearEntity(key: EntityKey)
      modifies this
      ensures changes == ClearLayer(old(changes), key)
    {
      changes := changes - {key};
    }

    method Rekey(oldKey: EntityKey, newKey: EntityKey)
      modifies this
      ensures changes == RekeyLayer(old(changes), oldKey, newKey)
    {
      if oldKey in changes {
        var values := changes[oldKey];
        changes := changes - {oldKey};
        if values != map[] {
          if newKey !in changes {
            changes := changes[newKey := map[]];
          }
          changes := changes[newKey := changes[newKey] + values];
        }
      }
    }

    /** Writes another change set's fields, one `set` after the other. */
    method AddAll(key: EntityKey, values: Fields)
      requires forall field :: field in values ==> !Blank(field)
      modifies this
      ensures changes == AddFields(old(changes), key, values)
    {
      var remaining := values.Keys;
      ghost var done: set<string> := {};
      while remaining != {}
        invariant remaining + done == values.Keys && remaining !! done
        invariant changes == AddFields(old(changes), key, Only(values, done))
        decreases remaining
      {
        var field :| field in remaining;
        OneMoreField(old(changes), key, values, done, field);
        var raised := Set(key, field, values[field]);
        remaining := remaining - {field};
        done := done + {field};
      }
      assert values == Only(values, done);
    }
  }

  lemma {:induction false} OneMoreField(layer: Changes, key: EntityKey, values: Fields, done: set<string>,
      field: string)
    requires done <= values.Keys && field in values
    ensures var before, after := Only(values, done), Only(values, done + {field});
      SetCell(AddFields(layer, key, before), key, field, values[field]) == AddFields(layer, key, after)
  {
    var before, after := Only(values, done), Only(values, done + {field});
    assert after == before[field := values[field]];
    assert field in after;
    assert FieldsOf(layer, key) + after == (FieldsOf(layer, key) + before)[field := values[field]];
    if before == map[] {
      assert FieldsOf(layer, key) + before == FieldsOf(layer, key);
    }
  }

  /** Shared pending mutation ledger for one generated entity graph. */
  class EntityRoot {
    var changeSets: seq<EntityChangeSet>
    var originalVersions: map<EntityKey, int>
    var newKeys: set<EntityKey>
    var deletedKeys: set<EntityKey>
    var traceChains: map<EntityKey, Chain>

    /** At least one layer, and no object serves as two layers. */
    ghost predicate Valid()
      reads this
    {
      && |changeSets| > 0
      && forall i, j :: 0 <= i < j < |changeSets| ==> changeSets[i] != changeSets[j]
    }

    /** The ledger these objects stand for. */
    ghost function Model(): (l: Root)
      requires Valid()
      reads this, changeSets
      ensures |l.layers| == |changeSets|
    {
      Ledger(LayersOf(changeSets), originalVersions, newKeys, deletedKeys, traceChains)
    }

    constructor ()
      ensures Valid() && Model() == EMPTY
      ensures fresh(changeSets)
    {
      var root := new EntityChangeSet();
      changeSets := [root];
      originalVersions := map[];
      newKeys := {};
      deletedKeys := {};
      traceChains := map[];
      new;
      assert LayersOf(changeSets) == [map[]];
    }

    method SetTraceChain(key: EntityKey, chain: Chain) returns (raised: Option<LedgerError>)
      requires Valid()
      modifies this
      ensures Valid() && changeSets == old(changeSets)
      ensures Outcome(raised, Model(), old(Model()), LedgerModel.SetTraceChain(old(Model()), key, chain))
    {
      var i := 0;
      while i < |chain|
        invariant 0 <= i <= |chain|
        invariant forall j :: 0 <= j < i ==> chain[j].kind == "auditReason"
      {
        if chain[i].kind != "auditReason" {
          assert chain[i] in chain;
          return Some(WrongLineage);
        }
        i := i + 1;
      }
      traceChains := traceChains[key := chain];
      raised := None;
    }

    method PushChangeSet()
      requires Valid()
      modifies this
      ensures Valid() && Model() == Push(old(Model()))
      ensures old(changeSets) < changeSets && fresh(changeSets[|changeSets| - 1])
    {
      var layer := new EntityChangeSet();
      changeSets := changeSets + [layer];
      assert LayersOf(changeSets) == old(LayersOf(changeSets)) + [map[]];
    }

    /** Hands the removed layer to the caller. */
    method PopChangeSet() returns (popped: Result<EntityChangeSet, LedgerError>)
      requires Valid()
      modifies this
      ensures Valid()
      ensures var r := Pop(old(Model()));
        if r.Ok? then
          popped.Ok? && Model() == r.value.0 && popped.value.changes == r.value.1
          && popped.value == old(changeSets)[|old(changeSets)| - 1] && popped.value !in changeSets
        else popped == Err(r.error) && Model() == old(Model())
    {
      if |changeSets| == 1 {
        return Err(RootChangeSet);
      }
      var last := changeSets[|changeSets| - 1];
      changeSets := changeSets[..|changeSets| - 1];
      popped := Ok(last);
      assert LayersOf(changeSets) == old(Model()).layers[..|changeSets|];
    }

    method Set(key: EntityKey, field: string, cell: Cell) returns (raised: Option<LedgerError>)
      requires Valid()
      modifies changeSets
      ensures Valid()
      ensures Outcome(raised, Model(), old(Model()), LedgerModel.Set(old(Model()), key, field, cell))
    {
      var top := changeSets[|changeSets| - 1];
      raised := top.Set(key, field, cell);
      assert raised.None? ==> Model() == LedgerModel.Set(old(Model()), key, field, cell).value;
      assert raised.Some? ==> Model() == old(Model());
    }

    method Get(key: EntityKey, field: string) returns (value: Cell)
      requires Valid()
      ensures value == LedgerModel.Get(Model(), key, field)
    {
      var i := |changeSets|;
      assert Model().layers[..i] == Model().layers;
      while i > 0
        invariant 0 <= i <= |changeSets|
        invariant GetFrom(Model().layers, key, field) == GetFrom(Model().layers[..i], key, field)
      {
        assert Model().layers[..i][..i - 1] == Model().layers[..i - 1];
        value := changeSets[i - 1].Get(key, field);
        if value.Some? {
          return;
        }
        i := i - 1;
      }
      value := None;
    }

    method MarkAsNew(key: EntityKey)
      requires Valid()
      modifies this
      ensures Valid() && changeSets == old(changeSets) && Model() == MarkNew(old(Model()), key)
    {
      newKeys := newKeys + {key};
    }

    method ClearLayers(key: EntityKey)
      requires Valid()
      modifies changeSets
      ensures Valid() && Model() == old(Model()).(layers := EachLayer(old(Model()).layers, layer => ClearLayer(layer, key)))
    {
      for i := 0 to |changeSets|
        invariant forall j :: 0 <= j < i ==> changeSets[j].changes == ClearLayer(old(changeSets[j].changes), key)
        invariant forall j :: i <= j < |changeSets| ==> changeSets[j].changes == old(changeSets[j].changes)
      {
        changeSets[i].ClearEntity(key);
      }
    }

    method MarkAsDeleted(key: EntityKey)
      requires Valid()
      modifies this, changeSets
      ensures Valid() && changeSets == old(changeSets) && Model() == MarkDeleted(old(Model()), key)
    {
      ClearLayers(key);
      deletedKeys := deletedKeys + {key};
    }

    method SetOriginalVersion(key: EntityKey, version: int) returns (raised: Option<LedgerError>)
      requires Valid()
      modifies this
      ensures Valid() && changeSets == old(changeSets)
      ensures Outcome(raised, Model(), old(Model()), LedgerModel.SetOriginalVersion(old(Model()), key, version))
    {
      if key in originalVersions && version != originalVersions[key] {
        return Some(VersionConflict);
      }
      originalVersions := originalVersions[key := version];
      raised := None;
    }

    method HasPending(key: EntityKey) returns (pending: bool)
      requires Valid()
      ensures pending == LedgerModel.HasPending(Model(), key)
    {
      if key in newKeys || key in deletedKeys {
        return true;
      }
      for i := 0 to |changeSets|
        invariant forall j :: 0 <= j < i ==> key !in Model().layers[j]
      {
        if key in changeSets[i].changes {
          assert key in Model().layers[i];
          return true;
        }
      }
      pending := false;
    }

    method AcceptCommittedVersion(key: EntityKey, version: int) returns (raised: Option<LedgerError>)
      requires Valid()
      modifies this
      ensures Valid() && changeSets == old(changeSets)
      ensures Outcome(raised, Model(), old(Model()), AcceptCommitted(old(Model()), key, version))
    {
      var pending := HasPending(key);
      if pending {
        return Some(PendingChanges);
      }
      originalVersions := originalVersions[key := version];
      raised := None;
    }

    /** Replaces the top layer by a new, empty one. */
    method ClearCommitted()
      requires Valid()
      modifies this
      ensures Valid() && Model() == LedgerModel.ClearCommitted(old(Model()))
      ensures |changeSets| == |old(changeSets)| && fresh(changeSets[|changeSets| - 1])
    {
      var layer := new EntityChangeSet();
      changeSets := changeSets[..|changeSets| - 1] + [layer];
      newKeys := {};
      deletedKeys := {};
      traceChains := map[];
      assert LayersOf(changeSets) == LedgerModel.ClearCommitted(old(Model())).layers;
    }

    method Import(e: Entry)
      requires Valid() && forall field :: field in e.fields ==> !Blank(field)
      modifies this, changeSets
      ensures Valid() && changeSets == old(changeSets) && Model() == LedgerModel.Import(old(Model()), e)
    {
      ImportFields(e);
      ImportState(e);
      if e.removed {
        MarkAsDeleted(e.key);
      }
      ImportTrace(e);
    }

    method ImportTrace(e: Entry)
      requires Valid()
      modifies this`traceChains
      ensures Valid()
      ensures Model() == if e.trace.Some? then old(Model()).(traces := old(Model()).traces[e.key := e.trace.value]) else old(Model())
    {
      if e.trace.Some? {
        traceChains := traceChains[e.key := e.trace.value];
      }
    }

    method ImportState(e: Entry)
      requires Valid()
      modifies this
      ensures Valid() && changeSets == old(changeSets)
      ensures Model() == old(Model()).(
        versions := if e.version.Some? then old(Model()).versions[e.key := e.version.value] else old(Model()).versions,
        newKeys := if e.added then old(Model()).newKeys + {e.key} else old(Model()).newKeys)
    {
      if e.version.Some? {
        originalVersions := originalVersions[e.key := e.version.value];
      }
      if e.added {
        newKeys := newKeys + {e.key};
      }
    }

    method ImportFields(e: Entry)
      requires Valid() && forall field :: field in e.fields ==> !Blank(field)
      modifies changeSets
      ensures Valid() && Model() == WithTop(old(Model()), AddFields(Top(old(Model())), e.key, e.fields))
    {
      var top := changeSets[|changeSets| - 1];
      top.AddAll(e.key, e.fields);
      assert LayersOf(changeSets) == WithTop(old(Model()), AddFields(Top(old(Model())), e.key, e.fields)).layers;
    }

    /** A detached copy of one key's state. */
    method Snapshot(key: EntityKey) returns (e: Entry)
      requires Valid()
      ensures e == LedgerModel.Snapshot(Model(), key)
    {
      var changes := changeSets[|changeSets| - 1].changes;
      e := Entry(key, if key in changes then changes[key] else map[],
                 if key in originalVersions then Some(originalVersions[key]) else None,
                 key in newKeys, key in deletedKeys,
                 if key in traceChains then Some(traceChains[key]) else None);
    }

    /** The other ledger's objects are not this ledger's. */
    ghost predicate Apart(other: EntityRoot)
      reads this, other
    {
      other != this && forall c :: c in other.changeSets ==> c !in changeSets
    }

    method MergeEntityFrom(other: EntityRoot, key: EntityKey) returns (raised: Option<LedgerError>)
      requires Valid() && other.Valid() && other.Model().Valid() && (other == this || Apart(other))
      modifies this, changeSets
      ensures Valid() && changeSets == old(changeSets)
      ensures other != this ==> other.Valid() && other.Model() == old(other.Model())
      ensures other == this ==> raised.None? && Model() == old(Model())
      ensures other != this ==> Outcome(raised, Model(), old(Model()), MergeEntity(old(Model()), old(other.Model()), key))
      ensures other != this ==>
        IsMerge(old(Model()), OneKey(old(other.Model()), key), if raised.None? then Ok(Model()) else Err(raised.value))
    {
      if other == this {
        return None;
      }
      MergeEntityIs(Model(), other.Model(), key);
      raised := MergeEntityApart(other, key);
    }

    method MergeEntityApart(other: EntityRoot, key: EntityKey) returns (raised: Option<LedgerError>)
      requires Valid() && other.Valid() && other.Model().Valid() && Apart(other)
      modifies this, changeSets
      ensures Valid() && changeSets == old(changeSets)
      ensures other.Valid() && other.Model() == old(other.Model())
      ensures Outcome(raised, Model(), old(Model()), MergeEntity(old(Model()), old(other.Model()), key))
    {
      ghost var mine, source := Model(), other.Model();
      var e := other.Snapshot(key);
      SnapshotFieldsAreNamed(source, key);
      if e.version.Some? && key in originalVersions && e.version.value != originalVersions[key] {
        assert Conflicts(mine, key, VersionOf(source, key));
        return Some(VersionConflict);
      }
      assert !Conflicts(mine, key, VersionOf(source, key));
      Import(e);
      assert Model() == LedgerModel.Import(mine, e);
      KeepsModel(other);
      raised := None;
    }

    /** Snapshots of everything the ledger knows, in some order of its key set. */
    method SnapshotAll() returns (entries: seq<Entry>, ghost order: seq<EntityKey>)
      requires Valid()
      ensures AreSnapshots(entries, Model(), order)
      ensures Elements(order) == KeysOf(Model())
      ensures NoDuplicates(order)
    {
      var remaining := originalVersions.Keys + newKeys + deletedKeys + traceChains.Keys
        + changeSets[|changeSets| - 1].changes.Keys;
      entries, order := [], [];
      while remaining != {}
        invariant Elements(order) + remaining == KeysOf(Model()) && Elements(order) !! remaining
        invariant NoDuplicates(order) && AreSnapshots(entries, Model(), order)
        decreases remaining
      {
        var key :| key in remaining;
        var e := Snapshot(key);
        OneMoreEntry(entries, Model(), order, e, key);
        entries := entries + [e];
        order := order + [key];
        remaining := remaining - {key};
      }
    }

    /** Whether some entry carries a version that differs from the recorded one. */
    method FindConflict(entries: seq<Entry>, ghost source: Root, ghost order: seq<EntityKey>) returns (found: bool)
      requires Valid()
      requires AreSnapshots(entries, source, order)
      ensures found == AnyConflict(Model(), source, order)
    {
      for i := 0 to |entries|
        invariant forall j :: 0 <= j < i ==> !Conflicts(Model(), order[j], VersionOf(source, order[j]))
      {
        var e := entries[i];
        if e.version.Some? && e.key in originalVersions && e.version.value != originalVersions[e.key] {
          assert order[i] in order && Conflicts(Model(), order[i], VersionOf(source, order[i]));
          return true;
        }
      }
      found := false;
    }

    /** All keys are checked before the first one is imported; the key set is iterated in some order. */
    method MergeFrom(other: EntityRoot) returns (raised: Option<LedgerError>, ghost order: seq<EntityKey>)
      requires Valid() && other.Valid() && other.Model().Valid() && (other == this || Apart(other))
      modifies this, changeSets
      ensures Valid() && changeSets == old(changeSets)
      ensures NoDuplicates(order)
      ensures other == this ==> raised.None? && Model() == old(Model())
      ensures other != this ==>
        && other.Valid() && other.Model() == old(other.Model())
        && Elements(order) == KeysOf(old(other.Model()))
        && Outcome(raised, Model(), old(Model()), LedgerModel.MergeFrom(old(Model()), old(other.Model()), order))
      ensures other != this ==>
        IsMerge(old(Model()), old(other.Model()), if raised.None? then Ok(Model()) else Err(raised.value))
    {
      order := [];
      if other == this {
        return None, order;
      }
      ghost var mine, source := Model(), other.Model();
      raised, order := MergeApart(other);
      MergeFromIs(mine, source, order);
    }

    method MergeApart(other: EntityRoot) returns (raised: Option<LedgerError>, ghost order: seq<EntityKey>)
      requires Valid() && other.Valid() && other.Model().Valid() && Apart(other)
      modifies this, changeSets
      ensures Valid() && changeSets == old(changeSets)
      ensures other.Valid() && other.Model() == old(other.Model())
      ensures Elements(order) == KeysOf(old(other.Model()))
      ensures NoDuplicates(order)
      ensures Outcome(raised, Model(), old(Model()), LedgerModel.MergeFrom(old(Model()), old(other.Model()), order))
    {
      var entries;
      entries, order := other.SnapshotAll();
      raised := ImportUnlessConflict(other, entries, order);
    }

    method ImportUnlessConflict(other: EntityRoot, entries: seq<Entry>, ghost order: seq<EntityKey>)
      returns (raised: Option<LedgerError>)
      requires Valid() && other.Valid() && other.Model().Valid() && Apart(other)
      requires AreSnapshots(entries, other.Model(), order)
      modifies this, changeSets
      ensures Valid() && changeSets == old(changeSets)
      ensures other.Valid() && other.Model() == old(other.Model())
      ensures Outcome(raised, Model(), old(Model()), LedgerModel.MergeFrom(old(Model()), old(other.Model()), order))
    {
      var conflict := FindConflict(entries, other.Model(), order);
      if conflict {
        return Some(VersionConflict);
      }
      ImportFrom(other, entries, order);
      raised := None;
    }

    method ImportFrom(other: EntityRoot, entries: seq<Entry>, ghost order: seq<EntityKey>)
      requires Valid() && other.Valid() && other.Model().Valid() && Apart(other)
      requires AreSnapshots(entries, other.Model(), order)
      modifies this, changeSets
      ensures Valid() && changeSets == old(changeSets) && Model() == ImportAll(old(Model()), old(other.Model()), order)
      ensures other.Valid() && other.Model() == old(other.Model())
    {
      ImportEntries(entries, other.Model(), order);
      KeepsModel(other);
    }

    method ImportEntries(entries: seq<Entry>, ghost source: Root, ghost order: seq<EntityKey>)
      requires Valid() && source.Valid()
      requires AreSnapshots(entries, source, order)
      modifies this, changeSets
      ensures Valid() && changeSets == old(changeSets) && Model() == ImportAll(old(Model()), source, order)
    {
      assert order[..0] == [];
      for i := 0 to |entries|
        invariant Valid() && changeSets == old(changeSets)
        invariant Model() == ImportAll(old(Model()), source, order[..i])
      {
        assert order[..i + 1][..i] == order[..i];
        SnapshotFieldsAreNamed(source, order[i]);
        Import(entries[i]);
      }
      assert order[..|entries|] == order;
    }

    method RekeyLayers(oldKey: EntityKey, newKey: EntityKey)
      requires Valid()
      modifies changeSets
      ensures Valid()
      ensures Model() == old(Model()).(layers := EachLayer(old(Model()).layers, layer => RekeyLayer(layer, oldKey, newKey)))
    {
      for i := 0 to |changeSets|
        invariant forall j :: 0 <= j < i ==> changeSets[j].changes == RekeyLayer(old(changeSets[j].changes), oldKey, newKey)
        invariant forall j :: i <= j < |changeSets| ==> changeSets[j].changes == old(changeSets[j].changes)
      {
        changeSets[i].Rekey(oldKey, newKey);
      }
    }

    method Rekey(oldKey: EntityKey, newKey: EntityKey) returns (raised: Option<LedgerError>)
      requires Valid()
      modifies this, changeSets
      ensures Valid() && changeSets == old(changeSets)
      ensures Outcome(raised, Model(), old(Model()), LedgerModel.Rekey(old(Model()), oldKey, newKey))
    {
      if oldKey == newKey {
        return None;
      }
      if oldKey in originalVersions && newKey in originalVersions && originalVersions[oldKey] != originalVersions[newKey] {
        return Some(VersionConflict);
      }
      ghost var before := Model();
      assert !Conflicts(before, newKey, VersionOf(before, oldKey));
      RekeyLayers(oldKey, newKey);
      assert LayersOf(changeSets) == Rekeyed(before, oldKey, newKey).layers;
      RekeyRecords(oldKey, newKey);
      assert Model() == Rekeyed(before, oldKey, newKey);
      raised := None;
    }

    /** Moves the version, the marks and the lineage. */
    method RekeyRecords(oldKey: EntityKey, newKey: EntityKey)
      requires Valid() && oldKey != newKey
      modifies this
      ensures Valid() && changeSets == old(changeSets)
      ensures originalVersions == MoveEntry(old(originalVersions), oldKey, newKey)
      ensures newKeys == MoveMember(old(newKeys), oldKey, newKey)
      ensures deletedKeys == MoveMember(old(deletedKeys), oldKey, newKey)
      ensures traceChains == RekeyTraces(old(traceChains), oldKey, newKey)
    {
      if oldKey in originalVersions {
        var version := originalVersions[oldKey];
        originalVersions := originalVersions - {oldKey};
        originalVersions := originalVersions[newKey := version];
      }
      RekeyMarks(oldKey, newKey);
      if oldKey in traceChains {
        var chain := traceChains[oldKey];
        traceChains := traceChains - {oldKey};
        traceChains := traceChains[newKey := chain];
      }
      RenameLineage(oldKey, newKey);
    }

    method RekeyMarks(oldKey: EntityKey, newKey: EntityKey)
      requires oldKey != newKey
      modifies this`newKeys, this`deletedKeys
      ensures newKeys == MoveMember(old(newKeys), oldKey, newKey)
      ensures deletedKeys == MoveMember(old(deletedKeys), oldKey, newKey)
    {
      if oldKey in newKeys {
        newKeys := newKeys - {oldKey};
        newKeys := newKeys + {newKey};
      }
      if oldKey in deletedKeys {
        deletedKeys := deletedKeys - {oldKey};
        deletedKeys := deletedKeys + {newKey};
      }
    }

    /** Visits every node of every lineage and gives the nodes of the old key the new number. */
    method RenameLineage(oldKey: EntityKey, newKey: EntityKey)
      requires Valid()
      modifies this`traceChains
      ensures traceChains == map key | key in old(traceChains) :: RenameChain(old(traceChains)[key], oldKey, newKey)
    {
      var remaining := traceChains.Keys;
      while remaining != {}
        invariant remaining <= traceChains.Keys == old(traceChains).Keys
        invariant forall key :: key in traceChains ==>
          traceChains[key] == (if key in remaining then old(traceChains)[key] else RenameChain(old(traceChains)[key], oldKey, newKey))
        decreases remaining
      {
        var key :| key in remaining;
        var chain := traceChains[key];
        var i := 0;
        while i < |chain|
          invariant 0 <= i <= |chain| == |old(traceChains)[key]|
          invariant forall j :: 0 <= j < |chain| ==>
            chain[j] == (if j < i then RenameNode(old(traceChains)[key][j], oldKey, newKey) else old(traceChains)[key][j])
        {
          var node := chain[i];
          if (if node.name != "" then node.name else node.entityType) == oldKey.entity && node.entityId == Some(oldKey.id) {
            chain := chain[i := node.(entityId := Some(newKey.id))];
          }
          i := i + 1;
        }
        traceChains := traceChains[key := chain];
        remaining := remaining - {key};
      }
    }

    method ClearEntity(key: EntityKey)
      requires Valid()
      modifies this, changeSets
      ensures Valid() && changeSets == old(changeSets) && Model() == LedgerModel.ClearEntity(old(Model()), key)
    {
      ClearLayers(key);
      newKeys := newKeys - {key};
      deletedKeys := deletedKeys - {key};
      traceChains := traceChains - {key};
    }
  }

  lemma {:induction false} OneMoreEntry(entries: seq<Entry>, l: Root, order: seq<EntityKey>, e: Entry, key: EntityKey)
    requires AreSnapshots(entries, l, order) && NoDuplicates(order) && key !in Elements(order)
      && e == LedgerModel.Snapshot(l, key)
    ensures AreSnapshots(entries + [e], l, order + [key]) && NoDuplicates(order + [key])
    ensures Elements(order + [key]) == Elements(order) + {key}
  {
  }

  /** Objects that were not written still stand for the same ledger. */
  twostate lemma {:induction false} KeepsModel(root: EntityRoot)
    requires old(root.Valid()) && unchanged(root) && forall c :: c in root.changeSets ==> unchanged(c)
    ensures root.Valid() && root.Model() == old(root.Model())
  {
    var after, before := LayersOf(root.changeSets), old(LayersOf(root.changeSets));
    forall i | 0 <= i < |after|
      ensures after[i] == before[i]
    {
      assert root.changeSets[i] in root.changeSets;
      assert unchanged(root.changeSets[i]);
    }
    assert after == before;
  }

  lemma {:induction false} SnapshotFieldsAreNamed(l: Root, key: EntityKey)
    requires l.Valid()
    ensures forall field :: field in LedgerModel.Snapshot(l, key).fields ==> !Blank(field)
  {
  }

  ghost function LayersOf(changeSets: seq<EntityChangeSet>): (layers: seq<Changes>)
    reads changeSets
    ensures |layers| == |changeSets|
    ensures forall i :: 0 <= i < |layers| ==> layers[i] == changeSets[i].changes
  {
    seq(|changeSets|, i requires 0 <= i < |changeSets| reads changeSets => changeSets[i].changes)
  }

  /** Either the call raised what it should and left the ledger alone, or it produced the expected ledger. */
  ghost predicate Outcome(raised: Option<LedgerError>, after: Root, before: Root, expected: Result<Root, LedgerError>) {
    if expected.Ok? then raised.None? && after == expected.value else raised == Some(expected.error) && after == before
  }
}
