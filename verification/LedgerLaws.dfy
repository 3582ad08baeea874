/** What the ledger promises: layered lookup, merging, rekeying and the fate of recorded versions. */
module LedgerLaws {
  import opened Outcomes
  import opened Text
  import opened LedgerModel

  // ----- layered lookup

  /** A layer's cells that hold a value. */
  function Written(layer: Changes): map<(EntityKey, string), Value> {
    map key, field | key in layer && field in layer[key] && layer[key][field].Some? :: (key, field) := layer[key][field].value
  }

  /** All layers poured into one, bottom to top; a None never hides what is below it. */
  function Flattened(layers: seq<Changes>): map<(EntityKey, string), Value> {
    if layers == [] then map[]
    else Flattened(layers[..|layers| - 1]) + Written(layers[|layers| - 1])
  }

  lemma {:induction false} GetIsFlattenedLookup(layers: seq<Changes>, key: EntityKey, field: string)
    ensures GetFrom(layers, key, field)
         == if (key, field) in Flattened(layers) then Some(Flattened(layers)[(key, field)]) else None
  {
    if layers != [] {
      GetIsFlattenedLookup(layers[..|layers| - 1], key, field);
      var top := layers[|layers| - 1];
      if CellOf(top, key, field).Some? {
        assert (key, field) in Written(top);
      } else {
        assert (key, field) !in Written(top);
      }
    }
  }

  datatype Write = Write(key: EntityKey, field: string, cell: Cell)

  /** A run of `set` calls; one with a blank field raises and writes nothing. */
  function SetAll(l: Root, writes: seq<Write>): Root {
    if writes == [] then l
    else
      var front := SetAll(l, writes[..|writes| - 1]);
      var w := writes[|writes| - 1];
      var r := Set(front, w.key, w.field, w.cell);
      if r.Ok? then r.value else front
  }

  /** The last cell the run wrote for a field, if it wrote one. */
  function LastWrite(writes: seq<Write>, key: EntityKey, field: string): Option<Cell> {
    if writes == [] then None
    else
      var w := writes[|writes| - 1];
      if w.key == key && w.field == field && !Blank(field) then Some(w.cell)
      else LastWrite(writes[..|writes| - 1], key, field)
  }

  lemma {:induction false} SetsStayOnTop(l: Root, writes: seq<Write>)
    ensures var after := SetAll(Push(l), writes);
      after == Push(l).(layers := l.layers + [Top(after)])
  {
    if writes == [] {
      assert Top(Push(l)) == map[];
    } else {
      SetsStayOnTop(l, writes[..|writes| - 1]);
    }
  }

  lemma {:induction false} TopHoldsLastWrites(l: Root, writes: seq<Write>, key: EntityKey, field: string)
    ensures var top := Top(SetAll(Push(l), writes));
      && (key in top && field in top[key] <==> LastWrite(writes, key, field).Some?)
      && (LastWrite(writes, key, field).Some? ==> top[key][field] == LastWrite(writes, key, field).value)
  {
    if writes != [] {
      TopHoldsLastWrites(l, writes[..|writes| - 1], key, field);
    }
  }

  /**
    Push, any run of sets, pop: the ledger is exactly as before the push, so every `get` answers as
    before, and the popped change set holds exactly the last write of every field the run wrote.
   */
  lemma {:induction false} PopUndoesPush(l: Root, writes: seq<Write>)
    ensures var r := Pop(SetAll(Push(l), writes));
      && r.Ok?
      && r.value.0 == l
      && forall key, field ::
           (key in r.value.1 && field in r.value.1[key] <==> LastWrite(writes, key, field).Some?)
           && (LastWrite(writes, key, field).Some? ==> r.value.1[key][field] == LastWrite(writes, key, field).value)
  {
    SetsStayOnTop(l, writes);
    var after := SetAll(Push(l), writes);
    assert after.layers[..|after.layers| - 1] == l.layers;
    forall key, field
      ensures var top := Top(after);
        (key in top && field in top[key] <==> LastWrite(writes, key, field).Some?)
        && (LastWrite(writes, key, field).Some? ==> top[key][field] == LastWrite(writes, key, field).value)
    {
      TopHoldsLastWrites(l, writes, key, field);
    }
  }

  // ----- merging

  /** The target's top layer after importing `keys` from the source's, less the deleted ones. */
  function MergedLayer(target: Changes, source: Changes, keys: set<EntityKey>, gone: set<EntityKey>): Changes {
    map key | key in target.Keys + keys * source.Keys && key !in gone ::
      FieldsOf(target, key) + (if key in keys then FieldsOf(source, key) else map[])
  }

  /** The target after importing a set of keys, told field by field instead of key by key. */
  function Merged(target: Root, source: Root, keys: set<EntityKey>): Root {
    var gone := keys * source.deletedKeys;
    Ledger(
      EachLayer(target.layers[..|target.layers| - 1], (layer: Changes) => layer - gone)
        + [MergedLayer(Top(target), Top(source), keys, gone)],
      target.versions + Only(source.versions, keys),
      target.newKeys + keys * source.newKeys,
      target.deletedKeys + gone,
      target.traces + Only(source.traces, keys))
  }

  lemma {:induction false} MergedNothing(target: Root, source: Root)
    ensures Merged(target, source, {}) == target
  {
    var m := Merged(target, source, {});
    var last := |target.layers| - 1;
    assert {} * source.deletedKeys == {};
    forall i | 0 <= i < last
      ensures m.layers[i] == target.layers[i]
    {
      assert m.layers[i] == target.layers[i] - ({} * source.deletedKeys);
    }
    MergedLayerNothing(Top(target), Top(source), {} * source.deletedKeys);
    assert m.layers == target.layers;
  }

  lemma {:induction false} MergedLayerNothing(target: Changes, source: Changes, gone: set<EntityKey>)
    requires gone == {}
    ensures MergedLayer(target, source, {}, gone) == target
  {
    var m := MergedLayer(target, source, {}, gone);
    forall k
      ensures k in m <==> k in target
      ensures k in m ==> m[k] == target[k]
    {
      if k in target {
        assert target[k] + map[] == target[k];
      }
    }
  }

  /** The layer of one import: the fields are added, then cleared again if the source deleted the key. */
  function ImportLayer(layer: Changes, source: Changes, key: EntityKey, removed: bool): Changes {
    var added := AddFields(layer, key, FieldsOf(source, key));
    if removed then ClearLayer(added, key) else added
  }

  ghost predicate SameAt(a: Changes, b: Changes, k: EntityKey) {
    (k in a <==> k in b) && (k in a ==> a[k] == b[k])
  }

  lemma {:induction false} ImportedOtherKey(target: Changes, source: Changes, keys: set<EntityKey>,
      gone: set<EntityKey>,
      key: EntityKey, removed: bool, k: EntityKey)
    requires k != key
    ensures SameAt(ImportLayer(MergedLayer(target, source, keys, gone), source, key, removed),
                   MergedLayer(target, source, keys + {key}, if removed then gone + {key} else gone), k)
  {
    var before := MergedLayer(target, source, keys, gone);
    assert SameAt(ImportLayer(before, source, key, removed), before, k);
    assert SameAt(before, MergedLayer(target, source, keys + {key}, if removed then gone + {key} else gone), k);
  }

  lemma {:induction false} ImportedSameKey(target: Changes, source: Changes, keys: set<EntityKey>, gone: set<EntityKey>,
      key: EntityKey, removed: bool)
    requires key !in keys && key !in gone && ValidLayer(source)
    ensures SameAt(ImportLayer(MergedLayer(target, source, keys, gone), source, key, removed),
                   MergedLayer(target, source, keys + {key}, if removed then gone + {key} else gone), key)
  {
    var before := MergedLayer(target, source, keys, gone);
    var after := MergedLayer(target, source, keys + {key}, if removed then gone + {key} else gone);
    assert FieldsOf(target, key) + map[] == FieldsOf(target, key);
    assert FieldsOf(before, key) == FieldsOf(target, key);
    assert key in source ==> source[key] != map[];
    if removed {
      assert key !in after;
    } else {
      assert key in after <==> key in target || key in source;
      assert key in after ==> after[key] == FieldsOf(target, key) + FieldsOf(source, key);
    }
  }

  lemma {:induction false} ImportedLayer(target: Changes, source: Changes, keys: set<EntityKey>,
      gone: set<EntityKey>, key: EntityKey,
      removed: bool)
    requires key !in keys && gone <= keys && ValidLayer(source)
    ensures ImportLayer(MergedLayer(target, source, keys, gone), source, key, removed)
         == MergedLayer(target, source, keys + {key}, if removed then gone + {key} else gone)
  {
    var a := ImportLayer(MergedLayer(target, source, keys, gone), source, key, removed);
    var b := MergedLayer(target, source, keys + {key}, if removed then gone + {key} else gone);
    forall k
      ensures k in a <==> k in b
      ensures k in a ==> a[k] == b[k]
    {
      if k == key {
        ImportedSameKey(target, source, keys, gone, key, removed);
      } else {
        ImportedOtherKey(target, source, keys, gone, key, removed, k);
      }
      assert SameAt(a, b, k);
    }
  }

  lemma {:induction false} ImportedVersions(m: map<EntityKey, int>, source: map<EntityKey, int>,
      keys: set<EntityKey>, key: EntityKey)
    ensures var before := m + Only(source, keys);
      (if key in source then before[key := source[key]] else before)
      == m + Only(source, keys + {key})
  {
  }

  lemma {:induction false} ImportedTraces(m: map<EntityKey, Chain>, source: map<EntityKey, Chain>,
      keys: set<EntityKey>, key: EntityKey)
    ensures var before := m + Only(source, keys);
      (if key in source then before[key := source[key]] else before)
      == m + Only(source, keys + {key})
  {
  }

  /** The layers after an import: fields arrive in the top one, and a deletion clears them all. */
  lemma {:induction false} ImportLayers(l: Root, source: Root, key: EntityKey)
    ensures var r := Import(l, Snapshot(source, key));
      var removed := key in source.deletedKeys;
      && |r.layers| == |l.layers|
      && (forall i :: 0 <= i < |l.layers| - 1 ==> r.layers[i] == if removed then ClearLayer(l.layers[i], key) else l.layers[i])
      && Top(r) == ImportLayer(Top(l), Top(source), key, removed)
  {
    var e := Snapshot(source, key);
    var l1 := WithTop(l, AddFields(Top(l), key, e.fields));
    assert forall i :: 0 <= i < |l.layers| - 1 ==> l1.layers[i] == l.layers[i];
    var cleared := EachLayer(l1.layers, layer => ClearLayer(layer, key));
    assert Import(l, e).layers == if e.removed then cleared else l1.layers;
  }

  lemma {:induction false} ImportParts(l: Root, source: Root, key: EntityKey)
    ensures var r := Import(l, Snapshot(source, key));
      && r.versions == (if key in source.versions then l.versions[key := source.versions[key]] else l.versions)
      && r.newKeys == (if key in source.newKeys then l.newKeys + {key} else l.newKeys)
      && r.deletedKeys == (if key in source.deletedKeys then l.deletedKeys + {key} else l.deletedKeys)
      && r.traces == (if key in source.traces then l.traces[key := source.traces[key]] else l.traces)
  {
  }

  lemma {:induction false} MergedLayersAre(target: Root, source: Root, keys: set<EntityKey>)
    ensures var merged := Merged(target, source, keys);
      && |merged.layers| == |target.layers|
      && (forall i :: 0 <= i < |target.layers| - 1 ==> merged.layers[i] == target.layers[i] - keys * source.deletedKeys)
      && Top(merged) == MergedLayer(Top(target), Top(source), keys, keys * source.deletedKeys)
  {
  }

  lemma {:induction false} ClearOneMore(layer: Changes, gone: set<EntityKey>, key: EntityKey, removed: bool)
    ensures (if removed then ClearLayer(layer - gone, key) else layer - gone) == layer - if removed then gone + {key} else gone
  {
  }

  lemma {:induction false} GoneWithOneMore(keys: set<EntityKey>, deleted: set<EntityKey>, key: EntityKey)
    ensures (keys + {key}) * deleted == if key in deleted then keys * deleted + {key} else keys * deleted
  {
  }

  lemma {:induction false} MergedOneMoreLayers(target: Root, source: Root, keys: set<EntityKey>, key: EntityKey)
    requires key !in keys && source.Valid()
    ensures Import(Merged(target, source, keys), Snapshot(source, key)).layers == Merged(target, source, keys + {key}).layers
  {
    var before, after := Merged(target, source, keys), Merged(target, source, keys + {key});
    var imported := Import(before, Snapshot(source, key));
    var removed := key in source.deletedKeys;
    var gone := keys * source.deletedKeys;
    GoneWithOneMore(keys, source.deletedKeys, key);
    MergedLayersAre(target, source, keys);
    MergedLayersAre(target, source, keys + {key});
    ImportLayers(before, source, key);
    ImportedLayer(Top(target), Top(source), keys, gone, key, removed);
    forall i | 0 <= i < |target.layers| - 1
      ensures imported.layers[i] == after.layers[i]
    {
      ClearOneMore(target.layers[i], gone, key, removed);
    }
    SameLayers(imported, after);
  }

  lemma {:induction false} SameLayers(l: Root, r: Root)
    requires |l.layers| == |r.layers| && Top(l) == Top(r) && forall i :: 0 <= i < |l.layers| - 1 ==>
      l.layers[i] == r.layers[i]
    ensures l.layers == r.layers
  {
  }

  lemma {:induction false} MergedOneMore(target: Root, source: Root, keys: set<EntityKey>, key: EntityKey)
    requires key !in keys && source.Valid()
    ensures Import(Merged(target, source, keys), Snapshot(source, key)) == Merged(target, source, keys + {key})
  {
    var before, after := Merged(target, source, keys), Merged(target, source, keys + {key});
    var imported := Import(before, Snapshot(source, key));
    MergedOneMoreLayers(target, source, keys, key);
    ImportParts(before, source, key);
    ImportedVersions(target.versions, source.versions, keys, key);
    ImportedTraces(target.traces, source.traces, keys, key);
    assert imported.newKeys == after.newKeys;
    assert imported.deletedKeys == after.deletedKeys;
  }

  lemma {:induction false} ElementsOfFront(order: seq<EntityKey>)
    requires order != [] && NoDuplicates(order)
    ensures var front, key := order[..|order| - 1], order[|order| - 1];
      && NoDuplicates(front)
      && key !in Elements(front)
      && Elements(order) == Elements(front) + {key}
  {
    var front, key := order[..|order| - 1], order[|order| - 1];
    assert order == front + [key];
  }

  lemma {:induction false} ImportAllIsMerged(target: Root, source: Root, order: seq<EntityKey>)
    requires NoDuplicates(order) && source.Valid()
    ensures ImportAll(target, source, order) == Merged(target, source, Elements(order))
  {
    if order == [] {
      assert Elements(order) == {};
      MergedNothing(target, source);
    } else {
      ElementsOfFront(order);
      ImportAllIsMerged(target, source, order[..|order| - 1]);
      MergedOneMore(target, source, Elements(order[..|order| - 1]), order[|order| - 1]);
    }
  }

  /** Whatever order the key set is iterated in, a merge has one outcome, for success and for refusal. */
  lemma {:induction false} MergeIgnoresOrder(target: Root, source: Root, order: seq<EntityKey>, other: seq<EntityKey>)
    requires NoDuplicates(order) && NoDuplicates(other) && Elements(order) == Elements(other)
    requires source.Valid()
    ensures MergeFrom(target, source, order) == MergeFrom(target, source, other)
  {
    ImportAllIsMerged(target, source, order);
    ImportAllIsMerged(target, source, other);
    forall key
      ensures key in order <==> key in other
    {
      assert key in Elements(order) <==> key in Elements(other);
    }
  }

  /** `merge_entity_from` applied key by key, stopping at the first refusal. */
  function MergeEach(target: Root, source: Root, order: seq<EntityKey>): Result<Root, LedgerError> {
    if order == [] then Ok(target)
    else
      var front := MergeEach(target, source, order[..|order| - 1]);
      if front.Err? then front else MergeEntity(front.value, source, order[|order| - 1])
  }

  /** Importing other keys neither causes nor cures a version conflict. */
  lemma {:induction false} ConflictsAreLocal(target: Root, source: Root, keys: set<EntityKey>, key: EntityKey)
    requires key !in keys
    ensures Conflicts(Merged(target, source, keys), key, VersionOf(source, key)) <==> Conflicts(target, key, VersionOf(source, key))
  {
  }

  lemma {:induction false} ConflictsOfLast(target: Root, source: Root, order: seq<EntityKey>)
    requires order != []
    ensures AnyConflict(target, source, order) <==>
      || AnyConflict(target, source, order[..|order| - 1])
      || Conflicts(target, order[|order| - 1], VersionOf(source, order[|order| - 1]))
  {
    assert order == order[..|order| - 1] + [order[|order| - 1]];
  }

  /** Merging everything and merging key by key succeed together and then agree. */
  lemma {:induction false} MergeFromIsMergeEach(target: Root, source: Root, order: seq<EntityKey>)
    requires NoDuplicates(order) && source.Valid()
    ensures MergeFrom(target, source, order) == MergeEach(target, source, order)
  {
    if order != [] {
      var front, key := order[..|order| - 1], order[|order| - 1];
      ElementsOfFront(order);
      MergeFromIsMergeEach(target, source, front);
      ImportAllIsMerged(target, source, front);
      ConflictsAreLocal(target, source, Elements(front), key);
      ConflictsOfLast(target, source, order);
    }
  }

  /** Merging a second time changes nothing. */
  lemma {:induction false} MergeIsIdempotent(target: Root, source: Root, order: seq<EntityKey>)
    requires NoDuplicates(order) && source.Valid()
    requires MergeFrom(target, source, order).Ok?
    ensures var once := MergeFrom(target, source, order).value;
      MergeFrom(once, source, order) == Ok(once)
  {
    var keys := Elements(order);
    ImportAllIsMerged(target, source, order);
    var once := Merged(target, source, keys);
    forall key | key in order
      ensures !Conflicts(once, key, VersionOf(source, key))
    {
      assert key in keys;
    }
    ImportAllIsMerged(once, source, order);
    MergedTwice(target, source, keys);
  }

  lemma {:induction false} MergedLayerTwice(target: Changes, source: Changes, keys: set<EntityKey>,
      gone: set<EntityKey>)
    ensures MergedLayer(MergedLayer(target, source, keys, gone), source, keys, gone) == MergedLayer(target, source, keys, gone)
  {
    var once := MergedLayer(target, source, keys, gone);
    var twice := MergedLayer(once, source, keys, gone);
    assert twice.Keys == once.Keys;
    forall k | k in once
      ensures twice[k] == once[k]
    {
      var add := if k in keys then FieldsOf(source, k) else map[];
      assert twice[k] == FieldsOf(target, k) + add + add;
    }
  }

  lemma {:induction false} MergedTwice(target: Root, source: Root, keys: set<EntityKey>)
    ensures Merged(Merged(target, source, keys), source, keys) == Merged(target, source, keys)
  {
    var once := Merged(target, source, keys);
    var twice := Merged(once, source, keys);
    var gone := keys * source.deletedKeys;
    assert twice.versions == once.versions;
    assert twice.newKeys == once.newKeys;
    assert twice.deletedKeys == once.deletedKeys;
    assert twice.traces == once.traces;
    forall i | 0 <= i < |target.layers| - 1
      ensures twice.layers[i] == once.layers[i]
    {
      assert once.layers[i] == target.layers[i] - gone;
      assert twice.layers[i] == once.layers[i] - gone;
    }
    MergedLayerTwice(Top(target), Top(source), keys, gone);
    assert twice.layers == once.layers;
  }
}
