/** Rekeying: what is left of the old key, what becomes of the new one, and when the move can be undone. */
module RekeyLaws {
  import opened Outcomes
  import opened LedgerModel

  ghost predicate ChainNames(chain: Chain, key: EntityKey) {
    exists i :: 0 <= i < |chain| && Names(chain[i], key)
  }

  ghost predicate LineageNames(traces: map<EntityKey, Chain>, key: EntityKey) {
    exists k :: k in traces && ChainNames(traces[k], key)
  }

  /** The key occurs somewhere: in a layer, a version, a mark, as the owner of a lineage, or in a lineage node. */
  ghost predicate Mentions(l: Ledger, key: EntityKey) {
    || HasPending(l, key)
    || key in l.versions
    || key in l.traces
    || LineageNames(l.traces, key)
  }

  // ----- one layer

  lemma {:induction false} RekeyLayerKeys(layer: Changes, oldKey: EntityKey, newKey: EntityKey)
    requires oldKey != newKey && ValidLayer(layer)
    ensures RekeyLayer(layer, oldKey, newKey).Keys
         == if oldKey in layer then layer.Keys - {oldKey} + {newKey} else layer.Keys
  {
  }

  lemma {:induction false} RekeyLayerBack(layer: Changes, oldKey: EntityKey, newKey: EntityKey)
    requires oldKey != newKey && ValidLayer(layer) && newKey !in layer
    ensures RekeyLayer(RekeyLayer(layer, oldKey, newKey), newKey, oldKey) == layer
  {
    if oldKey in layer {
      var there := RekeyLayer(layer, oldKey, newKey);
      assert there[newKey] == map[] + layer[oldKey] == layer[oldKey];
      var back := RekeyLayer(there, newKey, oldKey);
      assert back[oldKey] == map[] + layer[oldKey] == layer[oldKey];
      assert back.Keys == layer.Keys;
    }
  }

  lemma {:induction false} PendingAfterRekey(l: Root, oldKey: EntityKey, newKey: EntityKey, key: EntityKey)
    requires l.Valid() && oldKey != newKey
    ensures HasPending(Rekeyed(l, oldKey, newKey), key)
       <==> if key == oldKey then false
            else if key == newKey then HasPending(l, oldKey) || HasPending(l, newKey)
            else HasPending(l, key)
  {
    var r := Rekeyed(l, oldKey, newKey);
    forall i | 0 <= i < |l.layers|
      ensures r.layers[i].Keys == if oldKey in l.layers[i] then l.layers[i].Keys - {oldKey} + {newKey} else l.layers[i].Keys
    {
      RekeyLayerKeys(l.layers[i], oldKey, newKey);
    }
    if i :| 0 <= i < |l.layers| && key in l.layers[i] && key != oldKey {
      assert key in r.layers[i];
    }
    if i :| 0 <= i < |l.layers| && oldKey in l.layers[i] {
      assert newKey in r.layers[i];
    }
  }

  // ----- lineage

  lemma {:induction false} RenamedNode(node: TraceNode, oldKey: EntityKey, newKey: EntityKey)
    requires oldKey != newKey
    ensures Names(RenameNode(node, oldKey, newKey), oldKey) <==> Names(node, oldKey) && oldKey.id == newKey.id
    ensures oldKey.entity == newKey.entity && !Names(node, newKey)
      ==> RenameNode(RenameNode(node, oldKey, newKey), newKey, oldKey) == node
  {
  }

  lemma {:induction false} RenamedChain(chain: Chain, oldKey: EntityKey, newKey: EntityKey)
    requires oldKey != newKey
    ensures ChainNames(RenameChain(chain, oldKey, newKey), oldKey) <==> ChainNames(chain, oldKey) && oldKey.id == newKey.id
  {
    var r := RenameChain(chain, oldKey, newKey);
    forall i | 0 <= i < |chain|
      ensures Names(r[i], oldKey) <==> Names(chain[i], oldKey) && oldKey.id == newKey.id
    {
      RenamedNode(chain[i], oldKey, newKey);
    }
  }

  lemma {:induction false} RenamedChainBack(chain: Chain, oldKey: EntityKey, newKey: EntityKey)
    requires oldKey.entity == newKey.entity && oldKey != newKey && !ChainNames(chain, newKey)
    ensures RenameChain(RenameChain(chain, oldKey, newKey), newKey, oldKey) == chain
  {
    var back := RenameChain(RenameChain(chain, oldKey, newKey), newKey, oldKey);
    forall i | 0 <= i < |chain|
      ensures back[i] == chain[i]
    {
      RenamedNode(chain[i], oldKey, newKey);
    }
  }

  /** The lineages that survive the move: the new key's own lineage is dropped when the old key brings one. */
  function Surviving(traces: map<EntityKey, Chain>, oldKey: EntityKey, newKey: EntityKey): map<EntityKey, Chain> {
    if oldKey in traces then traces - {newKey} else traces
  }

  /**
    The old key stays named in the lineage exactly when both keys carry the same number and some surviving node
    names it.
   */
  lemma {:induction false} LineageAfterRekey(traces: map<EntityKey, Chain>, oldKey: EntityKey, newKey: EntityKey)
    requires oldKey != newKey
    ensures LineageNames(RekeyTraces(traces, oldKey, newKey), oldKey)
       <==> oldKey.id == newKey.id && LineageNames(Surviving(traces, oldKey, newKey), oldKey)
  {
    var moved, kept := MoveEntry(traces, oldKey, newKey), Surviving(traces, oldKey, newKey);
    var r := RekeyTraces(traces, oldKey, newKey);
    forall k | k in moved
      ensures ChainNames(r[k], oldKey) <==> ChainNames(moved[k], oldKey) && oldKey.id == newKey.id
    {
      RenamedChain(moved[k], oldKey, newKey);
    }
    if LineageNames(r, oldKey) {
      var k :| k in r && ChainNames(r[k], oldKey);
      var from := if k == newKey && oldKey in traces then oldKey else k;
      assert from in kept && kept[from] == moved[k];
    }
    if oldKey.id == newKey.id && LineageNames(kept, oldKey) {
      var k :| k in kept && ChainNames(kept[k], oldKey);
      var into := if k == oldKey then newKey else k;
      assert into in r && ChainNames(r[into], oldKey);
    }
  }

  // ----- the whole ledger

  /**
    After any successful rekey the old key is gone from every layer, version and mark. It is still
    mentioned exactly when the two keys carry the same number under different entity types and some
    lineage node still names it.
   */
  lemma {:induction false} OldKeyMentionedIff(l: Root, oldKey: EntityKey, newKey: EntityKey)
    requires l.Valid() && oldKey != newKey && Rekey(l, oldKey, newKey).Ok?
    ensures Mentions(Rekey(l, oldKey, newKey).value, oldKey)
       <==> oldKey.id == newKey.id && LineageNames(Surviving(l.traces, oldKey, newKey), oldKey)
  {
    PendingAfterRekey(l, oldKey, newKey, oldKey);
    LineageAfterRekey(l.traces, oldKey, newKey);
  }

  /** Such a ledger: a lineage node of one type, and a move to the same number under another type. */
  lemma {:induction false} OldKeyStaysNamed() returns (l: Root, oldKey: EntityKey, newKey: EntityKey)
    ensures l.Valid() && oldKey != newKey && Rekey(l, oldKey, newKey).Ok?
    ensures Mentions(Rekey(l, oldKey, newKey).value, oldKey)
  {
    oldKey, newKey := EntityKey("Order", 7), EntityKey("Invoice", 7);
    var owner, node := EntityKey("Line", 1), TraceNode("Order", Some(7), "reason", "auditReason", "Order");
    l := Ledger([map[]], map[], {}, {}, map[owner := [node]]);
    var kept := Surviving(l.traces, oldKey, newKey);
    assert owner in kept && kept[owner][0] == node;
    assert ChainNames(kept[owner], oldKey);
    OldKeyMentionedIff(l, oldKey, newKey);
  }

  /** Within one entity type nothing of the old key is left, and the new key is pending exactly when either was. */
  lemma {:induction false} RekeyMovesEverything(l: Root, oldKey: EntityKey, newKey: EntityKey)
    requires l.Valid() && oldKey != newKey && oldKey.entity == newKey.entity && Rekey(l, oldKey, newKey).Ok?
    ensures var r := Rekey(l, oldKey, newKey).value;
      && !Mentions(r, oldKey)
      && (HasPending(r, newKey) <==> HasPending(l, oldKey) || HasPending(l, newKey))
      && VersionOf(r, newKey) == (if oldKey in l.versions then VersionOf(l, oldKey) else VersionOf(l, newKey))
      && forall key :: key != oldKey && key != newKey ==>
           (HasPending(r, key) <==> HasPending(l, key)) && VersionOf(r, key) == VersionOf(l, key)
  {
    OldKeyMentionedIff(l, oldKey, newKey);
    forall key
      ensures HasPending(Rekeyed(l, oldKey, newKey), key)
         <==> if key == oldKey then false
              else if key == newKey then HasPending(l, oldKey) || HasPending(l, newKey)
              else HasPending(l, key)
    {
      PendingAfterRekey(l, oldKey, newKey, key);
    }
  }

  lemma {:induction false} TracesBack(traces: map<EntityKey, Chain>, oldKey: EntityKey, newKey: EntityKey)
    requires oldKey.entity == newKey.entity && oldKey != newKey
    requires newKey !in traces && !LineageNames(traces, newKey)
    ensures RekeyTraces(RekeyTraces(traces, oldKey, newKey), newKey, oldKey) == traces
  {
    var there := RekeyTraces(traces, oldKey, newKey);
    var back := RekeyTraces(there, newKey, oldKey);
    assert back.Keys == traces.Keys;
    forall k | k in traces
      ensures back[k] == traces[k]
    {
      var via := if k == oldKey then newKey else k;
      assert there[via] == RenameChain(traces[k], oldKey, newKey);
      assert back[k] == RenameChain(there[via], newKey, oldKey);
      RenamedChainBack(traces[k], oldKey, newKey);
    }
  }

  /** Moving to a key that occurs nowhere and moving back restores the ledger exactly. */
  lemma {:induction false} RekeyToFreshKeyIsUndone(l: Root, oldKey: EntityKey, newKey: EntityKey)
    requires l.Valid() && oldKey.entity == newKey.entity && !Mentions(l, newKey)
    ensures Rekey(l, oldKey, newKey).Ok?
    ensures Rekey(Rekey(l, oldKey, newKey).value, newKey, oldKey) == Ok(l)
  {
    if oldKey != newKey {
      var there := Rekeyed(l, oldKey, newKey);
      assert newKey !in l.newKeys && newKey !in l.deletedKeys;
      PendingAfterRekey(l, oldKey, newKey, oldKey);
      assert oldKey !in there.versions;
      var back := Rekeyed(there, newKey, oldKey);
      forall i | 0 <= i < |l.layers|
        ensures back.layers[i] == l.layers[i]
      {
        assert newKey !in l.layers[i];
        RekeyLayerBack(l.layers[i], oldKey, newKey);
      }
      assert back.layers == l.layers;
      assert back.versions == l.versions;
      assert back.newKeys == l.newKeys;
      assert back.deletedKeys == l.deletedKeys;
      TracesBack(l.traces, oldKey, newKey);
    }
  }
}
