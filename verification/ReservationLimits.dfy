/**
  Reservations when the allocator's numbers may be known already: exactly when one can be undone, and what is
  lost when it cannot.
 */
module ReservationLimits {
  import opened Outcomes
  import opened Text
  import opened LedgerModel
  import opened GraphModel
  import opened RekeyLaws
  import VersionLaws
  import GraphRollback

  // ----- there and back, in one layer

  /** Moving a key on and writing a cell of it are independent. */
  lemma {:induction false} RekeyAfterSet(layer: Changes, oldKey: EntityKey, newKey: EntityKey, field: string,
      cell: Cell)
    requires oldKey != newKey && newKey !in layer
    ensures RekeyLayer(SetCell(layer, oldKey, field, cell), oldKey, newKey)
         == SetCell(RekeyLayer(layer, oldKey, newKey), newKey, field, cell)
  {
    var written := SetCell(layer, oldKey, field, cell);
    assert field in written[oldKey];
    assert map[] + written[oldKey] == written[oldKey];
    assert written - {oldKey} == layer - {oldKey};
    if oldKey in layer {
      assert map[] + layer[oldKey] == layer[oldKey];
    }
  }

  lemma {:induction false} SetTwice(layer: Changes, key: EntityKey, field: string, first: Cell, second: Cell)
    ensures SetCell(SetCell(layer, key, field, first), key, field, second) == SetCell(layer, key, field, second)
  {
    assert FieldsOf(layer, key)[field := first][field := second] == FieldsOf(layer, key)[field := second];
  }

  // ----- there and back, in a ledger

  /** What a reservation that succeeds makes of its ledger, and what its rollback makes of that. */
  function There(l: Root, oldKey: EntityKey, newKey: EntityKey): Root {
    Put(Rekeyed(l, oldKey, newKey), newKey, "id", Some(Int(newKey.id)))
  }

  function Back(there: Root, oldKey: EntityKey, newKey: EntityKey): Root {
    Put(Rekeyed(there, newKey, oldKey), oldKey, "id", None)
  }

  /** All that is meant to remain of a reservation that was rolled back: an empty id under the temporary key. */
  function Cleared(l: Root, oldKey: EntityKey): Root {
    Put(l, oldKey, "id", None)
  }

  lemma {:induction false} IdIsAColumn()
    ensures !Blank("id")
  {
    assert "id"[0] in "id" && !IsStripped('i');
  }

  lemma {:induction false} ThereIsValid(l: Root, oldKey: EntityKey, newKey: EntityKey)
    requires l.Valid()
    ensures Rekeyed(l, oldKey, newKey).Valid() && There(l, oldKey, newKey).Valid()
  {
    IdIsAColumn();
    VersionLaws.RekeyedKeepsValid(l, oldKey, newKey);
    VersionLaws.SetKeepsValid(Rekeyed(l, oldKey, newKey), newKey, "id", Some(Int(newKey.id)));
  }

  /** Writing a cell mentions its own key and no other. */
  lemma {:induction false} PutMentions(l: Root, key: EntityKey, field: string, value: Cell, other: EntityKey)
    requires other != key
    ensures Mentions(Put(l, key, field, value), other) <==> Mentions(l, other)
    ensures HasPending(Put(l, key, field, value), other) <==> HasPending(l, other)
  {
    var r := Put(l, key, field, value);
    forall i | 0 <= i < |l.layers|
      ensures other in r.layers[i] <==> other in l.layers[i]
    {
    }
  }

  /** A new number that occurs nowhere can be given and taken back without a trace. */
  lemma {:induction false} UnknownNumberIsUndone(l: Root, oldKey: EntityKey, newKey: EntityKey)
    requires l.Valid() && oldKey != newKey && oldKey.entity == newKey.entity && !Mentions(l, newKey)
    ensures Back(There(l, oldKey, newKey), oldKey, newKey) == Cleared(l, oldKey)
  {
    var moved, there := Rekeyed(l, oldKey, newKey), There(l, oldKey, newKey);
    RekeyToFreshKeyIsUndone(l, oldKey, newKey);
    RekeyMovesEverything(l, oldKey, newKey);
    assert Rekeyed(moved, newKey, oldKey) == l by {
      assert Rekey(moved, newKey, oldKey).Ok?;
    }
    TopComesBack(l, oldKey, newKey);
    var back, cleared := Back(there, oldKey, newKey), Cleared(l, oldKey);
    forall i | 0 <= i < |l.layers| - 1
      ensures back.layers[i] == cleared.layers[i]
    {
      assert there.layers[i] == moved.layers[i];
      assert Rekeyed(moved, newKey, oldKey).layers[i] == l.layers[i];
    }
    assert Top(back) == Top(cleared);
    assert back.layers == cleared.layers;
  }

  lemma {:induction false} TopComesBack(l: Root, oldKey: EntityKey, newKey: EntityKey)
    requires l.Valid() && oldKey != newKey && oldKey.entity == newKey.entity && !Mentions(l, newKey)
    ensures Top(Back(There(l, oldKey, newKey), oldKey, newKey)) == Top(Cleared(l, oldKey))
  {
    assert newKey !in Top(l) && ValidLayer(Top(l)) by {
      assert Top(l) == l.layers[|l.layers| - 1];
    }
    TopOfBack(l, oldKey, newKey);
    LayerComesBack(Top(l), oldKey, newKey, Some(Int(newKey.id)));
  }

  lemma {:induction false} TopOfBack(l: Root, oldKey: EntityKey, newKey: EntityKey)
    ensures Top(Cleared(l, oldKey)) == SetCell(Top(l), oldKey, "id", None)
    ensures var there := SetCell(RekeyLayer(Top(l), oldKey, newKey), newKey, "id", Some(Int(newKey.id)));
      Top(Back(There(l, oldKey, newKey), oldKey, newKey)) == SetCell(RekeyLayer(there, newKey, oldKey), oldKey, "id", None)
  {
  }

  lemma {:induction false} LayerComesBack(layer: Changes, oldKey: EntityKey, newKey: EntityKey, value: Cell)
    requires oldKey != newKey && newKey !in layer && ValidLayer(layer)
    ensures var there := SetCell(RekeyLayer(layer, oldKey, newKey), newKey, "id", value);
      SetCell(RekeyLayer(there, newKey, oldKey), oldKey, "id", None) == SetCell(layer, oldKey, "id", None)
  {
    RekeyLayerKeys(layer, oldKey, newKey);
    RekeyLayerBack(layer, oldKey, newKey);
    RekeyAfterSet(RekeyLayer(layer, oldKey, newKey), newKey, oldKey, "id", value);
    SetTwice(layer, oldKey, "id", value, None);
  }

  /** The rollback itself never fails, and leaves nothing under the new number, whatever was there before. */
  lemma {:induction false} BackLeavesNothing(l: Root, oldKey: EntityKey, newKey: EntityKey)
    requires l.Valid() && oldKey != newKey && oldKey.entity == newKey.entity
    ensures Rekey(There(l, oldKey, newKey), newKey, oldKey) == Ok(Rekeyed(There(l, oldKey, newKey), newKey, oldKey))
    ensures !Mentions(Back(There(l, oldKey, newKey), oldKey, newKey), newKey)
  {
    var there := There(l, oldKey, newKey);
    ThereIsValid(l, oldKey, newKey);
    assert oldKey !in there.versions;
    RekeyMovesEverything(there, newKey, oldKey);
    PutMentions(Rekeyed(there, newKey, oldKey), oldKey, "id", None, newKey);
  }

  /** So a number that did occur cannot be given back. */
  lemma {:induction false} BackIsClearedIff(l: Root, oldKey: EntityKey, newKey: EntityKey)
    requires l.Valid() && oldKey != newKey && oldKey.entity == newKey.entity
    ensures Back(There(l, oldKey, newKey), oldKey, newKey) == Cleared(l, oldKey) <==> !Mentions(l, newKey)
  {
    if Mentions(l, newKey) {
      BackLeavesNothing(l, oldKey, newKey);
      PutMentions(l, oldKey, "id", None, newKey);
    } else {
      UnknownNumberIsUndone(l, oldKey, newKey);
    }
  }

  // ----- there and back, for an entity

  /**
    The whole state after a reservation was undone: as before it, but for the clock and an empty id under the
    temporary key.
   */
  ghost predicate IsUndone(w: World, end: World, n: Node) {
    end == WithLedger(Tick(w), EntityOf(w, n).root, Cleared(LedgerOf(w, n), KeyOf(w, n)))
  }

  /** An entity that is about to get this number from the allocator. */
  ghost predicate GetsNumber(env: Environment, w: World, n: Node, number: int) {
    && GraphRollback.IdLess(EntityOf(w, n)) && w.undo == [] && LedgerOf(w, n).Valid()
    && env.allocate(w.clock, n.typeName) == Some(number) && number != EntityOf(w, n).ledgerId
  }

  /** The world after a reservation that was not refused. */
  lemma {:induction false} ReservedThere(env: Environment, w: World, n: Node, number: int)
    requires GetsNumber(env, w, n, number)
    requires !Conflicts(LedgerOf(w, n), EntityKey(n.typeName, number), VersionOf(LedgerOf(w, n), KeyOf(w, n)))
    ensures ReserveId(env, w, n) == Progress(
      GraphRollback.ReservedWorld(w, n, number, There(LedgerOf(w, n), KeyOf(w, n), EntityKey(n.typeName, number))), false)
  {
  }

  lemma {:induction false} OneActionRunsBack(w: World, a: UndoAction)
    requires w.undo == [a] && Undo(w.(undo := []), a).world.undo == []
    ensures RolledBack(w).0 == Undo(w.(undo := []), a).world
  {
    var r := Undo(w.(undo := []), a);
    assert w.undo[..0] == [] && r.world.(undo := []) == r.world;
    assert RolledBack(r.world).0 == r.world;
  }

  lemma {:induction false} ReservedBack(w: World, n: Node, number: int)
    requires GraphRollback.IdLess(EntityOf(w, n)) && w.undo == [] && LedgerOf(w, n).Valid()
    requires number != EntityOf(w, n).ledgerId
    ensures var oldKey, newKey := KeyOf(w, n), EntityKey(n.typeName, number);
      var there := There(LedgerOf(w, n), oldKey, newKey);
      RolledBack(GraphRollback.ReservedWorld(w, n, number, there)).0
        == WithLedger(Tick(w), EntityOf(w, n).root, Back(there, oldKey, newKey))
  {
    var e, oldKey, newKey := EntityOf(w, n), KeyOf(w, n), EntityKey(n.typeName, number);
    var there := There(LedgerOf(w, n), oldKey, newKey);
    var reserved := GraphRollback.ReservedWorld(w, n, number, there);
    BackLeavesNothing(LedgerOf(w, n), oldKey, newKey);
    UndoneThere(w, n, number, there);
    OneActionRunsBack(reserved, UndoReservation(n, e.ledgerId, e.loaded, number));
  }

  lemma {:induction false} UndoneThere(w: World, n: Node, number: int, there: Root)
    requires GraphRollback.IdLess(EntityOf(w, n)) && w.undo == []
    requires Rekey(there, EntityKey(n.typeName, number), KeyOf(w, n)) == Ok(Rekeyed(there, EntityKey(n.typeName, number), KeyOf(w, n)))
    ensures var e, reserved := EntityOf(w, n), GraphRollback.ReservedWorld(w, n, number, there);
      Undo(reserved.(undo := []), UndoReservation(n, e.ledgerId, e.loaded, number)).world
        == WithLedger(Tick(w), e.root, Back(there, KeyOf(w, n), EntityKey(n.typeName, number)))
  {
    var e, reserved := EntityOf(w, n), GraphRollback.ReservedWorld(w, n, number, there);
    var e1 := e.(id := Some(number), loaded := e.loaded + {"id"}, ledgerId := number);
    assert e1.(id := None, ledgerId := e.ledgerId, loaded := e.loaded) == e;
    assert w.entities[n.self := e1][n.self := e] == w.entities;
    var back := Back(there, KeyOf(w, n), EntityKey(n.typeName, number));
    assert w.ledgers[e.root := there][e.root := back] == w.ledgers[e.root := back];
  }

  /**
    Without the promise that allocated numbers are fresh: a reservation that got a number is undone, whole state
    for whole state, if and only if nothing in the ledger mentions that number under the entity's type.
   */
  lemma {:induction false} ReservationUndoableIff(env: Environment, w: World, n: Node, number: int)
    requires GetsNumber(env, w, n, number)
    ensures IsUndone(w, RolledBack(ReserveId(env, w, n).world).0, n) <==> !Mentions(LedgerOf(w, n), EntityKey(n.typeName, number))
  {
    var l, oldKey, newKey := LedgerOf(w, n), KeyOf(w, n), EntityKey(n.typeName, number);
    if Conflicts(l, newKey, VersionOf(l, oldKey)) {
      RefusedKeepsNumber(env, w, n, number);
    } else {
      ReservedThere(env, w, n, number);
      ReservedBack(w, n, number);
      BackIsClearedIff(l, oldKey, newKey);
      SameLedgerSameWorld(Tick(w), EntityOf(w, n).root, Back(There(l, oldKey, newKey), oldKey, newKey), Cleared(l, oldKey));
    }
  }

  lemma {:induction false} SameLedgerSameWorld(w: World, root: RootId, l: Root, m: Root)
    ensures WithLedger(w, root, l) == WithLedger(w, root, m) <==> l == m
  {
    assert WithLedger(w, root, l).ledgers[root] == l && WithLedger(w, root, m).ledgers[root] == m;
  }

  /** A refused move has assigned the number already, and nothing is registered to take it away again. */
  lemma {:induction false} RefusedKeepsNumber(env: Environment, w: World, n: Node, number: int)
    requires GetsNumber(env, w, n, number)
    requires Conflicts(LedgerOf(w, n), EntityKey(n.typeName, number), VersionOf(LedgerOf(w, n), KeyOf(w, n)))
    ensures EntityOf(RolledBack(ReserveId(env, w, n).world).0, n).id == Some(number)
    ensures !IsUndone(w, RolledBack(ReserveId(env, w, n).world).0, n)
  {
    var r := ReserveId(env, w, n).world;
    assert r.undo == [] && RolledBack(r).0 == r;
    assert EntityOf(r, n).id == Some(number);
    assert Tick(w).entities == w.entities;
  }

  // ----- the two ways it fails, at an input

  const NODE := Node(0, "T", [], None)
  const TEMPORARY := EntityKey("T", -1)
  const KNOWN := EntityKey("T", 5)

  /** A new entity, and a ledger that knows number 5 of its type: with a pending name, and some version. */
  function KnowingLedger(versions: map<EntityKey, int>): Root {
    Ledger([map[KNOWN := map["name" := Some(Str("other"))]]], versions, {TEMPORARY}, {}, map[])
  }

  function KnowingWorld(versions: map<EntityKey, int>): World {
    World(map[0 := Entity(0, Create, None, None, -1, {}, map[])], map[0 := KnowingLedger(versions)], 0, [], [], [], [])
  }

  function Answering(number: int): Environment {
    var accepts := (_: nat, c: Command) => Accepts(c.values);
    Environment((_, _) => Some(number), accepts, accepts, (_, _) => Fails)
  }

  lemma {:induction false} KnowingIsValid(versions: map<EntityKey, int>)
    ensures KnowingLedger(versions).Valid() && HasPending(KnowingLedger(versions), KNOWN)
  {
    assert !Blank("name") by {
      assert "name"[0] in "name" && !IsStripped('n');
    }
    var layer: Changes := map[KNOWN := map["name" := Some(Str("other"))]];
    assert "name" in layer[KNOWN];
    assert KnowingLedger(versions).layers[0] == layer;
  }

  lemma {:induction false} KnowingGetsNumber(versions: map<EntityKey, int>)
    ensures GetsNumber(Answering(5), KnowingWorld(versions), NODE, 5)
    ensures KeyOf(KnowingWorld(versions), NODE) == TEMPORARY
    ensures LedgerOf(KnowingWorld(versions), NODE) == KnowingLedger(versions)
    ensures Mentions(LedgerOf(KnowingWorld(versions), NODE), KNOWN)
  {
    KnowingIsValid(versions);
  }

  /** The rollback takes the other entity's state along: its version ends up under the temporary key, its name too. */
  lemma {:induction false} RollbackMovesForeignState()
    ensures var w := KnowingWorld(map[KNOWN := 3]);
      var end := RolledBack(ReserveId(Answering(5), w, NODE).world).0;
      && VersionOf(LedgerOf(w, NODE), KNOWN) == Some(3) && HasPending(LedgerOf(w, NODE), KNOWN)
      && EntityOf(end, NODE) == EntityOf(w, NODE)
      && VersionOf(LedgerOf(end, NODE), KNOWN) == None && !HasPending(LedgerOf(end, NODE), KNOWN)
      && VersionOf(LedgerOf(end, NODE), TEMPORARY) == Some(3)
      && !IsUndone(w, end, NODE)
  {
    var w := KnowingWorld(map[KNOWN := 3]);
    var l := LedgerOf(w, NODE);
    KnowingGetsNumber(map[KNOWN := 3]);
    ReservationUndoableIff(Answering(5), w, NODE, 5);
    ReservedThere(Answering(5), w, NODE, 5);
    ReservedBack(w, NODE, 5);
    BackLeavesNothing(l, TEMPORARY, KNOWN);
    assert LedgerOf(RolledBack(ReserveId(Answering(5), w, NODE).world).0, NODE) == Back(There(l, TEMPORARY, KNOWN), TEMPORARY, KNOWN);
  }

  /** Two recorded versions: the move is refused and the number stays. */
  lemma {:induction false} ConflictKeepsNumber()
    ensures var w := KnowingWorld(map[KNOWN := 3, TEMPORARY := 1]);
      EntityOf(RolledBack(ReserveId(Answering(5), w, NODE).world).0, NODE).id == Some(5)
  {
    KnowingGetsNumber(map[KNOWN := 3, TEMPORARY := 1]);
    RefusedKeepsNumber(Answering(5), KnowingWorld(map[KNOWN := 3, TEMPORARY := 1]), NODE, 5);
  }
}
