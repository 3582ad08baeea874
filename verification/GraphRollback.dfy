/** Wherever a save stops, running the undo actions last-in-first-out brings every entity back. */
module GraphRollback {
  import opened Outcomes
  import opened LedgerModel
  import opened GraphModel
  import opened GraphInduction
  import TraceScope

  // ----- what is assumed of the start and of the environment

  predicate IdLess(e: Entity) {
    e.action == Create && e.id.None?
  }

  /** How generated constructors leave the entities of a graph. */
  ghost predicate WellFormed(w: World, nodes: set<Node>) {
    && (forall n, m :: n in nodes && m in nodes && n != m ==> n.self != m.self)
    && (forall n, m :: n in nodes && m in nodes && n != m && IdLess(EntityOf(w, n)) ==> KeyOf(w, n) != KeyOf(w, m))
    && (forall n :: n in nodes && EntityOf(w, n).id.Some? ==> EntityOf(w, n).ledgerId == EntityOf(w, n).id.value)
    && (forall n :: n in nodes && IdLess(EntityOf(w, n)) ==> KeyOf(w, n) in LedgerOf(w, n).newKeys)
    && (forall n, root :: n in nodes && IdLess(EntityOf(w, n)) ==> KeyOf(w, n) !in LedgerAt(w, root).versions)
  }

  ghost predicate Allocated(env: Environment, clock: nat, key: EntityKey) {
    env.allocate(clock, key.entity) == Some(key.id)
  }

  /** The allocator hands out each number of a type once, and none that the graph or a ledger already knows. */
  ghost predicate Fresh(env: Environment, w: World, nodes: set<Node>) {
    && (forall c, d, key :: Allocated(env, c, key) && Allocated(env, d, key) ==> c == d)
    && (forall c, key, n :: Allocated(env, c, key) && n in nodes ==> key != KeyOf(w, n))
    && (forall c, key, root :: Allocated(env, c, key) ==> key !in LedgerAt(w, root).versions)
  }

  /** A persisted record carries the id its command carried. */
  ghost predicate ReturnsReservedId(env: Environment) {
    forall clock, command :: env.mutate(clock, command).Persisted? && env.mutate(clock, command).id.Some? ==>
      env.mutate(clock, command).id == command.id
  }

  // ----- what an undo action does to its entity

  /** The part of an entity that rollback accounts for. */
  datatype Core = Core(id: Option<int>, version: Option<int>, action: Action, ledgerId: int, loaded: set<string>)

  function CoreOf(e: Entity): Core {
    Core(e.id, e.version, e.action, e.ledgerId, e.loaded)
  }

  function UndoCore(a: UndoAction, c: Core): Core {
    match a
    case UndoReservation(_, oldId, oldLoaded, _) => c.(id := None, ledgerId := oldId, loaded := oldLoaded)
    case UndoSave(_, before, _) => CoreOf(before)
  }

  /** Back where it was; the loaded fields are promised only for entities that had no id. */
  predicate Restored(start: Entity, c: Core) {
    && c.id == start.id && c.version == start.version && c.action == start.action && c.ledgerId == start.ledgerId
    && (IdLess(start) ==> c.loaded == start.loaded)
  }

  /** The actions registered for one entity, oldest first. */
  function ActionsOf(undo: seq<UndoAction>, self: NodeId): seq<UndoAction> {
    if undo == [] then []
    else
      var front, last := ActionsOf(undo[..|undo| - 1], self), undo[|undo| - 1];
      if last.node.self == self then front + [last] else front
  }

  /** Undoing the actions from the last one on leads back to the start, and each finds the state it left. */
  predicate Undoable(start: Entity, actions: seq<UndoAction>, c: Core)
    decreases |actions|
  {
    if actions == [] then Restored(start, c)
    else
      var front, last := actions[..|actions| - 1], actions[|actions| - 1];
      && last.newId == c.ledgerId
      && (if last.UndoReservation? then front == [] && c.id == Some(last.newId) && c.action == Create
          else last.before.ledgerId == last.newId && last.before.id == c.id && c.action != Create)
      && Undoable(start, front, UndoCore(last, c))
  }

  // ----- the invariant

  /** A key that no ledger may ever record a version for: a temporary one, or a newly allocated one. */
  ghost predicate Unversioned(env: Environment, nodes: set<Node>, start: World, key: EntityKey) {
    || (exists c :: Allocated(env, c, key))
    || (exists n :: n in nodes && IdLess(EntityOf(start, n)) && key == KeyOf(start, n))
  }

  ghost predicate NoVersions(env: Environment, nodes: set<Node>, start: World, w: World) {
    forall key, root :: Unversioned(env, nodes, start, key) ==> key !in LedgerAt(w, root).versions
  }

  /** The entity still has its first key, or one the allocator has handed out since. */
  ghost predicate KeyHasOrigin(env: Environment, start: World, w: World, n: Node) {
    || KeyOf(w, n) == KeyOf(start, n)
    || (IdLess(EntityOf(start, n)) && exists c :: start.clock <= c < w.clock && Allocated(env, c, KeyOf(w, n)))
  }

  /** The keys of entities without an id, then and now, are nobody else's. */
  ghost predicate KeysApart(nodes: set<Node>, start: World, w: World) {
    forall n, m :: n in nodes && m in nodes && n != m && (IdLess(EntityOf(start, n)) || IdLess(EntityOf(start, m))) ==>
      KeyOf(w, n) != KeyOf(w, m) && KeyOf(w, n) != KeyOf(start, m)
  }

  ghost predicate EntityInvariant(env: Environment, start: World, w: World, n: Node) {
    var e := EntityOf(w, n);
    && Undoable(EntityOf(start, n), ActionsOf(w.undo, n.self), CoreOf(e))
    && (e.id.Some? ==> e.ledgerId == e.id.value)
    && KeyHasOrigin(env, start, w, n)
    && (IdLess(EntityOf(start, n)) ==> KeyOf(w, n) in LedgerOf(w, n).newKeys)
  }

  ghost predicate Invariant(env: Environment, nodes: set<Node>, start: World, w: World) {
    && start.clock <= w.clock
    && (forall i :: 0 <= i < |w.undo| ==> w.undo[i].node in nodes)
    && (forall n :: n in nodes ==> EntityInvariant(env, start, w, n))
    && KeysApart(nodes, start, w)
    && NoVersions(env, nodes, start, w)
  }

  /** A key for one entity that is apart from those of the others. */
  ghost predicate KeyApart(nodes: set<Node>, start: World, w: World, key: EntityKey, n: Node) {
    forall m :: m in nodes && m != n && (IdLess(EntityOf(start, n)) || IdLess(EntityOf(start, m))) ==>
      key != KeyOf(w, m) && key != KeyOf(start, m)
  }

  /** A step that changes one entity, as far as keys and undo actions are concerned. */
  lemma {:induction false} OneEntityChanged(env: Environment, nodes: set<Node>, start: World, w: World, w1: World,
      n: Node)
    requires Invariant(env, nodes, start, w) && n in nodes && start.clock <= w1.clock
    requires forall i :: 0 <= i < |w1.undo| ==> w1.undo[i].node in nodes
    requires EntityInvariant(env, start, w1, n) && KeyApart(nodes, start, w, KeyOf(w1, n), n)
    requires forall m :: m in nodes && m != n ==> EntityInvariant(env, start, w1, m) && KeyOf(w1, m) == KeyOf(w, m)
    requires NoVersions(env, nodes, start, w1)
    ensures Invariant(env, nodes, start, w1)
  {
    forall k, m | k in nodes && m in nodes && k != m && (IdLess(EntityOf(start, k)) || IdLess(EntityOf(start, m)))
      ensures KeyOf(w1, k) != KeyOf(w1, m) && KeyOf(w1, k) != KeyOf(start, m)
    {
      if k == n {
        assert KeyOf(w1, m) == KeyOf(w, m);
      } else {
        assert KeyOf(w1, k) == KeyOf(w, k);
      }
    }
  }

  /** The session starts with nothing to undo. */
  lemma {:induction false} InvariantAtStart(env: Environment, nodes: set<Node>, start: World)
    requires WellFormed(start, nodes) && Fresh(env, start, nodes) && start.undo == []
    ensures Invariant(env, nodes, start, start)
  {
    forall key, root | Unversioned(env, nodes, start, key)
      ensures key !in LedgerAt(start, root).versions
    {
    }
  }

  // ----- every primitive change keeps it

  lemma {:induction false} VersionsKept(env: Environment, nodes: set<Node>, start: World, w: World, w1: World)
    requires NoVersions(env, nodes, start, w)
    requires forall root :: LedgerAt(w1, root).versions == LedgerAt(w, root).versions
    ensures NoVersions(env, nodes, start, w1)
  {
    forall key, root | Unversioned(env, nodes, start, key)
      ensures key !in LedgerAt(w1, root).versions
    {
      assert key !in LedgerAt(w, root).versions;
    }
  }

  /** An entity that a change does not touch, in a ledger that keeps its mark. */
  lemma {:induction false} UntouchedEntity(env: Environment, start: World, w: World, w1: World, m: Node)
    requires EntityInvariant(env, start, w, m) && w1.clock >= w.clock
    requires EntityOf(w1, m) == EntityOf(w, m) && ActionsOf(w1.undo, m.self) == ActionsOf(w.undo, m.self)
    requires IdLess(EntityOf(start, m)) ==> KeyOf(w, m) in LedgerOf(w1, m).newKeys
    ensures EntityInvariant(env, start, w1, m) && KeyOf(w1, m) == KeyOf(w, m)
  {
  }

  lemma {:induction false} AppendedAction(undo: seq<UndoAction>, a: UndoAction, self: NodeId)
    ensures ActionsOf(undo + [a], self) == if a.node.self == self then ActionsOf(undo, self) + [a] else ActionsOf(undo, self)
  {
    assert (undo + [a])[..|undo|] == undo;
  }

  /** The other entities when an action is registered for one. */
  lemma {:induction false} OthersAfterAction(env: Environment, nodes: set<Node>, start: World, w: World, w1: World,
      a: UndoAction)
    requires WellFormed(start, nodes) && Invariant(env, nodes, start, w) && a.node in nodes
    requires w1.undo == w.undo + [a] && w1.clock >= w.clock
    requires forall m: Node :: m.self != a.node.self ==> EntityOf(w1, m) == EntityOf(w, m)
    requires forall r :: LedgerAt(w, r).newKeys - {KeyOf(w, a.node)} <= LedgerAt(w1, r).newKeys
    ensures forall m :: m in nodes && m != a.node ==> EntityInvariant(env, start, w1, m) && KeyOf(w1, m) == KeyOf(w, m)
  {
    forall m | m in nodes && m != a.node
      ensures EntityInvariant(env, start, w1, m) && KeyOf(w1, m) == KeyOf(w, m)
    {
      assert EntityInvariant(env, start, w, m) && m.self != a.node.self;
      AppendedAction(w.undo, a, m.self);
      assert IdLess(EntityOf(start, m)) ==> KeyOf(w, m) != KeyOf(w, a.node);
      UntouchedEntity(env, start, w, w1, m);
    }
  }

  lemma {:induction false} MergedMarks(target: Root, source: Root, key: EntityKey)
    ensures var r := Import(target, Snapshot(source, key));
      && r.newKeys == (if key in source.newKeys then target.newKeys + {key} else target.newKeys)
      && r.versions.Keys == (if key in source.versions then target.versions.Keys + {key} else target.versions.Keys)
  {
  }

  /** Attaching moves its entity to another ledger with its marks; a version can only come from the old ledger. */
  lemma {:induction false} AttachChanges(w: World, n: Node, root: RootId)
    ensures var w1 := AttachOne(w, n, root).world;
      && w1.undo == w.undo && w1.clock == w.clock && w1.commits == w.commits && Attached(w, n, w1)
  {
    AttachOneIs(w, n, root);
    MergedMarks(LedgerAt(w, root), LedgerOf(w, n), KeyOf(w, n));
    AttachedChanges(w, n, root, Import(LedgerAt(w, root), Snapshot(LedgerOf(w, n), KeyOf(w, n))));
  }

  lemma {:induction false} AttachOneIs(w: World, n: Node, root: RootId)
    ensures var w1 := AttachOne(w, n, root).world;
      || w1 == w
      || w1 == AttachedWorld(w, n, root, Import(LedgerAt(w, root), Snapshot(LedgerOf(w, n), KeyOf(w, n))))
  {
  }

  function AttachedWorld(w: World, n: Node, root: RootId, l: Root): World {
    WithEntity(WithLedger(w, root, l), n, EntityOf(w, n).(root := root))
  }

  ghost predicate Attached(w: World, n: Node, w1: World) {
    && (forall m: Node :: m.self != n.self ==> EntityOf(w1, m) == EntityOf(w, m))
    && EntityOf(w1, n) == EntityOf(w, n).(root := EntityOf(w1, n).root)
    && (KeyOf(w, n) in LedgerOf(w, n).newKeys ==> KeyOf(w, n) in LedgerOf(w1, n).newKeys)
    && (forall r :: LedgerAt(w, r).newKeys <= LedgerAt(w1, r).newKeys)
    && (forall r, k :: k in LedgerAt(w1, r).versions ==> k in LedgerAt(w, r).versions || k in LedgerOf(w, n).versions)
  }

  lemma {:induction false} AttachedChanges(w: World, n: Node, root: RootId, l: Root)
    requires LedgerAt(w, root).newKeys <= l.newKeys
    requires KeyOf(w, n) in LedgerOf(w, n).newKeys ==> KeyOf(w, n) in l.newKeys
    requires l.versions.Keys <= LedgerAt(w, root).versions.Keys + LedgerOf(w, n).versions.Keys
    ensures Attached(w, n, AttachedWorld(w, n, root, l))
  {
  }

  lemma {:induction false} AttachKeepsInvariant(env: Environment, nodes: set<Node>, start: World, w: World, n: Node,
      root: RootId)
    requires WellFormed(start, nodes) && Invariant(env, nodes, start, w) && n in nodes
    ensures Invariant(env, nodes, start, AttachOne(w, n, root).world)
  {
    AttachChanges(w, n, root);
    AttachedKeepsInvariant(env, nodes, start, w, AttachOne(w, n, root).world, n);
  }

  lemma {:induction false} AttachedKeepsInvariant(env: Environment, nodes: set<Node>, start: World, w: World,
      w1: World, n: Node)
    requires WellFormed(start, nodes) && Invariant(env, nodes, start, w) && n in nodes
    requires w1.undo == w.undo && w1.clock == w.clock && Attached(w, n, w1)
    ensures Invariant(env, nodes, start, w1)
  {
    forall m | m in nodes
      ensures EntityInvariant(env, start, w1, m) && KeyOf(w1, m) == KeyOf(w, m)
    {
      assert EntityInvariant(env, start, w, m);
      if m != n {
        UntouchedEntity(env, start, w, w1, m);
      }
    }
    forall k, r | Unversioned(env, nodes, start, k)
      ensures k !in LedgerAt(w1, r).versions
    {
      assert k !in LedgerAt(w, r).versions && k !in LedgerAt(w, EntityOf(w, n).root).versions;
    }
  }

  lemma {:induction false} TickKeepsInvariant(env: Environment, nodes: set<Node>, start: World, w: World)
    requires Invariant(env, nodes, start, w)
    ensures Invariant(env, nodes, start, Tick(w))
  {
    forall n | n in nodes
      ensures EntityInvariant(env, start, Tick(w), n)
    {
      assert EntityInvariant(env, start, w, n);
    }
    VersionsKept(env, nodes, start, w, Tick(w));
  }

  /** Marks and versions of a ledger after a key without a version has moved. */
  lemma {:induction false} MovedMarks(l: Root, oldKey: EntityKey, newKey: EntityKey, value: Cell)
    requires oldKey !in l.versions
    ensures Rekey(l, oldKey, newKey).Ok?
    ensures var r := Put(Rekey(l, oldKey, newKey).value, newKey, "id", value);
      && r.versions == l.versions
      && r.newKeys == if oldKey != newKey then MoveMember(l.newKeys, oldKey, newKey) else l.newKeys
  {
  }

  /** An entity about to get an id has nothing registered and still has its first key. */
  lemma {:induction false} BeforeReservation(env: Environment, nodes: set<Node>, start: World, w: World, n: Node)
    requires Invariant(env, nodes, start, w) && n in nodes && IdLess(EntityOf(w, n))
    ensures ActionsOf(w.undo, n.self) == []
    ensures IdLess(EntityOf(start, n)) && KeyOf(w, n) == KeyOf(start, n)
    ensures EntityOf(w, n).loaded == EntityOf(start, n).loaded
    ensures Unversioned(env, nodes, start, KeyOf(w, n))
  {
    assert EntityInvariant(env, start, w, n);
  }

  /** A number allocated now is not the current or the first number of any entity. */
  lemma {:induction false} AllocatedKeyIsNew(env: Environment, nodes: set<Node>, start: World, w: World, key: EntityKey)
    requires Fresh(env, start, nodes) && Invariant(env, nodes, start, w) && Allocated(env, w.clock, key)
    ensures forall m :: m in nodes ==> key != KeyOf(w, m) && key != KeyOf(start, m)
  {
    forall m | m in nodes
      ensures key != KeyOf(w, m) && key != KeyOf(start, m)
    {
      assert EntityInvariant(env, start, w, m);
    }
  }

  /** The world after a reservation that got a number. */
  function ReservedWorld(w: World, n: Node, id: int, l: Root): World {
    var e := EntityOf(w, n);
    WithLedger(WithEntity(Tick(w), n, e.(id := Some(id), loaded := e.loaded + {"id"}, ledgerId := id)), e.root, l)
      .(undo := w.undo + [UndoReservation(n, e.ledgerId, e.loaded, id)])
  }

  lemma {:induction false} ReserveKeepsInvariant(env: Environment, nodes: set<Node>, start: World, w: World, n: Node)
    requires WellFormed(start, nodes) && Fresh(env, start, nodes) && Invariant(env, nodes, start, w)
    requires n in nodes && IdLess(EntityOf(w, n))
    ensures Invariant(env, nodes, start, ReserveId(env, w, n).world)
    ensures env.allocate(w.clock, n.typeName).Some? ==> !ReserveId(env, w, n).raised
  {
    var id := env.allocate(w.clock, n.typeName);
    if id.None? {
      TickKeepsInvariant(env, nodes, start, w);
    } else {
      BeforeReservation(env, nodes, start, w, n);
      var oldKey, newKey := KeyOf(w, n), EntityKey(n.typeName, id.value);
      MovedMarks(LedgerOf(w, n), oldKey, newKey, Some(Int(id.value)));
      var l := Put(Rekey(LedgerOf(w, n), oldKey, newKey).value, newKey, "id", Some(Int(id.value)));
      assert ReserveId(env, w, n).world == ReservedWorld(w, n, id.value, l);
      ReservedKeepsInvariant(env, nodes, start, w, n, id.value, l);
    }
  }

  lemma {:induction false} ReservedKeepsInvariant(env: Environment, nodes: set<Node>, start: World, w: World,
      n: Node, id: int, l: Root)
    requires WellFormed(start, nodes) && Fresh(env, start, nodes) && Invariant(env, nodes, start, w)
    requires n in nodes && IdLess(EntityOf(w, n)) && Allocated(env, w.clock, EntityKey(n.typeName, id))
    requires l.versions == LedgerOf(w, n).versions
    requires l.newKeys == MoveMember(LedgerOf(w, n).newKeys, KeyOf(w, n), EntityKey(n.typeName, id))
    ensures Invariant(env, nodes, start, ReservedWorld(w, n, id, l))
  {
    ReservedState(w, n, id, l);
    BeforeReservation(env, nodes, start, w, n);
    ReservedEntity(env, nodes, start, w, n, id, l);
    AfterReservation(env, nodes, start, w, ReservedWorld(w, n, id, l), UndoReservation(n, EntityOf(w, n).ledgerId, EntityOf(w, n).loaded, id));
  }

  lemma {:induction false} AfterReservation(env: Environment, nodes: set<Node>, start: World, w: World, w1: World,
      a: UndoAction)
    requires WellFormed(start, nodes) && Fresh(env, start, nodes) && Invariant(env, nodes, start, w) && a.node in nodes
    requires Allocated(env, w.clock, KeyOf(w1, a.node)) && EntityInvariant(env, start, w1, a.node)
    requires w1.undo == w.undo + [a] && w1.clock >= w.clock
    requires forall m: Node :: m.self != a.node.self ==> EntityOf(w1, m) == EntityOf(w, m)
    requires forall r :: LedgerAt(w, r).newKeys - {KeyOf(w, a.node)} <= LedgerAt(w1, r).newKeys
    requires forall r :: LedgerAt(w1, r).versions == LedgerAt(w, r).versions
    ensures Invariant(env, nodes, start, w1)
  {
    AllocatedKeyIsNew(env, nodes, start, w, KeyOf(w1, a.node));
    OthersAfterAction(env, nodes, start, w, w1, a);
    VersionsKept(env, nodes, start, w, w1);
    assert KeyApart(nodes, start, w, KeyOf(w1, a.node), a.node);
    OneEntityChanged(env, nodes, start, w, w1, a.node);
  }

  lemma {:induction false} ReservedState(w: World, n: Node, id: int, l: Root)
    ensures var w1 := ReservedWorld(w, n, id, l);
      && w1.undo == w.undo + [UndoReservation(n, EntityOf(w, n).ledgerId, EntityOf(w, n).loaded, id)]
      && w1.clock == w.clock + 1
      && (forall m: Node :: m.self != n.self ==> EntityOf(w1, m) == EntityOf(w, m))
      && (forall root :: LedgerAt(w1, root) == if root == EntityOf(w, n).root then l else LedgerAt(w, root))
  {
  }

  lemma {:induction false} ReservedEntity(env: Environment, nodes: set<Node>, start: World, w: World, n: Node,
      id: int, l: Root)
    requires Invariant(env, nodes, start, w)
    requires n in nodes && IdLess(EntityOf(w, n)) && Allocated(env, w.clock, EntityKey(n.typeName, id))
    requires l.newKeys == MoveMember(LedgerOf(w, n).newKeys, KeyOf(w, n), EntityKey(n.typeName, id))
    ensures EntityInvariant(env, start, ReservedWorld(w, n, id, l), n)
    ensures KeyOf(ReservedWorld(w, n, id, l), n) == EntityKey(n.typeName, id)
  {
    var w1 := ReservedWorld(w, n, id, l);
    BeforeReservation(env, nodes, start, w, n);
    assert EntityInvariant(env, start, w, n);
    assert KeyOf(w1, n) == EntityKey(n.typeName, id);
    ReservedIsUndoable(EntityOf(start, n), EntityOf(w, n), w.undo, n, id);
    assert KeyHasOrigin(env, start, w1, n);
  }

  lemma {:induction false} ReservedIsUndoable(start: Entity, e: Entity, undo: seq<UndoAction>, n: Node, id: int)
    requires ActionsOf(undo, n.self) == [] && Restored(start, CoreOf(e)) && IdLess(e)
    ensures var a := UndoReservation(n, e.ledgerId, e.loaded, id);
      var e1 := e.(id := Some(id), loaded := e.loaded + {"id"}, ledgerId := id);
      Undoable(start, ActionsOf(undo + [a], n.self), CoreOf(e1))
  {
    var a := UndoReservation(n, e.ledgerId, e.loaded, id);
    var e1 := e.(id := Some(id), loaded := e.loaded + {"id"}, ledgerId := id);
    assert (undo + [a])[..|undo|] == undo;
    assert ActionsOf(undo + [a], n.self) == [a];
    assert [a][..0] == [];
    assert UndoCore(a, CoreOf(e1)) == CoreOf(e);
  }

  /**
    Changes that leave clock, undo list, ids, versions, actions, keys, marks and recorded versions alone keep the
    invariant.
   */
  lemma {:induction false} SilentChangeKeepsInvariant(env: Environment, nodes: set<Node>, start: World, w: World,
      w1: World)
    requires Invariant(env, nodes, start, w)
    requires w1.clock >= w.clock && w1.undo == w.undo
    requires forall n :: n in nodes ==>
      && EntityOf(w1, n).root == EntityOf(w, n).root
      && CoreOf(EntityOf(w1, n)).(loaded := {}) == CoreOf(EntityOf(w, n)).(loaded := {})
      && (EntityOf(w1, n).loaded != EntityOf(w, n).loaded ==> !IdLess(EntityOf(w, n)))
    requires forall root :: LedgerAt(w1, root).newKeys == LedgerAt(w, root).newKeys && LedgerAt(w1, root).versions == LedgerAt(w, root).versions
    ensures Invariant(env, nodes, start, w1)
  {
    forall n | n in nodes
      ensures EntityInvariant(env, start, w1, n) && KeyOf(w1, n) == KeyOf(w, n)
    {
      SilentChangeOfEntity(env, start, w, w1, n);
    }
    VersionsKept(env, nodes, start, w, w1);
  }

  lemma {:induction false} SilentChangeOfEntity(env: Environment, start: World, w: World, w1: World, n: Node)
    requires EntityInvariant(env, start, w, n) && w1.clock >= w.clock && w1.undo == w.undo
    requires EntityOf(w1, n).root == EntityOf(w, n).root
    requires CoreOf(EntityOf(w1, n)).(loaded := {}) == CoreOf(EntityOf(w, n)).(loaded := {})
    requires EntityOf(w1, n).loaded != EntityOf(w, n).loaded ==> !IdLess(EntityOf(w, n))
    requires LedgerOf(w1, n).newKeys == LedgerOf(w, n).newKeys
    ensures EntityInvariant(env, start, w1, n) && KeyOf(w1, n) == KeyOf(w, n)
  {
    LoadedIsNotNeeded(EntityOf(start, n), ActionsOf(w.undo, n.self), CoreOf(EntityOf(w, n)), EntityOf(w1, n).loaded);
  }

  /** Once an entity has an id or is not new, its loaded fields may change. */
  lemma {:induction false} LoadedIsNotNeeded(start: Entity, actions: seq<UndoAction>, c: Core, loaded: set<string>)
    requires Undoable(start, actions, c)
    requires loaded != c.loaded ==> !(c.action == Create && c.id.None?)
    ensures Undoable(start, actions, c.(loaded := loaded))
  {
    if actions != [] {
      var last := actions[|actions| - 1];
      assert UndoCore(last, c.(loaded := loaded)) == UndoCore(last, c);
    }
  }

  /** Carrying values back touches neither entities nor marks nor versions. */
  lemma {:induction false} CarryBackChanges(w: World, n: Node, values: Fields)
    ensures var w1 := CarryBack(Tick(w), n, values);
      && w1.clock >= w.clock && w1.undo == w.undo && w1.entities == w.entities
      && (forall m: Node :: EntityOf(w1, m) == EntityOf(w, m))
      && (forall r :: LedgerAt(w1, r).newKeys == LedgerAt(w, r).newKeys && LedgerAt(w1, r).versions == LedgerAt(w, r).versions)
  {
  }

  lemma {:induction false} CarryBackKeepsInvariant(env: Environment, nodes: set<Node>, start: World, w: World, n: Node,
      values: Fields)
    requires Invariant(env, nodes, start, w)
    ensures Invariant(env, nodes, start, CarryBack(Tick(w), n, values))
  {
    CarryBackChanges(w, n, values);
    SilentChangeKeepsInvariant(env, nodes, start, w, CarryBack(Tick(w), n, values));
  }

  lemma {:induction false} LinkKeepsInvariant(env: Environment, nodes: set<Node>, start: World, w: World,
      child: Node, member: string,
      column: string, parent: Node)
    requires WellFormed(start, nodes) && Invariant(env, nodes, start, w) && child in nodes && !IdLess(EntityOf(w, child))
    ensures Invariant(env, nodes, start, Link(w, child, member, column, parent))
  {
    LinkChanges(w, child, member, column, parent);
    assert forall n :: n in nodes && n != child ==> n.self != child.self;
    SilentChangeKeepsInvariant(env, nodes, start, w, Link(w, child, member, column, parent));
  }

  /** A link changes the child's attributes, its loaded fields and its ledger's fields. */
  lemma {:induction false} LinkChanges(w: World, child: Node, member: string, column: string, parent: Node)
    ensures var w1, e := Link(w, child, member, column, parent), EntityOf(w, child);
      && w1.undo == w.undo && w1.commits == w.commits && w1.clock == w.clock
      && EntityOf(w1, child) == e.(attributes := EntityOf(w1, child).attributes, loaded := e.loaded + {member})
      && (forall n: Node :: n.self != child.self ==> EntityOf(w1, n) == EntityOf(w, n))
      && (forall root :: LedgerAt(w1, root).newKeys == LedgerAt(w, root).newKeys
           && LedgerAt(w1, root).versions == LedgerAt(w, root).versions)
  {
  }

  /** A send touches nothing but the ledger of its entity, the clock and the log. */
  lemma {:induction false} SendChanges(env: Environment, w: World, n: Node, scope: TraceScope.Scope)
    ensures var w1 := CarryBack(Tick(w), n, env.check(w.clock, BuildCommand(w, n)).values);
      var w2 := Send(env, w, n, scope).0.world;
      w2.entities == w1.entities && w2.ledgers == w1.ledgers && w2.undo == w1.undo && w2.commits == w1.commits
      && w2.visits == w1.visits && w2.clock >= w1.clock
  {
  }

  lemma {:induction false} SendKeepsInvariant(env: Environment, nodes: set<Node>, start: World, w: World, n: Node,
      scope: TraceScope.Scope)
    requires Invariant(env, nodes, start, w)
    ensures Invariant(env, nodes, start, Send(env, w, n, scope).0.world)
  {
    SendChanges(env, w, n, scope);
    var w1 := CarryBack(Tick(w), n, env.check(w.clock, BuildCommand(w, n)).values);
    CarryBackKeepsInvariant(env, nodes, start, w, n, env.check(w.clock, BuildCommand(w, n)).values);
    SameStateKeepsInvariant(env, nodes, start, w1, Send(env, w, n, scope).0.world);
  }

  lemma {:induction false} SameStateKeepsInvariant(env: Environment, nodes: set<Node>, start: World, w: World,
      w1: World)
    requires Invariant(env, nodes, start, w)
    requires w1.entities == w.entities && w1.ledgers == w.ledgers && w1.undo == w.undo && w1.clock >= w.clock
    ensures Invariant(env, nodes, start, w1)
  {
    SilentChangeKeepsInvariant(env, nodes, start, w, w1);
  }

  // ----- adopting a persisted record

  lemma {:induction false} StoreFieldsKeeps(e: Entity, columns: Fields, fields: seq<Field>)
    ensures var r := StoreFields(e, columns, fields);
      r.root == e.root && r.id == e.id && r.version == e.version && r.action == e.action && r.ledgerId == e.ledgerId
  {
    if fields != [] {
      StoreFieldsKeeps(e, columns, fields[..|fields| - 1]);
    }
  }

  /** Adopting keeps id and key, so the ledger does not move. */
  lemma {:induction false} AdoptKeepsKey(env: Environment, w: World, n: Node, reply: Reply)
    requires ReturnsReservedId(env) && Answers(env, w, n, reply)
    requires EntityOf(w, n).id.Some? ==> EntityOf(w, n).ledgerId == EntityOf(w, n).id.value
    ensures var e, adopted := EntityOf(w, n), Adopted(n, EntityOf(w, n), reply);
      && adopted.root == e.root && adopted.id == e.id && adopted.ledgerId == e.ledgerId && adopted.action == e.action
      && (reply.version.Some? ==> adopted.version == reply.version)
      && !Adopt(w, n, reply).raised
      && Adopt(w, n, reply).world == WithLedger(
           WithEntity(w, n, if e.action == Delete then adopted else adopted.(action := Update)), e.root, LedgerOf(w, n))
           .(undo := w.undo + [UndoSave(n, e, e.ledgerId)])
  {
    AdoptedKeepsKey(env, w, n, reply);
  }

  lemma {:induction false} AdoptedKeepsKey(env: Environment, w: World, n: Node, reply: Reply)
    requires ReturnsReservedId(env) && Answers(env, w, n, reply)
    requires EntityOf(w, n).id.Some? ==> EntityOf(w, n).ledgerId == EntityOf(w, n).id.value
    ensures var e, adopted := EntityOf(w, n), Adopted(n, EntityOf(w, n), reply);
      && adopted.root == e.root && adopted.id == e.id && adopted.ledgerId == e.ledgerId && adopted.action == e.action
      && (reply.version.Some? ==> adopted.version == reply.version)
  {
    StoreFieldsKeeps(EntityOf(w, n), reply.columns, n.fields);
  }

  /** Adopting changes its own entity only, and of that neither id nor key. */
  lemma {:induction false} AdoptChanges(env: Environment, w: World, n: Node, reply: Reply)
    requires ReturnsReservedId(env) && Answers(env, w, n, reply)
    requires EntityOf(w, n).id.Some? ==> EntityOf(w, n).ledgerId == EntityOf(w, n).id.value
    ensures var e, w1 := EntityOf(w, n), Adopt(w, n, reply).world;
      && !Adopt(w, n, reply).raised
      && w1.commits == w.commits && w1.sent == w.sent && w1.visits == w.visits && w1.clock == w.clock
      && (forall m: Node :: m.self != n.self ==> EntityOf(w1, m) == EntityOf(w, m))
      && EntityOf(w1, n).root == e.root && EntityOf(w1, n).id == e.id && KeyOf(w1, n) == KeyOf(w, n)
      && EntityOf(w1, n).action == (if e.action == Delete then Delete else Update)
      && (reply.version.Some? ==> EntityOf(w1, n).version == reply.version)
      && (forall root :: LedgerAt(w1, root) == LedgerAt(w, root))
  {
    AdoptKeepsKey(env, w, n, reply);
  }

  lemma {:induction false} AdoptedIsUndoable(start: Entity, e: Entity, e1: Entity, undo: seq<UndoAction>, n: Node)
    requires Undoable(start, ActionsOf(undo, n.self), CoreOf(e))
    requires e1.id == e.id && e1.ledgerId == e.ledgerId && e1.action != Create
    ensures Undoable(start, ActionsOf(undo + [UndoSave(n, e, e.ledgerId)], n.self), CoreOf(e1))
  {
    var a, front := UndoSave(n, e, e.ledgerId), ActionsOf(undo, n.self);
    assert (undo + [a])[..|undo|] == undo;
    assert ActionsOf(undo + [a], n.self) == front + [a];
    assert (front + [a])[..|front|] == front;
  }

  lemma {:induction false} AdoptKeepsInvariant(env: Environment, nodes: set<Node>, start: World, w: World, n: Node,
      reply: Reply)
    requires WellFormed(start, nodes) && ReturnsReservedId(env) && Invariant(env, nodes, start, w)
    requires n in nodes && Answers(env, w, n, reply)
    ensures Invariant(env, nodes, start, Adopt(w, n, reply).world)
    ensures !Adopt(w, n, reply).raised
  {
    assert EntityInvariant(env, start, w, n);
    AdoptKeepsKey(env, w, n, reply);
    var e, adopted := EntityOf(w, n), Adopted(n, EntityOf(w, n), reply);
    AdoptedKeepsInvariant(env, nodes, start, w, n, if e.action == Delete then adopted else adopted.(action := Update));
  }

  lemma {:induction false} AdoptedKeepsInvariant(env: Environment, nodes: set<Node>, start: World, w: World, n: Node,
      e1: Entity)
    requires WellFormed(start, nodes) && Invariant(env, nodes, start, w) && n in nodes
    requires var e := EntityOf(w, n);
      e1.root == e.root && e1.id == e.id && e1.ledgerId == e.ledgerId && e1.action != Create
    ensures Invariant(env, nodes, start,
      WithLedger(WithEntity(w, n, e1), EntityOf(w, n).root, LedgerOf(w, n))
        .(undo := w.undo + [UndoSave(n, EntityOf(w, n), EntityOf(w, n).ledgerId)]))
  {
    var e := EntityOf(w, n);
    var a := UndoSave(n, e, e.ledgerId);
    var w1 := WithLedger(WithEntity(w, n, e1), e.root, LedgerOf(w, n)).(undo := w.undo + [a]);
    SaveKeepsInvariant(env, nodes, start, w, w1, a);
  }

  /** A registered save: its entity keeps root, id and key, and no ledger changes. */
  lemma {:induction false} SaveKeepsInvariant(env: Environment, nodes: set<Node>, start: World, w: World, w1: World,
      a: UndoAction)
    requires WellFormed(start, nodes) && Invariant(env, nodes, start, w) && a.node in nodes
    requires a == UndoSave(a.node, EntityOf(w, a.node), EntityOf(w, a.node).ledgerId)
    requires w1.undo == w.undo + [a] && w1.clock >= w.clock
    requires forall m: Node :: m.self != a.node.self ==> EntityOf(w1, m) == EntityOf(w, m)
    requires forall r :: LedgerAt(w1, r) == LedgerAt(w, r)
    requires var e, e1 := EntityOf(w, a.node), EntityOf(w1, a.node);
      e1.root == e.root && e1.id == e.id && e1.ledgerId == e.ledgerId && e1.action != Create
    ensures Invariant(env, nodes, start, w1)
  {
    var n := a.node;
    OthersAfterAction(env, nodes, start, w, w1, a);
    assert EntityInvariant(env, start, w, n);
    AdoptedIsUndoable(EntityOf(start, n), EntityOf(w, n), EntityOf(w1, n), w.undo, n);
    assert EntityInvariant(env, start, w1, n) && KeyOf(w1, n) == KeyOf(w, n);
    VersionsKept(env, nodes, start, w, w1);
    OneEntityChanged(env, nodes, start, w, w1, n);
  }

  // ----- undoing

  /** Undoing the last action keeps the invariant and cannot fail. */
  lemma {:induction false} UndoKeepsInvariant(env: Environment, nodes: set<Node>, start: World, w: World)
    requires WellFormed(start, nodes) && Invariant(env, nodes, start, w) && w.undo != []
    ensures var last := |w.undo| - 1;
      var r := Undo(w.(undo := w.undo[..last]), w.undo[last]);
      !r.raised && r.world.undo == w.undo[..last] && Invariant(env, nodes, start, r.world)
  {
    var last := |w.undo| - 1;
    var a, w0 := w.undo[last], w.(undo := w.undo[..last]);
    assert w.undo == w0.undo + [a] && w0 == w.(undo := w0.undo);
    if a.UndoReservation? {
      UndoReservationKeepsInvariant(env, nodes, start, w, w0, a);
    } else {
      UndoSaveKeepsInvariant(env, nodes, start, w, w0, a);
    }
  }

  lemma {:induction false} UndoSaveKeepsInvariant(env: Environment, nodes: set<Node>, start: World, w: World,
      w0: World, a: UndoAction)
    requires WellFormed(start, nodes) && Invariant(env, nodes, start, w)
    requires a.UndoSave? && w.undo == w0.undo + [a] && w0 == w.(undo := w0.undo)
    ensures !Undo(w0, a).raised && Undo(w0, a).world.undo == w0.undo && Invariant(env, nodes, start, Undo(w0, a).world)
  {
    var n, w1 := a.node, Undo(w0, a).world;
    assert w.undo[|w0.undo|] == a && n in nodes;
    assert EntityInvariant(env, start, w, n);
    var front := ActionsOf(w0.undo, n.self);
    AppendedAction(w0.undo, a, n.self);
    assert (front + [a])[..|front|] == front;
    assert a.newId == a.before.ledgerId == EntityOf(w, n).ledgerId;
    UndoneSave(w, w0, a);
    OthersAfterUndo(env, nodes, start, w, w0, w1, a);
    assert EntityInvariant(env, start, w1, n) && KeyOf(w1, n) == KeyOf(w, n);
    assert forall i :: 0 <= i < |w0.undo| ==> w0.undo[i] == w.undo[i];
    VersionsKept(env, nodes, start, w, w1);
    OneEntityChanged(env, nodes, start, w, w1, n);
  }

  /** The state after a save is undone: the key did not move, so no ledger changes. */
  lemma {:induction false} UndoneSave(w: World, w0: World, a: UndoAction)
    requires a.UndoSave? && w0 == w.(undo := w0.undo) && a.newId == a.before.ledgerId
    ensures var n, r := a.node, Undo(w0, a);
      && !r.raised && r.world.undo == w0.undo && r.world.clock == w.clock
      && CoreOf(EntityOf(r.world, n)) == CoreOf(a.before) && EntityOf(r.world, n).root == EntityOf(w, n).root
      && (forall m: Node :: m.self != n.self ==> EntityOf(r.world, m) == EntityOf(w, m))
      && (forall root :: LedgerAt(r.world, root) == LedgerAt(w, root))
  {
  }

  /** A reservation is the first thing registered for its entity, and remembers how it was at the start. */
  lemma {:induction false} ReservationComesFirst(env: Environment, nodes: set<Node>, start: World, w: World,
      w0: World, a: UndoAction)
    requires Invariant(env, nodes, start, w)
    requires a.UndoReservation? && w.undo == w0.undo + [a] && w0 == w.(undo := w0.undo)
    ensures a.node in nodes && ActionsOf(w0.undo, a.node.self) == []
    ensures IdLess(EntityOf(start, a.node)) && EntityKey(a.node.typeName, a.oldId) == KeyOf(start, a.node)
    ensures a.newId == EntityOf(w, a.node).ledgerId
    ensures Restored(EntityOf(start, a.node), UndoCore(a, CoreOf(EntityOf(w, a.node))))
    ensures KeyOf(w, a.node) in LedgerOf(w, a.node).newKeys
  {
    var n := a.node;
    assert w.undo[|w0.undo|] == a && n in nodes;
    assert EntityInvariant(env, start, w, n);
    AppendedAction(w0.undo, a, n.self);
    var front := ActionsOf(w0.undo, n.self);
    assert (front + [a])[..|front|] == front;
    assert Undoable(EntityOf(start, n), front, UndoCore(a, CoreOf(EntityOf(w, n))));
    assert Restored(EntityOf(start, n), UndoCore(a, CoreOf(EntityOf(w, n))));
  }

  lemma {:induction false} UndoReservationKeepsInvariant(env: Environment, nodes: set<Node>, start: World, w: World,
      w0: World,
      a: UndoAction)
    requires WellFormed(start, nodes) && Invariant(env, nodes, start, w)
    requires a.UndoReservation? && w.undo == w0.undo + [a] && w0 == w.(undo := w0.undo)
    ensures !Undo(w0, a).raised && Undo(w0, a).world.undo == w0.undo && Invariant(env, nodes, start, Undo(w0, a).world)
  {
    ReservationComesFirst(env, nodes, start, w, w0, a);
    UndoneReservation(env, nodes, start, w, w0, a);
    AfterReservationInvariant(env, nodes, start, w, w0, Undo(w0, a).world, a);
  }

  lemma {:induction false} AfterReservationInvariant(env: Environment, nodes: set<Node>, start: World, w: World,
      w0: World,
      w1: World, a: UndoAction)
    requires WellFormed(start, nodes) && Invariant(env, nodes, start, w)
    requires a.UndoReservation? && w.undo == w0.undo + [a] && w0 == w.(undo := w0.undo)
    requires w1.undo == w0.undo && w1.clock == w.clock && ReservationTaken(nodes, w, w1, a)
    ensures Invariant(env, nodes, start, w1)
  {
    var n := a.node;
    ReservationComesFirst(env, nodes, start, w, w0, a);
    OthersAfterUndo(env, nodes, start, w, w0, w1, a);
    assert KeyOf(w1, n) == KeyOf(start, n);
    RestoredEntity(env, start, w1, n);
    assert forall i :: 0 <= i < |w0.undo| ==> w0.undo[i] == w.undo[i];
    VersionsKept(env, nodes, start, w, w1);
    OneEntityChanged(env, nodes, start, w, w1, n);
  }

  lemma {:induction false} RestoredEntity(env: Environment, start: World, w: World, n: Node)
    requires ActionsOf(w.undo, n.self) == [] && Restored(EntityOf(start, n), CoreOf(EntityOf(w, n)))
    requires EntityOf(w, n).id.None? && KeyOf(w, n) == KeyOf(start, n) && KeyOf(w, n) in LedgerOf(w, n).newKeys
    ensures EntityInvariant(env, start, w, n)
  {
  }

  /** The other entities when the last registered action was undone. */
  lemma {:induction false} OthersAfterUndo(env: Environment, nodes: set<Node>, start: World, w: World, w0: World,
      w1: World, a: UndoAction)
    requires WellFormed(start, nodes) && Invariant(env, nodes, start, w) && a.node in nodes
    requires w.undo == w0.undo + [a] && w1.undo == w0.undo && w1.clock == w.clock
    requires forall m :: m in nodes && m.self != a.node.self ==> EntityOf(w1, m) == EntityOf(w, m)
    requires forall root :: LedgerAt(w, root).newKeys - {KeyOf(w, a.node)} <= LedgerAt(w1, root).newKeys
    ensures forall m :: m in nodes && m != a.node ==> EntityInvariant(env, start, w1, m) && KeyOf(w1, m) == KeyOf(w, m)
  {
    forall m | m in nodes && m != a.node
      ensures EntityInvariant(env, start, w1, m) && KeyOf(w1, m) == KeyOf(w, m)
    {
      assert EntityInvariant(env, start, w, m) && m.self != a.node.self;
      AppendedAction(w0.undo, a, m.self);
      assert IdLess(EntityOf(start, m)) ==> KeyOf(w, m) != KeyOf(w, a.node);
      UntouchedEntity(env, start, w, w1, m);
    }
  }

  /** The reservation is taken back: the entity's fields, and the mark under its key. */
  ghost predicate ReservationTaken(nodes: set<Node>, w: World, w1: World, a: UndoAction)
    requires a.UndoReservation?
  {
    var n, oldKey, newKey := a.node, EntityKey(a.node.typeName, a.oldId), KeyOf(w, a.node);
    && EntityOf(w1, n) == EntityOf(w, n).(id := None, ledgerId := a.oldId, loaded := a.oldLoaded)
    && (forall m :: m in nodes && m.self != n.self ==> EntityOf(w1, m) == EntityOf(w, m))
    && (forall root :: LedgerAt(w1, root).versions == LedgerAt(w, root).versions)
    && (forall root :: LedgerAt(w1, root).newKeys
         == if root == EntityOf(w, n).root && oldKey != newKey then MoveMember(LedgerAt(w, root).newKeys, newKey, oldKey)
            else LedgerAt(w, root).newKeys)
  }

  /** The state after a reservation is undone. */
  lemma {:induction false} UndoneReservation(env: Environment, nodes: set<Node>, start: World, w: World, w0: World,
      a: UndoAction)
    requires Invariant(env, nodes, start, w) && a.UndoReservation? && a.node in nodes && w0 == w.(undo := w0.undo)
    requires IdLess(EntityOf(start, a.node)) && a.newId == EntityOf(w, a.node).ledgerId
    ensures var r := Undo(w0, a);
      !r.raised && r.world.undo == w0.undo && r.world.clock == w.clock && ReservationTaken(nodes, w, r.world, a)
  {
    var n, oldKey := a.node, EntityKey(a.node.typeName, a.oldId);
    assert EntityInvariant(env, start, w, n);
    assert Unversioned(env, nodes, start, KeyOf(w, n));
    MovedMarks(LedgerOf(w, n), KeyOf(w, n), oldKey, None);
    UndoReservationIs(w0, a);
    TakenBack(nodes, w, w0, a, Put(Rekey(LedgerOf(w, n), KeyOf(w, n), oldKey).value, oldKey, "id", None));
  }

  lemma {:induction false} TakenBack(nodes: set<Node>, w: World, w0: World, a: UndoAction, l: Root)
    requires a.UndoReservation? && w0 == w.(undo := w0.undo)
    requires l.versions == LedgerOf(w, a.node).versions
    requires var oldKey, newKey := EntityKey(a.node.typeName, a.oldId), KeyOf(w, a.node);
      l.newKeys == if newKey != oldKey then MoveMember(LedgerOf(w, a.node).newKeys, newKey, oldKey) else LedgerOf(w, a.node).newKeys
    ensures var w1 := Replaced(w0, a.node, EntityOf(w, a.node).(id := None, ledgerId := a.oldId, loaded := a.oldLoaded), l);
      w1.undo == w0.undo && w1.clock == w.clock && ReservationTaken(nodes, w, w1, a)
  {
    ReplacedState(w0, a.node, EntityOf(w, a.node).(id := None, ledgerId := a.oldId, loaded := a.oldLoaded), l);
  }

  /** The world with another state of one entity and of its ledger. */
  function Replaced(w: World, n: Node, e: Entity, l: Root): World {
    WithLedger(WithEntity(w, n, e), e.root, l)
  }

  lemma {:induction false} ReplacedState(w: World, n: Node, e: Entity, l: Root)
    ensures var w1 := Replaced(w, n, e, l);
      && w1.undo == w.undo && w1.clock == w.clock && EntityOf(w1, n) == e
      && (forall m: Node :: m.self != n.self ==> EntityOf(w1, m) == EntityOf(w, m))
      && (forall root :: LedgerAt(w1, root) == if root == e.root then l else LedgerAt(w, root))
  {
  }

  lemma {:induction false} UndoReservationIs(w: World, a: UndoAction)
    requires a.UndoReservation?
    requires Rekey(LedgerOf(w, a.node), EntityKey(a.node.typeName, a.newId), EntityKey(a.node.typeName, a.oldId)).Ok?
    ensures var oldKey := EntityKey(a.node.typeName, a.oldId);
      var moved := Rekey(LedgerOf(w, a.node), EntityKey(a.node.typeName, a.newId), oldKey).value;
      Undo(w, a) == Progress(Replaced(w, a.node, EntityOf(w, a.node).(id := None, ledgerId := a.oldId, loaded := a.oldLoaded),
                                      Put(moved, oldKey, "id", None)), false)
  {
  }
}
