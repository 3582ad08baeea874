/** What a save never loses for good: the attributes an entity had loaded, and that it was pending. */
module GraphRetained {
  import opened Outcomes
  import opened LedgerModel
  import opened GraphModel
  import opened GraphInduction
  import opened GraphRollback
  import opened LedgerLaws
  import TraceScope

  // ----- loaded attributes

  /** The members of an entity that point to a parent in this tree; a save may set them. */
  function Links(edges: set<Edge>, n: Node): set<string> {
    set e | e in edges && e.0 == n :: e.1
  }

  /** The attributes loaded at the start hold what they held then, but for the links to parents. */
  ghost predicate AttributesBack(start: Entity, links: set<string>, attributes: map<string, Attribute>) {
    forall m :: m in start.loaded && m in start.attributes && m !in links ==>
      m in attributes && attributes[m] == start.attributes[m]
  }

  function UndoAttributes(a: UndoAction, attributes: map<string, Attribute>): map<string, Attribute> {
    match a
    case UndoReservation(_, _, _, _) => attributes
    case UndoSave(_, before, _) =>
      attributes + LoadedAttributes(before)
  }

  function UndoLoaded(a: UndoAction, loaded: set<string>): set<string> {
    match a
    case UndoReservation(_, _, oldLoaded, _) => oldLoaded
    case UndoSave(_, before, _) => before.loaded
  }

  /**
    Undoing the actions from the last one on brings the attributes back, and what was loaded stays loaded
    throughout.
   */
  ghost predicate Recoverable(
    start: Entity, links: set<string>, actions: seq<UndoAction>, attributes: map<string, Attribute>, loaded: set<string>)
    decreases |actions|
  {
    && start.loaded <= loaded
    && if actions == [] then AttributesBack(start, links, attributes)
       else
         var last := actions[|actions| - 1];
         Recoverable(start, links, actions[..|actions| - 1], UndoAttributes(last, attributes), UndoLoaded(last, loaded))
  }

  /** Only the attributes loaded at the start matter. */
  lemma {:induction false} AgreeingIsRecoverable(
    start: Entity, links: set<string>, actions: seq<UndoAction>, attributes: map<string, Attribute>, loaded: set<string>,
    others: map<string, Attribute>, more: set<string>)
    requires Recoverable(start, links, actions, attributes, loaded) && start.loaded <= more
    requires forall m :: m in start.loaded && m !in links && m in attributes ==>
      m in others && others[m] == attributes[m]
    ensures Recoverable(start, links, actions, others, more)
    decreases |actions|
  {
    if actions != [] {
      var front, last := actions[..|actions| - 1], actions[|actions| - 1];
      AgreeingIsRecoverable(start, links, front, UndoAttributes(last, attributes), UndoLoaded(last, loaded),
        UndoAttributes(last, others), UndoLoaded(last, more));
    }
  }

  /** A registered action undoes what its step does to attributes and loaded fields. */
  lemma {:induction false} RegisteredIsRecoverable(
    start: Entity, links: set<string>, actions: seq<UndoAction>, a: UndoAction, e: Entity,
    attributes: map<string, Attribute>, loaded: set<string>)
    requires Recoverable(start, links, actions, e.attributes, e.loaded) && e.loaded <= loaded
    requires a.UndoReservation? ==> a.oldLoaded == e.loaded && attributes == e.attributes
    requires a.UndoSave? ==> a.before == e
    ensures Recoverable(start, links, actions + [a], attributes, loaded)
  {
    assert (actions + [a])[..|actions|] == actions;
    AgreeingIsRecoverable(start, links, actions, e.attributes, e.loaded, UndoAttributes(a, attributes), UndoLoaded(a, loaded));
  }

  // ----- pending marks

  /** The key is marked, or has fields in the top layer: what attaching an entity carries over. */
  ghost predicate OnTop(l: Root, key: EntityKey) {
    key in l.newKeys || key in l.deletedKeys || FieldsOf(Top(l), key) != map[]
  }

  lemma {:induction false} OnTopIsPending(l: Root, key: EntityKey)
    requires OnTop(l, key)
    ensures HasPending(l, key)
  {
    assert Top(l) == l.layers[|l.layers| - 1];
  }

  lemma {:induction false} ImportKeepsOnTop(target: Root, source: Root, imported: EntityKey, key: EntityKey)
    requires OnTop(target, key) || (key == imported && OnTop(source, key))
    ensures OnTop(Import(target, Snapshot(source, imported)), key)
  {
    ImportParts(target, source, imported);
    ImportLayers(target, source, imported);
    ImportedFields(Top(target), Top(source), imported, imported in source.deletedKeys, key);
  }

  lemma {:induction false} ImportedFields(layer: Changes, source: Changes, imported: EntityKey, removed: bool,
      key: EntityKey)
    ensures key != imported ==> FieldsOf(ImportLayer(layer, source, imported, removed), key) == FieldsOf(layer, key)
    ensures !removed && (FieldsOf(layer, key) != map[] || (key == imported && FieldsOf(source, key) != map[])) ==>
      FieldsOf(ImportLayer(layer, source, imported, removed), key) != map[]
  {
    if f :| f in FieldsOf(source, imported) {
      assert f in FieldsOf(layer, imported) + FieldsOf(source, imported);
    }
  }

  lemma {:induction false} RekeyKeepsOnTop(l: Root, oldKey: EntityKey, newKey: EntityKey, key: EntityKey)
    requires OnTop(l, key) && key != oldKey && Rekey(l, oldKey, newKey).Ok?
    ensures OnTop(Rekey(l, oldKey, newKey).value, key)
  {
    if key == newKey && FieldsOf(Top(l), key) != map[] {
      var f :| f in FieldsOf(Top(l), key);
      assert f in FieldsOf(Top(l), key) + FieldsOf(Top(l), oldKey);
    }
  }

  lemma {:induction false} AddFieldsKeepsOnTop(l: Root, written: EntityKey, fields: Fields, key: EntityKey)
    requires OnTop(l, key)
    ensures OnTop(WithTop(l, AddFields(Top(l), written, fields)), key)
  {
    if key == written && FieldsOf(Top(l), key) != map[] {
      var f :| f in FieldsOf(Top(l), key);
      assert f in FieldsOf(Top(l), key) + fields;
    }
  }

  lemma {:induction false} PutKeepsOnTop(l: Root, written: EntityKey, field: string, value: Cell, key: EntityKey)
    requires OnTop(l, key)
    ensures OnTop(Put(l, written, field, value), key)
  {
    assert field in FieldsOf(Top(l), written)[field := value];
  }

  // ----- both, for every entity of the graph

  ghost predicate Retains(edges: set<Edge>, start: World, w: World, n: Node) {
    var s, e := EntityOf(start, n), EntityOf(w, n);
    && Recoverable(s, Links(edges, n), ActionsOf(w.undo, n.self), e.attributes, e.loaded)
    && (!IdLess(s) && OnTop(LedgerOf(start, n), KeyOf(start, n)) ==> OnTop(LedgerOf(w, n), KeyOf(w, n)))
  }

  ghost predicate Retained(nodes: set<Node>, edges: set<Edge>, start: World, w: World) {
    forall n :: n in nodes ==> Retains(edges, start, w, n)
  }

  lemma {:induction false} RetainedAtStart(nodes: set<Node>, edges: set<Edge>, start: World)
    requires start.undo == []
    ensures Retained(nodes, edges, start, start)
  {
  }

  /** Nothing on top of a ledger is lost, except possibly one key. */
  ghost predicate KeepsTops(w: World, w1: World, moved: Option<EntityKey>) {
    forall r, k :: OnTop(LedgerAt(w, r), k) && moved != Some(k) ==> OnTop(LedgerAt(w1, r), k)
  }

  lemma {:induction false} TopIsKept(w: World, w1: World, moved: Option<EntityKey>, r: RootId, k: EntityKey)
    requires KeepsTops(w, w1, moved) && OnTop(LedgerAt(w, r), k) && moved != Some(k)
    ensures OnTop(LedgerAt(w1, r), k)
  {
  }

  /** The entities other than the one a step is about. */
  lemma {:induction false} OthersRetain(
    nodes: set<Node>, edges: set<Edge>, start: World, w: World, w1: World, n: Node, moved: Option<EntityKey>)
    requires Retained(nodes, edges, start, w) && KeepsTops(w, w1, moved)
    requires forall m :: m in nodes && m != n ==> EntityOf(w1, m) == EntityOf(w, m)
    requires forall m :: m in nodes && m != n ==> ActionsOf(w1.undo, m.self) == ActionsOf(w.undo, m.self)
    requires forall m :: m in nodes && m != n && !IdLess(EntityOf(start, m)) ==> moved != Some(KeyOf(w, m))
    ensures forall m :: m in nodes && m != n ==> Retains(edges, start, w1, m)
  {
    forall m | m in nodes && m != n
      ensures Retains(edges, start, w1, m)
    {
      assert Retains(edges, start, w, m);
    }
  }

  // ----- every step

  lemma {:induction false} AttachKeepsTops(w: World, n: Node, root: RootId)
    ensures var w1 := AttachOne(w, n, root).world;
      && KeepsTops(w, w1, None)
      && (OnTop(LedgerOf(w, n), KeyOf(w, n)) ==> OnTop(LedgerOf(w1, n), KeyOf(w1, n)))
  {
    var target, source, key := LedgerAt(w, root), LedgerOf(w, n), KeyOf(w, n);
    forall k | OnTop(target, k) || (k == key && OnTop(source, k))
      ensures OnTop(Import(target, Snapshot(source, key)), k)
    {
      ImportKeepsOnTop(target, source, key, k);
    }
  }

  lemma {:induction false} AttachRetains(nodes: set<Node>, edges: set<Edge>, start: World, w: World, n: Node,
      root: RootId)
    requires WellFormed(start, nodes) && Retained(nodes, edges, start, w) && n in nodes
    ensures Retained(nodes, edges, start, AttachOne(w, n, root).world)
  {
    var w1 := AttachOne(w, n, root).world;
    AttachChanges(w, n, root);
    AttachKeepsTops(w, n, root);
    OthersRetain(nodes, edges, start, w, w1, n, None);
    assert Retains(edges, start, w, n);
    assert Retains(edges, start, w1, n);
  }

  /** Steps that leave the entities and the undo list alone. */
  lemma {:induction false} SameEntitiesRetain(nodes: set<Node>, edges: set<Edge>, start: World, w: World, w1: World)
    requires Retained(nodes, edges, start, w) && w1.entities == w.entities && w1.undo == w.undo
      && KeepsTops(w, w1, None)
    ensures Retained(nodes, edges, start, w1)
  {
    forall n | n in nodes
      ensures Retains(edges, start, w1, n)
    {
      assert Retains(edges, start, w, n) && EntityOf(w1, n) == EntityOf(w, n);
      if OnTop(LedgerOf(w, n), KeyOf(w, n)) {
        TopIsKept(w, w1, None, EntityOf(w, n).root, KeyOf(w, n));
      }
    }
  }

  lemma {:induction false} SameLedgersRetain(nodes: set<Node>, edges: set<Edge>, start: World, w: World, w1: World)
    requires Retained(nodes, edges, start, w)
    requires w1.entities == w.entities && w1.undo == w.undo && w1.ledgers == w.ledgers
    ensures Retained(nodes, edges, start, w1)
  {
    assert forall r :: LedgerAt(w1, r) == LedgerAt(w, r);
    SameEntitiesRetain(nodes, edges, start, w, w1);
  }

  lemma {:induction false} CarryBackKeepsTops(w: World, n: Node, values: Fields)
    ensures KeepsTops(w, CarryBack(Tick(w), n, values), None)
  {
    forall k | OnTop(LedgerOf(w, n), k)
      ensures OnTop(WithTop(LedgerOf(w, n), AddFields(Top(LedgerOf(w, n)), KeyOf(w, n), Carried(values))), k)
    {
      AddFieldsKeepsOnTop(LedgerOf(w, n), KeyOf(w, n), Carried(values), k);
    }
  }

  lemma {:induction false} CarryBackRetains(
    nodes: set<Node>, edges: set<Edge>, start: World, w: World, n: Node, values: Fields)
    requires Retained(nodes, edges, start, w)
    ensures Retained(nodes, edges, start, CarryBack(Tick(w), n, values))
  {
    CarryBackChanges(w, n, values);
    CarryBackKeepsTops(w, n, values);
    SameEntitiesRetain(nodes, edges, start, w, CarryBack(Tick(w), n, values));
  }

  lemma {:induction false} SendRetains(
    env: Environment, nodes: set<Node>, edges: set<Edge>, start: World, w: World, n: Node, scope: TraceScope.Scope)
    requires Retained(nodes, edges, start, w)
    ensures Retained(nodes, edges, start, Send(env, w, n, scope).0.world)
  {
    SendChanges(env, w, n, scope);
    var values := env.check(w.clock, BuildCommand(w, n)).values;
    CarryBackRetains(nodes, edges, start, w, n, values);
    var w1, w2 := CarryBack(Tick(w), n, values), Send(env, w, n, scope).0.world;
    assert forall r :: LedgerAt(w2, r) == LedgerAt(w1, r);
    SameEntitiesRetain(nodes, edges, start, w1, w2);
  }

  lemma {:induction false} LinkKeepsTops(w: World, child: Node, member: string, column: string, parent: Node)
    ensures KeepsTops(w, Link(w, child, member, column, parent), None)
    ensures var w1, id := Link(w, child, member, column, parent), IdValue(EntityOf(w, parent).id);
      && w1.undo == w.undo
      && (forall m: Node :: m.self != child.self ==> EntityOf(w1, m) == EntityOf(w, m))
      && var e := EntityOf(w, child);
         EntityOf(w1, child) == e.(attributes := e.attributes[member := Scalar(id)], loaded := e.loaded + {member})
  {
    var l, id := LedgerOf(w, child), IdValue(EntityOf(w, parent).id);
    forall k | OnTop(l, k)
      ensures OnTop(Put(l, KeyOf(w, child), column, id), k)
    {
      PutKeepsOnTop(l, KeyOf(w, child), column, id, k);
    }
  }

  lemma {:induction false} LinkRetains(
    nodes: set<Node>, edges: set<Edge>, start: World, w: World, child: Node, member: string, column: string, parent: Node)
    requires WellFormed(start, nodes) && Retained(nodes, edges, start, w) && child in nodes && (child, member) in edges
    ensures Retained(nodes, edges, start, Link(w, child, member, column, parent))
  {
    var w1 := Link(w, child, member, column, parent);
    LinkKeepsTops(w, child, member, column, parent);
    OthersRetain(nodes, edges, start, w, w1, child, None);
    assert Retains(edges, start, w, child);
    var e, e1 := EntityOf(w, child), EntityOf(w1, child);
    assert (child, member).1 in Links(edges, child);
    AgreeingIsRecoverable(EntityOf(start, child), Links(edges, child), ActionsOf(w.undo, child.self),
      e.attributes, e.loaded, e1.attributes, e1.loaded);
    assert Retains(edges, start, w1, child);
  }

  lemma {:induction false} AdoptRetains(
    env: Environment, nodes: set<Node>, edges: set<Edge>, start: World, w: World, n: Node, reply: Reply)
    requires WellFormed(start, nodes) && ReturnsReservedId(env) && Invariant(env, nodes, start, w)
    requires Retained(nodes, edges, start, w) && n in nodes && Answers(env, w, n, reply)
    ensures Retained(nodes, edges, start, Adopt(w, n, reply).world)
  {
    assert EntityInvariant(env, start, w, n);
    AdoptChanges(env, w, n, reply);
    AdoptKeepsKey(env, w, n, reply);
    AdoptLoads(w, n, reply);
    var w1, e := Adopt(w, n, reply).world, EntityOf(w, n);
    var a := UndoSave(n, e, e.ledgerId);
    ActionsAfter(nodes, w, w1, a);
    OthersRetain(nodes, edges, start, w, w1, n, None);
    assert Retains(edges, start, w, n);
    RegisteredIsRecoverable(EntityOf(start, n), Links(edges, n), ActionsOf(w.undo, n.self), a, e,
      EntityOf(w1, n).attributes, EntityOf(w1, n).loaded);
    AppendedAction(w.undo, a, n.self);
    assert Retains(edges, start, w1, n);
  }

  /** A registered action is found for its own entity only. */
  lemma {:induction false} ActionsAfter(nodes: set<Node>, w: World, w1: World, a: UndoAction)
    requires w1.undo == w.undo + [a] && forall m :: m in nodes && m != a.node ==> m.self != a.node.self
    ensures forall m :: m in nodes && m != a.node ==> ActionsOf(w1.undo, m.self) == ActionsOf(w.undo, m.self)
  {
    forall m | m in nodes && m != a.node
      ensures ActionsOf(w1.undo, m.self) == ActionsOf(w.undo, m.self)
    {
      AppendedAction(w.undo, a, m.self);
    }
  }

  lemma {:induction false} StoreFieldsLoads(e: Entity, columns: Fields, fields: seq<Field>)
    ensures e.loaded <= StoreFields(e, columns, fields).loaded
  {
    if fields != [] {
      StoreFieldsLoads(e, columns, fields[..|fields| - 1]);
    }
  }

  /** Adopting a record loads more, never less. */
  lemma {:induction false} AdoptLoads(w: World, n: Node, reply: Reply)
    requires reply.Persisted?
    ensures EntityOf(w, n).loaded <= EntityOf(Adopt(w, n, reply).world, n).loaded
  {
    StoreFieldsLoads(EntityOf(w, n), reply.columns, n.fields);
  }

  lemma {:induction false} ReserveRetains(env: Environment, nodes: set<Node>, edges: set<Edge>, start: World,
      w: World, n: Node)
    requires WellFormed(start, nodes) && Fresh(env, start, nodes) && Invariant(env, nodes, start, w)
    requires Retained(nodes, edges, start, w) && n in nodes && IdLess(EntityOf(w, n))
    ensures Retained(nodes, edges, start, ReserveId(env, w, n).world)
  {
    var id := env.allocate(w.clock, n.typeName);
    if id.None? {
      assert forall r :: LedgerAt(Tick(w), r) == LedgerAt(w, r);
      SameEntitiesRetain(nodes, edges, start, w, Tick(w));
    } else {
      BeforeReservation(env, nodes, start, w, n);
      var oldKey, newKey := KeyOf(w, n), EntityKey(n.typeName, id.value);
      MovedMarks(LedgerOf(w, n), oldKey, newKey, Some(Int(id.value)));
      var l := Put(Rekey(LedgerOf(w, n), oldKey, newKey).value, newKey, "id", Some(Int(id.value)));
      assert ReserveId(env, w, n).world == ReservedWorld(w, n, id.value, l);
      MovedKeepsTops(LedgerOf(w, n), oldKey, newKey, Some(Int(id.value)));
      ReservedRetains(env, nodes, edges, start, w, n, id.value, l);
    }
  }

  lemma {:induction false} MovedKeepsTops(l: Root, oldKey: EntityKey, newKey: EntityKey, value: Cell)
    requires Rekey(l, oldKey, newKey).Ok?
    ensures forall k :: OnTop(l, k) && k != oldKey ==>
      OnTop(Put(Rekey(l, oldKey, newKey).value, newKey, "id", value), k)
  {
    forall k | OnTop(l, k) && k != oldKey
      ensures OnTop(Put(Rekey(l, oldKey, newKey).value, newKey, "id", value), k)
    {
      RekeyKeepsOnTop(l, oldKey, newKey, k);
      PutKeepsOnTop(Rekey(l, oldKey, newKey).value, newKey, "id", value, k);
    }
  }

  lemma {:induction false} ReservedRetains(
    env: Environment, nodes: set<Node>, edges: set<Edge>, start: World, w: World, n: Node, id: int, l: Root)
    requires WellFormed(start, nodes) && Invariant(env, nodes, start, w)
    requires Retained(nodes, edges, start, w) && n in nodes && IdLess(EntityOf(w, n))
    requires forall k :: OnTop(LedgerOf(w, n), k) && k != KeyOf(w, n) ==> OnTop(l, k)
    ensures Retained(nodes, edges, start, ReservedWorld(w, n, id, l))
  {
    var w1, e := ReservedWorld(w, n, id, l), EntityOf(w, n);
    var a := UndoReservation(n, e.ledgerId, e.loaded, id);
    ReservedState(w, n, id, l);
    BeforeReservation(env, nodes, start, w, n);
    ActionsAfter(nodes, w, w1, a);
    OthersRetain(nodes, edges, start, w, w1, n, Some(KeyOf(w, n)));
    assert Retains(edges, start, w, n);
    RegisteredIsRecoverable(EntityOf(start, n), Links(edges, n), ActionsOf(w.undo, n.self), a, e, e.attributes, e.loaded + {"id"});
    AppendedAction(w.undo, a, n.self);
    assert Retains(edges, start, w1, n);
  }

  // ----- undoing

  lemma {:induction false} UndoRetains(env: Environment, nodes: set<Node>, edges: set<Edge>, start: World, w: World)
    requires WellFormed(start, nodes) && Invariant(env, nodes, start, w) && Retained(nodes, edges, start, w)
      && w.undo != []
    ensures var last := |w.undo| - 1;
      Retained(nodes, edges, start, Undo(w.(undo := w.undo[..last]), w.undo[last]).world)
  {
    var last := |w.undo| - 1;
    var a, w0 := w.undo[last], w.(undo := w.undo[..last]);
    assert w.undo == w0.undo + [a] && a.node in nodes;
    UndoKeepsInvariant(env, nodes, start, w);
    UndoLeaves(env, nodes, start, w, w0, a);
    LeftRetains(env, nodes, edges, start, w, w0, Undo(w0, a).world, a);
  }

  lemma {:induction false} LeftRetains(env: Environment, nodes: set<Node>, edges: set<Edge>, start: World, w: World,
      w0: World,
      w1: World, a: UndoAction)
    requires WellFormed(start, nodes) && Invariant(env, nodes, start, w) && Retained(nodes, edges, start, w)
    requires a.node in nodes && w.undo == w0.undo + [a] && w0.entities == w.entities && w1.undo == w0.undo
    requires LeftByUndo(w, w1, a) && (a.UndoReservation? ==> IdLess(EntityOf(start, a.node)))
    ensures Retained(nodes, edges, start, w1)
  {
    var n := a.node;
    ActionsAfter(nodes, w0, w, a);
    OthersRetain(nodes, edges, start, w, w1, n, if a.UndoReservation? then Some(KeyOf(w, n)) else None);
    assert Retains(edges, start, w, n);
    AppendedAction(w0.undo, a, n.self);
    var front := ActionsOf(w0.undo, n.self);
    assert (front + [a])[..|front|] == front;
    if a.UndoSave? && OnTop(LedgerOf(w, n), KeyOf(w, n)) {
      TopIsKept(w, w1, None, EntityOf(w, n).root, KeyOf(w, n));
    }
    assert Retains(edges, start, w1, n);
  }

  /** What undoing the last action does to its entity and to the tops of the ledgers. */
  lemma {:induction false} UndoLeaves(env: Environment, nodes: set<Node>, start: World, w: World, w0: World,
      a: UndoAction)
    requires WellFormed(start, nodes) && Invariant(env, nodes, start, w)
    requires w.undo == w0.undo + [a] && w0 == w.(undo := w0.undo) && a.node in nodes
    ensures Undo(w0, a).world.undo == w0.undo && LeftByUndo(w, Undo(w0, a).world, a)
    ensures a.UndoReservation? ==> IdLess(EntityOf(start, a.node))
  {
    var n := a.node;
    if a.UndoReservation? {
      var oldKey := EntityKey(n.typeName, a.oldId);
      ReservationComesFirst(env, nodes, start, w, w0, a);
      assert Unversioned(env, nodes, start, KeyOf(w, n));
      MovedMarks(LedgerOf(w, n), KeyOf(w, n), oldKey, None);
      UndoReservationIs(w0, a);
      MovedKeepsTops(LedgerOf(w, n), KeyOf(w, n), oldKey, None);
      ReplacedIsLeft(w, w0, a, EntityOf(w, n).(id := None, ledgerId := a.oldId, loaded := a.oldLoaded),
                     Put(Rekey(LedgerOf(w, n), KeyOf(w, n), oldKey).value, oldKey, "id", None));
    } else {
      SaveKeepsKey(env, nodes, start, w, w0, a);
      UndoneSave(w, w0, a);
    }
  }

  /** What an undo action leaves of its entity's attributes, and of the tops of all ledgers. */
  ghost predicate LeftByUndo(w: World, w1: World, a: UndoAction) {
    var n := a.node;
    && (forall m: Node :: m.self != n.self ==> EntityOf(w1, m) == EntityOf(w, m))
    && EntityOf(w1, n).attributes == UndoAttributes(a, EntityOf(w, n).attributes)
    && EntityOf(w1, n).loaded == UndoLoaded(a, EntityOf(w, n).loaded)
    && KeepsTops(w, w1, if a.UndoReservation? then Some(KeyOf(w, n)) else None)
    && (a.UndoSave? ==> KeyOf(w1, n) == KeyOf(w, n) && EntityOf(w1, n).root == EntityOf(w, n).root)
  }

  lemma {:induction false} ReplacedIsLeft(w: World, w0: World, a: UndoAction, e: Entity, l: Root)
    requires a.UndoReservation? && w0 == w.(undo := w0.undo) && e.root == EntityOf(w, a.node).root
    requires e.attributes == UndoAttributes(a, EntityOf(w, a.node).attributes)
    requires e.loaded == UndoLoaded(a, EntityOf(w, a.node).loaded)
    requires forall k :: OnTop(LedgerOf(w, a.node), k) && k != KeyOf(w, a.node) ==> OnTop(l, k)
    ensures LeftByUndo(w, Replaced(w0, a.node, e, l), a)
  {
    ReplacedState(w0, a.node, e, l);
  }

  /** A save left its entity's key alone, so that undoing it moves nothing. */
  lemma {:induction false} SaveKeepsKey(env: Environment, nodes: set<Node>, start: World, w: World, w0: World,
      a: UndoAction)
    requires Invariant(env, nodes, start, w) && a.UndoSave? && a.node in nodes
    requires w.undo == w0.undo + [a]
    ensures a.newId == a.before.ledgerId == EntityOf(w, a.node).ledgerId
  {
    assert EntityInvariant(env, start, w, a.node);
    AppendedAction(w0.undo, a, a.node.self);
    var front := ActionsOf(w0.undo, a.node.self);
    assert (front + [a])[..|front|] == front;
  }
}
