/**
  The save's functions taken apart the way the methods of `GraphSession` take them: what is left to do
  after each group of assignments.
 */
module GraphSteps {
  import opened Outcomes
  import opened LedgerModel
  import opened GraphInduction
  import opened GraphModel
  import TraceScope

  // ----- the operations the methods are made of

  ghost function KeyMoved(w: World, root: RootId, oldKey: EntityKey, newKey: EntityKey): Progress {
    var moved := Rekey(LedgerAt(w, root), oldKey, newKey);
    if moved.Err? then Progress(w, true) else Progress(WithLedger(w, root, moved.value), false)
  }

  ghost function FieldPut(w: World, root: RootId, key: EntityKey, field: string, value: Cell): World {
    WithLedger(w, root, Put(LedgerAt(w, root), key, field, value))
  }

  ghost function UndoAdded(w: World, a: UndoAction): World {
    w.(undo := w.undo + [a])
  }

  ghost function KeyCleared(w: World, root: RootId, key: EntityKey): World {
    WithLedger(w, root, ClearEntity(LedgerAt(w, root), key))
  }

  ghost function VersionAccepted(w: World, root: RootId, key: EntityKey, version: int): Progress {
    var accepted := AcceptCommitted(LedgerAt(w, root), key, version);
    if accepted.Err? then Progress(w, true) else Progress(WithLedger(w, root, accepted.value), false)
  }

  lemma {:induction false} LastLedgerCounts(w: World, root: RootId, l: Root, r: Root)
    ensures LedgerAt(WithLedger(w, root, l), root) == l
    ensures WithLedger(WithLedger(w, root, l), root, r) == WithLedger(w, root, r)
  {
    assert w.ledgers[root := l][root := r] == w.ledgers[root := r];
  }

  // ----- reservations

  /** What follows once the entity holds the reserved number. */
  ghost function Recorded(w: World, n: Node, root: RootId, oldKey: EntityKey, newKey: EntityKey,
      oldLoaded: set<string>): Progress {
    var moved := KeyMoved(w, root, oldKey, newKey);
    if moved.raised then moved
    else
      Progress(UndoAdded(FieldPut(moved.world, root, newKey, "id", Some(Int(newKey.id))),
                         UndoReservation(n, oldKey.id, oldLoaded, newKey.id)), false)
  }

  function WithId(e: Entity, id: int): Entity {
    e.(id := Some(id), loaded := e.loaded + {"id"}, ledgerId := id)
  }

  lemma {:induction false} ReserveIdSteps(env: Environment, w: World, n: Node)
    ensures var e, id := EntityOf(w, n), env.allocate(w.clock, n.typeName);
      ReserveId(env, w, n) ==
        if id.None? then Progress(Tick(w), true)
        else
          Recorded(WithEntity(Tick(w), n, WithId(e, id.value)), n, e.root, KeyOf(w, n), EntityKey(n.typeName, id.value), e.loaded)
  {
    var e, id := EntityOf(w, n), env.allocate(w.clock, n.typeName);
    if id.Some? {
      var newKey := EntityKey(n.typeName, id.value);
      var moved := Rekey(LedgerAt(w, e.root), KeyOf(w, n), newKey);
      if moved.Ok? {
        LastLedgerCounts(WithEntity(Tick(w), n, WithId(e, id.value)), e.root, moved.value,
                         Put(moved.value, newKey, "id", Some(Int(id.value))));
      }
    }
  }

  // ----- sending

  ghost function Logged(w: World, entry: Sent): World {
    w.(sent := w.sent + [entry])
  }

  /** The answer to a checked command, and its entry in the log. */
  ghost function Answered(
    env: Environment, w: World, n: Node, clock: nat, built: Command, command: Command,
    specific: Chain, lineage: Chain, origin: Origin): (Progress, Reply)
  {
    var reply := env.mutate(w.clock, command);
    (Progress(Logged(Tick(w), Sent(n, clock, built, command, specific, lineage, origin, reply)), !reply.Persisted?), reply)
  }

  ghost function Transmitted(
    env: Environment, w: World, n: Node, built: Command,
    specific: Chain, lineage: Chain, origin: Origin): (Progress, Reply)
  {
    var verdict := env.check(w.clock, built);
    var w1 := CarryBack(Tick(w), n, verdict.values);
    if verdict.Refuses? then (Progress(w1, true), NoRecord)
    else Answered(env, w1, n, w.clock, built, Checked(built, verdict.values), specific, lineage, origin)
  }

  lemma {:induction false} SendSteps(env: Environment, w: World, n: Node, scope: TraceScope.Scope)
    ensures var specific := TraceChain(LedgerOf(w, n), KeyOf(w, n));
      Send(env, w, n, scope) == Transmitted(
        env, w, n, BuildCommand(w, n), specific,
        if specific != [] then specific else TraceScope.Recovered(scope),
        OriginOf(w, n))
  {
  }

  /** What follows once the command is built for an early check. */
  ghost function Prechecked(env: Environment, w: World, n: Node, command: Command): Progress {
    var verdict := env.preflight(w.clock, command);
    Progress(CarryBack(Tick(w), n, verdict.values), verdict.Refuses?)
  }

  // ----- adopting

  /** What follows once the entity holds the persisted record. */
  ghost function Confirmed(w: World, n: Node, root: RootId, oldKey: EntityKey, newKey: EntityKey,
      before: Entity): Progress {
    var moved := KeyMoved(w, root, oldKey, newKey);
    if moved.raised then moved
    else
      var w1 := UndoAdded(moved.world, UndoSave(n, before, newKey.id));
      Progress(if before.action == Delete then w1 else WithEntity(w1, n, EntityOf(w1, n).(action := Update)), false)
  }

  lemma {:induction false} StoreFieldsKeepsTheRest(e: Entity, columns: Fields, fields: seq<Field>)
    ensures var r := StoreFields(e, columns, fields); r == e.(attributes := r.attributes, loaded := r.loaded)
  {
    if fields != [] {
      StoreFieldsKeepsTheRest(e, columns, fields[..|fields| - 1]);
    }
  }

  lemma {:induction false} AdoptSteps(w: World, n: Node, reply: Reply)
    requires reply.Persisted?
    ensures var e, adopted := EntityOf(w, n), Adopted(n, EntityOf(w, n), reply);
      Adopt(w, n, reply) == Confirmed(WithEntity(w, n, adopted), n, e.root, KeyOf(w, n), EntityKey(n.typeName, adopted.ledgerId), e)
  {
    var e := EntityOf(w, n);
    StoreFieldsKeepsTheRest(e, reply.columns, n.fields);
    var adopted := Adopted(n, e, reply);
    assert adopted.root == e.root && adopted.action == e.action;
    var w1 := WithEntity(w, n, adopted);
    assert w1.entities[n.self := adopted.(action := Update)] == w.entities[n.self := adopted.(action := Update)];
  }

  /** The entity after the assignments of an undo action. */
  function Undone(e: Entity, a: UndoAction): Entity {
    match a
    case UndoReservation(_, oldId, oldLoaded, _) => e.(id := None, ledgerId := oldId, loaded := oldLoaded)
    case UndoSave(_, before, _) =>
      e.(id := before.id, version := before.version, attributes := e.attributes + LoadedAttributes(before),
         ledgerId := before.ledgerId, action := before.action, loaded := before.loaded)
  }

  function OldKey(a: UndoAction): EntityKey {
    EntityKey(a.node.typeName, if a.UndoReservation? then a.oldId else a.before.ledgerId)
  }

  /** What follows once the entity's fields are back. */
  ghost function MovedBack(w: World, root: RootId, a: UndoAction): Progress {
    var moved := KeyMoved(w, root, EntityKey(a.node.typeName, a.newId), OldKey(a));
    if moved.raised || a.UndoSave? then moved else Progress(FieldPut(moved.world, root, OldKey(a), "id", None), false)
  }

  lemma {:induction false} UndoSteps(w: World, a: UndoAction)
    ensures var e := EntityOf(w, a.node);
      Undo(w, a) == MovedBack(WithEntity(w, a.node, Undone(e, a)), e.root, a)
  {
    var e := EntityOf(w, a.node);
    var moved := Rekey(LedgerAt(w, e.root), EntityKey(a.node.typeName, a.newId), OldKey(a));
    if moved.Ok? {
      LastLedgerCounts(WithEntity(w, a.node, Undone(e, a)), e.root, moved.value, Put(moved.value, OldKey(a), "id", None));
    }
  }

  lemma {:induction false} CommitSteps(w: World, a: CommitAction)
    ensures var e := EntityOf(w, a.node);
      var cleared := KeyCleared(w, e.root, a.key);
      Commit(w, a) == if e.version.None? then Progress(cleared, false)
                      else VersionAccepted(cleared, e.root, a.key, e.version.value)
  {
    var e := EntityOf(w, a.node);
    var cleared := ClearEntity(LedgerAt(w, e.root), a.key);
    if e.version.Some? {
      var accepted := AcceptCommitted(cleared, a.key, e.version.value);
      LastLedgerCounts(w, e.root, cleared, if accepted.Ok? then accepted.value else cleared);
    }
  }

  ghost predicate RollbackLeft(goal: (World, nat), w: World, left: seq<UndoAction>, failures: nat) {
    var end := RolledBack(w.(undo := left));
    goal.0 == end.0 && goal.1 == end.1 + failures
  }

  lemma {:induction false} RollbackEnds(goal: (World, nat), w: World, failures: nat)
    requires RollbackLeft(goal, w, [], failures)
    ensures goal == (w.(undo := []), failures)
  {
  }

  lemma {:induction false} RollbackStep(goal: (World, nat), w: World, actions: seq<UndoAction>, i: nat, failures: nat)
    requires i < |actions| && RollbackLeft(goal, w, actions[..i + 1], failures)
    ensures var r := Undo(w, actions[i]);
      RollbackLeft(goal, r.world, actions[..i], failures + if r.raised then 1 else 0)
  {
    LastRunsFirst(w, actions, i);
  }

  lemma {:induction false} LastRunsFirst(w: World, actions: seq<UndoAction>, i: nat)
    requires i < |actions|
    ensures var r := Undo(w, actions[i]);
      var start, end := RolledBack(w.(undo := actions[..i + 1])), RolledBack(r.world.(undo := actions[..i]));
      start.0 == end.0 && start.1 == end.1 + if r.raised then 1 else 0
  {
    UndoIgnoresList(w, actions[..i], actions[i]);
    assert actions[..i + 1][..i] == actions[..i];
    RollbackUnrolls(w.(undo := actions[..i + 1]), Undo(w.(undo := actions[..i]), actions[i]), actions[..i], actions[i]);
  }

  lemma {:induction false} RollbackUnrolls(w: World, r: Progress, front: seq<UndoAction>, last: UndoAction)
    requires w.undo == front + [last] && r == Undo(w.(undo := front), last)
    ensures var end := RolledBack(r.world.(undo := front));
      RolledBack(w).0 == end.0 && RolledBack(w).1 == end.1 + if r.raised then 1 else 0
  {
    assert w.undo[..|w.undo| - 1] == front && w.undo[|w.undo| - 1] == last;
  }

  /** An undo action does not look at the list it is taken from. */
  lemma {:induction false} UndoIgnoresList(w: World, left: seq<UndoAction>, a: UndoAction)
    ensures Undo(w.(undo := left), a) == Progress(Undo(w, a).world.(undo := left), Undo(w, a).raised)
  {
  }

  ghost function ChildSaved(env: Environment, w: World, parent: Node, f: Forest, scope: TraceScope.Scope): Progress
    requires f.Child?
  {
    var r := Attach(w, f.child, EntityOf(w, parent).root);
    if r.raised then r
    else Save(env, LinkIfNeeded(r.world, f.child.node, f.member, f.column, parent), f.child, Some(scope))
  }

  lemma {:induction false} SaveAllSteps(env: Environment, w: World, parent: Node, f: Forest, scope: TraceScope.Scope)
    requires f.Child?
    ensures var s := ChildSaved(env, w, parent, f, scope);
      SaveAll(env, w, parent, f, scope) == if s.raised then s else SaveAll(env, s.world, parent, f.rest, scope)
  {
  }

  /** Commit actions told from the front: the first one now, the others after it. */
  ghost function CommitEach(w: World, actions: seq<CommitAction>): (World, nat)
    decreases |actions|
  {
    if actions == [] then (w, 0)
    else
      var r := Commit(w, actions[0]);
      var end := CommitEach(r.world, actions[1..]);
      (end.0, end.1 + if r.raised then 1 else 0)
  }

  ghost predicate CommitsLeft(goal: (World, nat), w: World, left: seq<CommitAction>, failures: nat) {
    var end := CommitEach(w, left);
    goal.0 == end.0 && goal.1 == end.1 + failures
  }

  lemma {:induction false} CommitStep(goal: (World, nat), w: World, actions: seq<CommitAction>, i: nat, failures: nat)
    requires i < |actions| && CommitsLeft(goal, w, actions[i..], failures)
    ensures var r := Commit(w, actions[i]);
      CommitsLeft(goal, r.world, actions[i + 1..], failures + if r.raised then 1 else 0)
  {
    assert actions[i..][1..] == actions[i + 1..];
  }

  lemma {:induction false} CommitsEnd(goal: (World, nat), w: World, failures: nat)
    requires CommitsLeft(goal, w, [], failures)
    ensures goal == (w, failures)
  {
  }

  lemma {:induction false} CommitEachAppend(w: World, actions: seq<CommitAction>, last: CommitAction)
    ensures CommitEach(w, actions + [last]) == CommitNext(CommitEach(w, actions), last)
    decreases |actions|
  {
    if actions == [] {
      assert [last][1..] == [];
    } else {
      assert (actions + [last])[1..] == actions[1..] + [last];
      CommitEachAppend(Commit(w, actions[0]).world, actions[1..], last);
    }
  }

  /** Told from the front or from the back, the actions end alike. */
  lemma {:induction false} PrefixIsEach(w: World, k: nat)
    requires k <= |w.commits|
    ensures CommittedPrefix(w, k) == CommitEach(w, w.commits[..k])
  {
    if k > 0 {
      PrefixIsEach(w, k - 1);
      OneMoreCommit(w, w.commits, k, CommittedPrefix(w, k - 1));
    }
  }

  lemma {:induction false} OneMoreCommit(w: World, actions: seq<CommitAction>, k: nat, front: (World, nat))
    requires 0 < k <= |actions| && front == CommitEach(w, actions[..k - 1])
    ensures CommitNext(front, actions[k - 1]) == CommitEach(w, actions[..k])
  {
    CommitEachAppend(w, actions[..k - 1], actions[k - 1]);
    assert actions[..k - 1] + [actions[k - 1]] == actions[..k];
  }

  // ----- the actions a save registers

  ghost predicate OwnActions(nodes: set<Node>, w: World) {
    && (forall a :: a in w.undo ==> a.node in nodes)
    && (forall a :: a in w.commits ==> a.node in nodes)
  }

  lemma {:induction false} OwnActionsWhileReserving(env: Environment, nodes: set<Node>, edges: set<Edge>)
    ensures KeptByAttach(nodes, u => OwnActions(nodes, u)) && KeptByReserve(env, nodes, u => OwnActions(nodes, u))
    ensures KeptByCarryBack(nodes, u => OwnActions(nodes, u)) && KeptByLink(nodes, edges, u => OwnActions(nodes, u))
  {
  }

  lemma {:induction false} OwnActionsWhileSending(env: Environment, nodes: set<Node>)
    ensures KeptByReach(nodes, u => OwnActions(nodes, u)) && KeptBySend(env, nodes, u => OwnActions(nodes, u))
    ensures KeptByCommitEntry(nodes, u => OwnActions(nodes, u))
  {
  }

  lemma {:induction false} OwnActionsWhileAdopting(env: Environment, nodes: set<Node>)
    ensures KeptByAdopt(env, nodes, u => OwnActions(nodes, u))
  {
  }

  /** Wherever a save stops, the actions registered so far are about entities of its tree. */
  lemma {:induction false} WorkRegistersItsOwn(env: Environment, w: World, t: Tree)
    requires w.undo == [] && w.commits == []
    ensures OwnActions(Nodes(t), Work(env, w, t).world)
  {
    var nodes := Nodes(t);
    var inv := (u: World) => OwnActions(nodes, u);
    OwnActionsWhileReserving(env, nodes, Edges(t));
    OwnActionsWhileSending(env, nodes);
    OwnActionsWhileAdopting(env, nodes);
    ReserveKeeps(env, nodes, inv, w, t);
    var reserved := Reserve(env, w, t);
    if !reserved.raised {
      PreflightKeeps(env, nodes, Edges(t), inv, reserved.world, t);
      var checked := Preflight(env, reserved.world, t);
      if !checked.raised {
        SaveKeeps(env, nodes, Edges(t), inv, checked.world, t, None);
      }
    }
  }
}
