/**
  The objects of a save: entity objects, whose fields are assigned step by step, and the session that
  collects what to do at the end. Every method is tied to what `GraphModel` computes on values.
 */
module GraphSession {
  import opened Outcomes
  import opened LedgerModel
  import opened GraphModel
  import opened GraphSteps
  import TraceScope

  /** A queued audit event. */
  type Event = string

  function Undelivered(audits: seq<Event>, delivers: Event -> bool): nat {
    if audits == [] then 0
    else Undelivered(audits[..|audits| - 1], delivers) + if delivers(audits[|audits| - 1]) then 0 else 1
  }

  class GraphMutationSession {
    // The entity objects a save can reach, by identity.
    const entities: map<NodeId, GeneratedEntity>
    // The ledgers that entities point at, by identity.
    var ledgers: map<RootId, Root>

    var active: bool
    var committed: bool
    var rollbackActions: seq<UndoAction>
    var commitActions: seq<CommitAction>
    var audits: seq<Event>

    // How many calls have left the program, and what was reached and sent so far.
    var calls: nat
    ghost var visits: seq<Visit>
    ghost var sent: seq<Sent>

    constructor (entities: map<NodeId, GeneratedEntity>, ledgers: map<RootId, Root>)
      ensures this.entities == entities && this.ledgers == ledgers
      ensures active && !committed && rollbackActions == [] && commitActions == [] && audits == []
      ensures calls == 0 && visits == [] && sent == []
    {
      this.entities, this.ledgers := entities, ledgers;
      active, committed := true, false;
      rollbackActions, commitActions, audits := [], [], [];
      calls, visits, sent := 0, [], [];
    }

    /** Every entity object is known under its own identity. */
    ghost predicate Valid() {
      forall i :: i in entities ==> entities[i].node.self == i
    }

    ghost predicate Has(e: GeneratedEntity) {
      e.node.self in entities && entities[e.node.self] == e
    }

    ghost function States(): map<NodeId, Entity>
      reads entities.Values
    {
      map i | i in entities && entities[i] in entities.Values :: entities[i].State()
    }

    /** The state the objects stand for. */
    ghost function Model(): World
      reads this, entities.Values
    {
      World(States(), ledgers, calls, rollbackActions, commitActions, visits, sent)
    }

    ghost predicate Knows(n: Node) {
      n.self in entities && entities[n.self].node == n
    }

    /** Every node of the tree belongs to an entity object of this save. */
    ghost predicate Covers(t: Tree) {
      Knows(t.node) && CoversAll(t.children)
    }

    ghost predicate CoversAll(f: Forest) {
      f.Child? ==> Covers(f.child) && CoversAll(f.rest)
    }

    /** The registered actions are about entities of this save. */
    ghost predicate Registered()
      reads this
    {
      && (forall a :: a in rollbackActions ==> Knows(a.node))
      && (forall a :: a in commitActions ==> Knows(a.node))
    }

    lemma {:induction false} CoveredNodes(t: Tree, n: Node)
      requires Covers(t) && n in Nodes(t)
      ensures Knows(n)
      decreases t
    {
      if n != t.node {
        CoveredNodesOf(t.children, n);
      }
    }

    lemma {:induction false} CoveredNodesOf(f: Forest, n: Node)
      requires CoversAll(f) && n in NodesOf(f)
      ensures Knows(n)
      decreases f
    {
      if n in Nodes(f.child) {
        CoveredNodes(f.child, n);
      } else {
        CoveredNodesOf(f.rest, n);
      }
    }

    lemma {:induction false} CoveredAreRegistered(t: Tree)
      requires Covers(t) && OwnActions(Nodes(t), Model())
      ensures Registered()
    {
      forall n | n in Nodes(t)
        ensures Knows(n)
      {
        CoveredNodes(t, n);
      }
    }

    predicate Writable()
      reads this
    {
      active && !committed
    }

    /** One entity object was written and nothing else. */
    twostate lemma {:induction false} Written(e: GeneratedEntity)
      requires Valid() && Has(e)
      requires forall x :: x in entities.Values && x != e ==> unchanged(x)
      ensures States() == old(States())[e.node.self := e.State()]
    {
    }

    function Ledger(root: RootId): Root
      reads this
    {
      if root in ledgers then ledgers[root] else EMPTY
    }

    /** `rekey` on a ledger. */
    method MoveKey(root: RootId, oldKey: EntityKey, newKey: EntityKey) returns (raised: bool)
      modifies this`ledgers
      ensures Progress(Model(), raised) == KeyMoved(old(Model()), root, oldKey, newKey)
    {
      var moved := Rekey(Ledger(root), oldKey, newKey);
      raised := moved.Err?;
      if !raised {
        ledgers := ledgers[root := moved.value];
      }
    }

    /** `set` on a ledger. */
    method PutField(root: RootId, key: EntityKey, field: string, value: Cell)
      modifies this`ledgers
      ensures Model() == FieldPut(old(Model()), root, key, field, value)
    {
      ledgers := ledgers[root := Put(Ledger(root), key, field, value)];
    }

    method AfterRollback(action: UndoAction) returns (raised: bool)
      modifies this`rollbackActions
      ensures raised == !Writable()
      ensures rollbackActions == if raised then old(rollbackActions) else old(rollbackActions) + [action]
    {
      raised := !active || committed;
      if !raised {
        rollbackActions := rollbackActions + [action];
      }
    }

    method AfterCommit(action: CommitAction) returns (raised: bool)
      modifies this`commitActions
      ensures raised == !Writable()
      ensures commitActions == if raised then old(commitActions) else old(commitActions) + [action]
    {
      raised := !active || committed;
      if !raised {
        commitActions := commitActions + [action];
      }
    }

    method QueueAudit(event: Event) returns (raised: bool)
      modifies this`audits
      ensures raised == !Writable()
      ensures audits == if raised then old(audits) else old(audits) + [event]
    {
      raised := !active || committed;
      if !raised {
        audits := audits + [event];
      }
    }

    method UndoLater(a: UndoAction)
      requires Writable()
      modifies this`rollbackActions
      ensures Model() == UndoAdded(old(Model()), a)
    {
      var raised := AfterRollback(a);
    }

    ghost method Log(entry: Sent)
      modifies this`sent
      ensures Model() == Logged(old(Model()), entry)
    {
      sent := sent + [entry];
    }

    method CommitLater(n: Node, key: EntityKey)
      requires Writable()
      modifies this`commitActions
      ensures Model() == RegisterCommit(old(Model()), n, key)
    {
      var raised := AfterCommit(CommitEntity(n, key));
    }

    // ----- the end of the transaction

    /** One registered action; what it changed before it failed stays changed. */
    method RunUndo(a: UndoAction) returns (failed: bool)
      requires Valid() && Knows(a.node)
      modifies this`ledgers, entities.Values
      ensures Progress(Model(), failed) == Undo(old(Model()), a)
    {
      UndoSteps(Model(), a);
      var e := entities[a.node.self];
      e.Undo(a);
      Written(e);
      failed := MoveBack(e, a);
    }

    /** Gives the ledger key its old number; a reservation also clears the recorded id. */
    method MoveBack(e: GeneratedEntity, a: UndoAction) returns (failed: bool)
      requires Has(e) && e.node == a.node
      modifies this`ledgers
      ensures Progress(Model(), failed) == MovedBack(old(Model()), e.root, a)
    {
      failed := MoveKey(e.root, EntityKey(a.node.typeName, a.newId), OldKey(a));
      if !failed && a.UndoReservation? {
        PutField(e.root, OldKey(a), "id", None);
      }
    }

    /**
      Forgets the queued audits and runs the rollback actions, the last registered first; a failing one does not
      stop the others.
     */
    method RolledBack() returns (failures: nat)
      requires Valid() && Registered()
      modifies this`ledgers, this`audits, entities.Values
      ensures audits == []
      ensures Model().(undo := []) == GraphModel.RolledBack(old(Model())).0
        && failures == GraphModel.RolledBack(old(Model())).1
    {
      audits := [];
      ghost var goal := GraphModel.RolledBack(Model());
      assert rollbackActions[..|rollbackActions|] == rollbackActions && Model().(undo := rollbackActions) == Model();
      failures := RunUndos(goal);
      RollbackEnds(goal, Model(), failures);
    }

    method RunUndos(ghost goal: (World, nat)) returns (failures: nat)
      requires Valid() && Registered() && RollbackLeft(goal, Model(), rollbackActions[..|rollbackActions|], 0)
      modifies this`ledgers, entities.Values
      ensures RollbackLeft(goal, Model(), [], failures)
    {
      failures := 0;
      var i := |rollbackActions|;
      while i > 0
        invariant 0 <= i <= |rollbackActions|
        invariant RollbackLeft(goal, Model(), rollbackActions[..i], failures)
      {
        i := i - 1;
        failures := RunUndoAt(i, failures, goal);
      }
      assert rollbackActions[..0] == [];
    }

    method RunUndoAt(i: nat, failures: nat, ghost goal: (World, nat)) returns (total: nat)
      requires Valid() && Registered() && i < |rollbackActions|
      requires RollbackLeft(goal, Model(), rollbackActions[..i + 1], failures)
      modifies this`ledgers, entities.Values
      ensures RollbackLeft(goal, Model(), rollbackActions[..i], total)
    {
      RollbackStep(goal, Model(), rollbackActions, i, failures);
      var failed := RunUndo(rollbackActions[i]);
      total := failures + if failed then 1 else 0;
    }

    /** `clear_entity` on a ledger. */
    method ClearKey(root: RootId, key: EntityKey)
      modifies this`ledgers
      ensures Model() == KeyCleared(old(Model()), root, key)
    {
      ledgers := ledgers[root := ClearEntity(Ledger(root), key)];
    }

    /** `accept_committed_version` on a ledger. */
    method AcceptVersion(root: RootId, key: EntityKey, version: int) returns (raised: bool)
      modifies this`ledgers
      ensures Progress(Model(), raised) == VersionAccepted(old(Model()), root, key, version)
    {
      var accepted := AcceptCommitted(Ledger(root), key, version);
      raised := accepted.Err?;
      if !raised {
        ledgers := ledgers[root := accepted.value];
      }
    }

    /** Clears the committed key in the entity's ledger and records the new version. */
    method RunCommit(a: CommitAction) returns (failed: bool)
      requires Valid() && Knows(a.node)
      modifies this`ledgers
      ensures Progress(Model(), failed) == Commit(old(Model()), a)
    {
      CommitSteps(Model(), a);
      var e := entities[a.node.self];
      ClearKey(e.root, a.key);
      failed := false;
      if e.version.Some? {
        failed := AcceptVersion(e.root, a.key, e.version.value);
      }
    }

    /** Delivers the queued audits; a sink that fails does not stop the others. */
    method DeliverAudits(delivers: Event -> bool) returns (failures: nat)
      ensures failures == Undelivered(audits, delivers)
    {
      failures := 0;
      var i := 0;
      assert audits[..|audits|] == audits;
      while i < |audits|
        invariant 0 <= i <= |audits| && failures == Undelivered(audits[..i], delivers)
      {
        assert audits[..i + 1][..i] == audits[..i];
        if !delivers(audits[i]) {
          failures := failures + 1;
        }
        i := i + 1;
      }
    }

    /**
      Closes the session for writing, delivers the audits, then runs the commit actions in the order they were
      registered.
     */
    method Committed(delivers: Event -> bool) returns (failures: nat)
      requires Valid() && Registered()
      modifies this`committed, this`ledgers
      ensures committed && Model() == GraphModel.Committed(old(Model())).0
      ensures failures == Undelivered(audits, delivers) + GraphModel.Committed(old(Model())).1
    {
      committed := true;
      var undelivered := DeliverAudits(delivers);
      assert Model() == old(Model());
      failures := RunCommits();
      failures := undelivered + failures;
    }

    method RunCommits() returns (failures: nat)
      requires Valid() && Registered()
      modifies this`ledgers
      ensures Model() == GraphModel.Committed(old(Model())).0 && failures == GraphModel.Committed(old(Model())).1
    {
      ghost var goal := GraphModel.Committed(Model());
      PrefixIsEach(Model(), |commitActions|);
      assert commitActions[..|commitActions|] == commitActions[0..] == commitActions;
      failures := RunCommitsTo(goal);
      CommitsEnd(goal, Model(), failures);
    }

    method RunCommitsTo(ghost goal: (World, nat)) returns (failures: nat)
      requires Valid() && Registered() && CommitsLeft(goal, Model(), commitActions[0..], 0)
      modifies this`ledgers
      ensures CommitsLeft(goal, Model(), [], failures)
    {
      failures := 0;
      for i := 0 to |commitActions|
        invariant CommitsLeft(goal, Model(), commitActions[i..], failures)
      {
        failures := RunCommitAt(i, failures, goal);
      }
      assert commitActions[|commitActions|..] == [];
    }

    method RunCommitAt(i: nat, failures: nat, ghost goal: (World, nat)) returns (total: nat)
      requires Valid() && Registered() && i < |commitActions|
        && CommitsLeft(goal, Model(), commitActions[i..], failures)
      modifies this`ledgers
      ensures CommitsLeft(goal, Model(), commitActions[i + 1..], total)
    {
      CommitStep(goal, Model(), commitActions, i, failures);
      var failed := RunCommit(commitActions[i]);
      total := failures + if failed then 1 else 0;
    }

    method Close()
      modifies this`active, this`commitActions, this`rollbackActions, this`audits
      ensures !active && audits == [] && Model() == GraphModel.Close(old(Model()))
    {
      active := false;
      audits := [];
      commitActions := [];
      rollbackActions := [];
    }
  }

  /** An entity object of a generated class. Its child lists are the forest of the tree it is saved with. */
  class GeneratedEntity {
    const node: Node
    var root: RootId
    var action: Action
    var id: Option<int>
    var version: Option<int>
    var ledgerId: int
    var loaded: set<string>
    var attributes: map<string, Attribute>

    constructor (node: Node, e: Entity)
      ensures this.node == node && State() == e
    {
      this.node := node;
      root, action, id, version := e.root, e.action, e.id, e.version;
      ledgerId, loaded, attributes := e.ledgerId, e.loaded, e.attributes;
    }

    function State(): Entity
      reads this
    {
      Entity(root, action, id, version, ledgerId, loaded, attributes)
    }

    function Key(): EntityKey
      reads this
    {
      EntityKey(node.typeName, ledgerId)
    }

    /** Imports the entity's pending state into another ledger and moves the entity there. */
    method AttachOne(graph: GraphMutationSession, root: RootId) returns (raised: bool)
      requires graph.Valid() && graph.Has(this)
      modifies graph`ledgers, this`root
      ensures Progress(graph.Model(), raised) == GraphModel.AttachOne(old(graph.Model()), node, root)
    {
      if this.root == root || !HasPending(graph.Ledger(this.root), Key()) {
        return false;
      }
      var merged := MergeEntity(graph.Ledger(root), graph.Ledger(this.root), Key());
      if merged.Err? {
        return true;
      }
      graph.ledgers := graph.ledgers[root := merged.value];
      this.root := root;
      graph.Written(this);
      raised := false;
    }

    method ReserveId(graph: GraphMutationSession, env: Environment) returns (raised: bool)
      requires graph.Valid() && graph.Has(this) && graph.Writable()
      modifies graph`calls, graph`ledgers, graph`rollbackActions, this
      ensures Progress(graph.Model(), raised) == GraphModel.ReserveId(env, old(graph.Model()), node)
    {
      ReserveIdSteps(env, graph.Model(), node);
      var reserved := env.allocate(graph.calls, node.typeName);
      graph.calls := graph.calls + 1;
      if reserved.None? {
        return true;
      }
      var oldKey, oldLoaded := Key(), loaded;
      TakeId(reserved.value);
      graph.Written(this);
      raised := RecordId(graph, oldKey, oldLoaded, reserved.value);
    }

    /** Moves the ledger key, records the id, and registers how to undo it. */
    method TakeId(newId: int)
      modifies this`id, this`loaded, this`ledgerId
      ensures State() == WithId(old(State()), newId)
    {
      id := Some(newId);
      loaded := loaded + {"id"};
      ledgerId := newId;
    }

    method RecordId(graph: GraphMutationSession, oldKey: EntityKey, oldLoaded: set<string>,
        newId: int) returns (raised: bool)
      requires graph.Writable() && newId == ledgerId
      modifies graph`ledgers, graph`rollbackActions
      ensures Progress(graph.Model(), raised) == Recorded(old(graph.Model()), node, root, oldKey, Key(), oldLoaded)
    {
      raised := graph.MoveKey(root, oldKey, Key());
      if raised {
        return;
      }
      graph.PutField(root, Key(), "id", Some(Int(newId)));
      graph.UndoLater(UndoReservation(node, oldKey.id, oldLoaded, newId));
    }

    /** Attaches the entity and everything below it. */
    method AttachRoot(graph: GraphMutationSession, t: Tree, root: RootId) returns (raised: bool)
      requires graph.Valid() && graph.Has(this) && t.node == node && graph.Covers(t)
      modifies graph`ledgers, graph.entities.Values
      ensures Progress(graph.Model(), raised) == Attach(old(graph.Model()), t, root)
      decreases t
    {
      raised := AttachOne(graph, root);
      if raised {
        return;
      }
      ghost var start := graph.Model();
      var rest := t.children;
      while rest.Child?
        invariant rest == t.children || rest < t.children
        invariant graph.CoversAll(rest)
        invariant AttachAll(start, t.children, root) == AttachAll(graph.Model(), rest, root)
        decreases rest
      {
        var child := graph.entities[rest.child.node.self];
        raised := child.AttachRoot(graph, rest.child, root);
        if raised {
          return;
        }
        rest := rest.rest;
      }
    }

    /** Gives every new entity without an id one, parents first. */
    method ReserveGraphIds(graph: GraphMutationSession, env: Environment, t: Tree) returns (raised: bool)
      requires graph.Valid() && graph.Has(this) && graph.Writable() && t.node == node && graph.Covers(t)
      modifies graph`calls, graph`ledgers, graph`rollbackActions, graph.entities.Values
      ensures Progress(graph.Model(), raised) == Reserve(env, old(graph.Model()), t)
      decreases t
    {
      if action == Create && id.None? {
        raised := ReserveId(graph, env);
        if raised {
          return;
        }
      }
      raised := ReserveChildren(graph, env, t.children);
    }

    method ReserveChildren(graph: GraphMutationSession, env: Environment, children: Forest) returns (raised: bool)
      requires graph.Valid() && graph.Has(this) && graph.Writable() && graph.CoversAll(children)
      modifies graph`calls, graph`ledgers, graph`rollbackActions, graph.entities.Values
      ensures Progress(graph.Model(), raised) == ReserveAll(env, old(graph.Model()), node, children)
      decreases children
    {
      var rest := children;
      while rest.Child?
        invariant rest == children || rest < children
        invariant graph.CoversAll(rest)
        invariant ReserveAll(env, old(graph.Model()), node, children) == ReserveAll(env, graph.Model(), node, rest)
        decreases rest
      {
        var child := graph.entities[rest.child.node.self];
        raised := child.AttachRoot(graph, rest.child, root);
        if raised {
          return;
        }
        raised := child.ReserveGraphIds(graph, env, rest.child);
        if raised {
          return;
        }
        rest := rest.rest;
      }
      raised := false;
    }

    // ----- commands

    /** An attribute's value; a relation stands for its entity's id. */
    function ReferenceTo(graph: GraphMutationSession, member: string): Cell
      reads this, graph.entities.Values
    {
      if member !in attributes then None
      else
        match attributes[member]
        case Scalar(value) => value
        case Object(other) =>
          if other in graph.entities && graph.entities[other] in graph.entities.Values then IdValue(graph.entities[other].id) else None
    }

    lemma {:induction false} ReferenceIs(graph: GraphMutationSession, member: string)
      requires graph.Has(this)
      ensures ReferenceTo(graph, member) == Reference(graph.Model(), node, member)
    {
    }

    /** What a field contributes to a payload. */
    function PayloadOf(graph: GraphMutationSession, member: string): Cell
      reads this, graph.entities.Values
    {
      if member !in attributes then None
      else
        match attributes[member]
        case Scalar(value) => value
        case Object(other) =>
          if other in graph.entities && graph.entities[other] in graph.entities.Values && graph.entities[other].id.Some? then
            Some(Int(graph.entities[other].id.value))
          else Some(Ref(other))
    }

    lemma {:induction false} PayloadIs(graph: GraphMutationSession, member: string)
      requires graph.Has(this)
      ensures PayloadOf(graph, member) == PayloadValue(graph.Model(), node, member)
    {
    }

    /** The loaded fields by column, then the id and the version. */
    method ScalarPayload(graph: GraphMutationSession) returns (payload: Fields)
      requires graph.Has(this)
      ensures payload == GraphModel.ScalarPayload(graph.Model(), node)
    {
      payload := map[];
      var i := 0;
      while i < |node.fields|
        invariant 0 <= i <= |node.fields|
        invariant payload == FieldPayload(graph.Model(), node, node.fields[..i])
      {
        var f := node.fields[i];
        assert node.fields[..i + 1][..i] == node.fields[..i];
        if f.member in loaded {
          PayloadIs(graph, f.member);
          payload := payload[f.column := PayloadOf(graph, f.member)];
        }
        i := i + 1;
      }
      assert node.fields[..i] == node.fields;
      if "id" in loaded {
        payload := payload["id" := IdValue(id)];
      }
      if "version" in loaded {
        payload := payload["version" := IdValue(version)];
      }
    }

    method BuildCommand(graph: GraphMutationSession) returns (command: Command)
      requires graph.Has(this)
      ensures command == GraphModel.BuildCommand(graph.Model(), node)
    {
      var ledger := graph.Ledger(root);
      var expected := if Key() in ledger.versions then Some(ledger.versions[Key()]) else version;
      if action == Create {
        var payload := ScalarPayload(graph);
        command := Command(Create, node.typeName, id, None, payload);
      } else if action == Update {
        command := Command(Update, node.typeName, id, expected, Carried(FieldsOf(Top(ledger), Key())));
      } else {
        command := Command(Delete, node.typeName, id, expected, map[]);
      }
    }

    /** Records the command's values, as the checkers left them, in the ledger. */
    method CarryBack(graph: GraphMutationSession, values: Fields)
      requires graph.Has(this)
      modifies graph`ledgers
      ensures graph.Model() == GraphModel.CarryBack(old(graph.Model()), node, values)
    {
      if action != Delete {
        var ledger := graph.Ledger(root);
        graph.ledgers := graph.ledgers[root := WithTop(ledger, AddFields(Top(ledger), Key(), Carried(values)))];
      }
    }

    /** Stores the parent's id as foreign key unless it is there already. */
    method LinkTo(graph: GraphMutationSession, member: string, column: string, parent: GeneratedEntity)
      requires graph.Valid() && graph.Has(this) && graph.Has(parent)
      modifies graph`ledgers, this
      ensures graph.Model() == LinkIfNeeded(old(graph.Model()), node, member, column, parent.node)
    {
      ReferenceIs(graph, member);
      var parentId := IdValue(parent.id);
      if ReferenceTo(graph, member) != parentId {
        attributes := attributes[member := Scalar(parentId)];
        loaded := loaded + {member};
        graph.Written(this);
        graph.PutField(root, Key(), column, parentId);
      }
    }

    predicate IsFullyLoaded()
      reads this
    {
      "id" in loaded && "version" in loaded && forall f :: f in node.fields ==> f.member in loaded
    }

    method PreflightOne(graph: GraphMutationSession, env: Environment) returns (raised: bool)
      requires graph.Has(this)
      modifies graph`calls, graph`ledgers
      ensures Progress(graph.Model(), raised) == GraphModel.PreflightOne(env, old(graph.Model()), node)
    {
      if action == Update && !HasPending(graph.Ledger(root), Key()) {
        return false;
      }
      if action == Update && !IsFullyLoaded() {
        return true;
      }
      var command := BuildCommand(graph);
      raised := Precheck(graph, env, command);
    }

    method Precheck(graph: GraphMutationSession, env: Environment, command: Command) returns (raised: bool)
      requires graph.Has(this)
      modifies graph`calls, graph`ledgers
      ensures Progress(graph.Model(), raised) == Prechecked(env, old(graph.Model()), node, command)
    {
      var verdict := env.preflight(graph.calls, command);
      graph.calls := graph.calls + 1;
      CarryBack(graph, verdict.values);
      raised := verdict.Refuses?;
    }

    /** Checks every command of the tree before the first one is sent. */
    method PreflightGraph(graph: GraphMutationSession, env: Environment, t: Tree) returns (raised: bool)
      requires graph.Valid() && graph.Has(this) && t.node == node && graph.Covers(t)
      modifies graph`calls, graph`ledgers, graph.entities.Values
      ensures Progress(graph.Model(), raised) == Preflight(env, old(graph.Model()), t)
      decreases t
    {
      raised := PreflightOne(graph, env);
      if !raised {
        raised := PreflightChildren(graph, env, t.children);
      }
    }

    method PreflightChildren(graph: GraphMutationSession, env: Environment, children: Forest) returns (raised: bool)
      requires graph.Valid() && graph.Has(this) && graph.CoversAll(children)
      modifies graph`calls, graph`ledgers, graph.entities.Values
      ensures Progress(graph.Model(), raised) == PreflightAll(env, old(graph.Model()), node, children)
      decreases children
    {
      var rest := children;
      while rest.Child?
        invariant rest == children || rest < children
        invariant graph.CoversAll(rest)
        invariant PreflightAll(env, old(graph.Model()), node, children) == PreflightAll(env, graph.Model(), node, rest)
        decreases rest
      {
        var child := graph.entities[rest.child.node.self];
        raised := child.AttachRoot(graph, rest.child, root);
        if raised {
          return;
        }
        child.LinkTo(graph, rest.member, rest.column, this);
        raised := child.PreflightGraph(graph, env, rest.child);
        if raised {
          return;
        }
        rest := rest.rest;
      }
      raised := false;
    }

    /** Gives the fields back what the undo action remembers; attributes that were not loaded keep what they hold. */
    method Undo(a: UndoAction)
      modifies this`id, this`version, this`action, this`ledgerId, this`loaded, this`attributes
      ensures State() == Undone(old(State()), a)
    {
      match a
      case UndoReservation(_, oldId, oldLoaded, _) =>
        id := None;
        ledgerId := oldId;
        loaded := oldLoaded;
      case UndoSave(_, before, _) =>
        attributes := attributes + LoadedAttributes(before);
        id := before.id;
        version := before.version;
        ledgerId := before.ledgerId;
        action := before.action;
        loaded := before.loaded;
    }

    // ----- saving

    /** Builds the command and its lineage, has it checked and hands it to the provider. */
    method Send(graph: GraphMutationSession, env: Environment,
        scope: TraceScope.Scope) returns (raised: bool, reply: Reply)
      requires graph.Has(this)
      modifies graph`calls, graph`ledgers, graph`sent
      ensures var sent := GraphModel.Send(env, old(graph.Model()), node, scope);
        Progress(graph.Model(), raised) == sent.0 && reply == sent.1
    {
      SendSteps(env, graph.Model(), node, scope);
      var built := BuildCommand(graph);
      ghost var origin := OriginOf(graph.Model(), node);
      var specific := TraceChain(graph.Ledger(root), Key());
      var lineage := specific;
      if specific == [] {
        lineage := TraceScope.Recover(scope);
      }
      raised, reply := Transmit(graph, env, built, specific, lineage, origin);
    }

    /** The checker edits the command in place; what it leaves is recorded in the ledger and sent. */
    method Transmit(
      graph: GraphMutationSession, env: Environment, built: Command,
      specific: Chain, lineage: Chain, ghost origin: Origin) returns (raised: bool, reply: Reply)
      requires graph.Has(this)
      modifies graph`calls, graph`ledgers, graph`sent
      ensures var sent := Transmitted(env, old(graph.Model()), node, built, specific, lineage, origin);
        Progress(graph.Model(), raised) == sent.0 && reply == sent.1
    {
      ghost var clock := graph.calls;
      var verdict := env.check(graph.calls, built);
      graph.calls := graph.calls + 1;
      var command := built;
      if built.action != Delete {
        command := command.(values := verdict.values);
      }
      CarryBack(graph, verdict.values);
      if verdict.Refuses? {
        return true, NoRecord;
      }
      raised, reply := Deliver(graph, env, clock, built, command, specific, lineage, origin);
    }

    method Deliver(
      graph: GraphMutationSession, env: Environment, ghost clock: nat, ghost built: Command, command: Command,
      specific: Chain, lineage: Chain, ghost origin: Origin) returns (raised: bool, reply: Reply)
      modifies graph`calls, graph`sent
      ensures var sent := Answered(env, old(graph.Model()), node, clock, built, command, specific, lineage, origin);
        Progress(graph.Model(), raised) == sent.0 && reply == sent.1
    {
      reply := env.mutate(graph.calls, command);
      graph.calls := graph.calls + 1;
      graph.Log(Sent(node, clock, built, command, specific, lineage, origin, reply));
      raised := !reply.Persisted?;
    }

    /** Takes over the persisted columns, field by field. */
    method StoreColumns(columns: Fields)
      modifies this`attributes, this`loaded
      ensures State() == StoreFields(old(State()), columns, node.fields)
    {
      var i := 0;
      while i < |node.fields|
        invariant 0 <= i <= |node.fields|
        invariant State() == StoreFields(old(State()), columns, node.fields[..i])
      {
        var f := node.fields[i];
        assert node.fields[..i + 1][..i] == node.fields[..i];
        if f.column in columns {
          attributes := attributes[f.member := Scalar(columns[f.column])];
          loaded := loaded + {f.member};
        } else if f.member in columns {
          attributes := attributes[f.member := Scalar(columns[f.member])];
          loaded := loaded + {f.member};
        }
        i := i + 1;
      }
      assert node.fields[..i] == node.fields;
    }

    method AdoptRecord(reply: Reply)
      requires reply.Persisted?
      modifies this`id, this`version, this`ledgerId, this`attributes, this`loaded
      ensures State() == Adopted(node, old(State()), reply)
    {
      StoreColumns(reply.columns);
      if reply.id.Some? {
        id := reply.id;
        loaded := loaded + {"id"};
      }
      if reply.version.Some? {
        version := reply.version;
        loaded := loaded + {"version"};
      }
      if id.Some? {
        ledgerId := id.value;
      }
    }

    /** Adopts the provider's record, moves the ledger key with the id, and registers how to undo it. */
    method Adopt(graph: GraphMutationSession, reply: Reply) returns (raised: bool)
      requires graph.Valid() && graph.Has(this) && graph.Writable() && reply.Persisted?
      modifies graph`ledgers, graph`rollbackActions, this
      ensures Progress(graph.Model(), raised) == GraphModel.Adopt(old(graph.Model()), node, reply)
    {
      AdoptSteps(graph.Model(), node, reply);
      var before := State();
      AdoptRecord(reply);
      graph.Written(this);
      raised := Confirm(graph, before);
    }

    method Confirm(graph: GraphMutationSession, before: Entity) returns (raised: bool)
      requires graph.Valid() && graph.Has(this) && graph.Writable() && before.root == root && before.action == action
      modifies graph`ledgers, graph`rollbackActions, this`action
      ensures Progress(graph.Model(), raised)
           == Confirmed(old(graph.Model()), node, root, EntityKey(node.typeName, before.ledgerId), Key(), before)
    {
      raised := graph.MoveKey(root, EntityKey(node.typeName, before.ledgerId), Key());
      if raised {
        return;
      }
      graph.UndoLater(UndoSave(node, before, ledgerId));
      if action != Delete {
        action := Update;
        graph.Written(this);
      }
    }

    method SaveOwn(graph: GraphMutationSession, env: Environment, t: Tree,
        scope: TraceScope.Scope) returns (raised: bool)
      requires graph.Valid() && graph.Has(this) && graph.Writable() && t.node == node && graph.Covers(t)
      modifies graph`calls, graph`ledgers, graph`rollbackActions, graph`sent, graph.entities.Values
      ensures Progress(graph.Model(), raised) == GraphModel.SaveOwn(env, old(graph.Model()), t, scope)
    {
      raised := AttachRoot(graph, t, root);
      if raised {
        return;
      }
      var reply;
      raised, reply := Send(graph, env, scope);
      if raised {
        return;
      }
      raised := Adopt(graph, reply);
    }

    /**
      Sends the entity's command if it has something to save, then saves its children, and registers the commit
      action last.
     */
    method SaveWithinGraph(graph: GraphMutationSession, env: Environment, t: Tree,
        parent: Option<TraceScope.Scope>) returns (raised: bool)
      requires graph.Valid() && graph.Has(this) && graph.Writable() && t.node == node && graph.Covers(t)
      modifies graph`calls, graph`ledgers, graph`rollbackActions, graph`commitActions, graph`visits, graph`sent, graph.entities.Values
      ensures Progress(graph.Model(), raised) == Save(env, old(graph.Model()), t, parent)
      decreases t, 2
    {
      var scope := if parent.None? then TraceScope.Root(Key(), node.reason) else TraceScope.Branch(parent.value, Key(), node.reason);
      if scope.None? {
        return true;
      }
      var pending := HasPending(graph.Ledger(root), Key());
      graph.visits := graph.visits + [Visit(node, action, pending)];
      if action == Update && !pending {
        raised := SaveChildren(graph, env, t.children, scope.value);
      } else {
        raised := SaveCommanded(graph, env, t, scope.value, action == Delete);
      }
    }

    method SaveCommanded(graph: GraphMutationSession, env: Environment, t: Tree, scope: TraceScope.Scope,
        deleted: bool) returns (raised: bool)
      requires graph.Valid() && graph.Has(this) && graph.Writable() && t.node == node && graph.Covers(t)
      modifies graph`calls, graph`ledgers, graph`rollbackActions, graph`commitActions, graph`visits, graph`sent, graph.entities.Values
      ensures Progress(graph.Model(), raised) == GraphModel.SaveCommanded(env, old(graph.Model()), t, scope, deleted)
      decreases t, 1
    {
      raised := SaveOwn(graph, env, t, scope);
      if raised {
        return;
      }
      var newKey := Key();
      if !deleted {
        raised := SaveChildren(graph, env, t.children, scope);
        if raised {
          return;
        }
      }
      graph.CommitLater(node, newKey);
      raised := false;
    }

    method SaveChildren(graph: GraphMutationSession, env: Environment, children: Forest,
        scope: TraceScope.Scope) returns (raised: bool)
      requires graph.Valid() && graph.Has(this) && graph.Writable() && graph.CoversAll(children)
      modifies graph`calls, graph`ledgers, graph`rollbackActions, graph`commitActions, graph`visits, graph`sent, graph.entities.Values
      ensures Progress(graph.Model(), raised) == SaveAll(env, old(graph.Model()), node, children, scope)
      decreases children, 1
    {
      var rest := children;
      while rest.Child?
        invariant rest == children || rest < children
        invariant graph.CoversAll(rest)
        invariant SaveAll(env, old(graph.Model()), node, children, scope) == SaveAll(env, graph.Model(), node, rest, scope)
        decreases rest
      {
        SaveAllSteps(env, graph.Model(), node, rest, scope);
        raised := SaveChild(graph, env, rest, scope);
        if raised {
          return;
        }
        rest := rest.rest;
      }
      raised := false;
    }

    /** Attaches, links and saves the first child. */
    method SaveChild(graph: GraphMutationSession, env: Environment, children: Forest,
        scope: TraceScope.Scope) returns (raised: bool)
      requires graph.Valid() && graph.Has(this) && graph.Writable() && children.Child? && graph.CoversAll(children)
      modifies graph`calls, graph`ledgers, graph`rollbackActions, graph`commitActions, graph`visits, graph`sent, graph.entities.Values
      ensures Progress(graph.Model(), raised) == ChildSaved(env, old(graph.Model()), node, children, scope)
      decreases children, 0
    {
      var child := graph.entities[children.child.node.self];
      raised := child.AttachRoot(graph, children.child, root);
      if !raised {
        child.LinkTo(graph, children.member, children.column, this);
        raised := child.SaveWithinGraph(graph, env, children.child, Some(scope));
      }
    }

    /** Everything a save does inside its transaction. */
    method PreflightAndSave(graph: GraphMutationSession, env: Environment, t: Tree) returns (raised: bool)
      requires graph.Valid() && graph.Has(this) && graph.Writable() && t.node == node && graph.Covers(t)
      modifies graph`calls, graph`ledgers, graph`rollbackActions, graph`commitActions, graph`visits, graph`sent, graph.entities.Values
      ensures Progress(graph.Model(), raised) == Work(env, old(graph.Model()), t)
    {
      raised := ReserveGraphIds(graph, env, t);
      if !raised {
        raised := PreflightGraph(graph, env, t);
      }
      if !raised {
        raised := SaveWithinGraph(graph, env, t, None);
      }
    }
  }

  /**
    The driver: the work runs and may stop anywhere, then exactly one of the two endings runs, then the session is closed.
   */
  method ExecuteGraphSave(
    graph: GraphMutationSession, env: Environment, t: Tree, providerCommits: bool, delivers: Event -> bool)
    returns (ending: Ending)
    requires graph.Valid() && graph.Writable() && graph.Covers(t)
    requires graph.rollbackActions == [] && graph.commitActions == []
    modifies graph, graph.entities.Values
    ensures graph.active ==> TraceScope.BlankReason(t.node.reason)
    ensures Finish(graph.Model(), ending)
         == Execute(env, old(graph.Model()), t, providerCommits, Undelivered(old(graph.audits), delivers))
  {
    if TraceScope.BlankReason(t.node.reason) {
      return NotSaved;
    }
    ghost var w := graph.Model();
    var raised := graph.entities[t.node.self].PreflightAndSave(graph, env, t);
    WorkRegistersItsOwn(env, w, t);
    graph.CoveredAreRegistered(t);
    ending := End(graph, raised, providerCommits, delivers);
  }

  /** Exactly one of the two endings. */
  method End(graph: GraphMutationSession, stopped: bool, providerCommits: bool,
      delivers: Event -> bool) returns (ending: Ending)
    requires graph.Valid() && graph.Registered()
    modifies graph, graph.entities.Values
    ensures !graph.active
    ensures Finish(graph.Model(), ending)
         == Ended(old(graph.Model()), stopped, providerCommits, Undelivered(old(graph.audits), delivers))
  {
    if stopped || !providerCommits {
      var failures := graph.RolledBack();
      ending := NotSaved;
    } else {
      var failures := graph.Committed(delivers);
      ending := if failures == 0 then Saved else SavedWithFailures(failures);
    }
    graph.Close();
  }
}
