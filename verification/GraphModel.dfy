/**
  One graph save as a state machine: entities, the ledgers they point at, and the session that
  collects what to do on commit and on rollback. Every call that leaves the program (the id
  allocator, the checkers, the provider) is answered by an environment that may fail at any of them.
 */
module GraphModel {
  import opened Outcomes
  import opened LedgerModel
  import TraceScope

  type NodeId = nat
  type RootId = nat

  datatype Action = Create | Update | Delete

  /** An attribute holds a plain value or, for a relation, another entity object. */
  datatype Attribute = Scalar(value: Cell) | Object(node: NodeId)

  /** The mutable part of an entity object. */
  datatype Entity = Entity(
    root: RootId, action: Action, id: Option<int>, version: Option<int>, ledgerId: int,
    loaded: set<string>, attributes: map<string, Attribute>)

  /** A member and the column that stores it. */
  datatype Field = Field(member: string, column: string)

  /** The part of an entity object that a save never changes. */
  datatype Node = Node(self: NodeId, typeName: string, fields: seq<Field>, reason: Option<string>)

  /** The entities a save can reach, as a tree; `member` is the child's foreign key to its parent. */
  datatype Tree = Tree(node: Node, children: Forest)
  datatype Forest = Done | Child(member: string, column: string, child: Tree, rest: Forest)

  function Nodes(t: Tree): set<Node> {
    {t.node} + NodesOf(t.children)
  }

  function NodesOf(f: Forest): set<Node> {
    match f
    case Done => {}
    case Child(_, _, child, rest) => Nodes(child) + NodesOf(rest)
  }

  datatype Command = Command(action: Action, typeName: string, id: Option<int>, expectedVersion: Option<int>, values: Fields)

  /** A checker's answer carries the command's values as it leaves them, also when it refuses. */
  datatype Verdict = Accepts(values: Fields) | Refuses(values: Fields)

  /** The provider's answer; an absent id or version is a column missing from the record. */
  datatype Reply = Fails | NoRecord | Persisted(id: Option<int>, version: Option<int>, columns: Fields)

  /** Answers to the calls that leave the program, numbered by a clock. */
  datatype Environment = Environment(
    allocate: (nat, string) -> Option<int>,
    preflight: (nat, Command) -> Verdict,
    check: (nat, Command) -> Verdict,
    mutate: (nat, Command) -> Reply)

  datatype UndoAction =
    | UndoReservation(node: Node, oldId: int, oldLoaded: set<string>, newId: int)
    | UndoSave(node: Node, before: Entity, newId: int)

  datatype CommitAction = CommitEntity(node: Node, key: EntityKey)

  /** An entity as the save reached it. */
  datatype Visit = Visit(node: Node, action: Action, pending: bool) {
    predicate Commanded() {
      action != Update || pending
    }
  }

  /**
    What a command is built from: the entity, the version and the lineage recorded for its key, its resolved
    attributes, and its fields in each layer of its ledger.
   */
  datatype Origin = Origin(entity: Entity, version: Option<int>, trace: Chain, attributes: Fields, fields: seq<Fields>)

  /**
    A command handed to the provider: when it was checked, as it was built and as its checker left it, its lineage,
    what it was built from, and the provider's answer.
   */
  datatype Sent = Sent(
    node: Node, clock: nat, built: Command, command: Command, specific: Chain, lineage: Chain, origin: Origin, reply: Reply)

  datatype World = World(
    entities: map<NodeId, Entity>, ledgers: map<RootId, Root>, clock: nat,
    undo: seq<UndoAction>, commits: seq<CommitAction>, visits: seq<Visit>, sent: seq<Sent>)

  /** The state in which work stopped, and whether it stopped by raising. */
  datatype Progress = Progress(world: World, raised: bool)

  // ----- looking things up

  function EntityOf(w: World, n: Node): Entity {
    EntityAt(w, n.self)
  }

  function EntityAt(w: World, self: NodeId): Entity {
    if self in w.entities then w.entities[self] else Entity(0, Update, None, None, 0, {}, map[])
  }

  function LedgerAt(w: World, root: RootId): Root {
    if root in w.ledgers then w.ledgers[root] else EMPTY
  }

  function LedgerOf(w: World, n: Node): Root {
    LedgerAt(w, EntityOf(w, n).root)
  }

  function KeyOf(w: World, n: Node): EntityKey {
    EntityKey(n.typeName, EntityOf(w, n).ledgerId)
  }

  function IdValue(id: Option<int>): Cell {
    if id.Some? then Some(Int(id.value)) else None
  }

  /** `getattr(reference, "id", reference)` */
  function Resolved(w: World, a: Attribute): Cell {
    match a
    case Scalar(v) => v
    case Object(self) => IdValue(EntityAt(w, self).id)
  }

  function Reference(w: World, n: Node, member: string): Cell {
    var e := EntityOf(w, n);
    if member in e.attributes then Resolved(w, e.attributes[member]) else None
  }

  /** What a field contributes to a payload: a relation to an entity without an id stays a reference. */
  function PayloadValue(w: World, n: Node, member: string): Cell {
    var e := EntityOf(w, n);
    if member !in e.attributes then None
    else
      match e.attributes[member]
      case Scalar(v) => v
      case Object(self) => Some(if EntityAt(w, self).id.Some? then Int(EntityAt(w, self).id.value) else Ref(self))
  }

  predicate Pending(w: World, n: Node) {
    HasPending(LedgerOf(w, n), KeyOf(w, n))
  }

  // ----- primitive changes

  function WithEntity(w: World, n: Node, e: Entity): World {
    w.(entities := w.entities[n.self := e])
  }

  function WithLedger(w: World, root: RootId, l: Root): World {
    w.(ledgers := w.ledgers[root := l])
  }

  function Tick(w: World): World {
    w.(clock := w.clock + 1)
  }

  /** `set` with a column name, which is never blank. */
  function Put(l: Root, key: EntityKey, field: string, value: Cell): Root {
    WithTop(l, SetCell(Top(l), key, field, value))
  }

  /** The values that travel between a command and the ledger: all but id and version. */
  function Carried(values: Fields): Fields {
    values - {"id", "version"}
  }

  /** `_teaql_attach_root` on one entity: a pending entity of another ledger is imported. */
  function AttachOne(w: World, n: Node, root: RootId): Progress {
    var e := EntityOf(w, n);
    if e.root == root || !Pending(w, n) then Progress(w, false)
    else
      var merged := MergeEntity(LedgerAt(w, root), LedgerOf(w, n), KeyOf(w, n));
      if merged.Err? then Progress(w, true)
      else Progress(WithEntity(WithLedger(w, root, merged.value), n, e.(root := root)), false)
  }

  /** Takes an id from the allocator and moves the ledger key; the undo action is registered last. */
  function ReserveId(env: Environment, w: World, n: Node): Progress {
    var e := EntityOf(w, n);
    var id := env.allocate(w.clock, n.typeName);
    if id.None? then Progress(Tick(w), true)
    else
      var w1 := WithEntity(Tick(w), n, e.(id := id, loaded := e.loaded + {"id"}, ledgerId := id.value));
      var oldKey, newKey := KeyOf(w, n), EntityKey(n.typeName, id.value);
      var moved := Rekey(LedgerAt(w, e.root), oldKey, newKey);
      if moved.Err? then Progress(w1, true)
      else
        var w2 := WithLedger(w1, e.root, Put(moved.value, newKey, "id", Some(Int(id.value))));
        Progress(w2.(undo := w2.undo + [UndoReservation(n, e.ledgerId, e.loaded, id.value)]), false)
  }

  /** `update_<parent>`: stores the parent's id as foreign key and records it in the child's own ledger. */
  function Link(w: World, child: Node, member: string, column: string, parent: Node): World {
    var e, id := EntityOf(w, child), IdValue(EntityOf(w, parent).id);
    var w1 := WithEntity(w, child, e.(attributes := e.attributes[member := Scalar(id)], loaded := e.loaded + {member}));
    WithLedger(w1, e.root, Put(LedgerOf(w, child), KeyOf(w, child), column, id))
  }

  function LinkIfNeeded(w: World, child: Node, member: string, column: string, parent: Node): World {
    if Reference(w, child, member) != IdValue(EntityOf(w, parent).id) then Link(w, child, member, column, parent) else w
  }

  /** Commands with values carry them back into the ledger, whatever the verdict; deletions have none. */
  function CarryBack(w: World, n: Node, values: Fields): World {
    if EntityOf(w, n).action == Delete then w
    else WithLedger(w, EntityOf(w, n).root, WithTop(LedgerOf(w, n), AddFields(Top(LedgerOf(w, n)), KeyOf(w, n), Carried(values))))
  }

  // ----- commands

  /** The loaded fields, by column; a relation contributes its object's id. */
  function FieldPayload(w: World, n: Node, fields: seq<Field>): Fields {
    if fields == [] then map[]
    else
      var front, f := FieldPayload(w, n, fields[..|fields| - 1]), fields[|fields| - 1];
      if f.member in EntityOf(w, n).loaded then front[f.column := PayloadValue(w, n, f.member)] else front
  }

  function LoadedAttributes(e: Entity): map<string, Attribute> {
    Only(e.attributes, e.loaded)
  }

  function ScalarPayload(w: World, n: Node): Fields {
    var e := EntityOf(w, n);
    FieldPayload(w, n, n.fields)
      + (if "id" in e.loaded then map["id" := IdValue(e.id)] else map[])
      + (if "version" in e.loaded then map["version" := IdValue(e.version)] else map[])
  }

  function BuildCommand(w: World, n: Node): Command {
    var e, key, l := EntityOf(w, n), KeyOf(w, n), LedgerOf(w, n);
    var version := if key in l.versions then Some(l.versions[key]) else e.version;
    match e.action
    case Create => Command(Create, n.typeName, e.id, None, ScalarPayload(w, n))
    case Update => Command(Update, n.typeName, e.id, version, Carried(FieldsOf(Top(l), key)))
    case Delete => Command(Delete, n.typeName, e.id, version, map[])
  }

  predicate FullyLoaded(w: World, n: Node) {
    var loaded := EntityOf(w, n).loaded;
    "id" in loaded && "version" in loaded && forall f :: f in n.fields ==> f.member in loaded
  }

  /** The record's value of a field, under its column or its member name. */
  function Stored(columns: Fields, f: Field): Option<Cell> {
    if f.column in columns then Some(columns[f.column])
    else if f.member in columns then Some(columns[f.member])
    else None
  }

  function StoreFields(e: Entity, columns: Fields, fields: seq<Field>): Entity {
    if fields == [] then e
    else
      var front, f := StoreFields(e, columns, fields[..|fields| - 1]), fields[|fields| - 1];
      var value := Stored(columns, f);
      if value.None? then front
      else front.(attributes := front.attributes[f.member := Scalar(value.value)], loaded := front.loaded + {f.member})
  }

  /** The entity after adopting the persisted record, before its action changes. */
  function Adopted(n: Node, e: Entity, reply: Reply): Entity
    requires reply.Persisted?
  {
    var e1 := StoreFields(e, reply.columns, n.fields);
    var e2 := if reply.id.Some? then e1.(id := reply.id, loaded := e1.loaded + {"id"}) else e1;
    var e3 := if reply.version.Some? then e2.(version := reply.version, loaded := e2.loaded + {"version"}) else e2;
    if e3.id.Some? then e3.(ledgerId := e3.id.value) else e3
  }

  /**
    Adopts the record, moves the key if the record's id differs, registers the undo action, and turns the action
    to Update.
   */
  function Adopt(w: World, n: Node, reply: Reply): Progress
    requires reply.Persisted?
  {
    var e := EntityOf(w, n);
    var adopted := Adopted(n, e, reply);
    var w1 := WithEntity(w, n, adopted);
    var moved := Rekey(LedgerOf(w, n), KeyOf(w, n), EntityKey(n.typeName, adopted.ledgerId));
    if moved.Err? then Progress(w1, true)
    else
      var w2 := WithLedger(w1, e.root, moved.value);
      var w3 := w2.(undo := w2.undo + [UndoSave(n, e, adopted.ledgerId)]);
      Progress(if e.action == Delete then w3 else WithEntity(w3, n, adopted.(action := Update)), false)
  }

  // ----- the recursions

  function Attach(w: World, t: Tree, root: RootId): Progress
    decreases t
  {
    var r := AttachOne(w, t.node, root);
    if r.raised then r else AttachAll(r.world, t.children, root)
  }

  function AttachAll(w: World, f: Forest, root: RootId): Progress
    decreases f
  {
    match f
    case Done => Progress(w, false)
    case Child(_, _, child, rest) =>
      var r := Attach(w, child, root);
      if r.raised then r else AttachAll(r.world, rest, root)
  }

  function Reserve(env: Environment, w: World, t: Tree): Progress
    decreases t
  {
    var e := EntityOf(w, t.node);
    var r := if e.action == Create && e.id.None? then ReserveId(env, w, t.node) else Progress(w, false);
    if r.raised then r else ReserveAll(env, r.world, t.node, t.children)
  }

  function ReserveAll(env: Environment, w: World, parent: Node, f: Forest): Progress
    decreases f
  {
    match f
    case Done => Progress(w, false)
    case Child(_, _, child, rest) =>
      var r := Attach(w, child, EntityOf(w, parent).root);
      if r.raised then r
      else
        var s := Reserve(env, r.world, child);
        if s.raised then s else ReserveAll(env, s.world, parent, rest)
  }

  /** Builds the command and asks the preflight policies and checkers about it. */
  function PreflightOne(env: Environment, w: World, n: Node): Progress {
    var e := EntityOf(w, n);
    if e.action == Update && !Pending(w, n) then Progress(w, false)
    else if e.action == Update && !FullyLoaded(w, n) then Progress(w, true)
    else
      var verdict := env.preflight(w.clock, BuildCommand(w, n));
      Progress(CarryBack(Tick(w), n, verdict.values), verdict.Refuses?)
  }

  function Preflight(env: Environment, w: World, t: Tree): Progress
    decreases t
  {
    var r := PreflightOne(env, w, t.node);
    if r.raised then r else PreflightAll(env, r.world, t.node, t.children)
  }

  function PreflightAll(env: Environment, w: World, parent: Node, f: Forest): Progress
    decreases f
  {
    match f
    case Done => Progress(w, false)
    case Child(member, column, child, rest) =>
      var r := Attach(w, child, EntityOf(w, parent).root);
      if r.raised then r
      else
        var s := Preflight(env, LinkIfNeeded(r.world, child.node, member, column, parent), child);
        if s.raised then s else PreflightAll(env, s.world, parent, rest)
  }

  function ScopeOf(w: World, n: Node, parent: Option<TraceScope.Scope>): Option<TraceScope.Scope> {
    if parent.None? then TraceScope.Root(KeyOf(w, n), n.reason) else TraceScope.Branch(parent.value, KeyOf(w, n), n.reason)
  }

  function Reach(w: World, n: Node): World {
    w.(visits := w.visits + [Visit(n, EntityOf(w, n).action, Pending(w, n))])
  }

  /** The resolved attributes of an entity. */
  function ResolvedAttributes(w: World, n: Node): Fields {
    var e := EntityOf(w, n);
    map member | member in e.attributes :: Resolved(w, e.attributes[member])
  }

  /** The fields under an entity's key, layer by layer, the top layer last. */
  function LayeredFields(w: World, n: Node): seq<Fields> {
    FieldsIn(LedgerOf(w, n).layers, KeyOf(w, n))
  }

  function FieldsIn(layers: seq<Changes>, key: EntityKey): (r: seq<Fields>)
    ensures |r| == |layers| && forall i :: 0 <= i < |layers| ==> r[i] == FieldsOf(layers[i], key)
  {
    seq(|layers|, i requires 0 <= i < |layers| => FieldsOf(layers[i], key))
  }

  function OriginOf(w: World, n: Node): Origin {
    var l, key := LedgerOf(w, n), KeyOf(w, n);
    Origin(EntityOf(w, n), VersionOf(l, key), TraceChain(l, key), ResolvedAttributes(w, n), LayeredFields(w, n))
  }

  /** The command as its checker leaves it: checkers edit the values in place; a deletion has none. */
  function Checked(built: Command, values: Fields): Command {
    if built.action == Delete then built else built.(values := values)
  }

  /** Builds the command, has it checked and sends it as checked; stops before the provider's answer is adopted. */
  function Send(env: Environment, w: World, n: Node, scope: TraceScope.Scope): (Progress, Reply) {
    var built := BuildCommand(w, n);
    var specific := TraceChain(LedgerOf(w, n), KeyOf(w, n));
    var lineage := if specific != [] then specific else TraceScope.Recovered(scope);
    var verdict := env.check(w.clock, built);
    var w1 := CarryBack(Tick(w), n, verdict.values);
    if verdict.Refuses? then (Progress(w1, true), NoRecord)
    else
      var command := Checked(built, verdict.values);
      var reply := env.mutate(w1.clock, command);
      var entry := Sent(n, w.clock, built, command, specific, lineage, OriginOf(w, n), reply);
      var w2 := Tick(w1).(sent := w1.sent + [entry]);
      (Progress(w2, !reply.Persisted?), reply)
  }

  /** An entity's own part of the save: attach its subtree, send its command, adopt the answer. */
  function SaveOwn(env: Environment, w: World, t: Tree, scope: TraceScope.Scope): Progress {
    var a := Attach(w, t, EntityOf(w, t.node).root);
    if a.raised then a
    else
      var s := Send(env, a.world, t.node, scope);
      if s.0.raised then s.0 else Adopt(s.0.world, t.node, s.1)
  }

  function RegisterCommit(w: World, n: Node, key: EntityKey): World {
    w.(commits := w.commits + [CommitEntity(n, key)])
  }

  function Save(env: Environment, w: World, t: Tree, parent: Option<TraceScope.Scope>): Progress
    decreases t, 1
  {
    var n := t.node;
    var scope := ScopeOf(w, n, parent);
    if scope.None? then Progress(w, true)
    else
      var w1 := Reach(w, n);
      var action := EntityOf(w, n).action;
      if action == Update && !Pending(w, n) then SaveAll(env, w1, n, t.children, scope.value)
      else SaveCommanded(env, w1, t, scope.value, action == Delete)
  }

  /** The part of a save that follows once an entity is to get a command. */
  function SaveCommanded(env: Environment, w: World, t: Tree, scope: TraceScope.Scope, deleted: bool): Progress
    decreases t, 0
  {
    var n, own := t.node, SaveOwn(env, w, t, scope);
    if own.raised then own
    else
      var c := if deleted then own else SaveAll(env, own.world, n, t.children, scope);
      if c.raised then c else Progress(RegisterCommit(c.world, n, KeyOf(own.world, n)), false)
  }

  function SaveAll(env: Environment, w: World, parent: Node, f: Forest, scope: TraceScope.Scope): Progress
    decreases f
  {
    match f
    case Done => Progress(w, false)
    case Child(member, column, child, rest) =>
      var r := Attach(w, child, EntityOf(w, parent).root);
      if r.raised then r
      else
        var s := Save(env, LinkIfNeeded(r.world, child.node, member, column, parent), child, Some(scope));
        if s.raised then s else SaveAll(env, s.world, parent, rest, scope)
  }

  /** Everything a save does between the start of the transaction and its end. */
  function Work(env: Environment, w: World, t: Tree): Progress {
    var r := Reserve(env, w, t);
    if r.raised then r
    else
      var p := Preflight(env, r.world, t);
      if p.raised then p else Save(env, p.world, t, None)
  }

  // ----- the end of a transaction

  /** One undo action, on the entity and the ledger it points at when it runs. It may fail, and is then passed over. */
  function Undo(w: World, a: UndoAction): Progress {
    match a
    case UndoReservation(n, oldId, oldLoaded, newId) =>
      var e := EntityOf(w, n).(id := None, ledgerId := oldId, loaded := oldLoaded);
      var oldKey := EntityKey(n.typeName, oldId);
      var moved := Rekey(LedgerAt(w, e.root), EntityKey(n.typeName, newId), oldKey);
      if moved.Err? then Progress(WithEntity(w, n, e), true)
      else Progress(WithLedger(WithEntity(w, n, e), e.root, Put(moved.value, oldKey, "id", None)), false)
    case UndoSave(n, before, newId) =>
      var e := EntityOf(w, n);
      var restored := e.(id := before.id, version := before.version, attributes := e.attributes + LoadedAttributes(before),
                         ledgerId := before.ledgerId, action := before.action, loaded := before.loaded);
      var moved := Rekey(LedgerAt(w, e.root), EntityKey(n.typeName, newId), EntityKey(n.typeName, before.ledgerId));
      if moved.Err? then Progress(WithEntity(w, n, restored), true)
      else Progress(WithLedger(WithEntity(w, n, restored), e.root, moved.value), false)
  }

  /** Undo actions run last registered first. The number of failures is reported. */
  function RolledBack(w: World): (World, nat)
    decreases |w.undo|
  {
    if w.undo == [] then (w, 0)
    else
      var last := |w.undo| - 1;
      var r := Undo(w.(undo := w.undo[..last]), w.undo[last]);
      var end := RolledBack(r.world.(undo := w.undo[..last]));
      (end.0, end.1 + if r.raised then 1 else 0)
  }

  /** Clears what the entity's ledger holds for the committed key and records the new version. */
  function Commit(w: World, a: CommitAction): Progress {
    var e := EntityOf(w, a.node);
    var cleared := ClearEntity(LedgerAt(w, e.root), a.key);
    if e.version.None? then Progress(WithLedger(w, e.root, cleared), false)
    else
      var accepted := AcceptCommitted(cleared, a.key, e.version.value);
      if accepted.Err? then Progress(WithLedger(w, e.root, cleared), true)
      else Progress(WithLedger(w, e.root, accepted.value), false)
  }

  /** Commit actions run in the order they were registered. */
  function CommittedPrefix(w: World, k: nat): (World, nat)
    requires k <= |w.commits|
  {
    if k == 0 then (w, 0)
    else
      CommitNext(CommittedPrefix(w, k - 1), w.commits[k - 1])
  }

  function CommitNext(front: (World, nat), a: CommitAction): (World, nat) {
    var r := Commit(front.0, a);
    (r.world, front.1 + if r.raised then 1 else 0)
  }

  function Committed(w: World): (World, nat) {
    CommittedPrefix(w, |w.commits|)
  }

  /** The transaction's end: the session's lists are emptied whichever way it went. */
  function Close(w: World): World {
    w.(undo := [], commits := [])
  }

  /**
    How a save ends: everything saved, nothing saved, or saved but with this many failed audit deliveries and
    commit actions, which is raised as well and must not be retried.
   */
  datatype Ending = Saved | NotSaved | SavedWithFailures(failures: nat)

  datatype Finish = Finish(world: World, ending: Ending)

  /** Exactly one of the two endings, then close. `undelivered` queued audit events fail to be delivered. */
  function Ended(w: World, stopped: bool, providerCommits: bool, undelivered: nat): Finish {
    if stopped || !providerCommits then Finish(Close(RolledBack(w).0), NotSaved)
    else
      var failures := undelivered + Committed(w).1;
      Finish(Close(Committed(w).0), if failures == 0 then Saved else SavedWithFailures(failures))
  }

  /**
    A whole save: the work, then the provider's commit, then one ending. Without a reason for its root there is no
    session at all.
   */
  function Execute(env: Environment, w: World, t: Tree, providerCommits: bool, undelivered: nat): Finish {
    if TraceScope.BlankReason(t.node.reason) then Finish(w, NotSaved)
    else
      var r := Work(env, w, t);
      Ended(r.world, r.raised, providerCommits, undelivered)
  }
}
