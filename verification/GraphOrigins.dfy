/** What every command of a save was built from, told by where the save started. */
module GraphOrigins {
  import opened Outcomes
  import opened LedgerModel
  import opened GraphModel
  import opened GraphInduction
  import opened GraphRollback
  import opened GraphRetained
  import opened GraphSafety
  import opened GraphSent
  import opened GraphVersions
  import opened GraphTrace
  import opened GraphEarly
  import opened GraphOrder
  import opened GraphTheorems
  import TraceScope

  // ----- an entity before its command

  /** The entity may have moved to another ledger and may have got its links to parents; the rest is as it was. */
  ghost predicate OnlyLinked(links: set<string>, e: Entity, e1: Entity) {
    && e1.id == e.id && e1.version == e.version && e1.action == e.action && e1.ledgerId == e.ledgerId
    && e.loaded <= e1.loaded <= e.loaded + links
    && forall m :: m !in links ==>
         (m in e1.attributes <==> m in e.attributes) && (m in e.attributes ==> e1.attributes[m] == e.attributes[m])
  }

  /** The entity with this number. */
  function Numbered(e: Entity, id: int): Entity {
    e.(id := Some(id), loaded := e.loaded + {"id"}, ledgerId := id)
  }

  /** A new entity without an id may have got a number from the allocator as well. */
  ghost predicate IsPrepared(env: Environment, links: set<string>, n: Node, e: Entity, e1: Entity) {
    if IdLess(e) && e1.id.Some? then
      (exists clock :: env.allocate(clock, n.typeName) == e1.id) && OnlyLinked(links, Numbered(e, e1.id.value), e1)
    else OnlyLinked(links, e, e1)
  }

  lemma {:induction false} LinkedOnce(env: Environment, links: set<string>, n: Node, e: Entity, e1: Entity, e2: Entity)
    requires IsPrepared(env, links, n, e, e1) && OnlyLinked(links, e1, e2)
    ensures IsPrepared(env, links, n, e, e2)
  {
  }

  /** The entity was sent a command. */
  ghost predicate WasSent(w: World, n: Node) {
    exists i :: 0 <= i < |w.sent| && w.sent[i].node == n
  }

  ghost predicate SentEarlier(sent: seq<Sent>, i: int)
    requires 0 <= i < |sent|
  {
    exists j :: 0 <= j < i && sent[j].node == sent[i].node
  }

  /** Every entity is prepared until its command is sent, and its first command was built from it then. */
  ghost predicate AllPrepared(env: Environment, nodes: set<Node>, edges: set<Edge>, start: World, w: World) {
    && (forall n :: n in nodes && !WasSent(w, n) ==>
          IsPrepared(env, Links(edges, n), n, EntityOf(start, n), EntityOf(w, n)))
    && (forall i :: 0 <= i < |w.sent| && w.sent[i].node in nodes && !SentEarlier(w.sent, i) ==>
          var n := w.sent[i].node;
          IsPrepared(env, Links(edges, n), n, EntityOf(start, n), w.sent[i].origin.entity))
  }

  lemma {:induction false} SameLogPrepared(env: Environment, nodes: set<Node>, edges: set<Edge>, start: World, w: World, w1: World)
    requires AllPrepared(env, nodes, edges, start, w) && w1.sent == w.sent
    requires forall n :: n in nodes && !WasSent(w, n) ==> OnlyLinked(Links(edges, n), EntityOf(w, n), EntityOf(w1, n))
    ensures AllPrepared(env, nodes, edges, start, w1)
  {
    forall n | n in nodes && !WasSent(w1, n)
      ensures IsPrepared(env, Links(edges, n), n, EntityOf(start, n), EntityOf(w1, n))
    {
      assert !WasSent(w, n);
      LinkedOnce(env, Links(edges, n), n, EntityOf(start, n), EntityOf(w, n), EntityOf(w1, n));
    }
  }

  lemma {:induction false} ReservePrepares(env: Environment, nodes: set<Node>, edges: set<Edge>, start: World, w: World, n: Node)
    requires AllPrepared(env, nodes, edges, start, w) && n in nodes && IdLess(EntityOf(w, n)) && w.sent == []
    requires forall m :: m in nodes && m.self == n.self ==> m == n
    ensures AllPrepared(env, nodes, edges, start, ReserveId(env, w, n).world) && ReserveId(env, w, n).world.sent == []
  {
    var w1, e := ReserveId(env, w, n).world, EntityOf(w, n);
    var id := env.allocate(w.clock, n.typeName);
    forall m | m in nodes
      ensures IsPrepared(env, Links(edges, m), m, EntityOf(start, m), EntityOf(w1, m))
    {
      assert !WasSent(w, m);
      if m == n && id.Some? {
        assert EntityOf(w1, n) == Numbered(e, id.value);
      } else {
        assert EntityOf(w1, m) == EntityOf(w, m);
      }
    }
  }

  lemma {:induction false} SendPrepared(
    env: Environment, nodes: set<Node>, edges: set<Edge>, start: World, w: World, n: Node, scope: TraceScope.Scope)
    requires AllPrepared(env, nodes, edges, start, w) && n in nodes
    ensures AllPrepared(env, nodes, edges, start, Send(env, w, n, scope).0.world)
  {
    var w1 := Send(env, w, n, scope).0.world;
    SendChanges(env, w, n, scope);
    assert forall m: Node :: EntityOf(w1, m) == EntityOf(w, m);
    SendAppends(env, w, n, scope);
    if w1.sent != w.sent {
      AppendPrepared(env, nodes, edges, start, w, w1, n);
    } else {
      SameLogPrepared(env, nodes, edges, start, w, w1);
    }
  }

  lemma {:induction false} SendAppends(env: Environment, w: World, n: Node, scope: TraceScope.Scope)
    ensures var w1 := Send(env, w, n, scope).0.world;
      || w1.sent == w.sent
      || exists s: Sent :: w1.sent == w.sent + [s] && s.node == n && s.origin == OriginOf(w, n)
  {
    var w1 := Send(env, w, n, scope).0.world;
    if w1.sent != w.sent {
      var s := w1.sent[|w.sent|];
      assert w1.sent == w.sent + [s] && s.node == n && s.origin == OriginOf(w, n);
    }
  }

  lemma {:induction false} AppendPrepared(env: Environment, nodes: set<Node>, edges: set<Edge>, start: World, w: World,
      w1: World, n: Node)
    requires AllPrepared(env, nodes, edges, start, w) && n in nodes && forall m: Node :: EntityOf(w1, m) == EntityOf(w, m)
    requires exists s: Sent :: w1.sent == w.sent + [s] && s.node == n && s.origin == OriginOf(w, n)
    ensures AllPrepared(env, nodes, edges, start, w1)
  {
    var k := |w.sent|;
    assert forall j :: 0 <= j < k ==> w1.sent[j] == w.sent[j];
    forall m | WasSent(w, m)
      ensures WasSent(w1, m)
    {
      var i :| 0 <= i < |w.sent| && w.sent[i].node == m;
      assert w1.sent[i].node == m;
    }
    forall i | 0 <= i < |w1.sent| && w1.sent[i].node in nodes && !SentEarlier(w1.sent, i)
      ensures var m := w1.sent[i].node;
        IsPrepared(env, Links(edges, m), m, EntityOf(start, m), w1.sent[i].origin.entity)
    {
      if i < k {
        assert !SentEarlier(w.sent, i);
      } else {
        assert !WasSent(w, n);
      }
    }
  }

  // ----- every step

  lemma {:induction false} EarlyStepsPrepare(env: Environment, nodes: set<Node>, edges: set<Edge>, start: World)
    requires forall n, m :: n in nodes && m in nodes && n != m ==> n.self != m.self
    ensures KeptByAttach(nodes, u => AllPrepared(env, nodes, edges, start, u))
    ensures KeptByCarryBack(nodes, u => AllPrepared(env, nodes, edges, start, u))
    ensures KeptByLink(nodes, edges, u => AllPrepared(env, nodes, edges, start, u))
  {
    AttachPrepares(env, nodes, edges, start);
    forall w, n, values | AllPrepared(env, nodes, edges, start, w) && n in nodes
      ensures AllPrepared(env, nodes, edges, start, CarryBack(Tick(w), n, values))
    {
      var w1 := CarryBack(Tick(w), n, values);
      assert w1.entities == w.entities && forall m: Node :: EntityOf(w1, m) == EntityOf(w, m);
      SameLogPrepared(env, nodes, edges, start, w, w1);
    }
    forall w, child, member, column, parent |
      AllPrepared(env, nodes, edges, start, w) && child in nodes && parent in nodes && (child, member) in edges
      ensures AllPrepared(env, nodes, edges, start, Link(w, child, member, column, parent))
    {
      LinkPrepares(env, nodes, edges, start, w, child, member, column, parent);
    }
  }

  lemma {:induction false} AttachPrepares(env: Environment, nodes: set<Node>, edges: set<Edge>, start: World)
    ensures KeptByAttach(nodes, u => AllPrepared(env, nodes, edges, start, u))
  {
    forall w, n, root | AllPrepared(env, nodes, edges, start, w) && n in nodes
      ensures AllPrepared(env, nodes, edges, start, AttachOne(w, n, root).world)
    {
      AttachOneIs(w, n, root);
      AttachChanges(w, n, root);
      SameLogPrepared(env, nodes, edges, start, w, AttachOne(w, n, root).world);
    }
  }

  lemma {:induction false} LinkPrepares(env: Environment, nodes: set<Node>, edges: set<Edge>, start: World, w: World,
      child: Node, member: string, column: string, parent: Node)
    requires forall n, m :: n in nodes && m in nodes && n != m ==> n.self != m.self
    requires AllPrepared(env, nodes, edges, start, w) && child in nodes && (child, member) in edges
    ensures AllPrepared(env, nodes, edges, start, Link(w, child, member, column, parent))
  {
    var w1, id := Link(w, child, member, column, parent), IdValue(EntityOf(w, parent).id);
    var e := EntityOf(w, child);
    assert (child, member) in edges && (child, member).0 == child && (child, member).1 == member;
    assert member in Links(edges, child);
    assert EntityOf(w1, child) == e.(attributes := e.attributes[member := Scalar(id)], loaded := e.loaded + {member});
    forall n | n in nodes
      ensures OnlyLinked(Links(edges, n), EntityOf(w, n), EntityOf(w1, n))
    {
      assert n != child ==> EntityOf(w1, n) == EntityOf(w, n);
    }
    SameLogPrepared(env, nodes, edges, start, w, w1);
  }

  lemma {:induction false} LaterStepsPrepare(env: Environment, nodes: set<Node>, edges: set<Edge>, start: World)
    requires forall n, m :: n in nodes && m in nodes && n != m ==> n.self != m.self
    ensures KeptByReach(nodes, u => AllPrepared(env, nodes, edges, start, u))
    ensures KeptBySend(env, nodes, u => AllPrepared(env, nodes, edges, start, u))
    ensures KeptByAdopt(env, nodes, u => AllPrepared(env, nodes, edges, start, u))
    ensures KeptByCommitEntry(nodes, u => AllPrepared(env, nodes, edges, start, u))
  {
    forall w, n | AllPrepared(env, nodes, edges, start, w) && n in nodes
      ensures AllPrepared(env, nodes, edges, start, Reach(w, n))
    {
      assert forall m: Node :: EntityOf(Reach(w, n), m) == EntityOf(w, m);
      SameLogPrepared(env, nodes, edges, start, w, Reach(w, n));
    }
    forall w, n, scope | AllPrepared(env, nodes, edges, start, w) && n in nodes
      ensures AllPrepared(env, nodes, edges, start, Send(env, w, n, scope).0.world)
    {
      SendPrepared(env, nodes, edges, start, w, n, scope);
    }
    forall w, n, reply | AllPrepared(env, nodes, edges, start, w) && n in nodes && Answers(env, w, n, reply)
      ensures AllPrepared(env, nodes, edges, start, Adopt(w, n, reply).world)
    {
      AdoptPrepared(env, nodes, edges, start, w, n, reply);
    }
    forall w, n, key | AllPrepared(env, nodes, edges, start, w) && n in nodes
      ensures AllPrepared(env, nodes, edges, start, RegisterCommit(w, n, key))
    {
      assert forall m: Node :: EntityOf(RegisterCommit(w, n, key), m) == EntityOf(w, m);
      SameLogPrepared(env, nodes, edges, start, w, RegisterCommit(w, n, key));
    }
  }

  lemma {:induction false} AdoptPrepared(env: Environment, nodes: set<Node>, edges: set<Edge>, start: World, w: World,
      n: Node, reply: Reply)
    requires forall n, m :: n in nodes && m in nodes && n != m ==> n.self != m.self
    requires AllPrepared(env, nodes, edges, start, w) && n in nodes && Answers(env, w, n, reply)
    ensures AllPrepared(env, nodes, edges, start, Adopt(w, n, reply).world)
  {
    var w1 := Adopt(w, n, reply).world;
    assert w1.sent == w.sent && WasSent(w, n);
    forall m | m in nodes && !WasSent(w, m)
      ensures OnlyLinked(Links(edges, m), EntityOf(w, m), EntityOf(w1, m))
    {
      assert m.self != n.self;
      assert EntityOf(w1, m) == EntityOf(w, m);
    }
    SameLogPrepared(env, nodes, edges, start, w, w1);
  }

  lemma {:induction false} OneNodeForSelf(t: Tree, n: Node, m: Node)
    requires Proper(t) && n in Nodes(t) && m in Nodes(t) && n.self == m.self
    ensures n == m
    decreases t
  {
    if n != t.node {
      NodesOfHaveSelves(t.children, n);
    }
    if m != t.node {
      NodesOfHaveSelves(t.children, m);
    }
    if n != t.node && m != t.node {
      OneNodeForSelfOf(t.children, n, m);
    }
  }

  lemma {:induction false} OneNodeForSelfOf(f: Forest, n: Node, m: Node)
    requires ProperAll(f) && n in NodesOf(f) && m in NodesOf(f) && n.self == m.self
    ensures n == m
    decreases f
  {
    if n in Nodes(f.child) {
      NodesHaveSelves(f.child, n);
    } else {
      NodesOfHaveSelves(f.rest, n);
    }
    if m in Nodes(f.child) {
      NodesHaveSelves(f.child, m);
    } else {
      NodesOfHaveSelves(f.rest, m);
    }
    if n in Nodes(f.child) && m in Nodes(f.child) {
      OneNodeForSelf(f.child, n, m);
    } else {
      OneNodeForSelfOf(f.rest, n, m);
    }
  }

  lemma {:induction false} NodesDiffer(t: Tree)
    requires Proper(t)
    ensures forall n, m :: n in Nodes(t) && m in Nodes(t) && n != m ==> n.self != m.self
  {
    forall n, m | n in Nodes(t) && m in Nodes(t) && n.self == m.self
      ensures n == m
    {
      OneNodeForSelf(t, n, m);
    }
  }

  lemma {:induction false} ReservationPrepares(env: Environment, w: World, t: Tree)
    requires Consistent(env, w, t)
    ensures AllPrepared(env, Nodes(t), Edges(t), w, Reserve(env, w, t).world) && Reserve(env, w, t).world.sent == []
  {
    var nodes, edges := Nodes(t), Edges(t);
    NodesDiffer(t);
    EarlyStepsPrepare(env, nodes, edges, w);
    var early := (u: World) => AllPrepared(env, nodes, edges, w, u) && u.sent == [];
    forall u, n, root | early(u) && n in nodes
      ensures early(AttachOne(u, n, root).world)
    {
      AttachOneIs(u, n, root);
    }
    forall u, n | early(u) && n in nodes && EntityOf(u, n).action == Create && EntityOf(u, n).id.None?
      ensures early(ReserveId(env, u, n).world)
    {
      ReservePrepares(env, nodes, edges, w, u, n);
    }
    ReserveKeeps(env, nodes, early, w, t);
  }

  lemma {:induction false} WorkPrepares(env: Environment, w: World, t: Tree)
    requires Consistent(env, w, t)
    ensures AllPrepared(env, Nodes(t), Edges(t), w, Work(env, w, t).world)
  {
    var nodes, edges, r := Nodes(t), Edges(t), Reserve(env, w, t);
    var inv := (u: World) => AllPrepared(env, nodes, edges, w, u);
    ReservationPrepares(env, w, t);
    if !r.raised {
      NodesDiffer(t);
      EarlyStepsPrepare(env, nodes, edges, w);
      PreflightKeeps(env, nodes, edges, inv, r.world, t);
      var p := Preflight(env, r.world, t);
      if !p.raised {
        LaterStepsPrepare(env, nodes, edges, w);
        SaveKeeps(env, nodes, edges, inv, p.world, t, None);
      }
    }
  }

  lemma {:induction false} SavePrepares(env: Environment, p: World, t: Tree)
    requires Proper(t) && p.sent == []
    ensures AllPrepared(env, Nodes(t), Edges(t), p, Save(env, p, t, None).world)
  {
    var nodes, edges := Nodes(t), Edges(t);
    NodesDiffer(t);
    EarlyStepsPrepare(env, nodes, edges, p);
    LaterStepsPrepare(env, nodes, edges, p);
    SaveKeeps(env, nodes, edges, u => AllPrepared(env, nodes, edges, p, u), p, t, None);
  }

  // ----- every command

  lemma {:induction false} SentAfterPreflight(env: Environment, w: World, t: Tree)
    requires Consistent(env, w, t) && Work(env, w, t).world.sent != []
    ensures !Reserve(env, w, t).raised && !Preflight(env, Reserve(env, w, t).world, t).raised
  {
    EarlyPhasesAreSilent(env, w, t);
  }

  lemma {:induction false} SentAmongNodes(env: Environment, w: World, t: Tree)
    requires Consistent(env, w, t) && Work(env, w, t).world.sent != []
    ensures forall i :: 0 <= i < |Work(env, w, t).world.sent| ==> Work(env, w, t).world.sent[i].node in Nodes(t)
  {
    SentAfterPreflight(env, w, t);
    BeforeFirstCommand(env, w, t);
    SaveFramed(env, Preflight(env, Reserve(env, w, t).world, t).world, t, None);
  }

  lemma {:induction false} NoneSentEarlier(sent: seq<Sent>, i: nat)
    requires NoRepeats(SentNodes(sent)) && i < |sent|
    ensures !SentEarlier(sent, i)
  {
    forall j | 0 <= j < i
      ensures sent[j].node != sent[i].node
    {
      SentNodesAre(sent, i);
      SentNodesAre(sent, j);
    }
  }

  /** The command is an entity's of the tree, and its only one. */
  lemma {:induction false} SentOnce(env: Environment, w: World, t: Tree, i: nat)
    requires Consistent(env, w, t) && i < |Work(env, w, t).world.sent|
    ensures Work(env, w, t).world.sent[i].node in Nodes(t) && !SentEarlier(Work(env, w, t).world.sent, i)
  {
    SentAmongNodes(env, w, t);
    CommandsFollowPreOrder(env, w, t);
    NoneSentEarlier(Work(env, w, t).world.sent, i);
  }

  /**
    What every command was built from: its entity as it was at the start of the save, but for links to parents, and
    with a number from the allocator if it was new and had none.
   */
  lemma {:induction false} CommandIsBuiltFromTheStart(env: Environment, w: World, t: Tree, i: nat)
    requires Consistent(env, w, t) && i < |Work(env, w, t).world.sent|
    ensures var s := Work(env, w, t).world.sent[i];
      var e := EntityOf(w, s.node);
      && IsPrepared(env, Links(Edges(t), s.node), s.node, e, s.origin.entity)
      && (IdLess(e) ==> s.origin.entity.id.Some?)
  {
    var s, p := Work(env, w, t).world.sent[i], Preflight(env, Reserve(env, w, t).world, t).world;
    SentOnce(env, w, t, i);
    WorkPrepares(env, w, t);
    if IdLess(EntityOf(w, s.node)) {
      SentAfterPreflight(env, w, t);
      BeforeFirstCommand(env, w, t);
      SavePrepares(env, p, t);
      ReserveIdentifies(env, w, t, s.node);
      PreflightKeepsId(env, Reserve(env, w, t).world, t, s.node);
      assert IsPrepared(env, Links(Edges(t), s.node), s.node, EntityOf(p, s.node), s.origin.entity);
    }
  }

  function Plain(n: Option<int>): Cell {
    if n.Some? then Some(Int(n.value)) else None
  }

  /** The insert's header, built from an entity that was like `e` at the start. */
  ghost predicate InsertsNumberAndVersion(env: Environment, s: Sent, e: Entity) {
    var values := s.built.values;
    && s.built.typeName == s.node.typeName && s.built.expectedVersion.None?
    && (if e.id.None? then
          && s.built.id.Some? && (exists clock :: env.allocate(clock, s.node.typeName) == s.built.id)
          && "id" in values && values["id"] == Some(Int(s.built.id.value))
        else s.built.id == e.id && ("id" in e.loaded ==> "id" in values && values["id"] == Plain(e.id)))
    && ("version" in e.loaded ==> "version" in values && values["version"] == Plain(e.version))
  }

  /** Its columns: those of fields loaded at the start, links, an id member, and the header. */
  ghost predicate InsertsLoadedFields(s: Sent, e: Entity, links: set<string>) {
    var fields, values := s.node.fields, s.built.values;
    && (forall j :: 0 <= j < |fields| && fields[j].member in e.loaded ==> fields[j].column in values)
    && (forall column :: column in values ==>
          || column == "id" || column == "version"
          || exists j :: 0 <= j < |fields| && fields[j].column == column && fields[j].member in e.loaded + links + {"id"})
    && (forall j, column :: StoresLast(s, j, column) && column != "id" && column != "version" ==>
          var member := fields[j].member;
          member !in links && member in e.attributes && e.attributes[member].Scalar? ==>
            column in values && values[column] == e.attributes[member].value)
  }

  lemma {:induction false} HeaderIsInserted(env: Environment, s: Sent, e: Entity, links: set<string>)
    requires BuiltFromOrigin(s) && s.built.action == Create
    requires IsPrepared(env, links, s.node, e, s.origin.entity) && (IdLess(e) ==> s.origin.entity.id.Some?)
    ensures InsertsNumberAndVersion(env, s, e)
  {
    assert InsertsWhatIsLoaded(s) && AddressesItsEntity(s);
    assert IsHeader(s, "id") <==> "id" in s.origin.entity.loaded;
    assert IsHeader(s, "version") <==> "version" in s.origin.entity.loaded;
  }

  lemma {:induction false} FieldsAreInserted(env: Environment, s: Sent, e: Entity, links: set<string>)
    requires BuiltFromOrigin(s) && s.built.action == Create && IsPrepared(env, links, s.node, e, s.origin.entity)
    ensures InsertsLoadedFields(s, e, links)
  {
    var fields, values := s.node.fields, s.built.values;
    assert InsertsWhatIsLoaded(s);
    forall j | 0 <= j < |fields| && fields[j].member in e.loaded
      ensures fields[j].column in values
    {
      assert Stores(s, j, fields[j].column);
    }
    forall column | column in values && column != "id" && column != "version"
      ensures exists j :: 0 <= j < |fields| && fields[j].column == column && fields[j].member in e.loaded + links + {"id"}
    {
      assert !IsHeader(s, column);
      var j :| Stores(s, j, column);
    }
    forall j, column | StoresLast(s, j, column) && column != "id" && column != "version"
      && fields[j].member !in links && fields[j].member in e.attributes && e.attributes[fields[j].member].Scalar?
      ensures column in values && values[column] == e.attributes[fields[j].member].value
    {
      assert !IsHeader(s, column) && PlainAttributesStand(s);
    }
  }

  /**
    Every insert carries the entity's number in its own column: the one the allocator gave it, or its own if that
    was loaded. It carries the version if that is loaded, every field that was loaded at the start, and no column
    that is not a field's, loaded at the start or a link; a field that is not a link carries the value it had.
   */
  lemma {:induction false} InsertCarriesWhatWasLoaded(env: Environment, w: World, t: Tree, i: nat)
    requires Consistent(env, w, t) && i < |Work(env, w, t).world.sent|
    requires Work(env, w, t).world.sent[i].built.action == Create
    ensures var s := Work(env, w, t).world.sent[i];
      InsertsNumberAndVersion(env, s, EntityOf(w, s.node))
      && InsertsLoadedFields(s, EntityOf(w, s.node), Links(Edges(t), s.node))
  {
    var s := Work(env, w, t).world.sent[i];
    CommandIsBuiltFromTheStart(env, w, t, i);
    WorkSendsAsChecked(env, w, t);
    assert GoodEntry(env, s);
    HeaderIsInserted(env, s, EntityOf(w, s.node), Links(Edges(t), s.node));
    FieldsAreInserted(env, s, EntityOf(w, s.node), Links(Edges(t), s.node));
  }

  // ----- versions

  /** Every command notes the version that was recorded for its entity at the start, if one was. */
  ghost predicate VersionsNoted(start: World, w: World) {
    forall i :: 0 <= i < |w.sent| && OwnVersion(start, w.sent[i].node).Some? ==>
      w.sent[i].origin.version == OwnVersion(start, w.sent[i].node)
  }

  ghost predicate SteadyAndNoted(
    env: Environment, nodes: set<Node>, edges: set<Edge>, start: World, base: World, w: World)
  {
    Steady(env, nodes, edges, start, base, w) && VersionsNoted(start, w)
  }

  lemma {:induction false} SendNotes(
    env: Environment, nodes: set<Node>, start: World, w: World, n: Node, scope: TraceScope.Scope)
    requires VersionsNoted(start, w) && KeepsVersions(nodes, start, w) && n in nodes
    ensures VersionsNoted(start, Send(env, w, n, scope).0.world)
  {
    SendAppends(env, w, n, scope);
    assert VersionFollows(start, w, n);
  }

  lemma {:induction false} QuietStepsNote(
    env: Environment, nodes: set<Node>, edges: set<Edge>, start: World, base: World)
    requires WellFormed(start, nodes)
    ensures KeptByAttach(nodes, u => SteadyAndNoted(env, nodes, edges, start, base, u))
    ensures KeptByLink(nodes, edges, u => SteadyAndNoted(env, nodes, edges, start, base, u))
  {
    AttachKeepsSteady(env, nodes, edges, start, base);
    LinkKeepsSteady(env, nodes, edges, start, base);
    forall w, n, root | SteadyAndNoted(env, nodes, edges, start, base, w) && n in nodes
      ensures SteadyAndNoted(env, nodes, edges, start, base, AttachOne(w, n, root).world)
    {
      AttachOneIs(w, n, root);
    }
  }

  lemma {:induction false} CommandStepsNote(
    env: Environment, nodes: set<Node>, edges: set<Edge>, start: World, base: World)
    requires WellFormed(start, nodes) && ReturnsReservedId(env)
    ensures KeptByReach(nodes, u => SteadyAndNoted(env, nodes, edges, start, base, u))
    ensures KeptByCommitEntry(nodes, u => SteadyAndNoted(env, nodes, edges, start, base, u))
  {
    LogKeepsSteady(env, nodes, edges, start, base);
    forall w, n | SteadyAndNoted(env, nodes, edges, start, base, w) && n in nodes
      ensures VersionsNoted(start, Reach(w, n))
    {
      SameLogNotes(start, w, Reach(w, n));
    }
    forall w, n, key | SteadyAndNoted(env, nodes, edges, start, base, w) && n in nodes
      ensures VersionsNoted(start, RegisterCommit(w, n, key))
    {
      SameLogNotes(start, w, RegisterCommit(w, n, key));
    }
  }

  lemma {:induction false} SameLogNotes(start: World, w: World, w1: World)
    requires VersionsNoted(start, w) && w1.sent == w.sent
    ensures VersionsNoted(start, w1)
  {
  }

  lemma {:induction false} SendingNotes(
    env: Environment, nodes: set<Node>, edges: set<Edge>, start: World, base: World)
    requires WellFormed(start, nodes) && ReturnsReservedId(env)
    ensures KeptBySend(env, nodes, u => SteadyAndNoted(env, nodes, edges, start, base, u))
  {
    LogKeepsSteady(env, nodes, edges, start, base);
    forall w, n, scope | SteadyAndNoted(env, nodes, edges, start, base, w) && n in nodes
      ensures SteadyAndNoted(env, nodes, edges, start, base, Send(env, w, n, scope).0.world)
    {
      SendNotes(env, nodes, start, w, n, scope);
    }
  }

  lemma {:induction false} AdoptNotes(
    env: Environment, nodes: set<Node>, edges: set<Edge>, start: World, base: World)
    requires WellFormed(start, nodes) && ReturnsReservedId(env)
    ensures KeptByAdopt(env, nodes, u => SteadyAndNoted(env, nodes, edges, start, base, u))
  {
    AdoptKeepsSteady(env, nodes, edges, start, base);
    forall w, n, reply | SteadyAndNoted(env, nodes, edges, start, base, w) && n in nodes && Answers(env, w, n, reply)
      ensures SteadyAndNoted(env, nodes, edges, start, base, Adopt(w, n, reply).world)
    {
      assert Adopt(w, n, reply).world.sent == w.sent;
    }
  }

  /**
    An update or a deletion expects the version the ledger had recorded for its entity when the save started, if
    it had one.
   */
  lemma {:induction false} CommandExpectsRecordedVersion(env: Environment, w: World, t: Tree, i: nat)
    requires Consistent(env, w, t) && Ready(env, w, t) && i < |Work(env, w, t).world.sent|
    requires OwnVersion(w, Work(env, w, t).world.sent[i].node).Some?
    ensures var s := Work(env, w, t).world.sent[i];
      s.built.action != Create ==> s.built.expectedVersion == OwnVersion(w, s.node)
  {
    var nodes, edges, r := Nodes(t), Edges(t), Reserve(env, w, t).world;
    SentAfterPreflight(env, w, t);
    var p := Preflight(env, r, t).world;
    BeforeFirstCommand(env, w, t);
    SteadyBeforeFirstCommand(env, w, t);
    QuietStepsNote(env, nodes, edges, w, r);
    CommandStepsNote(env, nodes, edges, w, r);
    SendingNotes(env, nodes, edges, w, r);
    AdoptNotes(env, nodes, edges, w, r);
    SaveKeeps(env, nodes, edges, u => SteadyAndNoted(env, nodes, edges, w, r, u), p, t, None);
    WorkSendsAsChecked(env, w, t);
    assert GoodEntry(env, Work(env, w, t).world.sent[i]);
  }

  lemma {:induction false} SteadyBeforeFirstCommand(env: Environment, w: World, t: Tree)
    requires Ready(env, w, t) && !Reserve(env, w, t).raised
    ensures var r := Reserve(env, w, t).world;
      Steady(env, Nodes(t), Edges(t), w, r, Preflight(env, r, t).world)
  {
    var nodes, edges, r := Nodes(t), Edges(t), Reserve(env, w, t).world;
    ReserveRetainsAll(env, w, t);
    ReserveAssigns(env, w, t);
    NoCommitsYet(env, w, t);
    AttachKeepsSteady(env, nodes, edges, w, r);
    CarryBackKeepsSteady(env, nodes, edges, w, r);
    LinkKeepsSteady(env, nodes, edges, w, r);
    PreflightKeeps(env, nodes, edges, u => Steady(env, nodes, edges, w, r, u), r, t);
  }
}
