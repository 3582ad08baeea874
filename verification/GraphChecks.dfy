/** The early checks: before the first command is sent, every entity has had its command accepted, link and all. */
module GraphChecks {
  import opened GraphModel
  import opened GraphInduction
  import opened GraphRollback
  import opened GraphRetained
  import opened GraphSafety
  import opened GraphTrace
  import opened GraphEarly
  import opened GraphLineage
  import opened GraphOrigins

  // ----- whose turn it is

  /** The world in which an entity's early check runs and passes. */
  ghost predicate Passes(env: Environment, inv: World -> bool, n: Node, u: World) {
    inv(u) && !PreflightOne(env, u, n).raised
  }

  ghost predicate PassesLinked(env: Environment, inv: World -> bool, parent: Node, member: string, n: Node, u: World) {
    Passes(env, inv, n, u) && Reference(u, n, member) == IdValue(EntityOf(u, parent).id)
  }

  ghost predicate KeptEarly(nodes: set<Node>, edges: set<Edge>, inv: World -> bool) {
    KeptByAttach(nodes, inv) && KeptByCarryBack(nodes, inv) && KeptByLink(nodes, edges, inv)
  }

  lemma {:induction false} OneCheckKeeps(env: Environment, nodes: set<Node>, edges: set<Edge>, inv: World -> bool, w: World, n: Node)
    requires KeptEarly(nodes, edges, inv) && inv(w) && n in nodes
    ensures inv(PreflightOne(env, w, n).world)
  {
    assert inv(CarryBack(Tick(w), n, env.preflight(w.clock, BuildCommand(w, n)).values));
  }

  /** In an early phase that passes, every child has its turn, linked to its parent. */
  lemma {:induction false} ChildHasTurn(env: Environment, nodes: set<Node>, edges: set<Edge>, inv: World -> bool, w: World,
      t: Tree, parent: Node, member: string, n: Node) returns (u: World)
    requires KeptEarly(nodes, edges, inv) && inv(w) && Nodes(t) <= nodes && Edges(t) <= edges && Proper(t)
    requires !Preflight(env, w, t).raised && IsEdge(t, parent, member, n)
    ensures PassesLinked(env, inv, parent, member, n, u)
    decreases t
  {
    OneCheckKeeps(env, nodes, edges, inv, w, t.node);
    u := ChildHasTurnIn(env, nodes, edges, inv, PreflightOne(env, w, t.node).world, t.node, t.children, parent, member, n);
  }

  lemma {:induction false} ChildHasTurnIn(env: Environment, nodes: set<Node>, edges: set<Edge>, inv: World -> bool,
      w: World, owner: Node, f: Forest, parent: Node, member: string, n: Node) returns (u: World)
    requires KeptEarly(nodes, edges, inv) && inv(w) && owner in nodes && NodesOf(f) <= nodes && EdgesOf(f) <= edges
    requires ProperAll(f) && owner.self !in SelvesOf(f)
    requires !PreflightAll(env, w, owner, f).raised && IsEdgeIn(f, owner, parent, member, n)
    ensures PassesLinked(env, inv, parent, member, n, u)
    decreases f
  {
    AttachKeeps(nodes, inv, w, f.child, EntityOf(w, owner).root);
    var a := Attach(w, f.child, EntityOf(w, owner).root).world;
    var linked := LinkIfNeeded(a, f.child.node, f.member, f.column, owner);
    assert f.child.node in Nodes(f.child) && (f.child.node, f.member) in EdgesOf(f);
    LinkIfNeededKeeps(nodes, edges, inv, a, f.child.node, f.member, f.column, owner);
    if owner == parent && f.member == member && f.child.node == n {
      NodesHaveSelves(f.child, n);
      LinkFramed(a, n, member, f.column, owner);
      u := linked;
    } else if IsEdge(f.child, parent, member, n) {
      u := ChildHasTurn(env, nodes, edges, inv, linked, f.child, parent, member, n);
    } else {
      PreflightKeeps(env, nodes, edges, inv, linked, f.child);
      u := ChildHasTurnIn(env, nodes, edges, inv, Preflight(env, linked, f.child).world, owner, f.rest, parent, member, n);
    }
  }

  // ----- the checks of a save

  /** The entity's numbers are those of this world; with the invariant that rollback needs, if the graph is ready. */
  ghost predicate EarlyState(env: Environment, nodes: set<Node>, edges: set<Edge>, start: World, reserved: World, ready: bool,
      u: World)
  {
    && AllPrepared(env, nodes, edges, start, u) && u.sent == []
    && (ready ==> Steady(env, nodes, edges, start, reserved, u))
  }

  lemma {:induction false} EarlyStateIsKept(env: Environment, nodes: set<Node>, edges: set<Edge>, start: World,
      reserved: World, ready: bool)
    requires forall n, m :: n in nodes && m in nodes && n != m ==> n.self != m.self
    requires ready ==> WellFormed(start, nodes)
    ensures KeptEarly(nodes, edges, u => EarlyState(env, nodes, edges, start, reserved, ready, u))
  {
    EarlyStepsPrepare(env, nodes, edges, start);
    if ready {
      AttachKeepsSteady(env, nodes, edges, start, reserved);
      CarryBackKeepsSteady(env, nodes, edges, start, reserved);
      LinkKeepsSteady(env, nodes, edges, start, reserved);
    }
    forall w, n, root | EarlyState(env, nodes, edges, start, reserved, ready, w) && n in nodes
      ensures EarlyState(env, nodes, edges, start, reserved, ready, AttachOne(w, n, root).world)
    {
      AttachOneIs(w, n, root);
    }
  }

  /**
    The check of one entity: it is as at the start, but for links to parents and a number of its own; an update
    has the id, the version and every field loaded; and its command, if it is to get one, is accepted.
   */
  ghost predicate IsChecked(env: Environment, start: World, links: set<string>, n: Node, u: World) {
    var e := EntityOf(u, n);
    && IsPrepared(env, links, n, EntityOf(start, n), e)
    && (e.action != Update || Pending(u, n) ==> env.preflight(u.clock, BuildCommand(u, n)).Accepts?)
    && (e.action == Update && Pending(u, n) ==>
          "id" in e.loaded && "version" in e.loaded && forall f :: f in n.fields ==> f.member in e.loaded)
  }

  lemma {:induction false} PassedIsChecked(env: Environment, nodes: set<Node>, edges: set<Edge>, start: World,
      reserved: World, ready: bool, n: Node, u: World)
    requires Passes(env, u => EarlyState(env, nodes, edges, start, reserved, ready, u), n, u) && n in nodes
    ensures IsChecked(env, start, Links(edges, n), n, u)
    ensures ready && !IdLess(EntityOf(start, n)) && OnTop(LedgerOf(start, n), KeyOf(start, n)) ==> Pending(u, n)
  {
    assert !WasSent(u, n);
    if ready && !IdLess(EntityOf(start, n)) && OnTop(LedgerOf(start, n), KeyOf(start, n)) {
      assert Retains(edges, start, u, n);
      OnTopIsPending(LedgerOf(u, n), KeyOf(u, n));
    }
  }

  lemma {:induction false} EarlyStateAfterReserve(env: Environment, w: World, t: Tree, ready: bool)
    requires Consistent(env, w, t) && !Reserve(env, w, t).raised && (ready ==> Ready(env, w, t))
    ensures var r := Reserve(env, w, t).world;
      EarlyState(env, Nodes(t), Edges(t), w, r, ready, r)
  {
    var nodes, edges, r := Nodes(t), Edges(t), Reserve(env, w, t).world;
    ReservationPrepares(env, w, t);
    if ready {
      ReserveRetainsAll(env, w, t);
      ReserveAssigns(env, w, t);
      NoCommitsYet(env, w, t);
    }
  }

  /**
    If anything was sent at all, every entity of the tree had passed its early check before: a child with its link
    set to its parent's number, and an entity that was marked or changed on top of its ledger with its command.
   */
  lemma {:induction false} EveryoneIsCheckedFirst(env: Environment, w: World, t: Tree, n: Node) returns (u: World)
    requires Consistent(env, w, t) && Work(env, w, t).world.sent != [] && n in Nodes(t)
    ensures IsChecked(env, w, Links(Edges(t), n), n, u)
    ensures Ready(env, w, t) && !IdLess(EntityOf(w, n)) && OnTop(LedgerOf(w, n), KeyOf(w, n)) ==> Pending(u, n)
    ensures forall parent, member :: IsEdge(t, parent, member, n) ==> Reference(u, n, member) == IdValue(EntityOf(u, parent).id)
  {
    var nodes, edges, r, ready := Nodes(t), Edges(t), Reserve(env, w, t).world, Ready(env, w, t);
    SentAfterPreflight(env, w, t);
    NodesDiffer(t);
    EarlyStateAfterReserve(env, w, t, ready);
    EarlyStateIsKept(env, nodes, edges, w, r, ready);
    var inv := (v: World) => EarlyState(env, nodes, edges, w, r, ready, v);
    if parent, member :| IsEdge(t, parent, member, n) {
      u := ChildHasTurn(env, nodes, edges, inv, r, t, parent, member, n);
      forall p, m | IsEdge(t, p, m, n)
        ensures p == parent && m == member
      {
        OneEdge(t, parent, member, p, m, n);
      }
    } else {
      NoEdgeIsRoot(t, n);
      u := r;
    }
    PassedIsChecked(env, nodes, edges, w, r, ready, n, u);
  }

  lemma {:induction false} EdgeEndsBelow(t: Tree, parent: Node, member: string, n: Node)
    requires IsEdge(t, parent, member, n)
    ensures n in NodesOf(t.children)
    decreases t
  {
    EdgeEndsIn(t.children, t.node, parent, member, n);
  }

  lemma {:induction false} EdgeEndsIn(f: Forest, owner: Node, parent: Node, member: string, n: Node)
    requires IsEdgeIn(f, owner, parent, member, n)
    ensures n in NodesOf(f)
    decreases f
  {
    if owner == parent && f.member == member && f.child.node == n {
    } else if IsEdge(f.child, parent, member, n) {
      EdgeEndsBelow(f.child, parent, member, n);
    } else {
      EdgeEndsIn(f.rest, owner, parent, member, n);
    }
  }

  /** In a proper tree an entity has one parent. */
  lemma {:induction false} OneEdge(t: Tree, parent: Node, member: string, other: Node, otherMember: string, n: Node)
    requires Proper(t) && IsEdge(t, parent, member, n) && IsEdge(t, other, otherMember, n)
    ensures other == parent && otherMember == member
    decreases t
  {
    OneEdgeIn(t.children, t.node, parent, member, other, otherMember, n);
  }

  lemma {:induction false} OneEdgeIn(f: Forest, owner: Node, parent: Node, member: string, other: Node,
      otherMember: string, n: Node)
    requires ProperAll(f) && IsEdgeIn(f, owner, parent, member, n) && IsEdgeIn(f, owner, other, otherMember, n)
    ensures other == parent && otherMember == member
    decreases f
  {
    EdgePlace(f, owner, parent, member, n);
    EdgePlace(f, owner, other, otherMember, n);
    if n == f.child.node {
    } else if n in NodesOf(f.child.children) {
      OneEdge(f.child, parent, member, other, otherMember, n);
    } else {
      OneEdgeIn(f.rest, owner, parent, member, other, otherMember, n);
    }
  }

  /** Which of the three places an edge is at is decided by where it ends. */
  lemma {:induction false} EdgePlace(f: Forest, owner: Node, parent: Node, member: string, n: Node)
    requires ProperAll(f) && IsEdgeIn(f, owner, parent, member, n)
    ensures n == f.child.node ==> owner == parent && f.member == member
    ensures n != f.child.node && n in NodesOf(f.child.children) ==> IsEdge(f.child, parent, member, n)
    ensures n != f.child.node && n !in NodesOf(f.child.children) ==> IsEdgeIn(f.rest, owner, parent, member, n)
  {
    if IsEdge(f.child, parent, member, n) {
      EdgeEndsBelow(f.child, parent, member, n);
      NodesOfHaveSelves(f.child.children, n);
    }
    if IsEdgeIn(f.rest, owner, parent, member, n) {
      EdgeEndsIn(f.rest, owner, parent, member, n);
      NodesOfHaveSelves(f.rest, n);
      if n in Nodes(f.child) {
        NodesHaveSelves(f.child, n);
      }
    }
  }

  lemma {:induction false} NoEdgeIsRoot(t: Tree, n: Node)
    requires n in Nodes(t) && forall parent, member :: !IsEdge(t, parent, member, n)
    ensures n == t.node
  {
    if n != t.node {
      var parent, member := BelowHasEdge(t.children, t.node, n);
      assert IsEdge(t, parent, member, n);
    }
  }

  lemma {:induction false} BelowHasEdge(f: Forest, owner: Node, n: Node) returns (parent: Node, member: string)
    requires n in NodesOf(f)
    ensures IsEdgeIn(f, owner, parent, member, n)
    decreases f
  {
    if n == f.child.node {
      parent, member := owner, f.member;
    } else if n in NodesOf(f.child.children) {
      parent, member := BelowHasEdge(f.child.children, f.child.node, n);
      assert IsEdge(f.child, parent, member, n);
    } else {
      parent, member := BelowHasEdge(f.rest, owner, n);
    }
  }
}
