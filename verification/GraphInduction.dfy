/**
  Induction over a save: whatever every primitive change keeps, the whole recursion keeps, at every
  point where it can stop.
 */
module GraphInduction {
  import opened Outcomes
  import opened GraphModel
  import TraceScope

  ghost predicate KeptByAttach(nodes: set<Node>, inv: World -> bool) {
    forall w, n, root :: inv(w) && n in nodes ==> inv(AttachOne(w, n, root).world)
  }

  ghost predicate KeptByReserve(env: Environment, nodes: set<Node>, inv: World -> bool) {
    forall w, n :: inv(w) && n in nodes && EntityOf(w, n).action == Create && EntityOf(w, n).id.None? ==>
      inv(ReserveId(env, w, n).world)
  }

  ghost predicate KeptByCarryBack(nodes: set<Node>, inv: World -> bool) {
    forall w, n, values :: inv(w) && n in nodes ==> inv(CarryBack(Tick(w), n, values))
  }

  /** A child and its member that points to the parent. */
  type Edge = (Node, string)

  function Edges(t: Tree): set<Edge> {
    EdgesOf(t.children)
  }

  function EdgesOf(f: Forest): set<Edge> {
    match f
    case Done => {}
    case Child(member, _, child, rest) => {(child.node, member)} + Edges(child) + EdgesOf(rest)
  }

  ghost predicate KeptByLink(nodes: set<Node>, edges: set<Edge>, inv: World -> bool) {
    forall w, child, member, column, parent :: inv(w) && child in nodes && parent in nodes && (child, member) in edges ==>
      inv(Link(w, child, member, column, parent))
  }

  ghost predicate KeptByReach(nodes: set<Node>, inv: World -> bool) {
    forall w, n :: inv(w) && n in nodes ==> inv(Reach(w, n))
  }

  ghost predicate KeptBySend(env: Environment, nodes: set<Node>, inv: World -> bool) {
    forall w, n, scope :: inv(w) && n in nodes ==> inv(Send(env, w, n, scope).0.world)
  }

  /** The provider's answer to the command that was just sent is adopted. */
  ghost predicate KeptByAdopt(env: Environment, nodes: set<Node>, inv: World -> bool) {
    forall w, n, reply :: inv(w) && n in nodes && Answers(env, w, n, reply) ==> inv(Adopt(w, n, reply).world)
  }

  /** The last command was the entity's; and the provider gave this record, at some time, to a command carrying its id. */
  ghost predicate Answers(env: Environment, w: World, n: Node, reply: Reply) {
    && reply.Persisted? && w.sent != [] && w.sent[|w.sent| - 1].node == n
    && exists clock, command: Command :: command.id == EntityOf(w, n).id && env.mutate(clock, command) == reply
  }

  /** A commit action is registered with the key its entity had earlier in the save. */
  ghost predicate KeptByCommitEntry(nodes: set<Node>, inv: World -> bool) {
    forall w, earlier, n :: inv(w) && inv(earlier) && n in nodes ==>
      inv(RegisterCommit(w, n, KeyOf(earlier, n)))
  }

  ghost predicate KeptBySave(env: Environment, nodes: set<Node>, edges: set<Edge>, inv: World -> bool) {
    && KeptByAttach(nodes, inv) && KeptByLink(nodes, edges, inv) && KeptByReach(nodes, inv)
    && KeptBySend(env, nodes, inv) && KeptByAdopt(env, nodes, inv) && KeptByCommitEntry(nodes, inv)
  }

  lemma {:induction false} AttachKeeps(nodes: set<Node>, inv: World -> bool, w: World, t: Tree, root: RootId)
    requires KeptByAttach(nodes, inv) && inv(w) && Nodes(t) <= nodes
    ensures inv(Attach(w, t, root).world)
    decreases t
  {
    assert t.node in nodes;
    var r := AttachOne(w, t.node, root);
    assert inv(r.world);
    if !r.raised {
      AttachAllKeeps(nodes, inv, r.world, t.children, root);
    }
  }

  lemma {:induction false} AttachAllKeeps(nodes: set<Node>, inv: World -> bool, w: World, f: Forest, root: RootId)
    requires KeptByAttach(nodes, inv) && inv(w) && NodesOf(f) <= nodes
    ensures inv(AttachAll(w, f, root).world)
    decreases f
  {
    if f.Child? {
      AttachKeeps(nodes, inv, w, f.child, root);
      var r := Attach(w, f.child, root);
      if !r.raised {
        AttachAllKeeps(nodes, inv, r.world, f.rest, root);
      }
    }
  }

  lemma {:induction false} ReserveKeeps(env: Environment, nodes: set<Node>, inv: World -> bool, w: World, t: Tree)
    requires KeptByAttach(nodes, inv) && KeptByReserve(env, nodes, inv) && inv(w) && Nodes(t) <= nodes
    ensures inv(Reserve(env, w, t).world)
    decreases t
  {
    assert t.node in nodes;
    var e := EntityOf(w, t.node);
    if e.action == Create && e.id.None? {
      assert inv(ReserveId(env, w, t.node).world);
    }
    var r := if e.action == Create && e.id.None? then ReserveId(env, w, t.node) else Progress(w, false);
    if !r.raised {
      ReserveAllKeeps(env, nodes, inv, r.world, t.node, t.children);
    }
  }

  lemma {:induction false} ReserveAllKeeps(env: Environment, nodes: set<Node>, inv: World -> bool, w: World,
      parent: Node, f: Forest)
    requires KeptByAttach(nodes, inv) && KeptByReserve(env, nodes, inv) && inv(w) && NodesOf(f) <= nodes
    ensures inv(ReserveAll(env, w, parent, f).world)
    decreases f
  {
    if f.Child? {
      AttachKeeps(nodes, inv, w, f.child, EntityOf(w, parent).root);
      var r := Attach(w, f.child, EntityOf(w, parent).root);
      if !r.raised {
        ReserveKeeps(env, nodes, inv, r.world, f.child);
        var s := Reserve(env, r.world, f.child);
        if !s.raised {
          ReserveAllKeeps(env, nodes, inv, s.world, parent, f.rest);
        }
      }
    }
  }

  lemma {:induction false} PreflightKeeps(env: Environment, nodes: set<Node>, edges: set<Edge>, inv: World -> bool,
      w: World, t: Tree)
    requires KeptByAttach(nodes, inv) && KeptByCarryBack(nodes, inv) && KeptByLink(nodes, edges, inv) && inv(w)
    requires Nodes(t) <= nodes && Edges(t) <= edges
    ensures inv(Preflight(env, w, t).world)
    decreases t
  {
    assert t.node in nodes;
    var r := PreflightOne(env, w, t.node);
    assert inv(CarryBack(Tick(w), t.node, env.preflight(w.clock, BuildCommand(w, t.node)).values));
    if !r.raised {
      PreflightAllKeeps(env, nodes, edges, inv, r.world, t.node, t.children);
    }
  }

  lemma {:induction false} LinkIfNeededKeeps(nodes: set<Node>, edges: set<Edge>, inv: World -> bool, w: World,
      child: Node, member: string,
      column: string, parent: Node)
    requires KeptByLink(nodes, edges, inv) && inv(w) && child in nodes && parent in nodes && (child, member) in edges
    ensures inv(LinkIfNeeded(w, child, member, column, parent))
  {
    assert inv(Link(w, child, member, column, parent));
  }

  lemma {:induction false} PreflightAllKeeps(env: Environment, nodes: set<Node>, edges: set<Edge>,
      inv: World -> bool, w: World,
      parent: Node, f: Forest)
    requires KeptByAttach(nodes, inv) && KeptByCarryBack(nodes, inv) && KeptByLink(nodes, edges, inv) && inv(w)
    requires parent in nodes && NodesOf(f) <= nodes && EdgesOf(f) <= edges
    ensures inv(PreflightAll(env, w, parent, f).world)
    decreases f
  {
    if f.Child? {
      AttachKeeps(nodes, inv, w, f.child, EntityOf(w, parent).root);
      var r := Attach(w, f.child, EntityOf(w, parent).root);
      if !r.raised {
        assert f.child.node in Nodes(f.child);
        LinkIfNeededKeeps(nodes, edges, inv, r.world, f.child.node, f.member, f.column, parent);
        var linked := LinkIfNeeded(r.world, f.child.node, f.member, f.column, parent);
        PreflightKeeps(env, nodes, edges, inv, linked, f.child);
        var s := Preflight(env, linked, f.child);
        if !s.raised {
          PreflightAllKeeps(env, nodes, edges, inv, s.world, parent, f.rest);
        }
      }
    }
  }

  /** The record in hand after a successful send is the provider's answer to a command with the entity's id. */
  lemma {:induction false} SentIsAnswered(env: Environment, w: World, n: Node, scope: TraceScope.Scope)
    requires !Send(env, w, n, scope).0.raised
    ensures Answers(env, Send(env, w, n, scope).0.world, n, Send(env, w, n, scope).1)
  {
    var built := BuildCommand(w, n);
    var command := Checked(built, env.check(w.clock, built).values);
    assert command.id == EntityOf(w, n).id;
    var s := Send(env, w, n, scope);
    assert EntityOf(s.0.world, n) == EntityOf(w, n);
    assert s.1 == env.mutate(w.clock + 1, command);
  }

  lemma {:induction false} SaveOwnKeeps(env: Environment, nodes: set<Node>, edges: set<Edge>, inv: World -> bool,
      w: World, t: Tree, scope: TraceScope.Scope)
    requires KeptBySave(env, nodes, edges, inv) && inv(w) && Nodes(t) <= nodes && Edges(t) <= edges
    ensures inv(SaveOwn(env, w, t, scope).world)
  {
    var n := t.node;
    assert n in nodes;
    AttachKeeps(nodes, inv, w, t, EntityOf(w, n).root);
    var a := Attach(w, t, EntityOf(w, n).root);
    if !a.raised {
      var s := Send(env, a.world, n, scope);
      assert inv(s.0.world);
      if !s.0.raised {
        SentIsAnswered(env, a.world, n, scope);
        assert inv(Adopt(s.0.world, n, s.1).world);
      }
    }
  }

  lemma {:induction false} SaveKeeps(env: Environment, nodes: set<Node>, edges: set<Edge>, inv: World -> bool,
      w: World, t: Tree,
      parent: Option<TraceScope.Scope>)
    requires KeptBySave(env, nodes, edges, inv) && inv(w) && Nodes(t) <= nodes && Edges(t) <= edges
    ensures inv(Save(env, w, t, parent).world)
    decreases t
  {
    var n := t.node;
    assert n in nodes;
    var scope := ScopeOf(w, n, parent);
    if scope.Some? {
      var w1 := Reach(w, n);
      assert inv(w1);
      var action := EntityOf(w, n).action;
      if action == Update && !Pending(w, n) {
        SaveAllKeeps(env, nodes, edges, inv, w1, n, t.children, scope.value);
      } else {
        SaveOwnKeeps(env, nodes, edges, inv, w1, t, scope.value);
        var own := SaveOwn(env, w1, t, scope.value);
        if !own.raised {
          if action != Delete {
            SaveAllKeeps(env, nodes, edges, inv, own.world, n, t.children, scope.value);
          }
          var c := if action == Delete then own else SaveAll(env, own.world, n, t.children, scope.value);
          assert inv(RegisterCommit(c.world, n, KeyOf(own.world, n)));
        }
      }
    }
  }

  lemma {:induction false} SaveAllKeeps(env: Environment, nodes: set<Node>, edges: set<Edge>, inv: World -> bool,
      w: World,
      parent: Node, f: Forest, scope: TraceScope.Scope)
    requires KeptBySave(env, nodes, edges, inv) && inv(w) && parent in nodes && NodesOf(f) <= nodes
      && EdgesOf(f) <= edges
    ensures inv(SaveAll(env, w, parent, f, scope).world)
    decreases f
  {
    if f.Child? {
      AttachKeeps(nodes, inv, w, f.child, EntityOf(w, parent).root);
      var r := Attach(w, f.child, EntityOf(w, parent).root);
      if !r.raised {
        assert f.child.node in Nodes(f.child);
        LinkIfNeededKeeps(nodes, edges, inv, r.world, f.child.node, f.member, f.column, parent);
        var linked := LinkIfNeeded(r.world, f.child.node, f.member, f.column, parent);
        SaveKeeps(env, nodes, edges, inv, linked, f.child, Some(scope));
        var s := Save(env, linked, f.child, Some(scope));
        if !s.raised {
          SaveAllKeeps(env, nodes, edges, inv, s.world, parent, f.rest, scope);
        }
      }
    }
  }
}
