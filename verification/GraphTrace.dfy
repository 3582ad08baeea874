/** What a save reaches, sends and registers: the order, the foreign keys and the lineage of its commands. */
module GraphTrace {
  import opened Outcomes
  import opened LedgerModel
  import opened GraphModel
  import opened GraphInduction
  import opened GraphRollback
  import opened GraphSent
  import TraceScope

  // ----- trees without a shared entity

  function Selves(t: Tree): set<NodeId> {
    {t.node.self} + SelvesOf(t.children)
  }

  function SelvesOf(f: Forest): set<NodeId> {
    match f
    case Done => {}
    case Child(_, _, child, rest) => Selves(child) + SelvesOf(rest)
  }

  /** No entity object occurs twice. */
  predicate Proper(t: Tree) {
    t.node.self !in SelvesOf(t.children) && ProperAll(t.children)
  }

  predicate ProperAll(f: Forest) {
    match f
    case Done => true
    case Child(_, _, child, rest) => Selves(child) !! SelvesOf(rest) && Proper(child) && ProperAll(rest)
  }

  lemma {:induction false} NodesHaveSelves(t: Tree, n: Node)
    requires n in Nodes(t)
    ensures n.self in Selves(t)
    decreases t
  {
    if n != t.node {
      NodesOfHaveSelves(t.children, n);
    }
  }

  lemma {:induction false} NodesOfHaveSelves(f: Forest, n: Node)
    requires n in NodesOf(f)
    ensures n.self in SelvesOf(f)
    decreases f
  {
    if n in Nodes(f.child) {
      NodesHaveSelves(f.child, n);
    } else {
      NodesOfHaveSelves(f.rest, n);
    }
  }

  // ----- what a save leaves alone

  predicate SameButRoot(a: Entity, b: Entity) {
    a.(root := 0) == b.(root := 0)
  }

  /** Logs only grow, entities outside `selves` change at most their root, and no id or key changes. */
  ghost predicate Framed(w: World, w1: World, selves: set<NodeId>) {
    && w.visits <= w1.visits && w.sent <= w1.sent && w.commits <= w1.commits
    && (forall id :: id !in selves ==> SameButRoot(EntityAt(w1, id), EntityAt(w, id)))
    && (forall id :: EntityAt(w1, id).id == EntityAt(w, id).id && EntityAt(w1, id).ledgerId == EntityAt(w, id).ledgerId)
  }

  ghost predicate IdsConsistent(w: World, selves: set<NodeId>) {
    forall id :: id in selves && EntityAt(w, id).id.Some? ==> EntityAt(w, id).ledgerId == EntityAt(w, id).id.value
  }

  lemma {:induction false} FramedKeepsIds(w: World, w1: World, selves: set<NodeId>, ids: set<NodeId>)
    requires Framed(w, w1, selves) && IdsConsistent(w, ids)
    ensures IdsConsistent(w1, ids)
  {
  }

  lemma {:induction false} FramedTwice(w: World, w1: World, w2: World, selves: set<NodeId>, more: set<NodeId>)
    requires Framed(w, w1, selves) && Framed(w1, w2, more) && more <= selves
    ensures Framed(w, w2, selves)
  {
  }

  lemma {:induction false} FramedWider(w: World, w1: World, selves: set<NodeId>, more: set<NodeId>)
    requires Framed(w, w1, selves) && selves <= more
    ensures Framed(w, w1, more)
  {
  }

  /** Attaching changes roots and ledgers, nothing else. */
  ghost predicate OnlyRootsDiffer(w: World, w1: World) {
    && w1.visits == w.visits && w1.sent == w.sent && w1.commits == w.commits && w1.clock == w.clock && w1.undo == w.undo
    && forall id :: SameButRoot(EntityAt(w1, id), EntityAt(w, id))
  }

  lemma {:induction false} AttachChangesRoots(w: World, t: Tree, root: RootId)
    ensures OnlyRootsDiffer(w, Attach(w, t, root).world)
  {
    AttachKeeps(Nodes(t), (u: World) => OnlyRootsDiffer(w, u), w, t, root);
  }

  lemma {:induction false} OnlyRootsFramed(w: World, w1: World)
    requires OnlyRootsDiffer(w, w1)
    ensures Framed(w, w1, {})
  {
    assert forall id :: SameButRoot(EntityAt(w1, id), EntityAt(w, id));
  }

  lemma {:induction false} LinkFramed(w: World, child: Node, member: string, column: string, parent: Node)
    ensures var w1 := LinkIfNeeded(w, child, member, column, parent);
      && Framed(w, w1, {child.self}) && w1.visits == w.visits && w1.sent == w.sent && w1.commits == w.commits
      && EntityOf(w1, child).action == EntityOf(w, child).action
      && (child.self != parent.self ==> Reference(w1, child, member) == IdValue(EntityOf(w1, parent).id))
  {
  }

  /** What a send does: at most one entry, and nothing to the entities. */
  ghost predicate SendOutcome(w: World, s: Progress, reply: Reply, n: Node, scope: TraceScope.Scope) {
    && Framed(w, s.world, {}) && s.world.entities == w.entities
    && s.world.visits == w.visits && s.world.commits == w.commits
    && |s.world.sent| <= |w.sent| + 1
    && (forall i :: |w.sent| <= i < |s.world.sent| ==>
          && s.world.sent[i].node == n
          && s.world.sent[i].origin.attributes == ResolvedAttributes(w, n)
          && (s.world.sent[i].specific == [] ==> s.world.sent[i].lineage == TraceScope.Recovered(scope))
          && s.world.sent[i].reply == reply)
    && (!s.raised ==> reply.Persisted? && |s.world.sent| == |w.sent| + 1)
    && (s.raised ==> !reply.Persisted?)
  }

  lemma {:induction false} SendFramed(env: Environment, w: World, n: Node, scope: TraceScope.Scope)
    ensures var s := Send(env, w, n, scope);
      SendOutcome(w, s.0, s.1, n, scope)
  {
    SendChanges(env, w, n, scope);
    var w2 := Send(env, w, n, scope).0.world;
    assert forall id :: EntityAt(w2, id) == EntityAt(w, id);
  }

  lemma {:induction false} AdoptFramed(env: Environment, w: World, n: Node, reply: Reply)
    requires ReturnsReservedId(env) && Answers(env, w, n, reply) && IdsConsistent(w, {n.self})
    ensures var d := Adopt(w, n, reply);
      && !d.raised && Framed(w, d.world, {n.self})
      && d.world.visits == w.visits && d.world.sent == w.sent && d.world.commits == w.commits
      && (reply.version.Some? ==> EntityOf(d.world, n).version == reply.version)
      && EntityOf(d.world, n).action != Create
  {
    assert n.self in {n.self} && EntityAt(w, n.self) == EntityOf(w, n);
    AdoptChanges(env, w, n, reply);
    var w1 := Adopt(w, n, reply).world;
    forall id
      ensures id != n.self ==> EntityAt(w1, id) == EntityAt(w, id)
      ensures EntityAt(w1, id).id == EntityAt(w, id).id && EntityAt(w1, id).ledgerId == EntityAt(w, id).ledgerId
    {
      var m := n.(self := id);
      assert EntityOf(w1, m) == EntityAt(w1, id) && EntityOf(w, m) == EntityAt(w, id);
    }
  }

  /** Entries added to the log of sent commands are about these nodes. */
  ghost predicate NewSentAmong(w: World, w1: World, nodes: set<Node>) {
    forall i :: |w.sent| <= i < |w1.sent| ==> w1.sent[i].node in nodes
  }

  /** The worlds an entity's own save goes through: after attaching, after sending, after adopting. */
  lemma {:induction false} SaveOwnFramed(env: Environment, w: World, t: Tree, scope: TraceScope.Scope)
    requires ReturnsReservedId(env) && IdsConsistent(w, {t.node.self})
    ensures OwnSave(w, SaveOwn(env, w, t, scope), t.node, scope)
  {
    var n := t.node;
    var a := Attach(w, t, EntityOf(w, n).root);
    AttachChangesRoots(w, t, EntityOf(w, n).root);
    OnlyRootsFramed(w, a.world);
    if a.raised {
      FramedWider(w, a.world, {}, {n.self});
    } else {
      FramedKeepsIds(w, a.world, {}, {n.self});
      SendAndAdoptFramed(env, a.world, n, scope);
      OwnSaveFromRoots(w, a.world, SaveOwn(env, w, t, scope), n, scope);
    }
  }

  /** What an entity's own save does: at most one entry, of this entity, which is adopted if it was persisted. */
  ghost predicate OwnSave(w: World, own: Progress, n: Node, scope: TraceScope.Scope) {
    && Framed(w, own.world, {n.self}) && own.world.visits == w.visits && own.world.commits == w.commits
    && |own.world.sent| <= |w.sent| + 1
    && (forall i :: |w.sent| <= i < |own.world.sent| ==> OwnEntry(w, own, n, scope, own.world.sent[i]))
    && (!own.raised ==> |own.world.sent| == |w.sent| + 1 && own.world.sent[|w.sent|].reply.Persisted?)
    && (!own.raised ==> EntityOf(own.world, n).action != Create)
  }

  ghost predicate OwnEntry(w: World, own: Progress, n: Node, scope: TraceScope.Scope, s: Sent) {
    && s.node == n
    && s.origin.attributes.Keys == ResolvedAttributes(w, n).Keys
    && (forall member :: SentReference(s, member) == Reference(w, n, member))
    && (s.specific == [] ==> s.lineage == TraceScope.Recovered(scope))
    && (s.reply.Persisted? ==> !own.raised && EntityOf(own.world, n).action != Create)
    && (s.reply.Persisted? && s.reply.version.Some? ==> EntityOf(own.world, n).version == s.reply.version)
  }

  lemma {:induction false} SendAndAdoptFramed(env: Environment, w: World, n: Node, scope: TraceScope.Scope)
    requires ReturnsReservedId(env) && IdsConsistent(w, {n.self})
    ensures var s := Send(env, w, n, scope);
      OwnSave(w, if s.0.raised then s.0 else Adopt(s.0.world, n, s.1), n, scope)
  {
    SendFramed(env, w, n, scope);
    var s, reply := Send(env, w, n, scope).0, Send(env, w, n, scope).1;
    FramedWider(w, s.world, {}, {n.self});
    if !s.raised {
      SentIsAnswered(env, w, n, scope);
      FramedKeepsIds(w, s.world, {n.self}, {n.self});
      AdoptFramed(env, s.world, n, reply);
      SentThenAdopted(w, s, reply, Adopt(s.world, n, reply), n, scope);
    }
  }

  lemma {:induction false} SentThenAdopted(w: World, s: Progress, reply: Reply, own: Progress, n: Node,
      scope: TraceScope.Scope)
    requires SendOutcome(w, s, reply, n, scope) && !s.raised && !own.raised && Framed(s.world, own.world, {n.self})
    requires own.world.visits == s.world.visits && own.world.sent == s.world.sent
      && own.world.commits == s.world.commits
    requires reply.version.Some? ==> EntityOf(own.world, n).version == reply.version
    requires EntityOf(own.world, n).action != Create
    ensures OwnSave(w, own, n, scope)
  {
    FramedWider(w, s.world, {}, {n.self});
    FramedTwice(w, s.world, own.world, {n.self}, {n.self});
  }

  lemma {:induction false} OwnSaveFromRoots(w: World, w1: World, own: Progress, n: Node, scope: TraceScope.Scope)
    requires OnlyRootsDiffer(w, w1) && Framed(w, w1, {}) && OwnSave(w1, own, n, scope)
    ensures OwnSave(w, own, n, scope)
  {
    SameReferences(w, w1, n);
    FramedTwice(w, w1, own.world, {n.self}, {n.self});
  }

  lemma {:induction false} SameReferences(w: World, w1: World, n: Node)
    requires OnlyRootsDiffer(w, w1)
    ensures ResolvedAttributes(w1, n) == ResolvedAttributes(w, n)
    ensures forall member :: Reference(w1, n, member) == Reference(w, n, member)
  {
    assert SameButRoot(EntityAt(w1, n.self), EntityAt(w, n.self));
    forall member | member in EntityOf(w, n).attributes
      ensures Resolved(w1, EntityOf(w, n).attributes[member]) == Resolved(w, EntityOf(w, n).attributes[member])
    {
      var a := EntityOf(w, n).attributes[member];
      if a.Object? {
        assert SameButRoot(EntityAt(w1, a.node), EntityAt(w, a.node));
      }
    }
  }

  lemma {:induction false} SaveFramed(env: Environment, w: World, t: Tree, parent: Option<TraceScope.Scope>)
    requires ReturnsReservedId(env) && IdsConsistent(w, Selves(t))
    ensures var w1 := Save(env, w, t, parent).world;
      Framed(w, w1, Selves(t)) && NewSentAmong(w, w1, Nodes(t))
    decreases t, 1
  {
    var n := t.node;
    var scope := ScopeOf(w, n, parent);
    if scope.Some? {
      var w1 := Reach(w, n);
      assert forall id :: EntityAt(w1, id) == EntityAt(w, id);
      assert Framed(w, w1, Selves(t));
      FramedKeepsIds(w, w1, Selves(t), Selves(t));
      var action := EntityOf(w, n).action;
      if action == Update && !Pending(w, n) {
        SaveAllFramed(env, w1, n, t.children, scope.value);
        FramedTwice(w, w1, SaveAll(env, w1, n, t.children, scope.value).world, Selves(t), SelvesOf(t.children));
      } else {
        SaveCommandedFramed(env, w1, t, scope.value, action == Delete);
        FramedTwice(w, w1, SaveCommanded(env, w1, t, scope.value, action == Delete).world, Selves(t), Selves(t));
      }
    }
  }

  lemma {:induction false} SaveCommandedFramed(env: Environment, w: World, t: Tree, scope: TraceScope.Scope,
      deleted: bool)
    requires ReturnsReservedId(env) && IdsConsistent(w, Selves(t))
    ensures var w1 := SaveCommanded(env, w, t, scope, deleted).world;
      Framed(w, w1, Selves(t)) && NewSentAmong(w, w1, Nodes(t))
    decreases t, 0
  {
    var n := t.node;
    SaveOwnFramed(env, w, t, scope);
    var own := SaveOwn(env, w, t, scope);
    FramedWider(w, own.world, {n.self}, Selves(t));
    if !own.raised {
      FramedKeepsIds(w, own.world, Selves(t), Selves(t));
      if !deleted {
        SaveAllFramed(env, own.world, n, t.children, scope);
        FramedTwice(w, own.world, SaveAll(env, own.world, n, t.children, scope).world, Selves(t), SelvesOf(t.children));
      }
      var c := if deleted then own else SaveAll(env, own.world, n, t.children, scope);
      CommitEntryFramed(w, c.world, Selves(t), n, KeyOf(own.world, n));
    }
  }

  lemma {:induction false} CommitEntryFramed(w: World, w1: World, selves: set<NodeId>, n: Node, key: EntityKey)
    requires Framed(w, w1, selves)
    ensures Framed(w, RegisterCommit(w1, n, key), selves)
  {
    assert forall id :: EntityAt(RegisterCommit(w1, n, key), id) == EntityAt(w1, id);
  }

  lemma {:induction false} SaveAllFramed(env: Environment, w: World, parent: Node, f: Forest, scope: TraceScope.Scope)
    requires ReturnsReservedId(env) && IdsConsistent(w, SelvesOf(f))
    ensures var w1 := SaveAll(env, w, parent, f, scope).world;
      Framed(w, w1, SelvesOf(f)) && NewSentAmong(w, w1, NodesOf(f))
    decreases f
  {
    if f.Child? {
      var r := Attach(w, f.child, EntityOf(w, parent).root);
      AttachChangesRoots(w, f.child, EntityOf(w, parent).root);
      OnlyRootsFramed(w, r.world);
      FramedWider(w, r.world, {}, SelvesOf(f));
      if !r.raised {
        var linked := LinkIfNeeded(r.world, f.child.node, f.member, f.column, parent);
        LinkFramed(r.world, f.child.node, f.member, f.column, parent);
        assert f.child.node.self in Selves(f.child);
        FramedTwice(w, r.world, linked, SelvesOf(f), {f.child.node.self});
        FramedKeepsIds(w, linked, SelvesOf(f), SelvesOf(f));
        SaveFramed(env, linked, f.child, Some(scope));
        var s := Save(env, linked, f.child, Some(scope));
        FramedTwice(w, linked, s.world, SelvesOf(f), Selves(f.child));
        if !s.raised {
          FramedKeepsIds(w, s.world, SelvesOf(f), SelvesOf(f));
          SaveAllFramed(env, s.world, parent, f.rest, scope);
          FramedTwice(w, s.world, SaveAll(env, s.world, parent, f.rest, scope).world, SelvesOf(f), SelvesOf(f.rest));
        }
      }
    }
  }
}
