/** Every command carries its parent's id as foreign key and the reasons on its path as lineage. */
module GraphLineage {
  import opened Outcomes
  import opened LedgerModel
  import opened GraphModel
  import opened GraphRollback
  import opened GraphSent
  import opened GraphTrace
  import opened TextLaws
  import TraceScope

  // ----- paths and edges of a tree

  /** `path` leads from the root of the tree to one of its entities. */
  ghost predicate IsPath(t: Tree, path: seq<Node>)
    decreases t
  {
    && path != [] && path[0] == t.node
    && (|path| > 1 ==> IsPathIn(t.children, path[1..]))
  }

  ghost predicate IsPathIn(f: Forest, path: seq<Node>)
    decreases f
  {
    f.Child? && (IsPath(f.child, path) || IsPathIn(f.rest, path))
  }

  /** `child` is a child of `parent`, to which its `member` points. */
  ghost predicate IsEdge(t: Tree, parent: Node, member: string, child: Node)
    decreases t
  {
    IsEdgeIn(t.children, t.node, parent, member, child)
  }

  ghost predicate IsEdgeIn(f: Forest, owner: Node, parent: Node, member: string, child: Node)
    decreases f
  {
    f.Child? && (
      || (owner == parent && f.member == member && f.child.node == child)
      || IsEdge(f.child, parent, member, child)
      || IsEdgeIn(f.rest, owner, parent, member, child))
  }

  /** An entity's local reason under its typed key. */
  function ReasonOf(w: World, n: Node): TraceNode {
    var reason := if n.reason.Some? then n.reason.value else "";
    TraceNode(n.typeName, Some(KeyOf(w, n).id), reason, "auditReason", n.typeName)
  }

  /** The root's reason, then the non-blank reasons along the path, each under its entity's key. */
  function Lineage(w: World, path: seq<Node>): Chain
    requires path != []
  {
    var last := path[|path| - 1];
    if |path| == 1 then [ReasonOf(w, last)]
    else Lineage(w, path[..|path| - 1]) + (if IsBlank(last.reason) then [] else [ReasonOf(w, last)])
  }

  /** No reason, or one of white space only. */
  predicate IsBlank(reason: Option<string>) {
    reason.Some? ==> OnlySpaces(reason.value)
  }

  lemma {:induction false} BlankReasonIs(reason: Option<string>)
    ensures TraceScope.BlankReason(reason) <==> IsBlank(reason)
  {
    if reason.Some? {
      BlankIntentIs(reason.value);
    }
  }

  lemma {:induction false} LineageDependsOnKeys(w: World, w1: World, path: seq<Node>)
    requires path != [] && forall n: Node :: KeyOf(w1, n) == KeyOf(w, n)
    ensures Lineage(w1, path) == Lineage(w, path)
  {
    if |path| > 1 {
      LineageDependsOnKeys(w, w1, path[..|path| - 1]);
    }
  }

  /** A scope recovers the lineage of its path. */
  lemma {:induction false} ScopeRecoversLineage(w: World, n: Node, parent: Option<TraceScope.Scope>, above: seq<Node>)
    requires ScopeOf(w, n, parent).Some? && (parent.None? <==> above == [])
    requires parent.Some? ==> TraceScope.Recovered(parent.value) == Lineage(w, above)
    ensures TraceScope.Recovered(ScopeOf(w, n, parent).value) == Lineage(w, above + [n])
  {
    assert (above + [n])[..|above|] == above;
    BlankReasonIs(n.reason);
  }

  // ----- faithful logs

  datatype Via = Via(parent: Node, member: string)

  /** The entity's link holds its parent's id. */
  ghost predicate PointsToParent(w: World, n: Node, via: Option<Via>) {
    via.Some? ==> Reference(w, n, via.value.member) == IdValue(EntityOf(w, via.value.parent).id)
  }

  /** One command of an entity reached along `path`. */
  ghost predicate FaithfulCommand(s: Sent, via: Option<Via>, path: seq<Node>, w: World)
    requires path != []
  {
    && (via.Some? ==> SentReference(s, via.value.member) == IdValue(EntityOf(w, via.value.parent).id))
    && (s.specific == [] ==> s.lineage == Lineage(w, path))
    && (s.reply.Persisted? ==> EntityOf(w, s.node).action != Create)
    && (s.reply.Persisted? && s.reply.version.Some? ==> EntityOf(w, s.node).version == s.reply.version)
  }

  ghost predicate FaithfulNode(n: Node, sent: seq<Sent>, via: Option<Via>, path: seq<Node>, w: World)
    requires path != []
  {
    forall i :: 0 <= i < |sent| && sent[i].node == n ==> FaithfulCommand(sent[i], via, path, w)
  }

  ghost predicate Faithful(t: Tree, via: Option<Via>, above: seq<Node>, sent: seq<Sent>, w: World)
    decreases t
  {
    FaithfulNode(t.node, sent, via, above + [t.node], w) && FaithfulAll(t.children, t.node, above + [t.node], sent, w)
  }

  ghost predicate FaithfulAll(f: Forest, parent: Node, above: seq<Node>, sent: seq<Sent>, w: World)
    decreases f
  {
    f.Child? ==>
      && Faithful(f.child, Some(Via(parent, f.member)), above, sent, w)
      && FaithfulAll(f.rest, parent, above, sent, w)
  }

  /** What later saves elsewhere change does not matter. */
  lemma {:induction false} FaithfulLater(t: Tree, via: Option<Via>, above: seq<Node>, sent: seq<Sent>, w: World,
      w1: World, selves: set<NodeId>)
    requires Faithful(t, via, above, sent, w) && Framed(w, w1, selves) && Selves(t) !! selves
    ensures Faithful(t, via, above, sent, w1)
    decreases t
  {
    FaithfulNodeLater(t.node, via, above + [t.node], sent, w, w1, selves);
    FaithfulAllLater(t.children, t.node, above + [t.node], sent, w, w1, selves);
  }

  lemma {:induction false} FaithfulNodeLater(n: Node, via: Option<Via>, path: seq<Node>, sent: seq<Sent>, w: World,
      w1: World,
      selves: set<NodeId>)
    requires path != [] && FaithfulNode(n, sent, via, path, w) && Framed(w, w1, selves) && n.self !in selves
    ensures FaithfulNode(n, sent, via, path, w1)
  {
    assert SameButRoot(EntityAt(w1, n.self), EntityAt(w, n.self));
    LineageDependsOnKeys(w, w1, path);
    forall i | 0 <= i < |sent| && sent[i].node == n
      ensures FaithfulCommand(sent[i], via, path, w1)
    {
      assert FaithfulCommand(sent[i], via, path, w);
    }
  }

  lemma {:induction false} FaithfulAllLater(f: Forest, parent: Node, above: seq<Node>, sent: seq<Sent>, w: World,
      w1: World, selves: set<NodeId>)
    requires FaithfulAll(f, parent, above, sent, w) && Framed(w, w1, selves) && SelvesOf(f) !! selves
    ensures FaithfulAll(f, parent, above, sent, w1)
    decreases f
  {
    if f.Child? {
      FaithfulLater(f.child, Some(Via(parent, f.member)), above, sent, w, w1, selves);
      FaithfulAllLater(f.rest, parent, above, sent, w, w1, selves);
    }
  }

  /** The same entries about these entities, in one log and the other. */
  ghost predicate SameEntries(sent: seq<Sent>, other: seq<Sent>, nodes: set<Node>) {
    forall s: Sent :: s.node in nodes && s in other ==> s in sent
  }

  lemma {:induction false} FaithfulEntries(t: Tree, via: Option<Via>, above: seq<Node>, sent: seq<Sent>,
      other: seq<Sent>, w: World)
    requires Faithful(t, via, above, sent, w) && SameEntries(sent, other, Nodes(t))
    ensures Faithful(t, via, above, other, w)
    decreases t
  {
    forall i | 0 <= i < |other| && other[i].node == t.node
      ensures FaithfulCommand(other[i], via, above + [t.node], w)
    {
      assert other[i] in sent;
    }
    FaithfulAllEntries(t.children, t.node, above + [t.node], sent, other, w);
  }

  lemma {:induction false} FaithfulAllEntries(f: Forest, parent: Node, above: seq<Node>, sent: seq<Sent>,
      other: seq<Sent>, w: World)
    requires FaithfulAll(f, parent, above, sent, w) && SameEntries(sent, other, NodesOf(f))
    ensures FaithfulAll(f, parent, above, other, w)
    decreases f
  {
    if f.Child? {
      FaithfulEntries(f.child, Some(Via(parent, f.member)), above, sent, other, w);
      FaithfulAllEntries(f.rest, parent, above, sent, other, w);
    }
  }

  lemma {:induction false} FaithfulWhenSilent(t: Tree, via: Option<Via>, above: seq<Node>, w: World)
    ensures Faithful(t, via, above, [], w)
    decreases t
  {
    FaithfulAllWhenSilent(t.children, t.node, above + [t.node], w);
  }

  lemma {:induction false} FaithfulAllWhenSilent(f: Forest, parent: Node, above: seq<Node>, w: World)
    ensures FaithfulAll(f, parent, above, [], w)
    decreases f
  {
    if f.Child? {
      FaithfulWhenSilent(f.child, Some(Via(parent, f.member)), above, w);
      FaithfulAllWhenSilent(f.rest, parent, above, w);
    }
  }

  function NewSent(w: World, w1: World): seq<Sent>
    requires w.sent <= w1.sent
  {
    w1.sent[|w.sent|..]
  }

  lemma {:induction false} NewSentJoins(w: World, w1: World, w2: World)
    requires w.sent <= w1.sent && w1.sent <= w2.sent
    ensures NewSent(w, w2) == NewSent(w, w1) + NewSent(w1, w2)
  {
  }

  lemma {:induction false} SaveIsFaithful(
    env: Environment, w: World, t: Tree, parent: Option<TraceScope.Scope>, via: Option<Via>, above: seq<Node>)
    requires ReturnsReservedId(env) && IdsConsistent(w, Selves(t)) && Proper(t)
    requires parent.None? <==> above == []
    requires parent.Some? ==> TraceScope.Recovered(parent.value) == Lineage(w, above)
    requires PointsToParent(w, t.node, via)
    ensures var w1 := Save(env, w, t, parent).world;
      w.sent <= w1.sent && Faithful(t, via, above, NewSent(w, w1), w1)
    decreases t, 1
  {
    var n := t.node;
    SaveFramed(env, w, t, parent);
    var scope := ScopeOf(w, n, parent);
    if scope.None? {
      assert NewSent(w, w) == [];
      FaithfulWhenSilent(t, via, above, w);
    } else {
      var w1 := Reach(w, n);
      ReachKeeps(w, n, via, above + [n], Selves(t));
      ScopeRecoversLineage(w, n, parent, above);
      if EntityOf(w, n).action == Update && !Pending(w, n) {
        SaveAllIsFaithful(env, w1, n, t.children, scope.value, above + [n]);
        SaveAllFramed(env, w1, n, t.children, scope.value);
        ChildrenAlone(w, w1, SaveAll(env, w1, n, t.children, scope.value).world, t, via, above);
      } else {
        SaveCommandedIsFaithful(env, w1, t, scope.value, via, above, EntityOf(w, n).action == Delete);
      }
    }
  }

  lemma {:induction false} SaveCommandedIsFaithful(
    env: Environment, w: World, t: Tree, scope: TraceScope.Scope, via: Option<Via>, above: seq<Node>, deleted: bool)
    requires ReturnsReservedId(env) && IdsConsistent(w, Selves(t)) && Proper(t)
    requires TraceScope.Recovered(scope) == Lineage(w, above + [t.node])
    requires PointsToParent(w, t.node, via)
    ensures var w1 := SaveCommanded(env, w, t, scope, deleted).world;
      w.sent <= w1.sent && Faithful(t, via, above, NewSent(w, w1), w1)
    decreases t, 0
  {
    var n, path := t.node, above + [t.node];
    var own := SaveOwn(env, w, t, scope);
    OwnPart(env, w, t, scope, via, above);
    OwnAlone(w, own, t, via, above);
    if !own.raised && !deleted {
      SaveAllIsFaithful(env, own.world, n, t.children, scope, path);
      SaveAllFramed(env, own.world, n, t.children, scope);
      var c := SaveAll(env, own.world, n, t.children, scope);
      OwnThenChildren(w, own.world, c.world, t, via, above);
      RegisteredIsFaithful(t, via, above, w, c.world, KeyOf(own.world, n));
    } else {
      RegisteredIsFaithful(t, via, above, w, own.world, KeyOf(own.world, n));
    }
  }

  lemma {:induction false} ReachKeeps(w: World, n: Node, via: Option<Via>, path: seq<Node>, ids: set<NodeId>)
    requires path != [] && PointsToParent(w, n, via) && IdsConsistent(w, ids)
    ensures var w1 := Reach(w, n);
      && w1.sent == w.sent
      && Lineage(w1, path) == Lineage(w, path)
      && PointsToParent(w1, n, via) && IdsConsistent(w1, ids)
  {
    assert forall id :: EntityAt(Reach(w, n), id) == EntityAt(w, id);
    LineageDependsOnKeys(w, Reach(w, n), path);
  }

  /** The part of the children, when the entity itself sends nothing. */
  lemma {:induction false} ChildrenAlone(w: World, w1: World, w2: World, t: Tree, via: Option<Via>, above: seq<Node>)
    requires Proper(t) && w1.sent == w.sent && w1.sent <= w2.sent && NewSentAmong(w1, w2, NodesOf(t.children))
    requires FaithfulAll(t.children, t.node, above + [t.node], NewSent(w1, w2), w2)
    ensures Faithful(t, via, above, NewSent(w, w2), w2)
  {
    OwnEntries(t, via, above, [], NewSent(w1, w2), w2);
    assert NewSent(w, w2) == [] + NewSent(w1, w2);
  }

  /** An entity's own part, when nothing of its children follows. */
  lemma {:induction false} OwnAlone(w: World, own: Progress, t: Tree, via: Option<Via>, above: seq<Node>)
    requires Proper(t) && w.sent <= own.world.sent && NewSentAmong(w, own.world, {t.node})
    requires FaithfulNode(t.node, NewSent(w, own.world), via, above + [t.node], own.world)
    ensures Faithful(t, via, above, NewSent(w, own.world), own.world)
  {
    FaithfulAllWhenSilent(t.children, t.node, above + [t.node], own.world);
    OwnEntries(t, via, above, NewSent(w, own.world), [], own.world);
    assert NewSent(w, own.world) + [] == NewSent(w, own.world);
  }

  lemma {:induction false} OwnThenChildren(w: World, own: World, w2: World, t: Tree, via: Option<Via>, above: seq<Node>)
    requires Proper(t) && w.sent <= own.sent && NewSentAmong(w, own, {t.node})
    requires FaithfulNode(t.node, NewSent(w, own), via, above + [t.node], own)
    requires Framed(own, w2, SelvesOf(t.children)) && NewSentAmong(own, w2, NodesOf(t.children))
    requires FaithfulAll(t.children, t.node, above + [t.node], NewSent(own, w2), w2)
    ensures Faithful(t, via, above, NewSent(w, w2), w2)
  {
    FaithfulNodeLater(t.node, via, above + [t.node], NewSent(w, own), own, w2, SelvesOf(t.children));
    OwnEntries(t, via, above, NewSent(w, own), NewSent(own, w2), w2);
    NewSentJoins(w, own, w2);
  }

  lemma {:induction false} RegisteredIsFaithful(t: Tree, via: Option<Via>, above: seq<Node>, w: World, w1: World,
      key: EntityKey)
    requires w.sent <= w1.sent && Faithful(t, via, above, NewSent(w, w1), w1)
    ensures Faithful(t, via, above, NewSent(w, w1), RegisterCommit(w1, t.node, key))
  {
    FaithfulSameState(t, via, above, NewSent(w, w1), w1, RegisterCommit(w1, t.node, key));
  }

  lemma {:induction false} FaithfulSameState(t: Tree, via: Option<Via>, above: seq<Node>, sent: seq<Sent>, w: World,
      w1: World)
    requires Faithful(t, via, above, sent, w) && w1.entities == w.entities
    requires w.visits <= w1.visits && w.sent <= w1.sent && w.commits <= w1.commits
    ensures Faithful(t, via, above, sent, w1)
  {
    assert forall id :: EntityAt(w1, id) == EntityAt(w, id);
    FaithfulLater(t, via, above, sent, w, w1, {});
  }

  lemma {:induction false} OwnPart(env: Environment, w: World, t: Tree, scope: TraceScope.Scope, via: Option<Via>,
      above: seq<Node>)
    requires ReturnsReservedId(env) && IdsConsistent(w, Selves(t))
    requires TraceScope.Recovered(scope) == Lineage(w, above + [t.node]) && PointsToParent(w, t.node, via)
    ensures var own := SaveOwn(env, w, t, scope).world;
      && w.sent <= own.sent && NewSentAmong(w, own, {t.node})
      && FaithfulNode(t.node, NewSent(w, own), via, above + [t.node], own)
      && IdsConsistent(own, SelvesOf(t.children)) && Lineage(own, above + [t.node]) == Lineage(w, above + [t.node])
  {
    var own := SaveOwn(env, w, t, scope);
    SaveOwnFramed(env, w, t, scope);
    OwnIsFaithful(w, own, t, scope, via, above + [t.node]);
    FramedKeepsIds(w, own.world, {t.node.self}, SelvesOf(t.children));
    LineageDependsOnKeys(w, own.world, above + [t.node]);
  }

  /** The entity's own command is faithful. */
  lemma {:induction false} OwnIsFaithful(w: World, own: Progress, t: Tree, scope: TraceScope.Scope, via: Option<Via>,
      path: seq<Node>)
    requires path != [] && Framed(w, own.world, {t.node.self}) && TraceScope.Recovered(scope) == Lineage(w, path)
    requires PointsToParent(w, t.node, via)
    requires forall i :: |w.sent| <= i < |own.world.sent| ==>
      && own.world.sent[i].node == t.node
      && (forall member :: SentReference(own.world.sent[i], member) == Reference(w, t.node, member))
      && (own.world.sent[i].specific == [] ==> own.world.sent[i].lineage == TraceScope.Recovered(scope))
      && (own.world.sent[i].reply.Persisted? ==> EntityOf(own.world, t.node).action != Create)
      && (own.world.sent[i].reply.Persisted? && own.world.sent[i].reply.version.Some? ==>
            EntityOf(own.world, t.node).version == own.world.sent[i].reply.version)
    ensures FaithfulNode(t.node, NewSent(w, own.world), via, path, own.world)
  {
    LineageDependsOnKeys(w, own.world, path);
    var sent := NewSent(w, own.world);
    forall i | 0 <= i < |sent| && sent[i].node == t.node
      ensures FaithfulCommand(sent[i], via, path, own.world)
    {
      assert sent[i] == own.world.sent[|w.sent| + i];
    }
  }

  /** An entity's own entries and those of its children together. */
  lemma {:induction false} OwnEntries(t: Tree, via: Option<Via>, above: seq<Node>, own: seq<Sent>, below: seq<Sent>,
      w: World)
    requires Proper(t)
    requires forall i :: 0 <= i < |own| ==> own[i].node == t.node
    requires forall i :: 0 <= i < |below| ==> below[i].node in NodesOf(t.children)
    requires own == [] || FaithfulNode(t.node, own, via, above + [t.node], w)
    requires FaithfulAll(t.children, t.node, above + [t.node], below, w)
    ensures Faithful(t, via, above, own + below, w)
  {
    var sent := own + below;
    forall i | 0 <= i < |below|
      ensures below[i].node != t.node
    {
      NodesOfHaveSelves(t.children, below[i].node);
    }
    forall i | |own| <= i < |sent|
      ensures sent[i].node != t.node
    {
      assert sent[i] == below[i - |own|];
    }
    assert forall i :: 0 <= i < |own| ==> sent[i] == own[i];
    assert FaithfulNode(t.node, sent, via, above + [t.node], w);
    forall s: Sent | s.node in NodesOf(t.children) && s in sent
      ensures s in below
    {
      NodesOfHaveSelves(t.children, s.node);
      if s in own {
        assert false;
      }
    }
    FaithfulAllEntries(t.children, t.node, above + [t.node], below, sent, w);
  }

  lemma {:induction false} SaveAllIsFaithful(
    env: Environment, w: World, parent: Node, f: Forest, scope: TraceScope.Scope, above: seq<Node>)
    requires ReturnsReservedId(env) && IdsConsistent(w, SelvesOf(f)) && ProperAll(f) && parent.self !in SelvesOf(f)
    requires above != [] && TraceScope.Recovered(scope) == Lineage(w, above)
    ensures var w1 := SaveAll(env, w, parent, f, scope).world;
      w.sent <= w1.sent && FaithfulAll(f, parent, above, NewSent(w, w1), w1)
    decreases f
  {
    SaveAllFramed(env, w, parent, f, scope);
    if f.Child? {
      var via := Some(Via(parent, f.member));
      var a := Attach(w, f.child, EntityOf(w, parent).root);
      if a.raised {
        AttachChangesRoots(w, f.child, EntityOf(w, parent).root);
        assert NewSent(w, a.world) == [];
        FaithfulAllWhenSilent(f, parent, above, a.world);
      } else {
        var linked := LinkIfNeeded(a.world, f.child.node, f.member, f.column, parent);
        AttachedAndLinked(w, f, parent, above);
        SaveIsFaithful(env, linked, f.child, Some(scope), via, above);
        SaveFramed(env, linked, f.child, Some(scope));
        var s := Save(env, linked, f.child, Some(scope));
        if s.raised {
          FirstAlone(w, linked, s.world, f, parent, above);
        } else {
          FramedKeepsIds(linked, s.world, Selves(f.child), SelvesOf(f));
          LineageDependsOnKeys(linked, s.world, above);
          SaveAllIsFaithful(env, s.world, parent, f.rest, scope, above);
          SaveAllFramed(env, s.world, parent, f.rest, scope);
          FirstThenRest(w, linked, s.world, SaveAll(env, s.world, parent, f.rest, scope).world, f, parent, above);
        }
      }
    }
  }

  /** After attaching and linking, the child points at its parent, and nothing else that matters here changed. */
  lemma {:induction false} AttachedAndLinked(w: World, f: Forest, parent: Node, above: seq<Node>)
    requires f.Child? && IdsConsistent(w, SelvesOf(f)) && parent.self !in SelvesOf(f) && above != []
    ensures var linked := LinkIfNeeded(Attach(w, f.child, EntityOf(w, parent).root).world, f.child.node, f.member, f.column, parent);
      && linked.sent == w.sent && IdsConsistent(linked, SelvesOf(f)) && Lineage(linked, above) == Lineage(w, above)
      && PointsToParent(linked, f.child.node, Some(Via(parent, f.member)))
  {
    var a := Attach(w, f.child, EntityOf(w, parent).root).world;
    var linked := LinkIfNeeded(a, f.child.node, f.member, f.column, parent);
    AttachChangesRoots(w, f.child, EntityOf(w, parent).root);
    OnlyRootsFramed(w, a);
    LinkFramed(a, f.child.node, f.member, f.column, parent);
    assert f.child.node.self in Selves(f.child);
    FramedKeepsIds(a, linked, {f.child.node.self}, SelvesOf(f));
    LineageDependsOnKeys(w, linked, above);
  }

  lemma {:induction false} FirstAlone(w: World, linked: World, w1: World, f: Forest, parent: Node, above: seq<Node>)
    requires f.Child? && ProperAll(f) && linked.sent == w.sent && linked.sent <= w1.sent
    requires NewSentAmong(linked, w1, Nodes(f.child))
    requires Faithful(f.child, Some(Via(parent, f.member)), above, NewSent(linked, w1), w1)
    ensures FaithfulAll(f, parent, above, NewSent(w, w1), w1)
  {
    FaithfulAllWhenSilent(f.rest, parent, above, w1);
    Together(f, parent, above, NewSent(w, w1), [], w1);
    assert NewSent(w, w1) + [] == NewSent(w, w1);
  }

  lemma {:induction false} FirstThenRest(w: World, linked: World, w1: World, w2: World, f: Forest, parent: Node,
      above: seq<Node>)
    requires f.Child? && ProperAll(f) && linked.sent == w.sent && linked.sent <= w1.sent
    requires NewSentAmong(linked, w1, Nodes(f.child))
    requires Faithful(f.child, Some(Via(parent, f.member)), above, NewSent(linked, w1), w1)
    requires Framed(w1, w2, SelvesOf(f.rest)) && NewSentAmong(w1, w2, NodesOf(f.rest))
    requires FaithfulAll(f.rest, parent, above, NewSent(w1, w2), w2) && parent.self !in SelvesOf(f.rest)
    ensures FaithfulAll(f, parent, above, NewSent(w, w2), w2)
  {
    FaithfulLater(f.child, Some(Via(parent, f.member)), above, NewSent(w, w1), w1, w2, SelvesOf(f.rest));
    Together(f, parent, above, NewSent(w, w1), NewSent(w1, w2), w2);
    NewSentJoins(w, w1, w2);
  }

  /** The entries of a child and of its later siblings together. */
  lemma {:induction false} Together(f: Forest, parent: Node, above: seq<Node>, first: seq<Sent>, second: seq<Sent>,
      w: World)
    requires f.Child? && ProperAll(f)
    requires forall i :: 0 <= i < |first| ==> first[i].node in Nodes(f.child)
    requires forall i :: 0 <= i < |second| ==> second[i].node in NodesOf(f.rest)
    requires Faithful(f.child, Some(Via(parent, f.member)), above, first, w)
    requires FaithfulAll(f.rest, parent, above, second, w)
    ensures FaithfulAll(f, parent, above, first + second, w)
  {
    forall n | n in Nodes(f.child) && n in NodesOf(f.rest)
      ensures false
    {
      NodesHaveSelves(f.child, n);
      NodesOfHaveSelves(f.rest, n);
    }
    FaithfulEntries(f.child, Some(Via(parent, f.member)), above, first, first + second, w);
    FaithfulAllEntries(f.rest, parent, above, second, first + second, w);
  }

  // ----- reading a faithful log along paths and edges

  lemma {:induction false} FaithfulAlongPath(t: Tree, via: Option<Via>, above: seq<Node>, sent: seq<Sent>, w: World,
      path: seq<Node>, i: nat)
    requires Faithful(t, via, above, sent, w) && IsPath(t, path)
    requires i < |sent| && sent[i].node == path[|path| - 1] && sent[i].specific == []
    ensures sent[i].lineage == Lineage(w, above + path)
    decreases t
  {
    if |path| == 1 {
      assert path == [t.node];
      assert FaithfulCommand(sent[i], via, above + [t.node], w);
    } else {
      FaithfulAllAlongPath(t.children, t.node, above + [t.node], sent, w, path[1..], i);
      assert above + [t.node] + path[1..] == above + path;
    }
  }

  lemma {:induction false} FaithfulAllAlongPath(f: Forest, parent: Node, above: seq<Node>, sent: seq<Sent>,
      w: World, path: seq<Node>, i: nat)
    requires FaithfulAll(f, parent, above, sent, w) && IsPathIn(f, path) && path != []
    requires i < |sent| && sent[i].node == path[|path| - 1] && sent[i].specific == []
    ensures sent[i].lineage == Lineage(w, above + path)
    decreases f
  {
    if IsPath(f.child, path) {
      FaithfulAlongPath(f.child, Some(Via(parent, f.member)), above, sent, w, path, i);
    } else {
      FaithfulAllAlongPath(f.rest, parent, above, sent, w, path, i);
    }
  }

  lemma {:induction false} FaithfulAtEdge(t: Tree, via: Option<Via>, above: seq<Node>, sent: seq<Sent>, w: World,
      parent: Node, member: string, child: Node, i: nat)
    requires Faithful(t, via, above, sent, w) && IsEdge(t, parent, member, child)
    requires i < |sent| && sent[i].node == child
    ensures SentReference(sent[i], member) == IdValue(EntityOf(w, parent).id)
    decreases t
  {
    FaithfulAllAtEdge(t.children, t.node, above + [t.node], sent, w, parent, member, child, i);
  }

  lemma {:induction false} FaithfulAllAtEdge(f: Forest, owner: Node, above: seq<Node>, sent: seq<Sent>, w: World,
      parent: Node, member: string, child: Node, i: nat)
    requires FaithfulAll(f, owner, above, sent, w) && IsEdgeIn(f, owner, parent, member, child)
    requires i < |sent| && sent[i].node == child
    ensures SentReference(sent[i], member) == IdValue(EntityOf(w, parent).id)
    decreases f
  {
    if owner == parent && f.member == member && f.child.node == child {
      assert FaithfulCommand(sent[i], Some(Via(owner, f.member)), above + [f.child.node], w);
    } else if IsEdge(f.child, parent, member, child) {
      FaithfulAtEdge(f.child, Some(Via(owner, f.member)), above, sent, w, parent, member, child, i);
    } else {
      FaithfulAllAtEdge(f.rest, owner, above, sent, w, parent, member, child, i);
    }
  }

  lemma {:induction false} FaithfulVersions(t: Tree, via: Option<Via>, above: seq<Node>, sent: seq<Sent>, w: World,
      i: nat)
    requires Faithful(t, via, above, sent, w) && i < |sent| && sent[i].node in Nodes(t)
    requires sent[i].reply.Persisted?
    ensures EntityOf(w, sent[i].node).action != Create
    ensures sent[i].reply.version.Some? ==> EntityOf(w, sent[i].node).version == sent[i].reply.version
    decreases t
  {
    if sent[i].node == t.node {
      assert FaithfulCommand(sent[i], via, above + [t.node], w);
    } else {
      FaithfulAllVersions(t.children, t.node, above + [t.node], sent, w, i);
    }
  }

  lemma {:induction false} FaithfulAllVersions(f: Forest, parent: Node, above: seq<Node>, sent: seq<Sent>, w: World,
      i: nat)
    requires FaithfulAll(f, parent, above, sent, w) && i < |sent| && sent[i].node in NodesOf(f)
    requires sent[i].reply.Persisted?
    ensures EntityOf(w, sent[i].node).action != Create
    ensures sent[i].reply.version.Some? ==> EntityOf(w, sent[i].node).version == sent[i].reply.version
    decreases f
  {
    if sent[i].node in Nodes(f.child) {
      FaithfulVersions(f.child, Some(Via(parent, f.member)), above, sent, w, i);
    } else {
      FaithfulAllVersions(f.rest, parent, above, sent, w, i);
    }
  }
}
