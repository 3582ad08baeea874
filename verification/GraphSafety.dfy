/** The safety of a whole save: rollback from any stopping point, retries, and the commit. */
module GraphSafety {
  import opened Outcomes
  import opened GraphModel
  import opened GraphInduction
  import opened GraphRollback
  import opened GraphRetained
  import opened GraphVersions

  // ----- reservation gives every new entity an id

  ghost predicate NoneIdLess(nodes: set<Node>, w: World) {
    forall n :: n in nodes ==> !IdLess(EntityOf(w, n))
  }

  lemma {:induction false} StaysAssigned(env: Environment, nodes: set<Node>, n: Node)
    ensures KeptByAttach(nodes, u => !IdLess(EntityOf(u, n)))
    ensures KeptByReserve(env, nodes, u => !IdLess(EntityOf(u, n)))
  {
    forall w, m, root | !IdLess(EntityOf(w, n)) && m in nodes
      ensures !IdLess(EntityOf(AttachOne(w, m, root).world, n))
    {
      AttachChanges(w, m, root);
    }
    StaysAssignedWhenReserving(env, nodes, n);
  }

  lemma {:induction false} StaysAssignedWhenReserving(env: Environment, nodes: set<Node>, n: Node)
    ensures KeptByReserve(env, nodes, u => !IdLess(EntityOf(u, n)))
  {
  }

  lemma {:induction false} ReserveAssigns(env: Environment, w: World, t: Tree)
    ensures !Reserve(env, w, t).raised ==> NoneIdLess(Nodes(t), Reserve(env, w, t).world)
    decreases t
  {
    var e := EntityOf(w, t.node);
    var r := if IdLess(e) then ReserveId(env, w, t.node) else Progress(w, false);
    if !r.raised {
      assert !IdLess(EntityOf(r.world, t.node));
      ReserveAllAssigns(env, r.world, t.node, t.children);
      StaysAssigned(env, NodesOf(t.children), t.node);
      ReserveAllKeeps(env, NodesOf(t.children), u => !IdLess(EntityOf(u, t.node)), r.world, t.node, t.children);
    }
  }

  lemma {:induction false} ReserveAllAssigns(env: Environment, w: World, parent: Node, f: Forest)
    ensures !ReserveAll(env, w, parent, f).raised ==> NoneIdLess(NodesOf(f), ReserveAll(env, w, parent, f).world)
    decreases f
  {
    if f.Child? {
      var r := Attach(w, f.child, EntityOf(w, parent).root);
      if !r.raised {
        var s := Reserve(env, r.world, f.child);
        if !s.raised {
          ReserveAssigns(env, r.world, f.child);
          ReserveAllAssigns(env, s.world, parent, f.rest);
          forall n | n in Nodes(f.child)
            ensures !IdLess(EntityOf(ReserveAll(env, s.world, parent, f.rest).world, n))
          {
            StaysAssigned(env, NodesOf(f.rest), n);
            ReserveAllKeeps(env, NodesOf(f.rest), u => !IdLess(EntityOf(u, n)), s.world, parent, f.rest);
          }
        }
      }
    }
  }

  // ----- the invariant holds wherever the work stops

  /** Keys stay what they were when reservation ended, and commit actions carry them. */
  ghost predicate KeysSettled(nodes: set<Node>, base: World, w: World) {
    && (forall n :: n in nodes ==> KeyOf(w, n) == KeyOf(base, n))
    && (forall i :: 0 <= i < |w.commits| ==> w.commits[i].node in nodes && w.commits[i].key == KeyOf(base, w.commits[i].node))
  }

  ghost predicate Settled(env: Environment, nodes: set<Node>, start: World, base: World, w: World) {
    Invariant(env, nodes, start, w) && NoneIdLess(nodes, w) && KeysSettled(nodes, base, w)
  }

  lemma {:induction false} AttachKeepsSettled(env: Environment, nodes: set<Node>, start: World, base: World)
    requires WellFormed(start, nodes)
    ensures KeptByAttach(nodes, u => Settled(env, nodes, start, base, u))
  {
    forall w, n, root | Settled(env, nodes, start, base, w) && n in nodes
      ensures Settled(env, nodes, start, base, AttachOne(w, n, root).world)
    {
      AttachKeepsInvariant(env, nodes, start, w, n, root);
      AttachChanges(w, n, root);
      assert !IdLess(EntityOf(w, n));
      EntityChangeKeepsSettled(nodes, base, w, AttachOne(w, n, root).world, n);
    }
  }

  lemma {:induction false} CarryBackKeepsSettled(env: Environment, nodes: set<Node>, start: World, base: World)
    ensures KeptByCarryBack(nodes, u => Settled(env, nodes, start, base, u))
  {
    forall w, n, values | Settled(env, nodes, start, base, w) && n in nodes
      ensures Settled(env, nodes, start, base, CarryBack(Tick(w), n, values))
    {
      CarryBackKeepsInvariant(env, nodes, start, w, n, values);
      SameEntitiesKeepSettled(nodes, base, w, CarryBack(Tick(w), n, values));
    }
  }

  lemma {:induction false} SameEntitiesKeepSettled(nodes: set<Node>, base: World, w: World, w1: World)
    requires NoneIdLess(nodes, w) && KeysSettled(nodes, base, w)
    requires w1.entities == w.entities && w1.commits == w.commits
    ensures NoneIdLess(nodes, w1) && KeysSettled(nodes, base, w1)
  {
    assert forall m: Node :: EntityOf(w1, m) == EntityOf(w, m);
  }

  lemma {:induction false} EntityChangeKeepsSettled(nodes: set<Node>, base: World, w: World, w1: World, n: Node)
    requires NoneIdLess(nodes, w) && KeysSettled(nodes, base, w) && w1.commits == w.commits
    requires forall m: Node :: m.self != n.self ==> EntityOf(w1, m) == EntityOf(w, m)
    requires forall m :: m in nodes && m.self == n.self ==> m == n
    requires KeyOf(w1, n) == KeyOf(w, n) && !IdLess(EntityOf(w1, n))
    ensures NoneIdLess(nodes, w1) && KeysSettled(nodes, base, w1)
  {
    forall m | m in nodes
      ensures !IdLess(EntityOf(w1, m)) && KeyOf(w1, m) == KeyOf(w, m)
    {
      assert !IdLess(EntityOf(w, m));
    }
  }

  lemma {:induction false} LinkKeepsSettled(env: Environment, nodes: set<Node>, edges: set<Edge>, start: World,
      base: World)
    requires WellFormed(start, nodes)
    ensures KeptByLink(nodes, edges, u => Settled(env, nodes, start, base, u))
  {
    forall w, child, member, column, parent | Settled(env, nodes, start, base, w) && child in nodes && parent in nodes
      ensures Settled(env, nodes, start, base, Link(w, child, member, column, parent))
    {
      LinkKeepsInvariant(env, nodes, start, w, child, member, column, parent);
      LinkChanges(w, child, member, column, parent);
      EntityChangeKeepsSettled(nodes, base, w, Link(w, child, member, column, parent), child);
    }
  }

  lemma {:induction false} LogKeepsSettled(env: Environment, nodes: set<Node>, start: World, base: World)
    ensures KeptByReach(nodes, u => Settled(env, nodes, start, base, u))
    ensures KeptBySend(env, nodes, u => Settled(env, nodes, start, base, u))
  {
    forall w, n | Settled(env, nodes, start, base, w) && n in nodes
      ensures Settled(env, nodes, start, base, Reach(w, n))
    {
      SameStateKeepsInvariant(env, nodes, start, w, Reach(w, n));
      SameEntitiesKeepSettled(nodes, base, w, Reach(w, n));
    }
    forall w, n, scope | Settled(env, nodes, start, base, w) && n in nodes
      ensures Settled(env, nodes, start, base, Send(env, w, n, scope).0.world)
    {
      SendKeepsInvariant(env, nodes, start, w, n, scope);
      SendChanges(env, w, n, scope);
      SameEntitiesKeepSettled(nodes, base, w, Send(env, w, n, scope).0.world);
    }
  }

  lemma {:induction false} AdoptKeepsSettled(env: Environment, nodes: set<Node>, start: World, base: World)
    requires WellFormed(start, nodes) && ReturnsReservedId(env)
    ensures KeptByAdopt(env, nodes, u => Settled(env, nodes, start, base, u))
  {
    forall w, n, reply | Settled(env, nodes, start, base, w) && n in nodes && Answers(env, w, n, reply)
      ensures Settled(env, nodes, start, base, Adopt(w, n, reply).world)
    {
      AdoptKeepsInvariant(env, nodes, start, w, n, reply);
      assert EntityInvariant(env, start, w, n);
      AdoptChanges(env, w, n, reply);
      EntityChangeKeepsSettled(nodes, base, w, Adopt(w, n, reply).world, n);
    }
  }

  lemma {:induction false} CommitEntryKeepsSettled(env: Environment, nodes: set<Node>, start: World, base: World)
    ensures KeptByCommitEntry(nodes, u => Settled(env, nodes, start, base, u))
  {
    forall w, earlier, n | Settled(env, nodes, start, base, w) && Settled(env, nodes, start, base, earlier)
      && n in nodes
      ensures Settled(env, nodes, start, base, RegisterCommit(w, n, KeyOf(earlier, n)))
    {
      var w1 := RegisterCommit(w, n, KeyOf(earlier, n));
      SameStateKeepsInvariant(env, nodes, start, w, w1);
      assert forall m: Node :: EntityOf(w1, m) == EntityOf(w, m);
    }
  }

  /** The phases after reservation keep everything settled. */
  lemma {:induction false} SavePhasesKeepSettled(env: Environment, nodes: set<Node>, edges: set<Edge>, start: World,
      base: World)
    requires WellFormed(start, nodes) && ReturnsReservedId(env)
    ensures KeptBySave(env, nodes, edges, u => Settled(env, nodes, start, base, u))
    ensures KeptByCarryBack(nodes, u => Settled(env, nodes, start, base, u))
  {
    AttachKeepsSettled(env, nodes, start, base);
    CarryBackKeepsSettled(env, nodes, start, base);
    LinkKeepsSettled(env, nodes, edges, start, base);
    LogKeepsSettled(env, nodes, start, base);
    AdoptKeepsSettled(env, nodes, start, base);
    CommitEntryKeepsSettled(env, nodes, start, base);
  }

  /** A graph as its session finds it: well formed, nothing registered, and an environment that keeps its promises. */
  ghost predicate Ready(env: Environment, w: World, t: Tree) {
    && WellFormed(w, Nodes(t)) && Fresh(env, w, Nodes(t)) && ReturnsReservedId(env)
    && w.undo == [] && w.commits == []
  }

  lemma {:induction false} ReserveKeepsInvariantAll(env: Environment, w: World, t: Tree)
    requires Ready(env, w, t)
    ensures Invariant(env, Nodes(t), w, Reserve(env, w, t).world)
  {
    var nodes, inv := Nodes(t), (u: World) => Invariant(env, Nodes(t), w, u);
    InvariantAtStart(env, nodes, w);
    forall u, n, root | inv(u) && n in nodes
      ensures inv(AttachOne(u, n, root).world)
    {
      AttachKeepsInvariant(env, nodes, w, u, n, root);
    }
    forall u, n | inv(u) && n in nodes && EntityOf(u, n).action == Create && EntityOf(u, n).id.None?
      ensures inv(ReserveId(env, u, n).world)
    {
      ReserveKeepsInvariant(env, nodes, w, u, n);
    }
    ReserveKeeps(env, nodes, inv, w, t);
  }

  lemma {:induction false} NoCommitsYet(env: Environment, w: World, t: Tree)
    ensures Reserve(env, w, t).world.commits == w.commits
  {
    ReserveKeeps(env, Nodes(t), (u: World) => u.commits == w.commits, w, t);
  }

  /** Wherever the work stops the invariant holds, and after reservation the keys are settled. */
  lemma {:induction false} WorkKeepsInvariant(env: Environment, w: World, t: Tree)
    requires Ready(env, w, t)
    ensures Invariant(env, Nodes(t), w, Work(env, w, t).world)
    ensures !Work(env, w, t).raised ==> Settled(env, Nodes(t), w, Reserve(env, w, t).world, Work(env, w, t).world)
  {
    var nodes, r := Nodes(t), Reserve(env, w, t);
    ReserveKeepsInvariantAll(env, w, t);
    if !r.raised {
      var inv := (u: World) => Settled(env, Nodes(t), w, r.world, u);
      ReserveAssigns(env, w, t);
      NoCommitsYet(env, w, t);
      assert inv(r.world);
      SavePhasesKeepSettled(env, nodes, Edges(t), w, r.world);
      PreflightKeeps(env, nodes, Edges(t), inv, r.world, t);
      var p := Preflight(env, r.world, t);
      if !p.raised {
        SaveKeeps(env, nodes, Edges(t), inv, p.world, t, None);
      }
    }
  }

  // ----- what the work and its rollback never lose

  ghost predicate Sound(env: Environment, nodes: set<Node>, edges: set<Edge>, start: World, w: World) {
    Invariant(env, nodes, start, w) && Retained(nodes, edges, start, w) && KeepsVersions(nodes, start, w)
  }

  /** The same, after reservation. */
  ghost predicate Steady(
    env: Environment, nodes: set<Node>, edges: set<Edge>, start: World, base: World, w: World)
  {
    Settled(env, nodes, start, base, w) && Retained(nodes, edges, start, w) && KeepsVersions(nodes, start, w)
  }

  lemma {:induction false} ReserveRetainsAll(env: Environment, w: World, t: Tree)
    requires Ready(env, w, t)
    ensures Sound(env, Nodes(t), Edges(t), w, Reserve(env, w, t).world)
  {
    var nodes, edges, inv := Nodes(t), Edges(t), (u: World) => Sound(env, Nodes(t), Edges(t), w, u);
    InvariantAtStart(env, nodes, w);
    RetainedAtStart(nodes, edges, w);
    forall u, n, root | inv(u) && n in nodes
      ensures inv(AttachOne(u, n, root).world)
    {
      AttachKeepsInvariant(env, nodes, w, u, n, root);
      AttachRetains(nodes, edges, w, u, n, root);
      AttachKeepsVersions(nodes, w, u, n, root);
    }
    forall u, n | inv(u) && n in nodes && EntityOf(u, n).action == Create && EntityOf(u, n).id.None?
      ensures inv(ReserveId(env, u, n).world)
    {
      ReserveKeepsInvariant(env, nodes, w, u, n);
      ReserveRetains(env, nodes, edges, w, u, n);
      ReserveKeepsVersions(env, nodes, w, u, n);
    }
    ReserveKeeps(env, nodes, inv, w, t);
  }

  lemma {:induction false} AttachKeepsSteady(
    env: Environment, nodes: set<Node>, edges: set<Edge>, start: World, base: World)
    requires WellFormed(start, nodes)
    ensures KeptByAttach(nodes, u => Steady(env, nodes, edges, start, base, u))
  {
    AttachKeepsSettled(env, nodes, start, base);
    forall w, n, root | Steady(env, nodes, edges, start, base, w) && n in nodes
      ensures Steady(env, nodes, edges, start, base, AttachOne(w, n, root).world)
    {
      AttachRetains(nodes, edges, start, w, n, root);
      AttachKeepsVersions(nodes, start, w, n, root);
    }
  }

  lemma {:induction false} CarryBackKeepsSteady(
    env: Environment, nodes: set<Node>, edges: set<Edge>, start: World, base: World)
    ensures KeptByCarryBack(nodes, u => Steady(env, nodes, edges, start, base, u))
  {
    CarryBackKeepsSettled(env, nodes, start, base);
    forall w, n, values | Steady(env, nodes, edges, start, base, w) && n in nodes
      ensures Steady(env, nodes, edges, start, base, CarryBack(Tick(w), n, values))
    {
      CarryBackRetains(nodes, edges, start, w, n, values);
      CarryBackKeepsVersions(nodes, start, w, n, values);
    }
  }

  lemma {:induction false} LinkKeepsSteady(
    env: Environment, nodes: set<Node>, edges: set<Edge>, start: World, base: World)
    requires WellFormed(start, nodes)
    ensures KeptByLink(nodes, edges, u => Steady(env, nodes, edges, start, base, u))
  {
    LinkKeepsSettled(env, nodes, edges, start, base);
    forall w, child, member, column, parent |
      Steady(env, nodes, edges, start, base, w) && child in nodes && parent in nodes && (child, member) in edges
      ensures Steady(env, nodes, edges, start, base, Link(w, child, member, column, parent))
    {
      LinkRetains(nodes, edges, start, w, child, member, column, parent);
      LinkKeepsVersions(nodes, start, w, child, member, column, parent);
    }
  }

  lemma {:induction false} LogKeepsSteady(
    env: Environment, nodes: set<Node>, edges: set<Edge>, start: World, base: World)
    ensures KeptByReach(nodes, u => Steady(env, nodes, edges, start, base, u))
    ensures KeptBySend(env, nodes, u => Steady(env, nodes, edges, start, base, u))
    ensures KeptByCommitEntry(nodes, u => Steady(env, nodes, edges, start, base, u))
  {
    LogKeepsSettled(env, nodes, start, base);
    CommitEntryKeepsSettled(env, nodes, start, base);
    forall w, n | Steady(env, nodes, edges, start, base, w) && n in nodes
      ensures Steady(env, nodes, edges, start, base, Reach(w, n))
    {
      SameLedgersRetain(nodes, edges, start, w, Reach(w, n));
      SameLedgersKeepVersions(nodes, start, w, Reach(w, n));
    }
    forall w, n, scope | Steady(env, nodes, edges, start, base, w) && n in nodes
      ensures Steady(env, nodes, edges, start, base, Send(env, w, n, scope).0.world)
    {
      SendRetains(env, nodes, edges, start, w, n, scope);
      SendKeepsVersions(env, nodes, start, w, n, scope);
    }
    forall w, earlier, n | Steady(env, nodes, edges, start, base, w)
      && Steady(env, nodes, edges, start, base, earlier) && n in nodes
      ensures Steady(env, nodes, edges, start, base, RegisterCommit(w, n, KeyOf(earlier, n)))
    {
      SameLedgersRetain(nodes, edges, start, w, RegisterCommit(w, n, KeyOf(earlier, n)));
      SameLedgersKeepVersions(nodes, start, w, RegisterCommit(w, n, KeyOf(earlier, n)));
    }
  }

  lemma {:induction false} AdoptKeepsSteady(
    env: Environment, nodes: set<Node>, edges: set<Edge>, start: World, base: World)
    requires WellFormed(start, nodes) && ReturnsReservedId(env)
    ensures KeptByAdopt(env, nodes, u => Steady(env, nodes, edges, start, base, u))
  {
    AdoptKeepsSettled(env, nodes, start, base);
    forall w, n, reply | Steady(env, nodes, edges, start, base, w) && n in nodes && Answers(env, w, n, reply)
      ensures Steady(env, nodes, edges, start, base, Adopt(w, n, reply).world)
    {
      AdoptRetains(env, nodes, edges, start, w, n, reply);
      assert EntityInvariant(env, start, w, n);
      AdoptKeepsVersions(env, nodes, start, w, n, reply);
    }
  }

  /** Wherever the work stops, everything that rollback needs is still there. */
  lemma {:induction false} WorkRetains(env: Environment, w: World, t: Tree)
    requires Ready(env, w, t)
    ensures Retained(Nodes(t), Edges(t), w, Work(env, w, t).world) && KeepsVersions(Nodes(t), w, Work(env, w, t).world)
  {
    var nodes, edges, r := Nodes(t), Edges(t), Reserve(env, w, t);
    ReserveRetainsAll(env, w, t);
    if !r.raised {
      var inv := (u: World) => Steady(env, Nodes(t), Edges(t), w, r.world, u);
      ReserveAssigns(env, w, t);
      NoCommitsYet(env, w, t);
      assert inv(r.world);
      AttachKeepsSteady(env, nodes, edges, w, r.world);
      CarryBackKeepsSteady(env, nodes, edges, w, r.world);
      LinkKeepsSteady(env, nodes, edges, w, r.world);
      PreflightKeeps(env, nodes, edges, inv, r.world, t);
      var p := Preflight(env, r.world, t);
      if !p.raised {
        LogKeepsSteady(env, nodes, edges, w, r.world);
        AdoptKeepsSteady(env, nodes, edges, w, r.world);
        SaveKeeps(env, nodes, edges, inv, p.world, t, None);
      }
    }
  }

  lemma {:induction false} RolledBackRetains(
    env: Environment, nodes: set<Node>, edges: set<Edge>, start: World, w: World)
    requires WellFormed(start, nodes) && Sound(env, nodes, edges, start, w)
    ensures Retained(nodes, edges, start, RolledBack(w).0) && KeepsVersions(nodes, start, RolledBack(w).0)
    decreases |w.undo|
  {
    if w.undo != [] {
      UndoKeepsInvariant(env, nodes, start, w);
      UndoRetains(env, nodes, edges, start, w);
      UndoKeepsVersions(env, nodes, start, w);
      var last := |w.undo| - 1;
      var r := Undo(w.(undo := w.undo[..last]), w.undo[last]);
      assert r.world.(undo := w.undo[..last]) == r.world;
      RolledBackRetains(env, nodes, edges, start, r.world);
    }
  }

  // ----- rollback

  lemma {:induction false} RolledBackKeepsInvariant(env: Environment, nodes: set<Node>, start: World, w: World)
    requires WellFormed(start, nodes) && Invariant(env, nodes, start, w)
    ensures var end := RolledBack(w).0;
      RolledBack(w).1 == 0 && end.undo == [] && Invariant(env, nodes, start, end)
    decreases |w.undo|
  {
    if w.undo != [] {
      UndoKeepsInvariant(env, nodes, start, w);
      var last := |w.undo| - 1;
      var r := Undo(w.(undo := w.undo[..last]), w.undo[last]);
      assert r.world.(undo := w.undo[..last]) == r.world;
      RolledBackKeepsInvariant(env, nodes, start, r.world);
    }
  }

  /**
    An entity is back: id, version, action and ledger key, and every attribute it had loaded but the links to its
    parents. One that was marked or had pending fields on top of its ledger still is pending. One that had no id is
    new again, with exactly the fields it had loaded. A version recorded for its key still is.
   */
  ghost predicate IsBack(t: Tree, start: World, end: World, n: Node) {
    var e, e1 := EntityOf(start, n), EntityOf(end, n);
    && e1.id == e.id && e1.version == e.version && e1.action == e.action
    && KeyOf(end, n) == KeyOf(start, n)
    && e.loaded <= e1.loaded && AttributesBack(e, Links(Edges(t), n), e1.attributes)
    && (OnTop(LedgerOf(start, n), KeyOf(start, n)) ==> OnTop(LedgerOf(end, n), KeyOf(end, n)) && Pending(end, n))
    && (IdLess(e) ==> e1.loaded == e.loaded && KeyOf(end, n) in LedgerOf(end, n).newKeys && Pending(end, n))
    && VersionFollows(start, end, n)
  }

  lemma {:induction false} EmptyUndoMeansBack(env: Environment, t: Tree, start: World, end: World)
    requires WellFormed(start, Nodes(t)) && Invariant(env, Nodes(t), start, end) && end.undo == []
    requires Retained(Nodes(t), Edges(t), start, end) && KeepsVersions(Nodes(t), start, end)
    ensures forall n :: n in Nodes(t) ==> IsBack(t, start, end, n)
  {
    forall n | n in Nodes(t)
      ensures IsBack(t, start, end, n)
    {
      assert EntityInvariant(env, start, end, n);
      assert Retains(Edges(t), start, end, n);
      if OnTop(LedgerOf(end, n), KeyOf(end, n)) {
        OnTopIsPending(LedgerOf(end, n), KeyOf(end, n));
      }
    }
  }

  lemma {:induction false} BackIsWellFormed(env: Environment, t: Tree, start: World, end: World)
    requires WellFormed(start, Nodes(t)) && Invariant(env, Nodes(t), start, end)
    requires forall n :: n in Nodes(t) ==> IsBack(t, start, end, n)
    ensures WellFormed(end, Nodes(t))
  {
    var nodes := Nodes(t);
    forall n, root | n in nodes && IdLess(EntityOf(end, n))
      ensures KeyOf(end, n) !in LedgerAt(end, root).versions
    {
      assert IsBack(t, start, end, n);
      assert Unversioned(env, nodes, start, KeyOf(end, n));
    }
    forall n, m | n in nodes && m in nodes && n != m && IdLess(EntityOf(end, n))
      ensures KeyOf(end, n) != KeyOf(end, m)
    {
      assert IsBack(t, start, end, n) && IsBack(t, start, end, m);
    }
    forall n | n in nodes && EntityOf(end, n).id.Some?
      ensures EntityOf(end, n).ledgerId == EntityOf(end, n).id.value
    {
      assert IsBack(t, start, end, n);
    }
    forall n | n in nodes && IdLess(EntityOf(end, n))
      ensures KeyOf(end, n) in LedgerOf(end, n).newKeys
    {
      assert IsBack(t, start, end, n);
    }
  }

  /**
    Wherever a save of a tree stops, its rollback runs without a failure and brings every entity of the
    tree back, loses no version in any ledger, and leaves the graph fit for another save.
   */
  lemma {:induction false} RollbackRestores(env: Environment, w: World, t: Tree)
    requires Ready(env, w, t)
    ensures var end := RolledBack(Work(env, w, t).world).0;
      && RolledBack(Work(env, w, t).world).1 == 0
      && (forall n :: n in Nodes(t) ==> IsBack(t, w, end, n))
      && VersionsStay(w, end)
      && WellFormed(end, Nodes(t))
  {
    WorkKeepsInvariant(env, w, t);
    WorkRetains(env, w, t);
    RolledBackKeepsInvariant(env, Nodes(t), w, Work(env, w, t).world);
    RolledBackRetains(env, Nodes(t), Edges(t), w, Work(env, w, t).world);
    EmptyUndoMeansBack(env, t, w, RolledBack(Work(env, w, t).world).0);
    BackIsWellFormed(env, t, w, RolledBack(Work(env, w, t).world).0);
  }

  /** The graph after any number of saves that were all rolled back, each in its own environment and session. */
  function AfterFailures(envs: seq<Environment>, w: World, t: Tree): World {
    if envs == [] then w
    else Close(RolledBack(Work(envs[|envs| - 1], AfterFailures(envs[..|envs| - 1], w, t), t).world).0)
  }

  /** Each attempt's environment is fresh for the ledgers it finds. */
  ghost predicate AllReady(envs: seq<Environment>, w: World, t: Tree) {
    forall i :: 0 <= i < |envs| ==> ReadyAt(envs, w, t, i)
  }

  ghost predicate ReadyAt(envs: seq<Environment>, w: World, t: Tree, i: nat)
    requires i < |envs|
  {
    Fresh(envs[i], AfterFailures(envs[..i], w, t), Nodes(t)) && ReturnsReservedId(envs[i])
  }

  lemma {:induction false} RetriesKeepRestoring(envs: seq<Environment>, w: World, t: Tree)
    requires WellFormed(w, Nodes(t)) && w.undo == [] && w.commits == [] && AllReady(envs, w, t)
    ensures var end := AfterFailures(envs, w, t);
      && WellFormed(end, Nodes(t)) && end.undo == [] && end.commits == []
      && VersionsStay(w, end)
      && forall n :: n in Nodes(t) ==> IsBack(t, w, end, n)
  {
    if envs == [] {
      NothingIsBack(w, t);
    } else {
      var front, last := envs[..|envs| - 1], envs[|envs| - 1];
      FrontIsReady(envs, w, t);
      RetriesKeepRestoring(front, w, t);
      var before := AfterFailures(front, w, t);
      OneMoreAttempt(last, before, t);
      BackTwice(t, w, before, AfterFailures(envs, w, t));
    }
  }

  lemma {:induction false} NothingIsBack(w: World, t: Tree)
    requires WellFormed(w, Nodes(t))
    ensures forall n :: n in Nodes(t) ==> IsBack(t, w, w, n)
  {
    forall n | n in Nodes(t)
      ensures IsBack(t, w, w, n)
    {
      if OnTop(LedgerOf(w, n), KeyOf(w, n)) {
        OnTopIsPending(LedgerOf(w, n), KeyOf(w, n));
      }
    }
  }

  lemma {:induction false} BackTwice(t: Tree, w: World, before: World, end: World)
    requires forall n :: n in Nodes(t) ==> IsBack(t, w, before, n) && IsBack(t, before, end, n)
    ensures forall n :: n in Nodes(t) ==> IsBack(t, w, end, n)
  {
    forall n | n in Nodes(t)
      ensures IsBack(t, w, end, n)
    {
      assert IsBack(t, w, before, n) && IsBack(t, before, end, n);
    }
  }

  lemma {:induction false} FrontIsReady(envs: seq<Environment>, w: World, t: Tree)
    requires envs != [] && AllReady(envs, w, t)
    ensures AllReady(envs[..|envs| - 1], w, t)
    ensures Fresh(envs[|envs| - 1], AfterFailures(envs[..|envs| - 1], w, t), Nodes(t))
      && ReturnsReservedId(envs[|envs| - 1])
  {
    var front := envs[..|envs| - 1];
    forall i | 0 <= i < |front|
      ensures ReadyAt(front, w, t, i)
    {
      assert ReadyAt(envs, w, t, i);
      SameAttempt(envs, front, w, t, i);
    }
    assert ReadyAt(envs, w, t, |front|);
  }

  lemma {:induction false} SameAttempt(envs: seq<Environment>, front: seq<Environment>, w: World, t: Tree, i: nat)
    requires i < |front| && front <= envs && ReadyAt(envs, w, t, i)
    ensures ReadyAt(front, w, t, i)
  {
    assert front[..i] == envs[..i] && front[i] == envs[i];
  }

  /** One rolled-back attempt, with its session closed. */
  lemma {:induction false} OneMoreAttempt(env: Environment, w: World, t: Tree)
    requires Ready(env, w, t)
    ensures var end := Close(RolledBack(Work(env, w, t).world).0);
      && WellFormed(end, Nodes(t)) && end.undo == [] && end.commits == []
      && VersionsStay(w, end)
      && forall n :: n in Nodes(t) ==> IsBack(t, w, end, n)
  {
    RollbackRestores(env, w, t);
    CloseKeeps(t, w, RolledBack(Work(env, w, t).world).0);
  }

  lemma {:induction false} CloseKeeps(t: Tree, start: World, end: World)
    requires WellFormed(end, Nodes(t)) && forall n :: n in Nodes(t) ==> IsBack(t, start, end, n)
    ensures WellFormed(Close(end), Nodes(t)) && forall n :: n in Nodes(t) ==> IsBack(t, start, Close(end), n)
  {
    ClosedIsWellFormed(end, Nodes(t));
    forall n | n in Nodes(t)
      ensures IsBack(t, start, Close(end), n)
    {
      assert IsBack(t, start, end, n);
      assert LedgerOf(Close(end), n) == LedgerOf(end, n);
    }
  }

  lemma {:induction false} ClosedIsWellFormed(w: World, nodes: set<Node>)
    requires WellFormed(w, nodes)
    ensures WellFormed(Close(w), nodes)
    ensures forall n: Node :: EntityOf(Close(w), n) == EntityOf(w, n) && (Pending(Close(w), n) <==> Pending(w, n))
  {
    assert forall n: Node :: EntityOf(Close(w), n) == EntityOf(w, n);
    assert forall root :: LedgerAt(Close(w), root) == LedgerAt(w, root);
  }
}
