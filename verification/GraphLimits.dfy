/** The order of rollback matters: in the order of registration it leaves reserved ids behind. */
module GraphLimits {
  import opened Outcomes
  import opened GraphModel
  import opened GraphRollback
  import opened GraphSafety
  import opened GraphTrace
  import opened GraphEarly
  import opened GraphTheorems
  import TraceScope

  // ----- first-in-first-out rollback

  function RunInOrder(step: (World, UndoAction) -> World, w: World, actions: seq<UndoAction>): World {
    if actions == [] then w else step(RunInOrder(step, w, actions[..|actions| - 1]), actions[|actions| - 1])
  }

  /** All undo actions run in the order they were registered. */
  function UndoneInOrder(w: World): World {
    RunInOrder((v: World, a: UndoAction) => Undo(v, a).world, w, w.undo)
  }

  /** The id an undo action leaves. */
  function IdAfter(a: UndoAction): Option<int> {
    if a.UndoReservation? then None else a.before.id
  }

  /** A step sets the id of its own entity and leaves the others alone. */
  ghost predicate SetsOwnId(step: (World, UndoAction) -> World, n: Node) {
    forall v, a :: EntityOf(step(v, a), n).id == if a.node.self == n.self then IdAfter(a) else EntityOf(v, n).id
  }

  lemma {:induction false} UndoSetsOwnId(n: Node)
    ensures SetsOwnId((v: World, a: UndoAction) => Undo(v, a).world, n)
  {
  }

  /** The last action about an entity decides its id. */
  lemma {:induction false} LastActionDecides(step: (World, UndoAction) -> World, w: World, actions: seq<UndoAction>,
      n: Node)
    requires SetsOwnId(step, n)
    ensures var own := ActionsOf(actions, n.self);
      EntityOf(RunInOrder(step, w, actions), n).id == if own == [] then EntityOf(w, n).id else IdAfter(own[|own| - 1])
  {
    if actions != [] {
      LastActionDecides(step, w, actions[..|actions| - 1], n);
    }
  }

  /** The root of a saved graph is no longer to be created. */
  lemma {:induction false} SavedRootIsAdopted(env: Environment, w: World, t: Tree)
    requires Starting(env, w, t) && IdLess(EntityOf(w, t.node)) && !Work(env, w, t).raised
    ensures EntityOf(Work(env, w, t).world, t.node).action != Create
  {
    StartingIsConsistent(env, w, t);
    BeforeFirstCommand(env, w, t);
    EarlyPhasesAreSilent(env, w, t);
    var n, p := t.node, Preflight(env, Reserve(env, w, t).world, t).world;
    assert EntityAt(p, n.self).action == EntityAt(w, n.self).action;
    assert IdsConsistent(p, Selves(t)) && Proper(t);
    SavedCreateIsAdopted(env, p, t, ScopeOf(p, n, None).value);
  }

  lemma {:induction false} SavedCreateIsAdopted(env: Environment, p: World, t: Tree, scope: TraceScope.Scope)
    requires ReturnsReservedId(env) && Proper(t) && IdsConsistent(p, Selves(t))
    requires EntityOf(p, t.node).action == Create && ScopeOf(p, t.node, None) == Some(scope)
      && !Save(env, p, t, None).raised
    ensures EntityOf(Save(env, p, t, None).world, t.node).action != Create
  {
    var n, w1 := t.node, Reach(p, t.node);
    assert forall id :: EntityAt(w1, id) == EntityAt(p, id);
    SaveOwnFramed(env, w1, t, scope);
    var own := SaveOwn(env, w1, t, scope);
    FramedKeepsIds(w1, own.world, {n.self}, SelvesOf(t.children));
    SaveAllFramed(env, own.world, n, t.children, scope);
    var c := SaveAll(env, own.world, n, t.children, scope).world;
    assert SameButRoot(EntityAt(c, n.self), EntityAt(own.world, n.self));
  }

  /**
    Rolling a finished save back in registration order leaves the root's reserved id behind, on every tree
    whose root was new; last-in-first-out takes it away again.
   */
  lemma {:induction false} FirstInFirstOutLeavesReservedId(env: Environment, w: World, t: Tree)
    requires Starting(env, w, t) && IdLess(EntityOf(w, t.node)) && !Work(env, w, t).raised
    ensures var saved := Work(env, w, t).world;
      && EntityOf(saved, t.node).id.Some?
      && EntityOf(UndoneInOrder(saved), t.node).id == EntityOf(saved, t.node).id
      && EntityOf(RolledBack(saved).0, t.node).id == None
  {
    var n, saved := t.node, Work(env, w, t).world;
    RollbackRestores(env, w, t);
    assert IsBack(t, w, RolledBack(saved).0, n);
    StartingIsConsistent(env, w, t);
    StaysIdentified(env, w, t, n);
    SavedRootIsAdopted(env, w, t);
    WorkKeepsInvariant(env, w, t);
    assert EntityInvariant(env, w, saved, n);
    InOrderKeepsId(env, w, saved, n);
  }

  /** The last action of an entity that was new and is adopted undoes the save, and that keeps the id. */
  lemma {:induction false} InOrderKeepsId(env: Environment, start: World, saved: World, n: Node)
    requires EntityInvariant(env, start, saved, n)
    requires EntityOf(start, n).action == Create && EntityOf(saved, n).action != Create
    ensures EntityOf(UndoneInOrder(saved), n).id == EntityOf(saved, n).id
  {
    assert ActionsOf(saved.undo, n.self) != [];
    UndoSetsOwnId(n);
    LastActionDecides((v: World, a: UndoAction) => Undo(v, a).world, saved, saved.undo, n);
  }
}
