/** The phases of a save before its first command: they log nothing, and leave ids and actions as they should be. */
module GraphEarly {
  import opened Outcomes
  import opened LedgerModel
  import opened GraphModel
  import opened GraphInduction
  import opened GraphRollback
  import opened GraphTrace
  import opened GraphOrder

  /**
    A tree without shared entities, whose entities with an id are filed under it, before anything was logged; and a
    provider that answers with the id it was sent.
   */
  ghost predicate Consistent(env: Environment, w: World, t: Tree) {
    ReturnsReservedId(env) && Proper(t) && IdsConsistent(w, Selves(t)) && w.visits == [] && w.sent == [] && w.commits == []
  }

  /** Logs and actions as they were; reservation and preflight change neither. */
  ghost predicate NotYetSaving(start: World, w: World) {
    && w.visits == start.visits && w.sent == start.sent && w.commits == start.commits
    && forall id :: EntityAt(w, id).action == EntityAt(start, id).action
  }

  lemma {:induction false} ReserveIsSilent(env: Environment, start: World, w: World, n: Node, root: RootId)
    requires NotYetSaving(start, w)
    ensures NotYetSaving(start, AttachOne(w, n, root).world)
    ensures NotYetSaving(start, ReserveId(env, w, n).world)
  {
    AttachIsSilent(w, n, root);
    ReserveIdIsSilent(env, w, n);
  }

  lemma {:induction false} AttachIsSilent(w: World, n: Node, root: RootId)
    ensures NotYetSaving(w, AttachOne(w, n, root).world)
  {
  }

  lemma {:induction false} ReserveIdIsSilent(env: Environment, w: World, n: Node)
    ensures NotYetSaving(w, ReserveId(env, w, n).world)
  {
  }

  lemma {:induction false} PreflightIsSilent(start: World, w: World, n: Node, values: Fields,
      member: string,
      column: string, parent: Node)
    requires NotYetSaving(start, w)
    ensures NotYetSaving(start, CarryBack(Tick(w), n, values))
    ensures NotYetSaving(start, Link(w, n, member, column, parent))
  {
  }

  lemma {:induction false} SilenceIsKept(env: Environment, nodes: set<Node>, edges: set<Edge>, start: World)
    ensures KeptByAttach(nodes, u => NotYetSaving(start, u)) && KeptByReserve(env, nodes, u => NotYetSaving(start, u))
    ensures KeptByCarryBack(nodes, u => NotYetSaving(start, u)) && KeptByLink(nodes, edges, u => NotYetSaving(start, u))
  {
    forall w, n, root | NotYetSaving(start, w) && n in nodes
      ensures NotYetSaving(start, AttachOne(w, n, root).world)
    {
      ReserveIsSilent(env, start, w, n, root);
    }
    forall w, n | NotYetSaving(start, w) && n in nodes
      ensures NotYetSaving(start, ReserveId(env, w, n).world)
    {
      ReserveIsSilent(env, start, w, n, 0);
    }
    forall w, n, values | NotYetSaving(start, w) && n in nodes
      ensures NotYetSaving(start, CarryBack(Tick(w), n, values))
    {
      PreflightIsSilent(start, w, n, values, "", "", n);
    }
    forall w, child, member, column, parent | NotYetSaving(start, w) && child in nodes && parent in nodes
      ensures NotYetSaving(start, Link(w, child, member, column, parent))
    {
      PreflightIsSilent(start, w, child, map[], member, column, parent);
    }
  }

  lemma {:induction false} EarlyPhasesAreSilent(env: Environment, w: World, t: Tree)
    ensures NotYetSaving(w, Reserve(env, w, t).world)
    ensures NotYetSaving(w, Preflight(env, Reserve(env, w, t).world, t).world)
  {
    var inv := (u: World) => NotYetSaving(w, u);
    SilenceIsKept(env, Nodes(t), Edges(t), w);
    ReserveKeeps(env, Nodes(t), inv, w, t);
    PreflightKeeps(env, Nodes(t), Edges(t), inv, Reserve(env, w, t).world, t);
  }

  lemma {:induction false} EarlyStepsKeepIds(env: Environment, nodes: set<Node>, edges: set<Edge>, selves: set<NodeId>)
    ensures KeptByAttach(nodes, u => IdsConsistent(u, selves))
      && KeptByReserve(env, nodes, u => IdsConsistent(u, selves))
    ensures KeptByCarryBack(nodes, u => IdsConsistent(u, selves))
      && KeptByLink(nodes, edges, u => IdsConsistent(u, selves))
  {
    forall w, n, root | IdsConsistent(w, selves) && n in nodes
      ensures IdsConsistent(AttachOne(w, n, root).world, selves)
    {
      AttachOneIs(w, n, root);
    }
    forall w, n, values | IdsConsistent(w, selves) && n in nodes
      ensures IdsConsistent(CarryBack(Tick(w), n, values), selves)
    {
      assert CarryBack(Tick(w), n, values).entities == w.entities;
    }
  }

  lemma {:induction false} EarlyPhasesKeepIds(env: Environment, w: World, t: Tree)
    requires IdsConsistent(w, Selves(t))
    ensures IdsConsistent(Reserve(env, w, t).world, Selves(t))
    ensures IdsConsistent(Preflight(env, Reserve(env, w, t).world, t).world, Selves(t))
  {
    var inv := (u: World) => IdsConsistent(u, Selves(t));
    EarlyStepsKeepIds(env, Nodes(t), Edges(t), Selves(t));
    ReserveKeeps(env, Nodes(t), inv, w, t);
    PreflightKeeps(env, Nodes(t), Edges(t), inv, Reserve(env, w, t).world, t);
  }

  /**
    Where the commands start: ids are still consistent, nothing is logged, and the pre-order is still that of the
    start.
   */
  lemma {:induction false} BeforeFirstCommand(env: Environment, w: World, t: Tree)
    requires Consistent(env, w, t) && !Reserve(env, w, t).raised && !Preflight(env, Reserve(env, w, t).world, t).raised
    ensures var p := Preflight(env, Reserve(env, w, t).world, t).world;
      && Work(env, w, t) == Save(env, p, t, None)
      && p.visits == [] && p.sent == [] && p.commits == []
      && IdsConsistent(p, Selves(t))
      && PreOrder(t, p) == PreOrder(t, w)
  {
    EarlyPhasesAreSilent(env, w, t);
    EarlyPhasesKeepIds(env, w, t);
    PreOrderDependsOnActions(t, w, Preflight(env, Reserve(env, w, t).world, t).world);
  }
}
