/** Attaching: what becomes of one entity and of a subtree that is brought into a parent's ledger. */
module GraphAttach {
  import opened LedgerEffects
  import opened GraphModel

  /** Everything but one entity and one ledger is as before. */
  ghost predicate OnlyThese(w: World, w1: World, self: NodeId, root: RootId) {
    && w1 == w.(entities := w1.entities, ledgers := w1.ledgers)
    && (forall id :: id != self ==> EntityAt(w1, id) == EntityAt(w, id))
    && (forall other :: other != root ==> LedgerAt(w1, other) == LedgerAt(w, other))
  }

  /**
    One entity: nothing happens to it in the ledger it points at already, nor if nothing is pending for its key; a
    version clash is refused; otherwise it moves, and what its ledger has for its key is laid over the other one.
   */
  ghost predicate IsAttached(w: World, n: Node, root: RootId, r: Progress) {
    var e, source, key := EntityOf(w, n), LedgerOf(w, n), KeyOf(w, n);
    if e.root == root || !SomethingPending(source, key) then r == Progress(w, false)
    else if VersionsClash(LedgerAt(w, root), OneKey(source, key)) then r == Progress(w, true)
    else
      && !r.raised && OnlyThese(w, r.world, n.self, root) && EntityOf(r.world, n) == e.(root := root)
      && IsOverlay(LedgerAt(w, root), OneKey(source, key), LedgerAt(r.world, root))
  }

  lemma {:induction false} AttachOneAttaches(w: World, n: Node, root: RootId)
    requires LedgerOf(w, n).Valid()
    ensures IsAttached(w, n, root, AttachOne(w, n, root))
  {
    PendingIs(LedgerOf(w, n), KeyOf(w, n));
    MergeEntityIs(LedgerAt(w, root), LedgerOf(w, n), KeyOf(w, n));
  }

  /** Whatever is pending for these entities is in this ledger. */
  ghost predicate Together(w: World, nodes: set<Node>, root: RootId) {
    forall n :: n in nodes ==> EntityOf(w, n).root == root || !Pending(w, n)
  }

  /** Entities only move to this ledger, and only pending ones do; all other ledgers are as they were. */
  ghost predicate OnlyPendingMove(w: World, w1: World, nodes: set<Node>, root: RootId) {
    && (forall other :: other != root ==> LedgerAt(w1, other) == LedgerAt(w, other))
    && (forall id :: EntityAt(w1, id) == EntityAt(w, id) || EntityAt(w1, id) == EntityAt(w, id).(root := root))
    && (forall n :: n in nodes && EntityOf(w1, n) != EntityOf(w, n) ==> Pending(w, n))
  }

  ghost predicate Distinct(nodes: set<Node>) {
    forall n, m :: n in nodes && m in nodes && n.self == m.self ==> n == m
  }

  lemma {:induction false} MoveTwice(w: World, w1: World, w2: World, nodes: set<Node>, root: RootId)
    requires OnlyPendingMove(w, w1, nodes, root) && OnlyPendingMove(w1, w2, nodes, root)
    ensures OnlyPendingMove(w, w2, nodes, root)
  {
    forall n | n in nodes && EntityOf(w2, n) != EntityOf(w, n)
      ensures Pending(w, n)
    {
      if EntityOf(w1, n) == EntityOf(w, n) {
        assert EntityOf(w1, n).root != root;
        assert LedgerOf(w1, n) == LedgerOf(w, n);
      }
    }
  }

  lemma {:induction false} StayTogether(w: World, w1: World, nodes: set<Node>, some: set<Node>, root: RootId)
    requires Together(w, some, root) && OnlyPendingMove(w, w1, nodes, root) && some <= nodes
    ensures Together(w1, some, root)
  {
    forall n | n in some && EntityOf(w1, n).root != root
      ensures !Pending(w1, n)
    {
      assert EntityAt(w1, n.self) == EntityAt(w, n.self);
      assert EntityOf(w1, n) == EntityOf(w, n) && LedgerOf(w1, n) == LedgerOf(w, n);
    }
  }

  lemma {:induction false} OneMoves(w: World, n: Node, nodes: set<Node>, root: RootId)
    requires n in nodes && Distinct(nodes)
    ensures OnlyPendingMove(w, AttachOne(w, n, root).world, nodes, root)
    ensures !AttachOne(w, n, root).raised ==> Together(AttachOne(w, n, root).world, {n}, root)
  {
    var w1 := AttachOne(w, n, root).world;
    forall id
      ensures EntityAt(w1, id) == EntityAt(w, id) || EntityAt(w1, id) == EntityAt(w, id).(root := root)
      ensures id != n.self ==> EntityAt(w1, id) == EntityAt(w, id)
    {
    }
    forall m | m in nodes && EntityOf(w1, m) != EntityOf(w, m)
      ensures Pending(w, m)
    {
      assert m == n;
    }
  }

  /** Attaching a subtree brings together whatever of it is pending, and moves nothing else. */
  lemma {:induction false} AttachBringsTogether(w: World, t: Tree, nodes: set<Node>, root: RootId)
    requires Nodes(t) <= nodes && Distinct(nodes)
    ensures var r := Attach(w, t, root);
      OnlyPendingMove(w, r.world, nodes, root) && (!r.raised ==> Together(r.world, Nodes(t), root))
    decreases t
  {
    var n, r := t.node, AttachOne(w, t.node, root);
    assert n in Nodes(t);
    OneMoves(w, n, nodes, root);
    if !r.raised {
      AttachAllBringsTogether(r.world, t.children, nodes, root);
      var end := Attach(w, t, root).world;
      MoveTwice(w, r.world, end, nodes, root);
      StayTogether(r.world, end, nodes, {n}, root);
    }
  }

  lemma {:induction false} AttachAllBringsTogether(w: World, f: Forest, nodes: set<Node>, root: RootId)
    requires NodesOf(f) <= nodes && Distinct(nodes)
    ensures var r := AttachAll(w, f, root);
      OnlyPendingMove(w, r.world, nodes, root) && (!r.raised ==> Together(r.world, NodesOf(f), root))
    decreases f
  {
    if f.Child? {
      var r := Attach(w, f.child, root);
      AttachBringsTogether(w, f.child, nodes, root);
      if !r.raised {
        AttachAllBringsTogether(r.world, f.rest, nodes, root);
        var end := AttachAll(r.world, f.rest, root).world;
        MoveTwice(w, r.world, end, nodes, root);
        StayTogether(r.world, end, nodes, Nodes(f.child), root);
      }
    }
  }
}
