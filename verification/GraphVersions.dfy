/**
  Recorded versions during a save and its rollback: none is lost or replaced, and each entity's goes where the
  entity goes.
 */
module GraphVersions {
  import opened Outcomes
  import opened LedgerModel
  import opened LedgerLaws
  import opened GraphModel
  import opened GraphRollback
  import opened GraphInduction
  import opened GraphRetained
  import TraceScope

  /** What is recorded for a key of any ledger, of this tree or not, stays recorded. */
  ghost predicate VersionsStay(w: World, w1: World) {
    forall root, key :: VersionOf(LedgerAt(w, root), key).Some? ==>
      VersionOf(LedgerAt(w1, root), key) == VersionOf(LedgerAt(w, root), key)
  }

  function OwnVersion(w: World, n: Node): Option<int> {
    VersionOf(LedgerOf(w, n), KeyOf(w, n))
  }

  /** The version under an entity's key is still under its key, in whatever ledger it points at by now. */
  ghost predicate VersionFollows(w: World, w1: World, n: Node) {
    OwnVersion(w, n).Some? ==> OwnVersion(w1, n) == OwnVersion(w, n)
  }

  ghost predicate KeepsVersions(nodes: set<Node>, w: World, w1: World) {
    VersionsStay(w, w1) && forall n :: n in nodes ==> VersionFollows(w, w1, n)
  }

  lemma {:induction false} VersionsKeptTwice(nodes: set<Node>, start: World, w: World, w1: World)
    requires KeepsVersions(nodes, start, w) && KeepsVersions(nodes, w, w1)
    ensures KeepsVersions(nodes, start, w1)
  {
    forall root, key | VersionOf(LedgerAt(start, root), key).Some?
      ensures VersionOf(LedgerAt(w1, root), key) == VersionOf(LedgerAt(start, root), key)
    {
      assert VersionOf(LedgerAt(w, root), key) == VersionOf(LedgerAt(start, root), key);
    }
    forall n | n in nodes
      ensures VersionFollows(start, w1, n)
    {
      assert VersionFollows(start, w, n) && VersionFollows(w, w1, n);
    }
  }

  ghost predicate SameVersions(w: World, w1: World) {
    forall root :: LedgerAt(w1, root).versions == LedgerAt(w, root).versions
  }

  /** Steps that leave all versions alone, and every entity at its ledger and key unless its key has no version. */
  lemma {:induction false} SameVersionsAreKept(nodes: set<Node>, start: World, w: World, w1: World)
    requires KeepsVersions(nodes, start, w) && SameVersions(w, w1)
    requires forall n :: n in nodes && OwnVersion(w, n).Some? ==>
      KeyOf(w1, n) == KeyOf(w, n) && EntityOf(w1, n).root == EntityOf(w, n).root
    ensures KeepsVersions(nodes, start, w1)
  {
    forall n | n in nodes
      ensures VersionFollows(w, w1, n)
    {
    }
    VersionsKeptTwice(nodes, start, w, w1);
  }

  lemma {:induction false} SameEntitiesKeepVersions(nodes: set<Node>, start: World, w: World, w1: World)
    requires KeepsVersions(nodes, start, w) && w1.entities == w.entities && SameVersions(w, w1)
    ensures KeepsVersions(nodes, start, w1)
  {
    assert forall n: Node :: EntityOf(w1, n) == EntityOf(w, n);
    SameVersionsAreKept(nodes, start, w, w1);
  }

  // ----- every step

  lemma {:induction false} ImportKeepsVersions(target: Root, source: Root, key: EntityKey)
    requires !Conflicts(target, key, VersionOf(source, key))
    ensures var r := Import(target, Snapshot(source, key));
      && (forall k :: VersionOf(target, k).Some? ==> VersionOf(r, k) == VersionOf(target, k))
      && (VersionOf(source, key).Some? ==> VersionOf(r, key) == VersionOf(source, key))
  {
    ImportParts(target, source, key);
  }

  lemma {:induction false} AttachKeepsVersions(nodes: set<Node>, start: World, w: World, n: Node, root: RootId)
    requires KeepsVersions(nodes, start, w) && n in nodes && forall m :: m in nodes && m.self == n.self ==> m == n
    ensures KeepsVersions(nodes, start, AttachOne(w, n, root).world)
  {
    var w1, l := AttachOne(w, n, root).world, Import(LedgerAt(w, root), Snapshot(LedgerOf(w, n), KeyOf(w, n)));
    AttachOneIs(w, n, root);
    if w1 != w {
      ImportKeepsVersions(LedgerAt(w, root), LedgerOf(w, n), KeyOf(w, n));
      AttachedKeepsVersions(nodes, w, n, root, l);
      VersionsKeptTwice(nodes, start, w, w1);
    }
  }

  lemma {:induction false} AttachedKeepsVersions(nodes: set<Node>, w: World, n: Node, root: RootId, l: Root)
    requires n in nodes && forall m :: m in nodes && m.self == n.self ==> m == n
    requires forall k :: VersionOf(LedgerAt(w, root), k).Some? ==> VersionOf(l, k) == VersionOf(LedgerAt(w, root), k)
    requires OwnVersion(w, n).Some? ==> VersionOf(l, KeyOf(w, n)) == OwnVersion(w, n)
    ensures KeepsVersions(nodes, w, AttachedWorld(w, n, root, l))
  {
    var w1 := AttachedWorld(w, n, root, l);
    assert forall r :: LedgerAt(w1, r) == if r == root then l else LedgerAt(w, r);
    forall m | m in nodes
      ensures VersionFollows(w, w1, m)
    {
      assert m != n ==> EntityOf(w1, m) == EntityOf(w, m);
    }
  }

  lemma {:induction false} CarryBackKeepsVersions(nodes: set<Node>, start: World, w: World, n: Node,
      values: Fields)
    requires KeepsVersions(nodes, start, w)
    ensures KeepsVersions(nodes, start, CarryBack(Tick(w), n, values))
  {
    SameEntitiesKeepVersions(nodes, start, w, CarryBack(Tick(w), n, values));
  }

  lemma {:induction false} SendKeepsVersions(
    env: Environment, nodes: set<Node>, start: World, w: World, n: Node, scope: TraceScope.Scope)
    requires KeepsVersions(nodes, start, w)
    ensures KeepsVersions(nodes, start, Send(env, w, n, scope).0.world)
  {
    SendChanges(env, w, n, scope);
    var values := env.check(w.clock, BuildCommand(w, n)).values;
    CarryBackKeepsVersions(nodes, start, w, n, values);
    SameLedgersKeepVersions(nodes, start, CarryBack(Tick(w), n, values), Send(env, w, n, scope).0.world);
  }

  lemma {:induction false} SameLedgersKeepVersions(nodes: set<Node>, start: World, w: World, w1: World)
    requires KeepsVersions(nodes, start, w) && w1.entities == w.entities && w1.ledgers == w.ledgers
    ensures KeepsVersions(nodes, start, w1)
  {
    assert forall root :: LedgerAt(w1, root) == LedgerAt(w, root);
    SameEntitiesKeepVersions(nodes, start, w, w1);
  }

  lemma {:induction false} LinkKeepsVersions(
    nodes: set<Node>, start: World, w: World, child: Node, member: string, column: string, parent: Node)
    requires KeepsVersions(nodes, start, w) && child in nodes && forall m :: m in nodes && m.self == child.self ==> m == child
    ensures KeepsVersions(nodes, start, Link(w, child, member, column, parent))
  {
    LinkChanges(w, child, member, column, parent);
    SameVersionsAreKept(nodes, start, w, Link(w, child, member, column, parent));
  }

  lemma {:induction false} AdoptKeepsVersions(
    env: Environment, nodes: set<Node>, start: World, w: World, n: Node, reply: Reply)
    requires KeepsVersions(nodes, start, w) && n in nodes && forall m :: m in nodes && m.self == n.self ==> m == n
    requires ReturnsReservedId(env) && Answers(env, w, n, reply)
    requires EntityOf(w, n).id.Some? ==> EntityOf(w, n).ledgerId == EntityOf(w, n).id.value
    ensures KeepsVersions(nodes, start, Adopt(w, n, reply).world)
  {
    AdoptKeepsKey(env, w, n, reply);
    var w1 := Adopt(w, n, reply).world;
    assert forall root :: LedgerAt(w1, root) == LedgerAt(w, root);
    forall m | m in nodes
      ensures KeyOf(w1, m) == KeyOf(w, m) && EntityOf(w1, m).root == EntityOf(w, m).root
    {
      assert m != n ==> EntityOf(w1, m) == EntityOf(w, m);
    }
    SameVersionsAreKept(nodes, start, w, w1);
  }

  lemma {:induction false} ReserveKeepsVersions(env: Environment, nodes: set<Node>, start: World, w: World, n: Node)
    requires WellFormed(start, nodes) && Fresh(env, start, nodes) && Invariant(env, nodes, start, w)
    requires KeepsVersions(nodes, start, w) && n in nodes && IdLess(EntityOf(w, n))
    ensures KeepsVersions(nodes, start, ReserveId(env, w, n).world)
  {
    var id := env.allocate(w.clock, n.typeName);
    if id.None? {
      SameLedgersKeepVersions(nodes, start, w, Tick(w));
    } else {
      BeforeReservation(env, nodes, start, w, n);
      var oldKey, newKey := KeyOf(w, n), EntityKey(n.typeName, id.value);
      MovedMarks(LedgerOf(w, n), oldKey, newKey, Some(Int(id.value)));
      var l := Put(Rekey(LedgerOf(w, n), oldKey, newKey).value, newKey, "id", Some(Int(id.value)));
      assert ReserveId(env, w, n).world == ReservedWorld(w, n, id.value, l);
      ReservedState(w, n, id.value, l);
      UnversionedMayMove(nodes, start, w, ReservedWorld(w, n, id.value, l), n);
    }
  }

  /** An entity whose key has no version may change its key. */
  lemma {:induction false} UnversionedMayMove(nodes: set<Node>, start: World, w: World, w1: World, n: Node)
    requires KeepsVersions(nodes, start, w) && SameVersions(w, w1) && OwnVersion(w, n).None?
    requires forall m :: m in nodes && m.self == n.self ==> m == n
    requires forall m :: m in nodes && m.self != n.self ==> EntityOf(w1, m) == EntityOf(w, m)
    ensures KeepsVersions(nodes, start, w1)
  {
    SameVersionsAreKept(nodes, start, w, w1);
  }

  // ----- undoing

  lemma {:induction false} UndoKeepsVersions(env: Environment, nodes: set<Node>, start: World, w: World)
    requires WellFormed(start, nodes) && Invariant(env, nodes, start, w) && KeepsVersions(nodes, start, w)
      && w.undo != []
    ensures var last := |w.undo| - 1;
      KeepsVersions(nodes, start, Undo(w.(undo := w.undo[..last]), w.undo[last]).world)
  {
    var last := |w.undo| - 1;
    var a, w0 := w.undo[last], w.(undo := w.undo[..last]);
    assert w.undo == w0.undo + [a] && a.node in nodes;
    if a.UndoReservation? {
      ReservationComesFirst(env, nodes, start, w, w0, a);
      UndoneReservation(env, nodes, start, w, w0, a);
      assert Unversioned(env, nodes, start, KeyOf(w, a.node));
      UnversionedMayMove(nodes, start, w, Undo(w0, a).world, a.node);
    } else {
      SaveKeepsKey(env, nodes, start, w, w0, a);
      UndoneSave(w, w0, a);
      var w1 := Undo(w0, a).world;
      forall m | m in nodes
        ensures KeyOf(w1, m) == KeyOf(w, m) && EntityOf(w1, m).root == EntityOf(w, m).root
      {
        assert m.self != a.node.self ==> EntityOf(w1, m) == EntityOf(w, m);
      }
      SameVersionsAreKept(nodes, start, w, w1);
    }
  }
}
