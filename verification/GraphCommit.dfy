/** After the commit: nothing of what was saved is pending, versions are recorded, and nothing else is touched. */
module GraphCommit {
  import opened Outcomes
  import opened LedgerModel
  import opened GraphModel
  import opened GraphRollback
  import opened GraphInduction
  import opened GraphSafety
  import opened GraphTrace
  import opened GraphEarly

  lemma {:induction false} ClearedPending(l: Root, key: EntityKey, other: EntityKey)
    ensures HasPending(ClearEntity(l, key), other) <==> other != key && HasPending(l, other)
  {
    var r := ClearEntity(l, key);
    forall i | 0 <= i < |l.layers|
      ensures other in r.layers[i] <==> other != key && other in l.layers[i]
    {
    }
  }

  /** One commit action never fails; it clears its key in its entity's ledger and records the entity's version. */
  lemma {:induction false} CommitStep(w: World, a: CommitAction)
    ensures var e, r := EntityOf(w, a.node), Commit(w, a);
      && !r.raised
      && r.world.entities == w.entities && r.world.commits == w.commits
      && (forall root, key :: HasPending(LedgerAt(r.world, root), key)
            <==> !(root == e.root && key == a.key) && HasPending(LedgerAt(w, root), key))
      && (forall root, key :: VersionOf(LedgerAt(r.world, root), key)
            == if root == e.root && key == a.key && e.version.Some? then e.version else VersionOf(LedgerAt(w, root), key))
  {
    var e := EntityOf(w, a.node);
    var l := LedgerAt(w, e.root);
    ClearedPending(l, a.key, a.key);
    forall key
      ensures HasPending(ClearEntity(l, a.key), key) <==> key != a.key && HasPending(l, key)
    {
      ClearedPending(l, a.key, key);
    }
  }

  /** Some of the first `k` commit actions is about this key in this ledger. */
  ghost predicate CommittedKey(w: World, k: nat, root: RootId, key: EntityKey)
    requires k <= |w.commits|
  {
    exists i :: 0 <= i < k && w.commits[i].key == key && EntityOf(w, w.commits[i].node).root == root
  }

  lemma {:induction false} OneMoreKey(w: World, k: nat)
    requires 0 < k <= |w.commits|
    ensures forall root, key :: CommittedKey(w, k, root, key) <==>
      CommittedKey(w, k - 1, root, key) || (key == w.commits[k - 1].key && EntityOf(w, w.commits[k - 1].node).root == root)
  {
  }

  // ----- which version is recorded

  function ActionVersion(w: World, i: nat): Option<int>
    requires i < |w.commits|
  {
    EntityOf(w, w.commits[i].node).version
  }

  /** Commit action `i` is about this key in this ledger and has a version to record. */
  predicate Records(w: World, i: nat, root: RootId, key: EntityKey)
    requires i < |w.commits|
  {
    w.commits[i].key == key && EntityOf(w, w.commits[i].node).root == root && ActionVersion(w, i).Some?
  }

  /** Of the first `k` commit actions it is the last one that does. */
  ghost predicate RecordsLast(w: World, k: nat, i: nat, root: RootId, key: EntityKey)
    requires i < k <= |w.commits|
  {
    Records(w, i, root, key) && forall j :: i < j < k ==> !Records(w, j, root, key)
  }

  /** The version under a key after the first `k` commit actions, told action by action. */
  function VersionAfter(w: World, k: nat, root: RootId, key: EntityKey): Option<int>
    requires k <= |w.commits|
  {
    if k == 0 then VersionOf(LedgerAt(w, root), key)
    else if Records(w, k - 1, root, key) then ActionVersion(w, k - 1)
    else VersionAfter(w, k - 1, root, key)
  }

  lemma {:induction false} LastOneDecides(w: World, k: nat, i: nat, root: RootId, key: EntityKey)
    requires i < k <= |w.commits| && RecordsLast(w, k, i, root, key)
    ensures VersionAfter(w, k, root, key) == ActionVersion(w, i)
  {
    if i < k - 1 {
      LastOneDecides(w, k - 1, i, root, key);
    }
  }

  lemma {:induction false} NobodyDecides(w: World, k: nat, root: RootId, key: EntityKey)
    requires k <= |w.commits| && forall i :: 0 <= i < k ==> !Records(w, i, root, key)
    ensures VersionAfter(w, k, root, key) == VersionOf(LedgerAt(w, root), key)
  {
    if k > 0 {
      NobodyDecides(w, k - 1, root, key);
    }
  }

  lemma {:induction false} SomebodyIsLast(w: World, k: nat, j: nat, root: RootId, key: EntityKey) returns (i: nat)
    requires j < k <= |w.commits| && Records(w, j, root, key)
    ensures i < k && RecordsLast(w, k, i, root, key)
  {
    if Records(w, k - 1, root, key) {
      i := k - 1;
    } else {
      i := SomebodyIsLast(w, k - 1, j, root, key);
    }
  }

  /** The commit actions for this key in this ledger end on this version. */
  ghost predicate EndsOn(w: World, root: RootId, key: EntityKey, version: Option<int>) {
    forall i :: 0 <= i < |w.commits| && RecordsLast(w, |w.commits|, i, root, key) ==> ActionVersion(w, i) == version
  }

  /** What the first `k` commit actions have done. */
  ghost predicate CommittedSoFar(w: World, k: nat, end: World)
    requires k <= |w.commits|
  {
    && end.entities == w.entities && end.commits == w.commits
    && (forall root, key :: HasPending(LedgerAt(end, root), key)
          <==> !CommittedKey(w, k, root, key) && HasPending(LedgerAt(w, root), key))
    && (forall root, key :: VersionOf(LedgerAt(end, root), key) == VersionAfter(w, k, root, key))
  }

  lemma {:induction false} OneMoreCommitted(w: World, k: nat, front: World)
    requires 0 < k <= |w.commits| && CommittedSoFar(w, k - 1, front)
    ensures CommittedSoFar(w, k, Commit(front, w.commits[k - 1]).world)
  {
    var a := w.commits[k - 1];
    CommitStep(front, a);
    OneMoreKey(w, k);
    assert EntityOf(front, a.node) == EntityOf(w, a.node);
  }

  lemma {:induction false} PrefixCommitted(w: World, k: nat)
    requires k <= |w.commits|
    ensures CommittedPrefix(w, k).1 == 0 && CommittedSoFar(w, k, CommittedPrefix(w, k).0)
  {
    if k > 0 {
      PrefixCommitted(w, k - 1);
      var front := CommittedPrefix(w, k - 1).0;
      CommitStep(front, w.commits[k - 1]);
      OneMoreCommitted(w, k, front);
    }
  }

  /** Every key no commit action is about is as pending as before. */
  ghost predicate OthersUntouched(saved: World, end: World) {
    forall root, key :: (forall a :: a in saved.commits ==> a.key != key || EntityOf(saved, a.node).root != root) ==>
      (HasPending(LedgerAt(end, root), key) <==> HasPending(LedgerAt(saved, root), key))
  }

  lemma {:induction false} RestUntouched(saved: World, end: World)
    requires CommittedSoFar(saved, |saved.commits|, end)
    ensures OthersUntouched(saved, end)
  {
    forall root, key | forall a :: a in saved.commits ==> a.key != key || EntityOf(saved, a.node).root != root
      ensures HasPending(LedgerAt(end, root), key) <==> HasPending(LedgerAt(saved, root), key)
    {
      assert !CommittedKey(saved, |saved.commits|, root, key);
    }
  }

  /**
    Committing in any world whatever: no action fails, no committed key has anything pending, and every other key
    is exactly as pending as before.
   */
  lemma {:induction false} CommitClearsWhatItIsAbout(w: World)
    ensures var end := Committed(w).0;
      && Committed(w).1 == 0 && end.entities == w.entities
      && (forall a :: a in w.commits ==> !HasPending(LedgerAt(end, EntityOf(w, a.node).root), a.key))
      && OthersUntouched(w, end)
  {
    PrefixCommitted(w, |w.commits|);
    RestUntouched(w, Committed(w).0);
    forall a | a in w.commits
      ensures !HasPending(LedgerAt(Committed(w).0, EntityOf(w, a.node).root), a.key)
    {
      var i :| 0 <= i < |w.commits| && w.commits[i] == a;
      assert CommittedKey(w, |w.commits|, EntityOf(w, a.node).root, a.key);
    }
  }

  /** In any world, too: the version recorded in the end is that of the last action for the ledger and key that has one. */
  lemma {:induction false} LastActionIsRecorded(w: World, root: RootId, key: EntityKey)
    ensures forall i :: 0 <= i < |w.commits| && RecordsLast(w, |w.commits|, i, root, key) ==>
      VersionOf(LedgerAt(Committed(w).0, root), key) == ActionVersion(w, i)
    ensures (forall i :: 0 <= i < |w.commits| ==> !Records(w, i, root, key)) ==>
      VersionOf(LedgerAt(Committed(w).0, root), key) == VersionOf(LedgerAt(w, root), key)
  {
    PrefixCommitted(w, |w.commits|);
    forall i | 0 <= i < |w.commits| && RecordsLast(w, |w.commits|, i, root, key)
      ensures VersionAfter(w, |w.commits|, root, key) == ActionVersion(w, i)
    {
      LastOneDecides(w, |w.commits|, i, root, key);
    }
    if forall i :: 0 <= i < |w.commits| ==> !Records(w, i, root, key) {
      NobodyDecides(w, |w.commits|, root, key);
    }
  }

  /** So an action's own version is recorded if and only if the actions that share its ledger and key end on it. */
  lemma {:induction false} OwnVersionIsRecordedIff(w: World, a: CommitAction)
    requires a in w.commits && EntityOf(w, a.node).version.Some?
    ensures var e := EntityOf(w, a.node);
      var recorded := VersionOf(LedgerAt(Committed(w).0, e.root), a.key);
      recorded.Some? && (recorded == e.version <==> EndsOn(w, e.root, a.key, e.version))
  {
    var e := EntityOf(w, a.node);
    var j :| 0 <= j < |w.commits| && w.commits[j] == a;
    var i := SomebodyIsLast(w, |w.commits|, j, e.root, a.key);
    LastActionIsRecorded(w, e.root, a.key);
  }

  // ----- the commit of a save

  /** No two entities of the graph stand for one row. */
  ghost predicate KeysDistinct(w: World, nodes: set<Node>) {
    forall n, m :: n in nodes && m in nodes && n != m ==> KeyOf(w, n) != KeyOf(w, m)
  }

  lemma {:induction false} KeysStayDistinct(env: Environment, nodes: set<Node>, start: World, w: World)
    requires Invariant(env, nodes, start, w) && KeysDistinct(start, nodes)
    ensures KeysDistinct(w, nodes)
  {
    forall n, m | n in nodes && m in nodes && n != m
      ensures KeyOf(w, n) != KeyOf(w, m)
    {
      assert EntityInvariant(env, start, w, n) && EntityInvariant(env, start, w, m);
      assert KeyHasOrigin(env, start, w, n) && KeyHasOrigin(env, start, w, m);
    }
  }

  /** Keys no longer change, and every commit action is registered with its entity's key. */
  ghost predicate KeysFixed(nodes: set<Node>, selves: set<NodeId>, base: World, w: World) {
    IdsConsistent(w, selves) && KeysSettled(nodes, base, w)
  }

  lemma {:induction false} SameIdsKeepKeys(nodes: set<Node>, selves: set<NodeId>, base: World, w: World, w1: World)
    requires KeysFixed(nodes, selves, base, w) && w1.commits == w.commits
    requires forall id :: EntityAt(w1, id).id == EntityAt(w, id).id && EntityAt(w1, id).ledgerId == EntityAt(w, id).ledgerId
    ensures KeysFixed(nodes, selves, base, w1)
  {
    forall n | n in nodes
      ensures KeyOf(w1, n) == KeyOf(base, n)
    {
      assert EntityAt(w1, n.self).ledgerId == EntityAt(w, n.self).ledgerId;
    }
  }

  lemma {:induction false} LinksFixKeys(nodes: set<Node>, edges: set<Edge>, selves: set<NodeId>, base: World)
    ensures KeptByAttach(nodes, u => KeysFixed(nodes, selves, base, u))
    ensures KeptByLink(nodes, edges, u => KeysFixed(nodes, selves, base, u))
  {
    forall w, n, root | KeysFixed(nodes, selves, base, w) && n in nodes
      ensures KeysFixed(nodes, selves, base, AttachOne(w, n, root).world)
    {
      AttachOneIs(w, n, root);
      SameIdsKeepKeys(nodes, selves, base, w, AttachOne(w, n, root).world);
    }
    forall w, child, member, column, parent | KeysFixed(nodes, selves, base, w) && child in nodes && parent in nodes
      ensures KeysFixed(nodes, selves, base, Link(w, child, member, column, parent))
    {
      SameIdsKeepKeys(nodes, selves, base, w, Link(w, child, member, column, parent));
    }
  }

  lemma {:induction false} CommandsFixKeys(env: Environment, nodes: set<Node>, selves: set<NodeId>, base: World)
    requires ReturnsReservedId(env) && forall n :: n in nodes ==> n.self in selves
    ensures KeptBySend(env, nodes, u => KeysFixed(nodes, selves, base, u))
    ensures KeptByAdopt(env, nodes, u => KeysFixed(nodes, selves, base, u))
  {
    forall w, n, scope | KeysFixed(nodes, selves, base, w) && n in nodes
      ensures KeysFixed(nodes, selves, base, Send(env, w, n, scope).0.world)
    {
      SendFramed(env, w, n, scope);
      SameIdsKeepKeys(nodes, selves, base, w, Send(env, w, n, scope).0.world);
    }
    forall w, n, reply | KeysFixed(nodes, selves, base, w) && n in nodes && Answers(env, w, n, reply)
      ensures KeysFixed(nodes, selves, base, Adopt(w, n, reply).world)
    {
      AdoptFramed(env, w, n, reply);
      SameIdsKeepKeys(nodes, selves, base, w, Adopt(w, n, reply).world);
    }
  }

  lemma {:induction false} LogsFixKeys(nodes: set<Node>, selves: set<NodeId>, base: World)
    ensures KeptByReach(nodes, u => KeysFixed(nodes, selves, base, u))
    ensures KeptByCommitEntry(nodes, u => KeysFixed(nodes, selves, base, u))
  {
    forall w, n | KeysFixed(nodes, selves, base, w) && n in nodes
      ensures KeysFixed(nodes, selves, base, Reach(w, n))
    {
      SameIdsKeepKeys(nodes, selves, base, w, Reach(w, n));
    }
  }

  lemma {:induction false} WorkCommitsItsKeys(env: Environment, w: World, t: Tree)
    requires Consistent(env, w, t) && !Work(env, w, t).raised
    ensures var saved := Work(env, w, t).world;
      forall a :: a in saved.commits ==> a.node in Nodes(t) && a.key == KeyOf(saved, a.node)
  {
    var p, saved := Preflight(env, Reserve(env, w, t).world, t).world, Work(env, w, t).world;
    BeforeFirstCommand(env, w, t);
    forall n | n in Nodes(t)
      ensures n.self in Selves(t)
    {
      NodesHaveSelves(t, n);
    }
    LinksFixKeys(Nodes(t), Edges(t), Selves(t), p);
    CommandsFixKeys(env, Nodes(t), Selves(t), p);
    LogsFixKeys(Nodes(t), Selves(t), p);
    SaveKeeps(env, Nodes(t), Edges(t), u => KeysFixed(Nodes(t), Selves(t), p, u), p, t, None);
    forall a | a in saved.commits
      ensures a.node in Nodes(t) && a.key == KeyOf(saved, a.node)
    {
      var i :| 0 <= i < |saved.commits| && saved.commits[i] == a;
      assert KeyOf(saved, a.node) == KeyOf(p, a.node);
    }
  }

  /** If no two entities stand for one row, there is no other action to end on. */
  lemma {:induction false} DistinctKeysEndOn(env: Environment, w: World, t: Tree)
    requires Consistent(env, w, t) && Ready(env, w, t) && !Work(env, w, t).raised && KeysDistinct(w, Nodes(t))
    ensures var saved := Work(env, w, t).world;
      forall a :: a in saved.commits ==> OwnVersionIsLast(saved, a.node)
  {
    WorkKeepsInvariant(env, w, t);
    WorkCommitsItsKeys(env, w, t);
    var saved := Work(env, w, t).world;
    KeysStayDistinct(env, Nodes(t), w, saved);
    forall a, i | a in saved.commits && 0 <= i < |saved.commits| && saved.commits[i].key == a.key
      ensures saved.commits[i].node == a.node
    {
      assert saved.commits[i] in saved.commits;
    }
  }

  /** What committing leaves for one registered entity: nothing pending, and some version if it has one itself. */
  ghost predicate EntitySettled(saved: World, end: World, a: CommitAction) {
    && EntityOf(end, a.node) == EntityOf(saved, a.node) && a.key == KeyOf(end, a.node) && !Pending(end, a.node)
    && (EntityOf(end, a.node).version.Some? ==> VersionOf(LedgerOf(end, a.node), a.key).Some?)
  }

  /** The ledger holds the version of the entity, if it has one. */
  ghost predicate HoldsVersion(w: World, n: Node) {
    EntityOf(w, n).version.Some? ==> VersionOf(LedgerOf(w, n), KeyOf(w, n)) == EntityOf(w, n).version
  }

  /** The commit actions that share an entity's ledger and key end on its version, if it has one. */
  ghost predicate OwnVersionIsLast(w: World, n: Node) {
    EntityOf(w, n).version.Some? ==> EndsOn(w, EntityOf(w, n).root, KeyOf(w, n), EntityOf(w, n).version)
  }

  /**
    After a save whose work went through, committing raises nothing; every entity with a commit action has
    nothing pending; every key without a commit action is exactly as pending as before; and a committed
    entity's version is recorded if and only if the commit actions for its row end on it, as they do when no
    two entities stand for one row.
   */
  lemma {:induction false} CommitSettlesEverySavedEntity(env: Environment, w: World, t: Tree)
    requires Consistent(env, w, t) && !Work(env, w, t).raised
    ensures var saved := Work(env, w, t).world;
      var end := Committed(saved).0;
      && Committed(saved).1 == 0
      && (forall a :: a in saved.commits ==> EntitySettled(saved, end, a))
      && OthersUntouched(saved, end)
      && (forall a :: a in saved.commits ==> (HoldsVersion(end, a.node) <==> OwnVersionIsLast(saved, a.node)))
      && (Ready(env, w, t) && KeysDistinct(w, Nodes(t)) ==> forall a :: a in saved.commits ==> HoldsVersion(end, a.node))
  {
    var saved := Work(env, w, t).world;
    var end := Committed(saved).0;
    WorkCommitsItsKeys(env, w, t);
    CommitClearsWhatItIsAbout(saved);
    forall a | a in saved.commits
      ensures EntitySettled(saved, end, a) && (HoldsVersion(end, a.node) <==> OwnVersionIsLast(saved, a.node))
    {
      assert EntityOf(end, a.node) == EntityOf(saved, a.node);
      if EntityOf(saved, a.node).version.Some? {
        OwnVersionIsRecordedIff(saved, a);
      }
    }
    if Ready(env, w, t) && KeysDistinct(w, Nodes(t)) {
      DistinctKeysEndOn(env, w, t);
    }
  }
}
