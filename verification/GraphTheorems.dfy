/** A whole save, from the start of its session: what it sends, in which order, and what its end leaves behind. */
module GraphTheorems {
  import opened Outcomes
  import opened LedgerModel
  import opened GraphModel
  import opened GraphInduction
  import opened GraphRollback
  import opened GraphSafety
  import opened GraphEarly
  import opened GraphSent
  import opened GraphCommit
  import opened GraphTrace
  import opened GraphVersions
  import opened GraphOrder
  import opened GraphLineage
  import TraceScope

  /** A tree without shared entities at the start of its session. */
  ghost predicate Starting(env: Environment, w: World, t: Tree) {
    Ready(env, w, t) && Proper(t) && w.visits == [] && w.sent == []
  }

  lemma {:induction false} StartingIsConsistent(env: Environment, w: World, t: Tree)
    requires Starting(env, w, t)
    ensures Consistent(env, w, t)
  {
    forall id | id in Selves(t) && EntityAt(w, id).id.Some?
      ensures EntityAt(w, id).ledgerId == EntityAt(w, id).id.value
    {
      var n := SelvesHaveNodes(t, id);
      assert EntityOf(w, n) == EntityAt(w, id);
    }
  }

  lemma {:induction false} SelvesHaveNodes(t: Tree, id: NodeId) returns (n: Node)
    requires id in Selves(t)
    ensures n in Nodes(t) && n.self == id
    decreases t
  {
    if id == t.node.self {
      n := t.node;
    } else {
      n := SelvesOfHaveNodes(t.children, id);
    }
  }

  lemma {:induction false} SelvesOfHaveNodes(f: Forest, id: NodeId) returns (n: Node)
    requires id in SelvesOf(f)
    ensures n in NodesOf(f) && n.self == id
    decreases f
  {
    if id in Selves(f.child) {
      n := SelvesHaveNodes(f.child, id);
    } else {
      n := SelvesOfHaveNodes(f.rest, id);
    }
  }

  /** Unless reservation and preflight both pass over the whole tree, not one command is sent. */
  lemma {:induction false} NothingSentUnlessPreflightPasses(env: Environment, w: World, t: Tree)
    requires w.sent == []
    requires Reserve(env, w, t).raised || Preflight(env, Reserve(env, w, t).world, t).raised
    ensures Work(env, w, t).raised && Work(env, w, t).world.sent == [] && Work(env, w, t).world.visits == w.visits
  {
    EarlyPhasesAreSilent(env, w, t);
  }

  // ----- the commands

  ghost predicate NoRepeats(s: seq<Node>) {
    forall i, j :: 0 <= i < j < |s| ==> s[i] != s[j]
  }

  /** In the list, `a` never comes after `b`. */
  ghost predicate Before(s: seq<Node>, a: Node, b: Node) {
    forall i, j :: 0 <= i < |s| && 0 <= j < |s| && s[i] == a && s[j] == b ==> i < j
  }

  lemma {:induction false} PreOrderMembers(t: Tree, w: World, n: Node)
    requires n in PreOrder(t, w)
    ensures n in Nodes(t)
    decreases t
  {
    if n != t.node {
      PreOrderAllMembers(t.children, w, n);
    }
  }

  lemma {:induction false} PreOrderAllMembers(f: Forest, w: World, n: Node)
    requires n in PreOrderAll(f, w)
    ensures n in NodesOf(f)
    decreases f
  {
    if n in PreOrder(f.child, w) {
      PreOrderMembers(f.child, w, n);
    } else {
      PreOrderAllMembers(f.rest, w, n);
    }
  }

  lemma {:induction false} NoRepeatsConcat(a: seq<Node>, b: seq<Node>)
    requires NoRepeats(a) && NoRepeats(b) && forall n :: n in a ==> n !in b
    ensures NoRepeats(a + b)
  {
    forall i, j | 0 <= i < j < |a + b|
      ensures (a + b)[i] != (a + b)[j]
    {
      if i < |a| && j >= |a| {
        assert (a + b)[i] in a && (a + b)[j] in b;
      }
    }
  }

  lemma {:induction false} PreOrderHasNoRepeats(t: Tree, w: World)
    requires Proper(t)
    ensures NoRepeats(PreOrder(t, w))
    decreases t
  {
    NotBelowItself(t);
    PreOrderAllHasNoRepeats(t.children, w);
    forall n | n in PreOrderAll(t.children, w)
      ensures n in NodesOf(t.children)
    {
      PreOrderAllMembers(t.children, w, n);
    }
    NoRepeatsConcat([t.node], PreOrderAll(t.children, w));
  }

  lemma {:induction false} PreOrderAllHasNoRepeats(f: Forest, w: World)
    requires ProperAll(f)
    ensures NoRepeats(PreOrderAll(f, w))
    decreases f
  {
    if f.Child? {
      PreOrderHasNoRepeats(f.child, w);
      PreOrderAllHasNoRepeats(f.rest, w);
      SiblingsApart(f);
      forall n | n in PreOrder(f.child, w)
        ensures n !in PreOrderAll(f.rest, w)
      {
        PreOrderMembers(f.child, w, n);
        if n in PreOrderAll(f.rest, w) {
          PreOrderAllMembers(f.rest, w, n);
        }
      }
      NoRepeatsConcat(PreOrder(f.child, w), PreOrderAll(f.rest, w));
    }
  }

  lemma {:induction false} BeforeInConcat(a: seq<Node>, b: seq<Node>, m: Node, n: Node)
    requires (Before(a, m, n) && m !in b && n !in b) || (Before(b, m, n) && m !in a && n !in a)
    ensures Before(a + b, m, n)
  {
    var s := a + b;
    forall i, j | 0 <= i < |s| && 0 <= j < |s| && s[i] == m && s[j] == n
      ensures i < j
    {
      if i < |a| { assert s[i] in a; } else { assert s[i] in b && b[i - |a|] == m; }
      if j < |a| { assert s[j] in a; } else { assert s[j] in b && b[j - |a|] == n; }
    }
  }

  lemma {:induction false} PathIsInside(t: Tree, path: seq<Node>, k: nat)
    requires IsPath(t, path) && k < |path|
    ensures path[k] in Nodes(t) && (k > 0 ==> path[k] in NodesOf(t.children))
    decreases t
  {
    if k > 0 {
      PathInIsInside(t.children, path[1..], k - 1);
    }
  }

  lemma {:induction false} PathInIsInside(f: Forest, path: seq<Node>, k: nat)
    requires IsPathIn(f, path) && k < |path|
    ensures path[k] in NodesOf(f)
    decreases f
  {
    if IsPath(f.child, path) {
      PathIsInside(f.child, path, k);
    } else {
      PathInIsInside(f.rest, path, k);
    }
  }

  /** Every ancestor comes before its descendants. */
  lemma {:induction false} AncestorsFirst(t: Tree, w: World, path: seq<Node>, k: nat)
    requires Proper(t) && IsPath(t, path) && k < |path| - 1
    ensures Before(PreOrder(t, w), path[k], path[|path| - 1])
    decreases t
  {
    var last, below := path[|path| - 1], PreOrderAll(t.children, w);
    NotBelowItself(t);
    PathIsInside(t, path, |path| - 1);
    if k == 0 {
      forall i, j | 0 <= i < |PreOrder(t, w)| && 0 <= j < |PreOrder(t, w)| && PreOrder(t, w)[i] == t.node
        && PreOrder(t, w)[j] == last
        ensures i < j
      {
        if i > 0 {
          assert PreOrder(t, w)[i] in below;
          PreOrderAllMembers(t.children, w, t.node);
        }
      }
    } else {
      PathIsInside(t, path, k);
      AncestorsFirstIn(t.children, w, path[1..], k - 1);
      if EntityOf(w, t.node).action != Delete {
        BeforeInConcat([t.node], below, path[k], last);
      }
    }
  }

  lemma {:induction false} AncestorsFirstIn(f: Forest, w: World, path: seq<Node>, k: nat)
    requires ProperAll(f) && IsPathIn(f, path) && k < |path| - 1
    ensures Before(PreOrderAll(f, w), path[k], path[|path| - 1])
    decreases f
  {
    var a, b := PreOrder(f.child, w), PreOrderAll(f.rest, w);
    var m, n := path[k], path[|path| - 1];
    SiblingsApart(f);
    if m in a { PreOrderMembers(f.child, w, m); }
    if n in a { PreOrderMembers(f.child, w, n); }
    if m in b { PreOrderAllMembers(f.rest, w, m); }
    if n in b { PreOrderAllMembers(f.rest, w, n); }
    if IsPath(f.child, path) {
      PathIsInside(f.child, path, k);
      PathIsInside(f.child, path, |path| - 1);
      AncestorsFirst(f.child, w, path, k);
    } else {
      PathInIsInside(f.rest, path, k);
      PathInIsInside(f.rest, path, |path| - 1);
      AncestorsFirstIn(f.rest, w, path, k);
    }
    BeforeInConcat(a, b, m, n);
  }

  lemma {:induction false} CommandedAreVisited(visits: seq<Visit>, n: Node)
    requires n in CommandedNodes(visits)
    ensures n in VisitedNodes(visits)
  {
    var front, last := visits[..|visits| - 1], visits[|visits| - 1];
    if n in CommandedNodes(front) {
      CommandedAreVisited(front, n);
    }
  }

  /** Leaving out the clean entities keeps the order and adds no repeats. */
  lemma {:induction false} CommandedKeepOrder(visits: seq<Visit>, a: Node, b: Node)
    requires NoRepeats(VisitedNodes(visits))
    ensures NoRepeats(CommandedNodes(visits))
    ensures a != b && Before(VisitedNodes(visits), a, b) ==> Before(CommandedNodes(visits), a, b)
  {
    if visits != [] {
      var front, last := visits[..|visits| - 1], visits[|visits| - 1];
      var before := VisitedNodes(front);
      var all := VisitedNodes(visits);
      assert forall i :: 0 <= i < |before| ==> all[i] == before[i];
      assert all[|before|] == last.node;
      CommandedKeepOrder(front, a, b);
      forall n | n in CommandedNodes(front)
        ensures n in before && n != last.node
      {
        CommandedAreVisited(front, n);
        var i :| 0 <= i < |before| && before[i] == n;
        assert all[i] != all[|before|];
      }
      if last.Commanded() {
        NoRepeatsConcat(CommandedNodes(front), [last.node]);
      }
      if a != b && Before(all, a, b) && last.node == a {
        forall k | 0 <= k < |before|
          ensures before[k] != b
        {
          assert all[k] == before[k];
        }
        assert b !in CommandedNodes(front);
      }
    }
  }

  /** Every command of a save, whether it went through or stopped. */
  ghost predicate CommandsInOrder(w: World, t: Tree, r: Progress) {
    && (r.raised ==> VisitedNodes(r.world.visits) <= PreOrder(t, w))
    && (!r.raised ==> VisitedNodes(r.world.visits) == PreOrder(t, w))
    && SentMatch(r.world.visits, r.world.sent, r.raised)
    && NoRepeats(SentNodes(r.world.sent))
    && forall path, k :: IsPath(t, path) && 0 <= k < |path| - 1 ==>
      Before(SentNodes(r.world.sent), path[k], path[|path| - 1])
  }

  lemma {:induction false} PrefixKeepsOrder(s: seq<Node>, prefix: seq<Node>, a: Node, b: Node)
    requires prefix <= s
    ensures NoRepeats(s) ==> NoRepeats(prefix)
    ensures Before(s, a, b) ==> Before(prefix, a, b)
  {
    assert forall i :: 0 <= i < |prefix| ==> prefix[i] == s[i];
  }

  lemma {:induction false} SentKeepOrder(order: seq<Node>, visits: seq<Visit>, sent: seq<Sent>, raised: bool,
      a: Node, b: Node)
    requires NoRepeats(order) && VisitedNodes(visits) <= order && SentMatch(visits, sent, raised)
    ensures NoRepeats(SentNodes(sent))
    ensures a != b && Before(order, a, b) ==> Before(SentNodes(sent), a, b)
  {
    PrefixKeepsOrder(order, VisitedNodes(visits), a, b);
    CommandedKeepOrder(visits, a, b);
    if visits != [] {
      var front := visits[..|visits| - 1];
      assert VisitedNodes(front) <= VisitedNodes(visits);
      PrefixKeepsOrder(VisitedNodes(visits), VisitedNodes(front), a, b);
      CommandedKeepOrder(front, a, b);
    }
  }

  /**
    On every tree, in every environment: the entities reached are the pre-order of the tree pruned below
    deletions (a prefix of it if the save stops); of these exactly the new, deleted and pending ones are
    sent one command each (but for the last, if the save stops there); and every ancestor's command
    comes before its descendants' commands.
   */
  lemma {:induction false} CommandsFollowPreOrder(env: Environment, w: World, t: Tree)
    requires Consistent(env, w, t)
    ensures CommandsInOrder(w, t, Work(env, w, t))
  {
    var r := Work(env, w, t);
    if Reserve(env, w, t).raised || Preflight(env, Reserve(env, w, t).world, t).raised {
      NothingSentUnlessPreflightPasses(env, w, t);
      assert VisitedNodes(r.world.visits) == [];
    } else {
      BeforeFirstCommand(env, w, t);
      var p := Preflight(env, Reserve(env, w, t).world, t).world;
      SaveCovers(env, p, t, None);
      assert r.world.visits[|p.visits|..] == r.world.visits && r.world.sent[|p.sent|..] == r.world.sent;
      PreOrderHasNoRepeats(t, w);
      SentKeepOrder(PreOrder(t, w), r.world.visits, r.world.sent, r.raised, t.node, t.node);
      forall path, k | IsPath(t, path) && 0 <= k < |path| - 1
        ensures Before(SentNodes(r.world.sent), path[k], path[|path| - 1])
      {
        AncestorsFirst(t, w, path, k);
        PathNodesDiffer(t, path, k);
        SentKeepOrder(PreOrder(t, w), r.world.visits, r.world.sent, r.raised, path[k], path[|path| - 1]);
      }
    }
  }

  lemma {:induction false} PathNodesDiffer(t: Tree, path: seq<Node>, k: nat)
    requires Proper(t) && IsPath(t, path) && k < |path| - 1
    ensures path[k] != path[|path| - 1]
    decreases t
  {
    NotBelowItself(t);
    PathIsInside(t, path, |path| - 1);
    if k > 0 {
      PathInNodesDiffer(t.children, path[1..], k - 1);
    }
  }

  lemma {:induction false} PathInNodesDiffer(f: Forest, path: seq<Node>, k: nat)
    requires ProperAll(f) && IsPathIn(f, path) && k < |path| - 1
    ensures path[k] != path[|path| - 1]
    decreases f
  {
    if IsPath(f.child, path) {
      PathNodesDiffer(f.child, path, k);
    } else {
      PathInNodesDiffer(f.rest, path, k);
    }
  }

  // ----- foreign keys, lineage, versions

  lemma {:induction false} WorkIsFaithful(env: Environment, w: World, t: Tree)
    requires Consistent(env, w, t)
    ensures Faithful(t, None, [], Work(env, w, t).world.sent, Work(env, w, t).world)
  {
    var r := Work(env, w, t);
    if Reserve(env, w, t).raised || Preflight(env, Reserve(env, w, t).world, t).raised {
      NothingSentUnlessPreflightPasses(env, w, t);
      FaithfulWhenSilent(t, None, [], r.world);
    } else {
      BeforeFirstCommand(env, w, t);
      var p := Preflight(env, Reserve(env, w, t).world, t).world;
      SaveIsFaithful(env, p, t, None, None, []);
      assert NewSent(p, r.world) == r.world.sent;
    }
  }

  /** An entity that has an id, or is to get one, has one wherever the save stops after the first command. */
  lemma {:induction false} StaysIdentified(env: Environment, w: World, t: Tree, n: Node)
    requires Consistent(env, w, t) && n in Nodes(t)
    requires !Reserve(env, w, t).raised && !Preflight(env, Reserve(env, w, t).world, t).raised
    requires EntityOf(w, n).action == Create || EntityOf(w, n).id.Some?
    ensures EntityOf(Work(env, w, t).world, n).id.Some?
  {
    BeforeFirstCommand(env, w, t);
    var r := Reserve(env, w, t).world;
    ReserveIdentifies(env, w, t, n);
    PreflightKeepsId(env, r, t, n);
    var p := Preflight(env, r, t).world;
    SaveFramed(env, p, t, None);
    assert EntityAt(Work(env, w, t).world, n.self).id == EntityAt(p, n.self).id;
  }

  lemma {:induction false} ReserveIdentifies(env: Environment, w: World, t: Tree, n: Node)
    requires !Reserve(env, w, t).raised && n in Nodes(t)
    requires EntityOf(w, n).action == Create || EntityOf(w, n).id.Some?
    ensures EntityOf(Reserve(env, w, t).world, n).id.Some?
  {
    if EntityOf(w, n).id.Some? {
      IdStaysWhenReserving(env, w, t, n);
    } else {
      EarlyPhasesAreSilent(env, w, t);
      ReserveAssigns(env, w, t);
      var r := Reserve(env, w, t).world;
      assert !IdLess(EntityOf(r, n)) && EntityAt(r, n.self).action == EntityAt(w, n.self).action;
    }
  }

  lemma {:induction false} IdStaysWhenReserving(env: Environment, w: World, t: Tree, n: Node)
    requires EntityOf(w, n).id.Some?
    ensures EntityOf(Reserve(env, w, t).world, n).id.Some?
  {
    var inv := (u: World) => EntityOf(u, n).id.Some?;
    AttachKeepsIds(Nodes(t), n);
    assert KeptByReserve(env, Nodes(t), inv);
    ReserveKeeps(env, Nodes(t), inv, w, t);
  }

  lemma {:induction false} AttachKeepsIds(nodes: set<Node>, n: Node)
    ensures KeptByAttach(nodes, u => EntityOf(u, n).id.Some?)
  {
    forall w, m, root | EntityOf(w, n).id.Some? && m in nodes
      ensures EntityOf(AttachOne(w, m, root).world, n).id.Some?
    {
      AttachChanges(w, m, root);
    }
  }

  lemma {:induction false} PreflightKeepsId(env: Environment, w: World, t: Tree, n: Node)
    requires EntityOf(w, n).id.Some?
    ensures EntityOf(Preflight(env, w, t).world, n).id.Some?
  {
    var inv := (u: World) => EntityOf(u, n).id.Some?;
    AttachKeepsIds(Nodes(t), n);
    assert KeptByCarryBack(Nodes(t), inv);
    assert KeptByLink(Nodes(t), Edges(t), inv);
    PreflightKeeps(env, Nodes(t), Edges(t), inv, w, t);
  }

  /**
    When a child's command was built, its foreign key was its parent's id, and the parent had one (unless it was
    loaded without an id). A child's insert stores that id in the foreign key's column whenever it stores the column.
   */
  lemma {:induction false} ForeignKeysAreParentIds(
    env: Environment, w: World, t: Tree, parent: Node, member: string, column: string, child: Node, i: nat)
    requires Consistent(env, w, t) && IsEdge(t, parent, member, child)
    requires i < |Work(env, w, t).world.sent| && Work(env, w, t).world.sent[i].node == child
    ensures var s, id := Work(env, w, t).world.sent[i], EntityOf(Work(env, w, t).world, parent).id;
      && SentReference(s, member) == IdValue(id)
      && (EntityOf(w, parent).action == Create || EntityOf(w, parent).id.Some? ==> id.Some?)
      && (s.built.action == Create && id.Some? && !IsHeader(s, column) ==>
            forall j :: StoresLast(s, j, column) && child.fields[j].member == member ==>
              column in s.built.values && s.built.values[column] == Some(Int(id.value)))
  {
    WorkIsFaithful(env, w, t);
    FaithfulAtEdge(t, None, [], Work(env, w, t).world.sent, Work(env, w, t).world, parent, member, child, i);
    WorkSendsAsChecked(env, w, t);
    assert GoodEntry(env, Work(env, w, t).world.sent[i]);
    EdgesAreInside(t, parent, member, child);
    if Reserve(env, w, t).raised || Preflight(env, Reserve(env, w, t).world, t).raised {
      NothingSentUnlessPreflightPasses(env, w, t);
    } else if EntityOf(w, parent).action == Create || EntityOf(w, parent).id.Some? {
      StaysIdentified(env, w, t, parent);
    }
    assert Field(member, column).member == member;
  }

  lemma {:induction false} EdgesAreInside(t: Tree, parent: Node, member: string, child: Node)
    requires IsEdge(t, parent, member, child)
    ensures parent in Nodes(t)
    decreases t
  {
    EdgesAreInsideOf(t.children, t.node, parent, member, child);
  }

  lemma {:induction false} EdgesAreInsideOf(f: Forest, owner: Node, parent: Node, member: string, child: Node)
    requires IsEdgeIn(f, owner, parent, member, child)
    ensures parent == owner || parent in NodesOf(f)
    decreases f
  {
    if IsEdge(f.child, parent, member, child) {
      EdgesAreInside(f.child, parent, member, child);
    } else if IsEdgeIn(f.rest, owner, parent, member, child) {
      EdgesAreInsideOf(f.rest, owner, parent, member, child);
    }
  }

  /**
    Without a lineage of its own in the ledger, a command carries the root's reason and the non-blank reasons on
    its path.
   */
  lemma {:induction false} LineageIsThePath(env: Environment, w: World, t: Tree, path: seq<Node>, i: nat)
    requires Consistent(env, w, t) && IsPath(t, path)
    requires i < |Work(env, w, t).world.sent| && Work(env, w, t).world.sent[i].node == path[|path| - 1]
    requires Work(env, w, t).world.sent[i].specific == []
    ensures Work(env, w, t).world.sent[i].lineage == Lineage(Work(env, w, t).world, path)
  {
    WorkIsFaithful(env, w, t);
    FaithfulAlongPath(t, None, [], Work(env, w, t).world.sent, Work(env, w, t).world, path, i);
    assert [] + path == path;
  }

  // ----- the commit

  lemma {:induction false} SentNodesAre(sent: seq<Sent>, i: nat)
    requires i < |sent|
    ensures |SentNodes(sent)| == |sent| && SentNodes(sent)[i] == sent[i].node
  {
    var last := |sent| - 1;
    if last > 0 {
      SentNodesAre(sent[..last], if i < last then i else 0);
    }
    if i < last {
      assert sent[..last][i] == sent[i];
    }
  }

  lemma {:induction false} CommitNodesAre(commits: seq<CommitAction>, n: Node)
    ensures n in CommitNodes(commits) <==> exists a :: a in commits && a.node == n
  {
    if commits != [] {
      var front, last := commits[..|commits| - 1], commits[|commits| - 1];
      CommitNodesAre(front, n);
      assert commits == front + [last];
    }
  }

  lemma {:induction false} PostOrderMembers(t: Tree, among: set<Node>, n: Node)
    ensures n in PostOrder(t, among) <==> n in Nodes(t) && n in among
    decreases t
  {
    PostOrderAllMembers(t.children, among, n);
  }

  lemma {:induction false} PostOrderAllMembers(f: Forest, among: set<Node>, n: Node)
    ensures n in PostOrderAll(f, among) <==> n in NodesOf(f) && n in among
    decreases f
  {
    if f.Child? {
      PostOrderMembers(f.child, among, n);
      PostOrderAllMembers(f.rest, among, n);
    }
  }

  /**
    When the work goes through, commit actions are registered for exactly the entities that sent a command,
    children first.
   */
  lemma {:induction false} CommitsArePostOrder(env: Environment, w: World, t: Tree)
    requires Consistent(env, w, t) && !Work(env, w, t).raised
    ensures var saved := Work(env, w, t).world;
      && CommitNodes(saved.commits) == PostOrder(t, Among(saved.sent))
      && Among(saved.sent) <= Nodes(t)
  {
    BeforeFirstCommand(env, w, t);
    var p, saved := Preflight(env, Reserve(env, w, t).world, t).world, Work(env, w, t).world;
    SaveRegisters(env, p, t, None);
    SaveFramed(env, p, t, None);
    AmongNew(p, saved, Nodes(t));
    assert saved.commits[|p.commits|..] == saved.commits && saved.sent[|p.sent|..] == saved.sent;
  }

  /** What a committed save promises its caller about every entity that sent a command. */
  ghost predicate IsClean(w: World, s: Sent) {
    && !Pending(w, s.node)
    && (s.reply.Persisted? ==> EntityOf(w, s.node).action != Create)
    && (s.reply.Persisted? && s.reply.version.Some? ==> VersionOf(LedgerOf(w, s.node), KeyOf(w, s.node)).Some?)
  }

  /** The ledger records the version the provider answered with. */
  ghost predicate RecordsReply(w: World, s: Sent) {
    s.reply.Persisted? && s.reply.version.Some? ==> VersionOf(LedgerOf(w, s.node), KeyOf(w, s.node)) == s.reply.version
  }

  /** The commit actions for the entity's row end on that version. */
  ghost predicate ReplyIsLast(w: World, s: Sent) {
    s.reply.Persisted? && s.reply.version.Some? ==> EndsOn(w, EntityOf(w, s.node).root, KeyOf(w, s.node), s.reply.version)
  }

  /**
    After a save that went through and committed: no action failed, every entity that sent a command has
    nothing pending, and its ledger records the version the provider persisted if and only if the commit actions
    for its row end on it, as they do when no two entities stand for one row.
   */
  lemma {:induction false} CommittedSaveIsSettled(env: Environment, w: World, t: Tree, i: nat)
    requires Consistent(env, w, t) && !Work(env, w, t).raised && i < |Work(env, w, t).world.sent|
    ensures var saved, end := Work(env, w, t).world, Committed(Work(env, w, t).world).0;
      && Committed(saved).1 == 0
      && CommittedEntry(saved, end, saved.sent[i])
      && (Ready(env, w, t) && KeysDistinct(w, Nodes(t)) ==> RecordsReply(end, saved.sent[i]))
  {
    var saved, end := Work(env, w, t).world, Committed(Work(env, w, t).world).0;
    var s := saved.sent[i];
    CommitsArePostOrder(env, w, t);
    assert s.node in Among(saved.sent);
    PostOrderMembers(t, Among(saved.sent), s.node);
    CommitNodesAre(saved.commits, s.node);
    var a :| a in saved.commits && a.node == s.node;
    CommitSettlesEverySavedEntity(env, w, t);
    assert EntitySettled(saved, end, a) && (HoldsVersion(end, a.node) <==> OwnVersionIsLast(saved, a.node));
    WorkIsFaithful(env, w, t);
    if s.reply.Persisted? {
      FaithfulVersions(t, None, [], saved.sent, saved, i);
    }
  }

  /**
    The next command for a saved entity is conditional on the version this save persisted, under the same
    condition.
   */
  lemma {:induction false} NextCommandExpectsPersistedVersion(env: Environment, w: World, t: Tree, i: nat)
    requires Consistent(env, w, t) && !Work(env, w, t).raised && i < |Work(env, w, t).world.sent|
    requires Work(env, w, t).world.sent[i].reply.Persisted? && Work(env, w, t).world.sent[i].reply.version.Some?
    ensures var saved, end := Work(env, w, t).world, Committed(Work(env, w, t).world).0;
      var s := saved.sent[i];
      && (BuildCommand(end, s.node).expectedVersion == s.reply.version <==> ReplyIsLast(saved, s))
      && (Ready(env, w, t) && KeysDistinct(w, Nodes(t)) ==>
        BuildCommand(end, s.node).expectedVersion == s.reply.version)
  {
    CommittedSaveIsSettled(env, w, t, i);
  }

  /**
    The driver is all or nothing for the entities of the tree: nothing is saved exactly when the work stopped or
    the provider did not commit, and then every entity is back, no version is lost and the graph can be saved again.
    Otherwise everything that was sent is clean, versions are recorded as `CommittedSaveIsSettled` says, and failures are raised only for
    audit events that were not delivered. Either way the session ends with nothing registered.
   */
  lemma {:induction false} ExecuteRestoresOrSettles(
    env: Environment, w: World, t: Tree, providerCommits: bool, undelivered: nat)
    requires Starting(env, w, t)
    ensures var work, end := Work(env, w, t), Execute(env, w, t, providerCommits, undelivered);
      && end.world.undo == [] && end.world.commits == []
      && (if work.raised || !providerCommits then
            && end.ending == NotSaved
            && WellFormed(end.world, Nodes(t))
            && VersionsStay(w, end.world)
            && forall n :: n in Nodes(t) ==> IsBack(t, w, end.world, n)
          else
            && end.ending == (if undelivered == 0 then Saved else SavedWithFailures(undelivered))
            && (forall i :: 0 <= i < |work.world.sent| ==> CommittedEntry(work.world, end.world, work.world.sent[i]))
            && (KeysDistinct(w, Nodes(t)) ==>
                  forall i :: 0 <= i < |work.world.sent| ==> RecordsReply(end.world, work.world.sent[i])))
  {
    var work := Work(env, w, t);
    BlankReasonIs(t.node.reason);
    if TraceScope.BlankReason(t.node.reason) {
      WorkNeedsAReason(env, w, t);
      NothingIsBack(w, t);
    } else if work.raised || !providerCommits {
      OneMoreAttempt(env, w, t);
    } else {
      var end := Committed(work.world).0;
      StartingIsConsistent(env, w, t);
      CommitSettlesEverySavedEntity(env, w, t);
      forall i | 0 <= i < |work.world.sent|
        ensures CommittedEntry(work.world, Close(end), work.world.sent[i])
        ensures KeysDistinct(w, Nodes(t)) ==> RecordsReply(Close(end), work.world.sent[i])
      {
        CommittedSaveIsSettled(env, w, t, i);
        CloseKeepsSettled(end, work.world.sent[i]);
      }
    }
  }

  ghost predicate CommittedEntry(saved: World, end: World, s: Sent) {
    IsClean(end, s) && (RecordsReply(end, s) <==> ReplyIsLast(saved, s))
  }

  /** A root without a reason has no scope to save in, and no session is started for it. */
  lemma {:induction false} WorkNeedsAReason(env: Environment, w: World, t: Tree)
    requires IsBlank(t.node.reason)
    ensures Work(env, w, t).raised
  {
    BlankReasonIs(t.node.reason);
    var r := Reserve(env, w, t);
    if !r.raised {
      var p := Preflight(env, r.world, t);
      assert ScopeOf(p.world, t.node, None).None?;
    }
  }

  lemma {:induction false} CloseKeepsSettled(w: World, s: Sent)
    ensures IsClean(Close(w), s) <==> IsClean(w, s)
    ensures RecordsReply(Close(w), s) <==> RecordsReply(w, s)
  {
    assert EntityOf(Close(w), s.node) == EntityOf(w, s.node);
    assert LedgerOf(Close(w), s.node) == LedgerOf(w, s.node);
  }
}
