/** The order of a save: which entities it reaches, which of them get a command, and how commits are registered. */
module GraphOrder {
  import opened Outcomes
  import opened LedgerModel
  import opened GraphModel
  import opened GraphRollback
  import opened GraphTrace
  import TraceScope

  /** The entities a save reaches, parents first; nothing below an entity to be deleted. */
  function PreOrder(t: Tree, w: World): seq<Node>
    decreases t
  {
    [t.node] + (if EntityOf(w, t.node).action == Delete then [] else PreOrderAll(t.children, w))
  }

  function PreOrderAll(f: Forest, w: World): seq<Node>
    decreases f
  {
    match f
    case Done => []
    case Child(_, _, child, rest) => PreOrder(child, w) + PreOrderAll(rest, w)
  }

  function VisitedNodes(visits: seq<Visit>): seq<Node> {
    if visits == [] then [] else VisitedNodes(visits[..|visits| - 1]) + [visits[|visits| - 1].node]
  }

  /** The reached entities that are new, deleted or pending at that moment. */
  function CommandedNodes(visits: seq<Visit>): seq<Node> {
    if visits == [] then []
    else
      var front, last := CommandedNodes(visits[..|visits| - 1]), visits[|visits| - 1];
      if last.Commanded() then front + [last.node] else front
  }

  function SentNodes(sent: seq<Sent>): seq<Node> {
    if sent == [] then [] else SentNodes(sent[..|sent| - 1]) + [sent[|sent| - 1].node]
  }

  function CommitNodes(commits: seq<CommitAction>): seq<Node> {
    if commits == [] then [] else CommitNodes(commits[..|commits| - 1]) + [commits[|commits| - 1].node]
  }

  lemma {:induction false} VisitsConcat(a: seq<Visit>, b: seq<Visit>)
    ensures VisitedNodes(a + b) == VisitedNodes(a) + VisitedNodes(b)
    ensures CommandedNodes(a + b) == CommandedNodes(a) + CommandedNodes(b)
  {
    if b == [] {
      assert a + b == a;
    } else {
      assert (a + b)[..|a + b| - 1] == a + b[..|b| - 1];
      VisitsConcat(a, b[..|b| - 1]);
    }
  }

  lemma {:induction false} SentConcat(a: seq<Sent>, b: seq<Sent>)
    ensures SentNodes(a + b) == SentNodes(a) + SentNodes(b)
  {
    if b == [] {
      assert a + b == a;
    } else {
      assert (a + b)[..|a + b| - 1] == a + b[..|b| - 1];
      SentConcat(a, b[..|b| - 1]);
    }
  }

  lemma {:induction false} CommitsConcat(a: seq<CommitAction>, b: seq<CommitAction>)
    ensures CommitNodes(a + b) == CommitNodes(a) + CommitNodes(b)
  {
    if b == [] {
      assert a + b == a;
    } else {
      assert (a + b)[..|a + b| - 1] == a + b[..|b| - 1];
      CommitsConcat(a, b[..|b| - 1]);
    }
  }

  /** The actions of a subtree's entities, which saving other subtrees leaves alone. */
  ghost predicate SameActions(w: World, w1: World, selves: set<NodeId>) {
    forall id :: id in selves ==> EntityAt(w1, id).action == EntityAt(w, id).action
  }

  lemma {:induction false} PreOrderDependsOnActions(t: Tree, w: World, w1: World)
    requires SameActions(w, w1, Selves(t))
    ensures PreOrder(t, w1) == PreOrder(t, w)
    decreases t
  {
    PreOrderAllDependsOnActions(t.children, w, w1);
  }

  lemma {:induction false} PreOrderAllDependsOnActions(f: Forest, w: World, w1: World)
    requires SameActions(w, w1, SelvesOf(f))
    ensures PreOrderAll(f, w1) == PreOrderAll(f, w)
    decreases f
  {
    if f.Child? {
      PreOrderDependsOnActions(f.child, w, w1);
      PreOrderAllDependsOnActions(f.rest, w, w1);
    }
  }

  /**
    Of the commanded entities all were sent a command; when the save stopped, all but possibly the one reached
    last.
   */
  ghost predicate SentMatch(visits: seq<Visit>, sent: seq<Sent>, raised: bool) {
    || SentNodes(sent) == CommandedNodes(visits)
    || (raised && visits != [] && SentNodes(sent) == CommandedNodes(visits[..|visits| - 1]))
  }

  lemma {:induction false} SentMatchConcat(visits: seq<Visit>, more: seq<Visit>, sent: seq<Sent>, rest: seq<Sent>,
      raised: bool)
    requires SentMatch(visits, sent, false) && SentMatch(more, rest, raised)
    ensures SentMatch(visits + more, sent + rest, raised)
  {
    VisitsConcat(visits, more);
    SentConcat(sent, rest);
    if more != [] {
      assert (visits + more)[..|visits + more| - 1] == visits + more[..|more| - 1];
      VisitsConcat(visits, more[..|more| - 1]);
    }
  }

  /** What a part of a save added to the logs, held against the entities it should reach. */
  ghost predicate Covers(w: World, w1: World, raised: bool, order: seq<Node>) {
    && w.visits <= w1.visits && w.sent <= w1.sent
    && var visits, sent := w1.visits[|w.visits|..], w1.sent[|w.sent|..];
    && (if raised then VisitedNodes(visits) <= order else VisitedNodes(visits) == order)
    && SentMatch(visits, sent, raised)
  }

  lemma {:induction false} CoversThen(w: World, w1: World, w2: World, raised: bool, order: seq<Node>, more: seq<Node>)
    requires Covers(w, w1, false, order) && Covers(w1, w2, raised, more)
    ensures Covers(w, w2, raised, order + more)
  {
    var va, vb := w1.visits[|w.visits|..], w2.visits[|w1.visits|..];
    var sa, sb := w1.sent[|w.sent|..], w2.sent[|w1.sent|..];
    assert w2.visits[|w.visits|..] == va + vb;
    assert w2.sent[|w.sent|..] == sa + sb;
    VisitsConcat(va, vb);
    SentMatchConcat(va, vb, sa, sb, raised);
  }

  lemma {:induction false} CoversNothing(w: World, w1: World)
    requires w1.visits == w.visits && w1.sent == w.sent
    ensures Covers(w, w1, false, [])
  {
    assert w1.visits[|w.visits|..] == [] && w1.sent[|w.sent|..] == [];
  }

  lemma {:induction false} CoversStopped(w: World, w1: World, order: seq<Node>, more: seq<Node>)
    requires Covers(w, w1, true, order)
    ensures Covers(w, w1, true, order + more)
  {
  }

  /** An entity that gets no command is visited and passed over. */
  lemma {:induction false} CoversClean(w: World, n: Node)
    requires EntityOf(w, n).action == Update && !Pending(w, n)
    ensures Covers(w, Reach(w, n), false, [n])
  {
    var w1 := Reach(w, n);
    var v := Visit(n, EntityOf(w, n).action, Pending(w, n));
    assert w1.visits[|w.visits|..] == [v] && w1.sent[|w.sent|..] == [];
    assert [v][..0] == [];
  }

  /** An entity that gets a command is visited, and sent its command unless the save stops first. */
  lemma {:induction false} CoversOwn(w: World, w1: World, n: Node, raised: bool)
    requires EntityOf(w, n).action != Update || Pending(w, n)
    requires w1.visits == Reach(w, n).visits && w.sent <= w1.sent && |w1.sent| <= |w.sent| + 1
    requires forall i :: |w.sent| <= i < |w1.sent| ==> w1.sent[i].node == n
    requires !raised ==> |w1.sent| == |w.sent| + 1
    ensures Covers(w, w1, raised, [n])
  {
    var v := Visit(n, EntityOf(w, n).action, Pending(w, n));
    assert w1.visits[|w.visits|..] == [v];
    assert [v][..0] == [];
    var sent := w1.sent[|w.sent|..];
    if |sent| == 1 {
      assert sent[..0] == [] && sent[0] == w1.sent[|w.sent|];
    } else {
      assert sent == [];
    }
  }

  lemma {:induction false} CoversRegistered(w: World, w1: World, raised: bool, order: seq<Node>, n: Node,
      key: EntityKey)
    requires Covers(w, w1, raised, order)
    ensures Covers(w, RegisterCommit(w1, n, key), raised, order)
  {
  }

  /**
    A save reaches exactly the entities of its pre-order (a prefix of it, if it stops), and of the reached
    ones sends one command each to those that are new, deleted or pending, in that order.
   */
  lemma {:induction false} SaveCovers(env: Environment, w: World, t: Tree, parent: Option<TraceScope.Scope>)
    requires ReturnsReservedId(env) && IdsConsistent(w, Selves(t)) && Proper(t)
    ensures var r := Save(env, w, t, parent);
      Covers(w, r.world, r.raised, PreOrder(t, w))
    decreases t, 1
  {
    var n := t.node;
    var scope := ScopeOf(w, n, parent);
    if scope.None? {
      CoversNothing(w, w);
      CoversStopped(w, w, [], PreOrder(t, w));
    } else {
      var w1 := Reach(w, n);
      assert forall id :: EntityAt(w1, id) == EntityAt(w, id);
      var action := EntityOf(w, n).action;
      if action == Update && !Pending(w, n) {
        CoversClean(w, n);
        SaveAllCovers(env, w1, n, t.children, scope.value);
        PreOrderAllDependsOnActions(t.children, w, w1);
        var c := SaveAll(env, w1, n, t.children, scope.value);
        CoversThen(w, w1, c.world, c.raised, [n], PreOrderAll(t.children, w));
      } else {
        SaveCommandedCovers(env, w, w1, t, scope.value);
      }
    }
  }

  lemma {:induction false} SaveOwnCovers(env: Environment, w: World, w1: World, t: Tree, scope: TraceScope.Scope)
    requires ReturnsReservedId(env) && IdsConsistent(w1, Selves(t)) && Proper(t) && w1 == Reach(w, t.node)
    requires EntityOf(w, t.node).action != Update || Pending(w, t.node)
    ensures var own := SaveOwn(env, w1, t, scope);
      && Covers(w, own.world, own.raised, [t.node])
      && IdsConsistent(own.world, SelvesOf(t.children))
      && PreOrderAll(t.children, own.world) == PreOrderAll(t.children, w)
  {
    var own := SaveOwn(env, w1, t, scope);
    SaveOwnFramed(env, w1, t, scope);
    CoversOwn(w, own.world, t.node, own.raised);
    FramedKeepsIds(w1, own.world, {t.node.self}, SelvesOf(t.children));
    PreOrderAllDependsOnActions(t.children, w, own.world);
  }

  /** The part that follows a visit when the entity is to get a command. */
  lemma {:induction false} SaveCommandedCovers(env: Environment, w: World, w1: World, t: Tree, scope: TraceScope.Scope)
    requires ReturnsReservedId(env) && IdsConsistent(w1, Selves(t)) && Proper(t) && w1 == Reach(w, t.node)
    requires EntityOf(w, t.node).action != Update || Pending(w, t.node)
    ensures var r := SaveCommanded(env, w1, t, scope, EntityOf(w, t.node).action == Delete);
      Covers(w, r.world, r.raised, PreOrder(t, w))
    decreases t, 0
  {
    var n, own := t.node, SaveOwn(env, w1, t, scope);
    SaveOwnCovers(env, w, w1, t, scope);
    if own.raised {
      CoversStopped(w, own.world, [n], PreOrder(t, w)[1..]);
      assert [n] + PreOrder(t, w)[1..] == PreOrder(t, w);
    } else if EntityOf(w, n).action == Delete {
      CoversRegistered(w, own.world, false, PreOrder(t, w), n, KeyOf(own.world, n));
    } else {
      SaveAllCovers(env, own.world, n, t.children, scope);
      var c := SaveAll(env, own.world, n, t.children, scope);
      CoversThen(w, own.world, c.world, c.raised, [n], PreOrderAll(t.children, w));
      if !c.raised {
        CoversRegistered(w, c.world, false, PreOrder(t, w), n, KeyOf(own.world, n));
      }
    }
  }

  lemma {:induction false} SaveAllCovers(env: Environment, w: World, parent: Node, f: Forest, scope: TraceScope.Scope)
    requires ReturnsReservedId(env) && IdsConsistent(w, SelvesOf(f)) && ProperAll(f)
    ensures var r := SaveAll(env, w, parent, f, scope);
      Covers(w, r.world, r.raised, PreOrderAll(f, w))
    decreases f
  {
    if f.Done? {
      CoversNothing(w, w);
    } else {
      var order, rest := PreOrder(f.child, w), PreOrderAll(f.rest, w);
      var r := Attach(w, f.child, EntityOf(w, parent).root);
      AttachChangesRoots(w, f.child, EntityOf(w, parent).root);
      OnlyRootsFramed(w, r.world);
      if r.raised {
        CoversNothing(w, r.world);
        CoversStopped(w, r.world, [], order + rest);
        assert [] + (order + rest) == order + rest;
      } else {
        var linked := LinkIfNeeded(r.world, f.child.node, f.member, f.column, parent);
        LinkFramed(r.world, f.child.node, f.member, f.column, parent);
        ChildStart(w, r.world, linked, f.child);
        FramedKeepsIds(r.world, linked, {f.child.node.self}, SelvesOf(f));
        SaveCovers(env, linked, f.child, Some(scope));
        var s := Save(env, linked, f.child, Some(scope));
        CoversNothing(w, linked);
        CoversThen(w, linked, s.world, s.raised, [], order);
        assert [] + order == order;
        if s.raised {
          CoversStopped(w, s.world, order, rest);
        } else {
          SaveFramed(env, linked, f.child, Some(scope));
          FramedKeepsIds(linked, s.world, Selves(f.child), SelvesOf(f));
          SaveAllCovers(env, s.world, parent, f.rest, scope);
          RestUnchanged(w, r.world, linked, s.world, f);
          var c := SaveAll(env, s.world, parent, f.rest, scope);
          CoversThen(w, s.world, c.world, c.raised, order, rest);
        }
      }
    }
  }

  /** Attaching and linking a child leave the order of its subtree alone. */
  lemma {:induction false} ChildStart(w: World, attached: World, linked: World, child: Tree)
    requires OnlyRootsDiffer(w, attached) && Framed(attached, linked, {child.node.self})
    requires EntityOf(linked, child.node).action == EntityOf(attached, child.node).action
    ensures PreOrder(child, linked) == PreOrder(child, w)
  {
    forall id | id in Selves(child)
      ensures EntityAt(linked, id).action == EntityAt(w, id).action
    {
      assert SameButRoot(EntityAt(attached, id), EntityAt(w, id));
      assert EntityAt(linked, child.node.self) == EntityOf(linked, child.node);
    }
    PreOrderDependsOnActions(child, w, linked);
  }

  /** Saving one child leaves the order of its later siblings alone. */
  lemma {:induction false} RestUnchanged(w: World, attached: World, linked: World, saved: World, f: Forest)
    requires f.Child? && ProperAll(f)
    requires OnlyRootsDiffer(w, attached) && Framed(attached, linked, {f.child.node.self})
      && Framed(linked, saved, Selves(f.child))
    ensures PreOrderAll(f.rest, saved) == PreOrderAll(f.rest, w)
  {
    forall id | id in SelvesOf(f.rest)
      ensures EntityAt(saved, id).action == EntityAt(w, id).action
    {
      assert SameButRoot(EntityAt(attached, id), EntityAt(w, id));
      assert id !in Selves(f.child) && f.child.node.self in Selves(f.child);
    }
    PreOrderAllDependsOnActions(f.rest, w, saved);
  }

  // ----- commit actions

  /** The entities of `among`, children before their parent. */
  function PostOrder(t: Tree, among: set<Node>): seq<Node>
    decreases t
  {
    PostOrderAll(t.children, among) + if t.node in among then [t.node] else []
  }

  function PostOrderAll(f: Forest, among: set<Node>): seq<Node>
    decreases f
  {
    match f
    case Done => []
    case Child(_, _, child, rest) => PostOrder(child, among) + PostOrderAll(rest, among)
  }

  lemma {:induction false} PostOrderDependsOnMembers(t: Tree, a: set<Node>, b: set<Node>)
    requires forall n :: n in Nodes(t) ==> (n in a <==> n in b)
    ensures PostOrder(t, a) == PostOrder(t, b)
    decreases t
  {
    PostOrderAllDependsOnMembers(t.children, a, b);
  }

  lemma {:induction false} PostOrderAllDependsOnMembers(f: Forest, a: set<Node>, b: set<Node>)
    requires forall n :: n in NodesOf(f) ==> (n in a <==> n in b)
    ensures PostOrderAll(f, a) == PostOrderAll(f, b)
    decreases f
  {
    if f.Child? {
      PostOrderDependsOnMembers(f.child, a, b);
      PostOrderAllDependsOnMembers(f.rest, a, b);
    }
  }

  lemma {:induction false} NobodyInPostOrder(f: Forest)
    ensures PostOrderAll(f, {}) == []
    decreases f
  {
    if f.Child? {
      NobodyInPostOrder(f.child.children);
      NobodyInPostOrder(f.rest);
    }
  }

  function Among(sent: seq<Sent>): set<Node> {
    set i | 0 <= i < |sent| :: sent[i].node
  }

  /** The commit actions added between two states are those of the commands sent between them, in post-order. */
  ghost predicate Registers(w: World, w1: World, order: set<Node> -> seq<Node>) {
    && w.sent <= w1.sent && w.commits <= w1.commits
    && CommitNodes(w1.commits[|w.commits|..]) == order(Among(w1.sent[|w.sent|..]))
  }

  lemma {:induction false} RegistersThen(w: World, w1: World, w2: World, f: set<Node> -> seq<Node>,
      g: set<Node> -> seq<Node>,
      h: set<Node> -> seq<Node>)
    requires Registers(w, w1, f) && Registers(w1, w2, g)
    requires var a, b := Among(w1.sent[|w.sent|..]), Among(w2.sent[|w1.sent|..]);
      h(a + b) == f(a) + g(b)
    ensures Registers(w, w2, h)
  {
    var sa, sb := w1.sent[|w.sent|..], w2.sent[|w1.sent|..];
    var ca, cb := w1.commits[|w.commits|..], w2.commits[|w1.commits|..];
    assert w2.sent[|w.sent|..] == sa + sb;
    assert w2.commits[|w.commits|..] == ca + cb;
    CommitsConcat(ca, cb);
    assert Among(sa + sb) == Among(sa) + Among(sb) by {
      forall n
        ensures n in Among(sa + sb) <==> n in Among(sa) || n in Among(sb)
      {
        if i :| 0 <= i < |sa| && sa[i].node == n { assert (sa + sb)[i].node == n; }
        if i :| 0 <= i < |sb| && sb[i].node == n { assert (sa + sb)[|sa| + i].node == n; }
      }
    }
  }

  lemma {:induction false} AmongNew(w: World, w1: World, nodes: set<Node>)
    requires w.sent <= w1.sent && NewSentAmong(w, w1, nodes)
    ensures Among(w1.sent[|w.sent|..]) <= nodes
  {
  }

  lemma {:induction false} NotBelowItself(t: Tree)
    requires Proper(t)
    ensures t.node !in NodesOf(t.children)
  {
    if t.node in NodesOf(t.children) {
      NodesOfHaveSelves(t.children, t.node);
    }
  }

  lemma {:induction false} SiblingsApart(f: Forest)
    requires f.Child? && ProperAll(f)
    ensures Nodes(f.child) !! NodesOf(f.rest)
  {
    forall n | n in Nodes(f.child) && n in NodesOf(f.rest)
      ensures false
    {
      NodesHaveSelves(f.child, n);
      NodesOfHaveSelves(f.rest, n);
    }
  }

  /**
    When a save goes through, exactly the entities that sent a command have a commit action, children before their
    parent.
   */
  lemma {:induction false} SaveRegisters(env: Environment, w: World, t: Tree, parent: Option<TraceScope.Scope>)
    requires ReturnsReservedId(env) && IdsConsistent(w, Selves(t)) && Proper(t)
    ensures var r := Save(env, w, t, parent);
      !r.raised ==> Registers(w, r.world, among => PostOrder(t, among))
    decreases t
  {
    var n, r := t.node, Save(env, w, t, parent);
    if !r.raised {
      var scope := ScopeOf(w, n, parent).value;
      var w1 := Reach(w, n);
      assert forall id :: EntityAt(w1, id) == EntityAt(w, id);
      NotBelowItself(t);
      if EntityOf(w, n).action == Update && !Pending(w, n) {
        SaveAllFramed(env, w1, n, t.children, scope);
        SaveAllRegisters(env, w1, n, t.children, scope);
        AmongNew(w1, r.world, NodesOf(t.children));
        assert n !in Among(r.world.sent[|w1.sent|..]);
      } else {
        SaveOwnFramed(env, w1, t, scope);
        var own := SaveOwn(env, w1, t, scope);
        var c := if EntityOf(w, n).action == Delete then own else SaveAll(env, own.world, n, t.children, scope);
        FramedKeepsIds(w1, own.world, {n.self}, SelvesOf(t.children));
        if EntityOf(w, n).action != Delete {
          SaveAllFramed(env, own.world, n, t.children, scope);
          SaveAllRegisters(env, own.world, n, t.children, scope);
        } else {
          NobodyInPostOrder(t.children);
          NothingNew(own.world, t.children);
        }
        AmongNew(own.world, c.world, NodesOf(t.children));
        OwnRegisters(w, own.world, c.world, t, KeyOf(own.world, n));
      }
    }
  }

  lemma {:induction false} NothingNew(w: World, f: Forest)
    requires PostOrderAll(f, {}) == []
    ensures Registers(w, w, among => PostOrderAll(f, among))
  {
    assert w.sent[|w.sent|..] == [] && w.commits[|w.commits|..] == [];
    assert Among([]) == {};
  }

  lemma {:induction false} OwnRegisters(w: World, own: World, w2: World, t: Tree, key: EntityKey)
    requires w.sent <= own.sent && own.commits == w.commits && |own.sent| == |w.sent| + 1
      && own.sent[|w.sent|].node == t.node
    requires Registers(own, w2, among => PostOrderAll(t.children, among))
    requires Among(w2.sent[|own.sent|..]) <= NodesOf(t.children) && t.node !in NodesOf(t.children)
    ensures Registers(w, RegisterCommit(w2, t.node, key), among => PostOrder(t, among))
  {
    var n, below := t.node, Among(w2.sent[|own.sent|..]);
    assert w2.sent[|w.sent|..] == [own.sent[|w.sent|]] + w2.sent[|own.sent|..];
    AmongAppend(own.sent[|w.sent|], w2.sent[|own.sent|..]);
    PostOrderAllDependsOnMembers(t.children, {n} + below, below);
    CommitsAppend(w, w2, n, key);
  }

  lemma {:induction false} AmongAppend(first: Sent, rest: seq<Sent>)
    ensures Among([first] + rest) == {first.node} + Among(rest)
  {
    var sent := [first] + rest;
    forall m
      ensures m in Among(sent) <==> m == first.node || m in Among(rest)
    {
      if m == first.node { assert sent[0].node == m; }
      if i :| 0 <= i < |rest| && rest[i].node == m { assert sent[i + 1].node == m; }
    }
  }

  lemma {:induction false} CommitsAppend(w: World, w1: World, n: Node, key: EntityKey)
    requires w.commits <= w1.commits
    ensures var w2 := RegisterCommit(w1, n, key);
      w2.sent == w1.sent && w.commits <= w2.commits
      && CommitNodes(w2.commits[|w.commits|..]) == CommitNodes(w1.commits[|w.commits|..]) + [n]
  {
    var commits, last := w1.commits[|w.commits|..], CommitEntity(n, key);
    assert RegisterCommit(w1, n, key).commits[|w.commits|..] == commits + [last];
    assert (commits + [last])[..|commits|] == commits;
  }

  lemma {:induction false} SaveAllRegisters(env: Environment, w: World, parent: Node, f: Forest,
      scope: TraceScope.Scope)
    requires ReturnsReservedId(env) && IdsConsistent(w, SelvesOf(f)) && ProperAll(f)
    ensures var r := SaveAll(env, w, parent, f, scope);
      !r.raised ==> Registers(w, r.world, among => PostOrderAll(f, among))
    decreases f
  {
    var r := SaveAll(env, w, parent, f, scope);
    if f.Done? {
      NothingNew(w, f);
    } else if !r.raised {
      var linked := ChildLinked(w, f, parent);
      ChildIsReady(w, f, parent);
      SaveFramed(env, linked, f.child, Some(scope));
      SaveRegisters(env, linked, f.child, Some(scope));
      var s := Save(env, linked, f.child, Some(scope)).world;
      FramedKeepsIds(linked, s, Selves(f.child), SelvesOf(f));
      SaveAllFramed(env, s, parent, f.rest, scope);
      SaveAllRegisters(env, s, parent, f.rest, scope);
      SiblingsRegister(linked, s, r.world, f);
    }
  }

  /** The world a child is saved in: attached and linked. */
  ghost function ChildLinked(w: World, f: Forest, parent: Node): World
    requires f.Child?
  {
    LinkIfNeeded(Attach(w, f.child, EntityOf(w, parent).root).world, f.child.node, f.member, f.column, parent)
  }

  lemma {:induction false} ChildIsReady(w: World, f: Forest, parent: Node)
    requires f.Child? && IdsConsistent(w, SelvesOf(f))
    ensures var linked := ChildLinked(w, f, parent);
      linked.sent == w.sent && linked.commits == w.commits && IdsConsistent(linked, SelvesOf(f))
  {
    var a := Attach(w, f.child, EntityOf(w, parent).root).world;
    AttachChangesRoots(w, f.child, EntityOf(w, parent).root);
    OnlyRootsFramed(w, a);
    LinkFramed(a, f.child.node, f.member, f.column, parent);
    FramedKeepsIds(a, ChildLinked(w, f, parent), {f.child.node.self}, SelvesOf(f));
  }

  /** The actions of a child and of its later siblings together. */
  lemma {:induction false} SiblingsRegister(w: World, w1: World, w2: World, f: Forest)
    requires f.Child? && ProperAll(f)
    requires Registers(w, w1, among => PostOrder(f.child, among))
      && Registers(w1, w2, among => PostOrderAll(f.rest, among))
    requires NewSentAmong(w, w1, Nodes(f.child)) && NewSentAmong(w1, w2, NodesOf(f.rest))
    ensures Registers(w, w2, among => PostOrderAll(f, among))
  {
    SiblingsApart(f);
    AmongNew(w, w1, Nodes(f.child));
    AmongNew(w1, w2, NodesOf(f.rest));
    var first, second := Among(w1.sent[|w.sent|..]), Among(w2.sent[|w1.sent|..]);
    PostOrderDependsOnMembers(f.child, first + second, first);
    PostOrderAllDependsOnMembers(f.rest, first + second, second);
    RegistersThen(w, w1, w2, among => PostOrder(f.child, among), among => PostOrderAll(f.rest, among),
      among => PostOrderAll(f, among));
  }
}
