/** What a command sent stays recorded: a save writes under the keys of its own entities only. */
module GraphRecorded {
  import opened Outcomes
  import opened LedgerModel
  import opened LedgerLaws
  import opened GraphModel
  import opened GraphInduction
  import opened GraphRollback
  import opened GraphRetained
  import opened GraphTrace
  import opened GraphEarly
  import TraceScope

  // ----- what one step writes

  /** Other entities are exactly as before, and so are the fields under other keys, in every layer of every ledger. */
  ghost predicate Within(w: World, w1: World, keys: set<EntityKey>, selves: set<NodeId>) {
    && (forall id :: id !in selves ==> EntityAt(w1, id) == EntityAt(w, id))
    && (forall root, key :: key !in keys ==> FieldsIn(LedgerAt(w1, root).layers, key) == FieldsIn(LedgerAt(w, root).layers, key))
  }

  lemma {:induction false} WithinTwice(w: World, w1: World, w2: World, keys: set<EntityKey>, selves: set<NodeId>)
    requires Within(w, w1, keys, selves) && Within(w1, w2, keys, selves)
    ensures Within(w, w2, keys, selves)
  {
  }

  lemma {:induction false} WithinMore(w: World, w1: World, keys: set<EntityKey>, selves: set<NodeId>,
      moreKeys: set<EntityKey>, moreSelves: set<NodeId>)
    requires Within(w, w1, keys, selves) && keys <= moreKeys && selves <= moreSelves
    ensures Within(w, w1, moreKeys, moreSelves)
  {
  }

  lemma {:induction false} ImportWithin(target: Root, source: Root, imported: EntityKey, key: EntityKey)
    requires key != imported
    ensures FieldsIn(Import(target, Snapshot(source, imported)).layers, key) == FieldsIn(target.layers, key)
  {
    ImportLayers(target, source, imported);
    ImportedFields(Top(target), Top(source), imported, imported in source.deletedKeys, key);
  }

  lemma {:induction false} AddFieldsWithin(l: Root, written: EntityKey, fields: Fields, key: EntityKey)
    ensures var r := FieldsIn(WithTop(l, AddFields(Top(l), written, fields)).layers, key);
      var before := FieldsIn(l.layers, key);
      r == if key == written then before[|before| - 1 := before[|before| - 1] + fields] else before
  {
    assert map[] + fields == fields && FieldsOf(Top(l), written) + map[] == FieldsOf(Top(l), written);
  }

  lemma {:induction false} PutWithin(l: Root, written: EntityKey, field: string, value: Cell, key: EntityKey)
    requires key != written
    ensures FieldsIn(Put(l, written, field, value).layers, key) == FieldsIn(l.layers, key)
  {
  }

  lemma {:induction false} AttachWithin(w: World, n: Node, root: RootId)
    ensures Within(w, AttachOne(w, n, root).world, {KeyOf(w, n)}, {n.self})
  {
    var l := Import(LedgerAt(w, root), Snapshot(LedgerOf(w, n), KeyOf(w, n)));
    AttachOneIs(w, n, root);
    forall key | key != KeyOf(w, n)
      ensures FieldsIn(l.layers, key) == FieldsIn(LedgerAt(w, root).layers, key)
    {
      ImportWithin(LedgerAt(w, root), LedgerOf(w, n), KeyOf(w, n), key);
    }
    AttachedWithin(w, n, root, l);
  }

  lemma {:induction false} AttachedWithin(w: World, n: Node, root: RootId, l: Root)
    requires forall key :: key != KeyOf(w, n) ==> FieldsIn(l.layers, key) == FieldsIn(LedgerAt(w, root).layers, key)
    ensures Within(w, AttachedWorld(w, n, root, l), {KeyOf(w, n)}, {n.self})
  {
    var w1 := AttachedWorld(w, n, root, l);
    assert forall r :: LedgerAt(w1, r) == if r == root then l else LedgerAt(w, r);
  }

  lemma {:induction false} LinkWithin(w: World, child: Node, member: string, column: string, parent: Node)
    ensures Within(w, Link(w, child, member, column, parent), {KeyOf(w, child)}, {child.self})
  {
    var w1, l := Link(w, child, member, column, parent), LedgerOf(w, child);
    var r := Put(l, KeyOf(w, child), column, IdValue(EntityOf(w, parent).id));
    forall key | key != KeyOf(w, child)
      ensures FieldsIn(r.layers, key) == FieldsIn(l.layers, key)
    {
      PutWithin(l, KeyOf(w, child), column, IdValue(EntityOf(w, parent).id), key);
    }
    assert forall root :: LedgerAt(w1, root) == if root == EntityOf(w, child).root then r else LedgerAt(w, root);
  }

  /** The command's values, as its checker left them, are added to the top layer. */
  lemma {:induction false} CarryBackWrites(w: World, n: Node, values: Fields)
    ensures var w1 := CarryBack(Tick(w), n, values);
      && w1.entities == w.entities && Within(w, w1, {KeyOf(w, n)}, {})
      && LayeredFields(w1, n) == if EntityOf(w, n).action == Delete then LayeredFields(w, n) else WithCarried(LayeredFields(w, n), values)
  {
    var w1, l := CarryBack(Tick(w), n, values), LedgerOf(w, n);
    if EntityOf(w, n).action != Delete {
      var r := WithTop(l, AddFields(Top(l), KeyOf(w, n), Carried(values)));
      forall key
        ensures FieldsIn(r.layers, key)
             == if key == KeyOf(w, n) then WithCarried(FieldsIn(l.layers, key), values) else FieldsIn(l.layers, key)
      {
        AddFieldsWithin(l, KeyOf(w, n), Carried(values), key);
      }
      LedgerWritten(w, n, r);
    }
  }

  lemma {:induction false} LedgerWritten(w: World, n: Node, r: Root)
    requires forall key :: key != KeyOf(w, n) ==> FieldsIn(r.layers, key) == FieldsIn(LedgerOf(w, n).layers, key)
    ensures var w1 := WithLedger(Tick(w), EntityOf(w, n).root, r);
      Within(w, w1, {KeyOf(w, n)}, {}) && LayeredFields(w1, n) == FieldsIn(r.layers, KeyOf(w, n))
  {
    var w1 := WithLedger(Tick(w), EntityOf(w, n).root, r);
    assert forall root :: LedgerAt(w1, root) == if root == EntityOf(w, n).root then r else LedgerAt(w, root);
    assert forall id :: EntityAt(w1, id) == EntityAt(w, id);
  }

  /** The fields of a key with these values on top. */
  function WithCarried(fields: seq<Fields>, values: Fields): seq<Fields>
    requires fields != []
  {
    fields[|fields| - 1 := fields[|fields| - 1] + Carried(values)]
  }

  /** A send writes the values of its command, and its entry tells what was there before. */
  lemma {:induction false} SendWrites(env: Environment, w: World, n: Node, scope: TraceScope.Scope)
    ensures var w1 := Send(env, w, n, scope).0.world;
      && Within(w, w1, {KeyOf(w, n)}, {}) && w1.entities == w.entities && w.sent <= w1.sent && |w1.sent| <= |w.sent| + 1
      && (|w1.sent| > |w.sent| ==>
            var s := w1.sent[|w.sent|];
            Recorded(w1, s) && s.node == n && s.origin.entity == EntityOf(w, n) && s.reply == Send(env, w, n, scope).1)
  {
    var values, w1 := env.check(w.clock, BuildCommand(w, n)).values, Send(env, w, n, scope).0.world;
    CarryBackWrites(w, n, values);
    SendIs(env, w, n, scope);
    SendChanges(env, w, n, scope);
    SameLedgersWithin(w, CarryBack(Tick(w), n, values), w1, {KeyOf(w, n)}, n);
  }

  /** A send in terms of what it carries back and logs. */
  lemma {:induction false} SendIs(env: Environment, w: World, n: Node, scope: TraceScope.Scope)
    ensures var built := BuildCommand(w, n);
      var values, w1 := env.check(w.clock, built).values, Send(env, w, n, scope).0.world;
      (w1.sent == w.sent || (|w1.sent| == |w.sent| + 1 && w.sent <= w1.sent && IsEntry(w, n, built, values, w1.sent[|w.sent|])
        && w1.sent[|w.sent|].reply == Send(env, w, n, scope).1))
  {
  }

  ghost predicate IsEntry(w: World, n: Node, built: Command, values: Fields, s: Sent) {
    && s.node == n && s.built == built && s.origin.fields == LayeredFields(w, n) && s.built.action == EntityOf(w, n).action
    && (built.action != Delete ==> s.command.values == values) && s.origin.entity == EntityOf(w, n)
  }

  lemma {:induction false} SameLedgersWithin(w: World, carried: World, w1: World, keys: set<EntityKey>, n: Node)
    requires Within(w, carried, keys, {}) && carried.entities == w.entities
    requires w1.entities == carried.entities && w1.ledgers == carried.ledgers
    ensures Within(w, w1, keys, {}) && LayeredFields(w1, n) == LayeredFields(carried, n)
  {
    assert forall root :: LedgerAt(w1, root) == LedgerAt(carried, root);
    assert forall id :: EntityAt(w1, id) == EntityAt(w, id);
  }

  /** The ledger holds, on top of what it held when the command was built, what the command sent. */
  ghost predicate Recorded(w: World, s: Sent) {
    && s.origin.fields != []
    && (s.built.action != Delete ==> LayeredFields(w, s.node) == WithCarried(s.origin.fields, s.command.values))
  }

  lemma {:induction false} StaysRecorded(w: World, w1: World, keys: set<EntityKey>, selves: set<NodeId>, s: Sent)
    requires Recorded(w, s) && Within(w, w1, keys, selves)
    requires KeyOf(w, s.node) !in keys && s.node.self !in selves
    ensures Recorded(w1, s)
  {
    assert EntityOf(w1, s.node) == EntityOf(w, s.node);
  }

  // ----- what the entity took over

  /** The record answers field `i`, whose member this is. */
  predicate Answered(fields: seq<Field>, columns: Fields, i: int, member: string) {
    && 0 <= i < |fields| && fields[i].member == member
    && (fields[i].column in columns || fields[i].member in columns)
  }

  /** The column wins over the member's own name. */
  function AnswerTo(f: Field, columns: Fields): Cell
    requires f.column in columns || f.member in columns
  {
    if f.column in columns then columns[f.column] else columns[f.member]
  }

  /** Among fields with one member, the last one that is answered counts. */
  ghost predicate AnsweredLast(fields: seq<Field>, columns: Fields, i: int, member: string) {
    Answered(fields, columns, i, member) && forall j :: i < j ==> !Answered(fields, columns, j, member)
  }

  ghost predicate NotAnswered(fields: seq<Field>, columns: Fields, member: string) {
    forall i :: !Answered(fields, columns, i, member)
  }

  /** The attributes are those of before, with what the record answers, which is loaded as well. */
  ghost predicate TakesOver(e: Entity, columns: Fields, fields: seq<Field>, e1: Entity) {
    && (forall i, m :: AnsweredLast(fields, columns, i, m) ==>
          m in e1.loaded && m in e1.attributes && e1.attributes[m] == Scalar(AnswerTo(fields[i], columns)))
    && (forall m :: NotAnswered(fields, columns, m) ==>
          (m in e1.attributes <==> m in e.attributes) && (m in e.attributes ==> e1.attributes[m] == e.attributes[m]))
  }

  /**
    After a persisted answer the entity holds the record: its id and version, if it has them, and every field it
    answers; everything else is as it was when the command was built, and only a deleted entity is not up to date.
   */
  ghost predicate HoldsReply(w: World, s: Sent) {
    s.reply.Persisted? ==>
      var e, e1 := s.origin.entity, EntityOf(w, s.node);
      && TakesOver(e, s.reply.columns, s.node.fields, e1) && e.loaded <= e1.loaded
      && e1.id == e.id && (s.reply.id.Some? ==> e1.id == s.reply.id && "id" in e1.loaded)
      && (if s.reply.version.Some? then e1.version == s.reply.version && "version" in e1.loaded else e1.version == e.version)
      && e1.action == if e.action == Delete then Delete else Update
  }

  lemma {:induction false} StoreFieldsTakesOver(e: Entity, columns: Fields, fields: seq<Field>)
    ensures TakesOver(e, columns, fields, StoreFields(e, columns, fields))
    ensures e.loaded <= StoreFields(e, columns, fields).loaded
    ensures var r := StoreFields(e, columns, fields); r == e.(attributes := r.attributes, loaded := r.loaded)
  {
    if fields != [] {
      StoreFieldsTakesOver(e, columns, fields[..|fields| - 1]);
      OneMoreTakenOver(e, columns, fields);
    }
  }

  lemma {:induction false} OneMoreTakenOver(e: Entity, columns: Fields, fields: seq<Field>)
    requires fields != []
    requires TakesOver(e, columns, fields[..|fields| - 1], StoreFields(e, columns, fields[..|fields| - 1]))
    ensures TakesOver(e, columns, fields, StoreFields(e, columns, fields))
  {
    var k := |fields| - 1;
    var front, f := fields[..k], fields[k];
    var e1 := StoreFields(e, columns, fields);
    forall i, m | i != k
      ensures Answered(fields, columns, i, m) <==> Answered(front, columns, i, m)
    {
    }
    forall i, m | AnsweredLast(fields, columns, i, m)
      ensures m in e1.loaded && m in e1.attributes && e1.attributes[m] == Scalar(AnswerTo(fields[i], columns))
    {
      if i < k {
        assert !Answered(fields, columns, k, m) && AnsweredLast(front, columns, i, m);
      }
    }
    forall m | NotAnswered(fields, columns, m)
      ensures m in e1.attributes <==> m in e.attributes
      ensures m in e.attributes ==> e1.attributes[m] == e.attributes[m]
    {
      assert !Answered(fields, columns, k, m) && !Answered(front, columns, k, m);
      assert NotAnswered(front, columns, m);
    }
  }

  lemma {:induction false} AdoptHolds(env: Environment, w: World, s: Sent)
    requires s.reply.Persisted? && s.origin.entity == EntityOf(w, s.node)
    requires ReturnsReservedId(env) && Answers(env, w, s.node, s.reply)
    requires EntityOf(w, s.node).id.Some? ==> EntityOf(w, s.node).ledgerId == EntityOf(w, s.node).id.value
    ensures HoldsReply(Adopt(w, s.node, s.reply).world, s)
  {
    var n, e := s.node, EntityOf(w, s.node);
    var e1 := EntityOf(Adopt(w, n, s.reply).world, n);
    AdoptChanges(env, w, n, s.reply);
    StoreFieldsTakesOver(e, s.reply.columns, n.fields);
    var stored := StoreFields(e, s.reply.columns, n.fields);
    var adopted := Adopted(n, e, s.reply);
    assert adopted.attributes == stored.attributes && stored.loaded <= adopted.loaded;
    assert e1 == adopted.(action := e1.action);
  }

  lemma {:induction false} StillHeld(w: World, w1: World, s: Sent)
    requires HoldsReply(w, s) && EntityOf(w1, s.node) == EntityOf(w, s.node)
    ensures HoldsReply(w1, s)
  {
  }

  // ----- a whole subtree

  function KeysOfNodes(w: World, nodes: set<Node>): set<EntityKey> {
    set n | n in nodes :: KeyOf(w, n)
  }

  ghost predicate Owned(nodes: set<Node>, selves: set<NodeId>, keys: set<EntityKey>, base: World, w: World) {
    && Within(base, w, keys, selves) && IdsConsistent(w, selves)
    && (forall n :: n in nodes ==> n.self in selves && KeyOf(w, n) in keys)
  }

  lemma {:induction false} OneStepOwned(nodes: set<Node>, selves: set<NodeId>, keys: set<EntityKey>, base: World,
      w: World,
      w1: World, n: Node)
    requires Owned(nodes, selves, keys, base, w) && n in nodes && Within(w, w1, {KeyOf(w, n)}, {n.self})
    requires EntityOf(w1, n).id == EntityOf(w, n).id && EntityOf(w1, n).ledgerId == EntityOf(w, n).ledgerId
    ensures Owned(nodes, selves, keys, base, w1)
  {
    WithinMore(w, w1, {KeyOf(w, n)}, {n.self}, keys, selves);
    WithinTwice(base, w, w1, keys, selves);
    forall id
      ensures EntityAt(w1, id).id == EntityAt(w, id).id && EntityAt(w1, id).ledgerId == EntityAt(w, id).ledgerId
    {
      if id == n.self {
        assert EntityAt(w1, id) == EntityOf(w1, n);
      }
    }
    forall m | m in nodes
      ensures KeyOf(w1, m) in keys
    {
      assert EntityAt(w1, m.self).ledgerId == EntityAt(w, m.self).ledgerId;
    }
  }

  lemma {:induction false} LinksStayOwned(nodes: set<Node>, edges: set<Edge>, selves: set<NodeId>,
      keys: set<EntityKey>, base: World)
    ensures KeptByAttach(nodes, u => Owned(nodes, selves, keys, base, u))
    ensures KeptByLink(nodes, edges, u => Owned(nodes, selves, keys, base, u))
  {
    forall w, n, root | Owned(nodes, selves, keys, base, w) && n in nodes
      ensures Owned(nodes, selves, keys, base, AttachOne(w, n, root).world)
    {
      AttachWithin(w, n, root);
      AttachOneIs(w, n, root);
      OneStepOwned(nodes, selves, keys, base, w, AttachOne(w, n, root).world, n);
    }
    forall w, child, member, column, parent | Owned(nodes, selves, keys, base, w) && child in nodes && parent in nodes
      ensures Owned(nodes, selves, keys, base, Link(w, child, member, column, parent))
    {
      LinkWithin(w, child, member, column, parent);
      LinkChanges(w, child, member, column, parent);
      OneStepOwned(nodes, selves, keys, base, w, Link(w, child, member, column, parent), child);
    }
  }

  lemma {:induction false} CommandsStayOwned(env: Environment, nodes: set<Node>, selves: set<NodeId>,
      keys: set<EntityKey>,
      base: World)
    requires ReturnsReservedId(env)
    ensures KeptBySend(env, nodes, u => Owned(nodes, selves, keys, base, u))
    ensures KeptByAdopt(env, nodes, u => Owned(nodes, selves, keys, base, u))
  {
    forall w, n, scope | Owned(nodes, selves, keys, base, w) && n in nodes
      ensures Owned(nodes, selves, keys, base, Send(env, w, n, scope).0.world)
    {
      SendWrites(env, w, n, scope);
      var w1 := Send(env, w, n, scope).0.world;
      WithinMore(w, w1, {KeyOf(w, n)}, {}, {KeyOf(w, n)}, {n.self});
      assert EntityOf(w1, n) == EntityOf(w, n);
      OneStepOwned(nodes, selves, keys, base, w, w1, n);
    }
    forall w, n, reply | Owned(nodes, selves, keys, base, w) && n in nodes && Answers(env, w, n, reply)
      ensures Owned(nodes, selves, keys, base, Adopt(w, n, reply).world)
    {
      AdoptWithin(env, w, n, reply);
      OneStepOwned(nodes, selves, keys, base, w, Adopt(w, n, reply).world, n);
    }
  }

  lemma {:induction false} AdoptWithin(env: Environment, w: World, n: Node, reply: Reply)
    requires ReturnsReservedId(env) && Answers(env, w, n, reply)
    requires EntityOf(w, n).id.Some? ==> EntityOf(w, n).ledgerId == EntityOf(w, n).id.value
    ensures var w1 := Adopt(w, n, reply).world;
      && Within(w, w1, {}, {n.self}) && Within(w, w1, {KeyOf(w, n)}, {n.self}) && w1.sent == w.sent
      && EntityOf(w1, n).id == EntityOf(w, n).id && EntityOf(w1, n).ledgerId == EntityOf(w, n).ledgerId
      && EntityOf(w1, n).root == EntityOf(w, n).root
  {
    AdoptChanges(env, w, n, reply);
    var w1 := Adopt(w, n, reply).world;
    forall id | id != n.self
      ensures EntityAt(w1, id) == EntityAt(w, id)
    {
      var m := n.(self := id);
      assert EntityOf(w1, m) == EntityAt(w1, id) && EntityOf(w, m) == EntityAt(w, id);
    }
  }

  lemma {:induction false} LogsStayOwned(nodes: set<Node>, selves: set<NodeId>, keys: set<EntityKey>, base: World)
    ensures KeptByReach(nodes, u => Owned(nodes, selves, keys, base, u))
    ensures KeptByCommitEntry(nodes, u => Owned(nodes, selves, keys, base, u))
  {
    forall w, n | Owned(nodes, selves, keys, base, w) && n in nodes
      ensures Owned(nodes, selves, keys, base, Reach(w, n))
    {
      SameStateIsOwned(nodes, selves, keys, base, w, Reach(w, n));
    }
    forall w, n, key | Owned(nodes, selves, keys, base, w) && n in nodes
      ensures Owned(nodes, selves, keys, base, RegisterCommit(w, n, key))
    {
      SameStateIsOwned(nodes, selves, keys, base, w, RegisterCommit(w, n, key));
    }
  }

  lemma {:induction false} SameStateIsOwned(nodes: set<Node>, selves: set<NodeId>, keys: set<EntityKey>,
      base: World, w: World,
      w1: World)
    requires Owned(nodes, selves, keys, base, w) && w1.entities == w.entities && w1.ledgers == w.ledgers
    ensures Owned(nodes, selves, keys, base, w1)
  {
    assert forall id :: EntityAt(w1, id) == EntityAt(w, id);
    assert forall root :: LedgerAt(w1, root) == LedgerAt(w, root);
  }

  /** A save of a subtree writes to its entities and under their keys. */
  lemma {:induction false} SaveWithin(env: Environment, w: World, t: Tree, parent: Option<TraceScope.Scope>)
    requires ReturnsReservedId(env) && IdsConsistent(w, Selves(t))
    ensures Within(w, Save(env, w, t, parent).world, KeysOfNodes(w, Nodes(t)), Selves(t))
  {
    var nodes, selves, keys := Nodes(t), Selves(t), KeysOfNodes(w, Nodes(t));
    forall n | n in nodes
      ensures n.self in selves && KeyOf(w, n) in keys
    {
      NodesHaveSelves(t, n);
    }
    LinksStayOwned(nodes, Edges(t), selves, keys, w);
    CommandsStayOwned(env, nodes, selves, keys, w);
    LogsStayOwned(nodes, selves, keys, w);
    SaveKeeps(env, nodes, Edges(t), u => Owned(nodes, selves, keys, w, u), w, t, parent);
  }

  /** So does attaching one, whatever its ids. */
  lemma {:induction false} AttachAllWithin(w: World, t: Tree, root: RootId)
    ensures Within(w, Attach(w, t, root).world, KeysOfNodes(w, Nodes(t)), Selves(t))
  {
    var nodes, keys := Nodes(t), KeysOfNodes(w, Nodes(t));
    var inv := (u: World) => WithinAndKeys(nodes, Selves(t), keys, w, u);
    forall u, n, r | inv(u) && n in nodes
      ensures inv(AttachOne(u, n, r).world)
    {
      NodesHaveSelves(t, n);
      AttachStepWithin(nodes, Selves(t), keys, w, u, n, r);
    }
    AttachKeeps(nodes, inv, w, t, root);
  }

  ghost predicate WithinAndKeys(nodes: set<Node>, selves: set<NodeId>, keys: set<EntityKey>, base: World, w: World) {
    Within(base, w, keys, selves) && forall n :: n in nodes ==> KeyOf(w, n) in keys
  }

  lemma {:induction false} AttachStepWithin(nodes: set<Node>, selves: set<NodeId>, keys: set<EntityKey>, base: World,
      w: World, n: Node, root: RootId)
    requires WithinAndKeys(nodes, selves, keys, base, w) && n in nodes && n.self in selves
    ensures WithinAndKeys(nodes, selves, keys, base, AttachOne(w, n, root).world)
  {
    var w1 := AttachOne(w, n, root).world;
    AttachWithin(w, n, root);
    AttachOneIs(w, n, root);
    WithinMore(w, w1, {KeyOf(w, n)}, {n.self}, keys, selves);
    WithinTwice(base, w, w1, keys, selves);
    assert forall m: Node :: KeyOf(w1, m) == KeyOf(w, m);
  }

  /** The world a child is saved in. */
  lemma {:induction false} ChildWithin(w: World, f: Forest, parent: Node)
    requires f.Child?
    ensures var linked := LinkIfNeeded(Attach(w, f.child, EntityOf(w, parent).root).world, f.child.node, f.member, f.column, parent);
      Within(w, linked, KeysOfNodes(w, Nodes(f.child)), Selves(f.child))
  {
    var a := Attach(w, f.child, EntityOf(w, parent).root).world;
    var linked := LinkIfNeeded(a, f.child.node, f.member, f.column, parent);
    var keys := KeysOfNodes(w, Nodes(f.child));
    AttachAllWithin(w, f.child, EntityOf(w, parent).root);
    AttachChangesRoots(w, f.child, EntityOf(w, parent).root);
    LinkWithin(a, f.child.node, f.member, f.column, parent);
    assert KeyOf(a, f.child.node) == KeyOf(w, f.child.node) by {
      assert SameButRoot(EntityAt(a, f.child.node.self), EntityAt(w, f.child.node.self));
    }
    assert f.child.node in Nodes(f.child) && KeyOf(w, f.child.node) in keys;
    WithinMore(a, linked, {KeyOf(a, f.child.node)}, {f.child.node.self}, keys, Selves(f.child));
    WithinTwice(w, a, linked, keys, Selves(f.child));
  }

  lemma {:induction false} SameKeys(w: World, w1: World, nodes: set<Node>)
    requires forall id :: EntityAt(w1, id).ledgerId == EntityAt(w, id).ledgerId
    ensures KeysOfNodes(w1, nodes) == KeysOfNodes(w, nodes)
    ensures forall n: Node :: KeyOf(w1, n) == KeyOf(w, n)
  {
    forall n: Node
      ensures KeyOf(w1, n) == KeyOf(w, n)
    {
      assert EntityAt(w1, n.self).ledgerId == EntityAt(w, n.self).ledgerId;
    }
  }

  lemma {:induction false} SaveAllWithin(env: Environment, w: World, parent: Node, f: Forest, scope: TraceScope.Scope)
    requires ReturnsReservedId(env) && IdsConsistent(w, SelvesOf(f))
    ensures Within(w, SaveAll(env, w, parent, f, scope).world, KeysOfNodes(w, NodesOf(f)), SelvesOf(f))
    decreases f
  {
    if f.Child? {
      var keys := KeysOfNodes(w, NodesOf(f));
      var a := Attach(w, f.child, EntityOf(w, parent).root);
      AttachAllWithin(w, f.child, EntityOf(w, parent).root);
      WithinMore(w, a.world, KeysOfNodes(w, Nodes(f.child)), Selves(f.child), keys, SelvesOf(f));
      if !a.raised {
        var linked := LinkIfNeeded(a.world, f.child.node, f.member, f.column, parent);
        FirstWithin(env, w, parent, f, scope);
        var s := Save(env, linked, f.child, Some(scope));
        if !s.raised {
          SaveAllWithin(env, s.world, parent, f.rest, scope);
          SameKeys(w, s.world, NodesOf(f.rest));
          var c := SaveAll(env, s.world, parent, f.rest, scope).world;
          WithinMore(s.world, c, KeysOfNodes(w, NodesOf(f.rest)), SelvesOf(f.rest), keys, SelvesOf(f));
          WithinTwice(w, s.world, c, keys, SelvesOf(f));
        }
      }
    }
  }

  /** After the first child is saved. */
  lemma {:induction false} FirstWithin(env: Environment, w: World, parent: Node, f: Forest, scope: TraceScope.Scope)
    requires f.Child? && ReturnsReservedId(env) && IdsConsistent(w, SelvesOf(f))
    ensures var linked := LinkIfNeeded(Attach(w, f.child, EntityOf(w, parent).root).world, f.child.node, f.member, f.column, parent);
      var s := Save(env, linked, f.child, Some(scope)).world;
      && linked.sent == w.sent && IdsConsistent(linked, SelvesOf(f))
      && (forall id :: EntityAt(linked, id).ledgerId == EntityAt(w, id).ledgerId)
      && linked.sent <= s.sent && NewSentAmong(linked, s, Nodes(f.child)) && IdsConsistent(s, SelvesOf(f))
      && (forall id :: EntityAt(s, id).ledgerId == EntityAt(w, id).ledgerId)
      && Within(w, s, KeysOfNodes(w, NodesOf(f)), SelvesOf(f))
  {
    var a := Attach(w, f.child, EntityOf(w, parent).root).world;
    var linked := LinkIfNeeded(a, f.child.node, f.member, f.column, parent);
    var s := Save(env, linked, f.child, Some(scope)).world;
    var keys := KeysOfNodes(w, NodesOf(f));
    AttachChangesRoots(w, f.child, EntityOf(w, parent).root);
    OnlyRootsFramed(w, a);
    LinkFramed(a, f.child.node, f.member, f.column, parent);
    FramedKeepsIds(w, a, {}, SelvesOf(f));
    FramedKeepsIds(a, linked, {f.child.node.self}, SelvesOf(f));
    SaveFramed(env, linked, f.child, Some(scope));
    FramedKeepsIds(linked, s, Selves(f.child), SelvesOf(f));
    SameKeys(w, linked, Nodes(f.child));
    ChildWithin(w, f, parent);
    SaveWithin(env, linked, f.child, Some(scope));
    WithinTwice(w, linked, s, KeysOfNodes(w, Nodes(f.child)), Selves(f.child));
    WithinMore(w, s, KeysOfNodes(w, Nodes(f.child)), Selves(f.child), keys, SelvesOf(f));
  }

  // ----- every command of a save

  ghost predicate SentBefore(sent: seq<Sent>, i: nat, n: Node) {
    exists j :: 0 <= j < i && j < |sent| && sent[j].node == n
  }

  /** Every other entity among these that stands for the same row, if there is one, was sent before. */
  ghost predicate LastOfItsRow(w: World, nodes: set<Node>, sent: seq<Sent>, i: nat)
    requires i < |sent|
  {
    forall m :: m in nodes && m != sent[i].node && KeyOf(w, m) == KeyOf(w, sent[i].node) ==> SentBefore(sent, i, m)
  }

  /**
    The entity has an assigned number and holds the answer, and if the entry is the last of its row, the ledger holds
    what was sent.
   */
  ghost predicate Kept(w: World, nodes: set<Node>, w1: World, i: nat)
    requires i < |w1.sent|
  {
    && KeyOf(w1, w1.sent[i].node).id > 0
    && HoldsReply(w1, w1.sent[i])
    && (LastOfItsRow(w, nodes, w1.sent, i) ==> Recorded(w1, w1.sent[i]))
  }

  /** So it is for every entry since. */
  ghost predicate RecordedSince(w: World, nodes: set<Node>, w1: World) {
    forall i :: |w.sent| <= i < |w1.sent| ==> Kept(w, nodes, w1, i)
  }

  ghost predicate NoneSent(w: World, nodes: set<Node>) {
    forall s :: s in w.sent ==> s.node !in nodes
  }

  lemma {:induction false} StillNoneSent(w: World, w1: World, t: Tree, f: Forest)
    requires NoneSent(w, NodesOf(f)) && w.sent <= w1.sent && NewSentAmong(w, w1, Nodes(t)) && Selves(t) !! SelvesOf(f)
    ensures NoneSent(w1, NodesOf(f))
  {
    forall s | s in w1.sent
      ensures s.node !in NodesOf(f)
    {
      var i :| 0 <= i < |w1.sent| && w1.sent[i] == s;
      if i < |w.sent| {
        assert w.sent[i] == s && w.sent[i] in w.sent;
      } else if s.node in NodesOf(f) {
        NodesHaveSelves(t, s.node);
        NodesOfHaveSelves(f, s.node);
      }
    }
  }

  /** Nothing below is in the row of such an entry: it would have been sent before, and was not. */
  lemma {:induction false} NothingLaterInRow(w: World, w1: World, f: Forest, nodes: set<Node>, i: nat)
    requires NoneSent(w1, NodesOf(f)) && NodesOf(f) <= nodes && i < |w1.sent| && LastOfItsRow(w, nodes, w1.sent, i)
    ensures KeyOf(w, w1.sent[i].node) !in KeysOfNodes(w, NodesOf(f))
  {
    assert w1.sent[i] in w1.sent;
    forall m | m in NodesOf(f)
      ensures !SentBefore(w1.sent, i, m)
    {
      assert forall j :: 0 <= j < |w1.sent| ==> w1.sent[j] in w1.sent;
    }
  }

  /** Whether an entry is the last of its row is decided by the entries before it and by the keys. */
  lemma {:induction false} LastStaysLast(w: World, w1: World, nodes: set<Node>, sent: seq<Sent>, more: seq<Sent>,
      i: nat)
    requires forall id :: EntityAt(w1, id).ledgerId == EntityAt(w, id).ledgerId
    requires i < |sent| && sent <= more && LastOfItsRow(w, nodes, more, i)
    ensures LastOfItsRow(w1, nodes, sent, i)
  {
    SameKeys(w, w1, nodes);
    forall m | m in nodes && m != sent[i].node && KeyOf(w1, m) == KeyOf(w1, sent[i].node)
      ensures SentBefore(sent, i, m)
    {
      var j :| 0 <= j < i && more[j].node == m;
      assert sent[j] == more[j];
    }
  }

  lemma {:induction false} RecordedLater(w: World, w1: World, w2: World, t: Tree, f: Forest, nodes: set<Node>)
    requires w.sent <= w1.sent && NewSentAmong(w, w1, Nodes(t)) && RecordedSince(w, nodes, w1)
    requires Within(w1, w2, KeysOfNodes(w, NodesOf(f)), SelvesOf(f)) && w1.sent <= w2.sent
    requires NodesOf(f) <= nodes && Selves(t) !! SelvesOf(f) && NoneSent(w1, NodesOf(f))
    requires forall id :: EntityAt(w1, id).ledgerId == EntityAt(w, id).ledgerId
    ensures RecordedUpTo(w, nodes, |w1.sent|, w2)
  {
    SameKeys(w, w1, nodes);
    forall i | |w.sent| <= i < |w1.sent|
      ensures Kept(w, nodes, w2, i)
    {
      NodesHaveSelves(t, w1.sent[i].node);
      assert Kept(w, nodes, w1, i) && w2.sent[i] == w1.sent[i];
      StillHeld(w1, w2, w1.sent[i]);
      if LastOfItsRow(w, nodes, w2.sent, i) {
        LastStaysLast(w, w, nodes, w1.sent, w2.sent, i);
        NothingLaterInRow(w, w1, f, nodes, i);
        StaysRecorded(w1, w2, KeysOfNodes(w, NodesOf(f)), SelvesOf(f), w1.sent[i]);
      }
    }
  }

  ghost predicate RecordedUpTo(w: World, nodes: set<Node>, count: nat, w1: World) {
    forall i :: |w.sent| <= i < count && i < |w1.sent| ==> Kept(w, nodes, w1, i)
  }

  /** Counting from another world with the same log and the same keys makes no difference. */
  lemma {:induction false} SinceSame(w: World, before: World, nodes: set<Node>, w1: World)
    requires before.sent == w.sent && forall id :: EntityAt(before, id).ledgerId == EntityAt(w, id).ledgerId
    requires RecordedSince(before, nodes, w1)
    ensures RecordedSince(w, nodes, w1)
  {
    forall i | |w.sent| <= i < |w1.sent|
      ensures Kept(w, nodes, w1, i)
    {
      assert Kept(before, nodes, w1, i);
      if LastOfItsRow(w, nodes, w1.sent, i) {
        LastStaysLast(w, before, nodes, w1.sent, w1.sent, i);
      }
    }
  }

  lemma {:induction false} RecordedBoth(w: World, w1: World, w2: World, nodes: set<Node>)
    requires |w.sent| <= |w1.sent| <= |w2.sent| && RecordedUpTo(w, nodes, |w1.sent|, w2)
    requires RecordedSince(w1, nodes, w2) && forall id :: EntityAt(w1, id).ledgerId == EntityAt(w, id).ledgerId
    ensures RecordedSince(w, nodes, w2)
  {
    forall i | |w.sent| <= i < |w2.sent|
      ensures Kept(w, nodes, w2, i)
    {
      assert i >= |w1.sent| ==> Kept(w1, nodes, w2, i);
      if LastOfItsRow(w, nodes, w2.sent, i) {
        LastStaysLast(w, w1, nodes, w2.sent, w2.sent, i);
      }
    }
  }

  lemma {:induction false} SaveOwnRecords(env: Environment, w: World, t: Tree, scope: TraceScope.Scope,
      nodes: set<Node>)
    requires ReturnsReservedId(env) && IdsConsistent(w, Selves(t)) && KeyOf(w, t.node).id > 0
    ensures var own := SaveOwn(env, w, t, scope).world;
      && w.sent <= own.sent && NewSentAmong(w, own, {t.node}) && RecordedSince(w, nodes, own)
      && (forall id :: EntityAt(own, id).ledgerId == EntityAt(w, id).ledgerId)
      && IdsConsistent(own, SelvesOf(t.children))
  {
    SaveOwnFramed(env, w, t, scope);
    OwnEntryIsRecorded(env, w, t, scope);
    OwnSaveRecords(w, SaveOwn(env, w, t, scope), t.node, scope, SelvesOf(t.children), nodes);
  }

  lemma {:induction false} OwnSaveRecords(w: World, own: Progress, n: Node, scope: TraceScope.Scope, below: set<NodeId>,
      nodes: set<Node>)
    requires OwnSave(w, own, n, scope) && IdsConsistent(w, below) && KeyOf(w, n).id > 0
    requires |own.world.sent| > |w.sent| ==> Recorded(own.world, own.world.sent[|w.sent|])
    requires |own.world.sent| > |w.sent| ==> HoldsReply(own.world, own.world.sent[|w.sent|])
    ensures w.sent <= own.world.sent && NewSentAmong(w, own.world, {n}) && RecordedSince(w, nodes, own.world)
    ensures forall id :: EntityAt(own.world, id).ledgerId == EntityAt(w, id).ledgerId
    ensures IdsConsistent(own.world, below)
  {
    FramedKeepsIds(w, own.world, {n.self}, below);
  }

  lemma {:induction false} OwnEntryIsRecorded(env: Environment, w: World, t: Tree, scope: TraceScope.Scope)
    requires ReturnsReservedId(env) && IdsConsistent(w, Selves(t))
    ensures var own := SaveOwn(env, w, t, scope).world;
      |own.sent| > |w.sent| ==> Recorded(own, own.sent[|w.sent|]) && HoldsReply(own, own.sent[|w.sent|])
  {
    var n := t.node;
    var a := Attach(w, t, EntityOf(w, n).root);
    AttachChangesRoots(w, t, EntityOf(w, n).root);
    if !a.raised {
      OnlyRootsFramed(w, a.world);
      FramedKeepsIds(w, a.world, {}, {n.self});
      SendAndAdoptRecord(env, a.world, n, scope);
    }
  }

  lemma {:induction false} SendAndAdoptRecord(env: Environment, w: World, n: Node, scope: TraceScope.Scope)
    requires ReturnsReservedId(env) && IdsConsistent(w, {n.self})
    ensures var s := Send(env, w, n, scope);
      var w1 := if s.0.raised then s.0.world else Adopt(s.0.world, n, s.1).world;
      && |w1.sent| <= |w.sent| + 1
      && (|w1.sent| > |w.sent| ==> Recorded(w1, w1.sent[|w.sent|]) && HoldsReply(w1, w1.sent[|w.sent|]))
  {
    var s := Send(env, w, n, scope);
    SendWrites(env, w, n, scope);
    if !s.0.raised {
      SentIsAnswered(env, w, n, scope);
      assert n.self in {n.self} && EntityAt(w, n.self) == EntityOf(w, n) == EntityOf(s.0.world, n);
      AdoptWithin(env, s.0.world, n, s.1);
      AdoptionStaysRecorded(s.0.world, Adopt(s.0.world, n, s.1).world, n);
      AdoptHolds(env, s.0.world, s.0.world.sent[|w.sent|]);
    }
  }

  lemma {:induction false} AdoptionStaysRecorded(w: World, w1: World, n: Node)
    requires Within(w, w1, {}, {n.self})
    requires EntityOf(w1, n).root == EntityOf(w, n).root && EntityOf(w1, n).ledgerId == EntityOf(w, n).ledgerId
    ensures LayeredFields(w1, n) == LayeredFields(w, n)
  {
    var key: EntityKey, none: set<EntityKey> := KeyOf(w, n), {};
    assert key !in none && KeyOf(w1, n) == key;
  }

  lemma {:induction false} SaveRecords(env: Environment, w: World, t: Tree, parent: Option<TraceScope.Scope>,
      nodes: set<Node>)
    requires ReturnsReservedId(env) && IdsConsistent(w, Selves(t)) && Proper(t) && Nodes(t) <= nodes
      && NoneSent(w, Nodes(t))
    ensures RecordedSince(w, nodes, Save(env, w, t, parent).world)
    decreases t, 1
  {
    var n, scope := t.node, ScopeOf(w, t.node, parent);
    if scope.Some? {
      var w1 := Reach(w, n);
      assert forall id :: EntityAt(w1, id) == EntityAt(w, id);
      if EntityOf(w, n).action == Update && !Pending(w, n) {
        SaveAllRecords(env, w1, n, t.children, scope.value, nodes);
        SinceSame(w, w1, nodes, SaveAll(env, w1, n, t.children, scope.value).world);
      } else {
        SaveCommandedRecords(env, w1, t, scope.value, EntityOf(w, n).action == Delete, nodes);
        SinceSame(w, w1, nodes, SaveCommanded(env, w1, t, scope.value, EntityOf(w, n).action == Delete).world);
      }
    }
  }

  lemma {:induction false} SaveCommandedRecords(env: Environment, w: World, t: Tree, scope: TraceScope.Scope,
      deleted: bool, nodes: set<Node>)
    requires ReturnsReservedId(env) && IdsConsistent(w, Selves(t)) && Proper(t) && Nodes(t) <= nodes
      && NoneSent(w, Nodes(t))
    requires KeyOf(w, t.node).id > 0
    ensures RecordedSince(w, nodes, SaveCommanded(env, w, t, scope, deleted).world)
    decreases t, 0
  {
    var n, own := t.node, SaveOwn(env, w, t, scope);
    SaveOwnRecords(env, w, t, scope, nodes);
    if !own.raised {
      if deleted {
        CommitEntryRecorded(w, own.world, nodes, n, KeyOf(own.world, n));
      } else {
        var c := SaveAll(env, own.world, n, t.children, scope);
        OwnIsNoneBelow(w, own.world, t);
        SaveAllRecords(env, own.world, n, t.children, scope, nodes);
        SaveAllFramed(env, own.world, n, t.children, scope);
        SaveAllWithin(env, own.world, n, t.children, scope);
        OwnThenChildrenRecorded(w, own.world, c.world, t, nodes);
        CommitEntryRecorded(w, c.world, nodes, n, KeyOf(own.world, n));
      }
    }
  }

  lemma {:induction false} OwnIsNoneBelow(w: World, own: World, t: Tree)
    requires Proper(t) && NoneSent(w, Nodes(t)) && w.sent <= own.sent && NewSentAmong(w, own, {t.node})
    ensures NoneSent(own, NodesOf(t.children))
  {
    var alone := Tree(t.node, Done);
    assert NodesOf(Done) == {} && SelvesOf(Done) == {};
    assert Nodes(alone) == {t.node} && Selves(alone) == {t.node.self};
    StillNoneSent(w, own, alone, t.children);
  }

  lemma {:induction false} OwnThenChildrenRecorded(w: World, own: World, w2: World, t: Tree, nodes: set<Node>)
    requires Proper(t) && Nodes(t) <= nodes && NoneSent(own, NodesOf(t.children))
    requires w.sent <= own.sent && NewSentAmong(w, own, {t.node}) && RecordedSince(w, nodes, own)
    requires forall id :: EntityAt(own, id).ledgerId == EntityAt(w, id).ledgerId
    requires Within(own, w2, KeysOfNodes(own, NodesOf(t.children)), SelvesOf(t.children)) && own.sent <= w2.sent
    requires RecordedSince(own, nodes, w2)
    ensures RecordedSince(w, nodes, w2)
  {
    var alone := Tree(t.node, Done);
    assert NodesOf(Done) == {} && SelvesOf(Done) == {};
    assert Nodes(alone) == {t.node} && Selves(alone) == {t.node.self} && t.node in Nodes(t);
    SameKeys(w, own, NodesOf(t.children));
    RecordedLater(w, own, w2, alone, t.children, nodes);
    RecordedBoth(w, own, w2, nodes);
  }

  lemma {:induction false} CommitEntryRecorded(w: World, w1: World, nodes: set<Node>, n: Node, key: EntityKey)
    requires RecordedSince(w, nodes, w1)
    ensures RecordedSince(w, nodes, RegisterCommit(w1, n, key))
  {
    var w2 := RegisterCommit(w1, n, key);
    forall m: Node
      ensures LayeredFields(w2, m) == LayeredFields(w1, m)
    {
      assert EntityOf(w2, m) == EntityOf(w1, m) && LedgerOf(w2, m) == LedgerOf(w1, m);
    }
    forall i | |w.sent| <= i < |w2.sent|
      ensures Kept(w, nodes, w2, i)
    {
      assert Kept(w, nodes, w1, i);
      StillHeld(w1, w2, w1.sent[i]);
    }
  }

  lemma {:induction false} SaveAllRecords(env: Environment, w: World, parent: Node, f: Forest, scope: TraceScope.Scope,
      nodes: set<Node>)
    requires ReturnsReservedId(env) && IdsConsistent(w, SelvesOf(f)) && ProperAll(f) && NodesOf(f) <= nodes
      && NoneSent(w, NodesOf(f))
    ensures RecordedSince(w, nodes, SaveAll(env, w, parent, f, scope).world)
    decreases f
  {
    if f.Child? {
      var a := Attach(w, f.child, EntityOf(w, parent).root);
      if a.raised {
        AttachChangesRoots(w, f.child, EntityOf(w, parent).root);
      } else {
        var linked := LinkIfNeeded(a.world, f.child.node, f.member, f.column, parent);
        var s := Save(env, linked, f.child, Some(scope));
        FirstWithin(env, w, parent, f, scope);
        SaveRecords(env, linked, f.child, Some(scope), nodes);
        SinceSame(w, linked, nodes, s.world);
        if !s.raised {
          var c := SaveAll(env, s.world, parent, f.rest, scope).world;
          StillNoneSent(w, s.world, f.child, f.rest);
          SaveAllRecords(env, s.world, parent, f.rest, scope, nodes);
          SaveAllFramed(env, s.world, parent, f.rest, scope);
          SaveAllWithin(env, s.world, parent, f.rest, scope);
          SameKeys(w, s.world, NodesOf(f.rest));
          RecordedLater(w, s.world, c, f.child, f.rest, nodes);
          RecordedBoth(w, s.world, c, nodes);
        }
      }
    }
  }

  lemma {:induction false} WorkKeepsAnswers(env: Environment, w: World, t: Tree, i: nat)
    requires Consistent(env, w, t) && i < |Work(env, w, t).world.sent|
    ensures var saved := Work(env, w, t).world;
      && KeyOf(saved, saved.sent[i].node).id > 0
      && HoldsReply(saved, saved.sent[i])
      && (LastOfItsRow(saved, Nodes(t), saved.sent, i) ==> Recorded(saved, saved.sent[i]))
  {
    EarlyPhasesAreSilent(env, w, t);
    var p, saved := Preflight(env, Reserve(env, w, t).world, t).world, Work(env, w, t).world;
    if !Reserve(env, w, t).raised && !Preflight(env, Reserve(env, w, t).world, t).raised {
      BeforeFirstCommand(env, w, t);
      SaveRecords(env, p, t, None, Nodes(t));
      SaveFramed(env, p, t, None);
      assert Kept(p, Nodes(t), saved, i);
      if LastOfItsRow(saved, Nodes(t), saved.sent, i) {
        LastStaysLast(saved, p, Nodes(t), saved.sent, saved.sent, i);
      }
    }
  }

  /**
    In every save, wherever it stops: once every entity of a row has been sent, the ledger holds what it held when
    the last one's command was built, and on top of it the values that were sent, up to the end of the work.
   */
  lemma {:induction false} WorkRecordsWhatItSent(env: Environment, w: World, t: Tree, i: nat)
    requires Consistent(env, w, t) && i < |Work(env, w, t).world.sent|
    requires LastOfItsRow(Work(env, w, t).world, Nodes(t), Work(env, w, t).world.sent, i)
    ensures Recorded(Work(env, w, t).world, Work(env, w, t).world.sent[i])
  {
    WorkKeepsAnswers(env, w, t, i);
  }

  /** Nothing is sent for an entity without an assigned, positive number. */
  lemma {:induction false} OnlyNumberedAreSent(env: Environment, w: World, t: Tree, i: nat)
    requires Consistent(env, w, t) && i < |Work(env, w, t).world.sent|
    ensures KeyOf(Work(env, w, t).world, Work(env, w, t).world.sent[i].node).id > 0
  {
    WorkKeepsAnswers(env, w, t, i);
  }

  /**
    In every save, wherever it stops: an entity whose command was persisted holds just what the provider answered,
    field by field, and otherwise what it held when the command was built.
   */
  lemma {:induction false} WorkTakesOverReplies(env: Environment, w: World, t: Tree, i: nat)
    requires Consistent(env, w, t) && i < |Work(env, w, t).world.sent|
    ensures HoldsReply(Work(env, w, t).world, Work(env, w, t).world.sent[i])
  {
    WorkKeepsAnswers(env, w, t, i);
  }

  /** So every column that was sent still has the sent value on top when the save is to be committed. */
  lemma {:induction false} SentIsRecorded(env: Environment, w: World, t: Tree, i: nat, column: string)
    requires Consistent(env, w, t) && i < |Work(env, w, t).world.sent|
    requires LastOfItsRow(Work(env, w, t).world, Nodes(t), Work(env, w, t).world.sent, i)
    requires var s := Work(env, w, t).world.sent[i];
      s.built.action != Delete && column in s.command.values && column != "id" && column != "version"
    ensures var saved, s := Work(env, w, t).world, Work(env, w, t).world.sent[i];
      CellOf(Top(LedgerOf(saved, s.node)), KeyOf(saved, s.node), column) == s.command.values[column]
  {
    WorkRecordsWhatItSent(env, w, t, i);
    var saved, s := Work(env, w, t).world, Work(env, w, t).world.sent[i];
    var fields := LayeredFields(saved, s.node);
    assert fields[|fields| - 1] == FieldsOf(Top(LedgerOf(saved, s.node)), KeyOf(saved, s.node));
    assert column in Carried(s.command.values);
  }
}
