/** Whole saves that can be followed call by call: of entities without children, in one ledger, that nobody refuses. */
module GraphRuns {
  import opened Outcomes
  import opened LedgerModel
  import opened GraphModel
  import TraceScope

  function Leaf(n: Node): Tree {
    Tree(n, Done)
  }

  /** A saved entity with an id whose loaded record has changes pending. */
  predicate Changed(w: World, n: Node) {
    var e := EntityOf(w, n);
    e.action == Update && e.id == Some(e.ledgerId) && e.ledgerId > 0 && Pending(w, n) && FullyLoaded(w, n)
  }

  /** Carrying these values back changes nothing: the ledger holds them already. */
  predicate HeldAlready(w: World, n: Node, values: Fields) {
    var carried, top := Carried(values), Top(LedgerOf(w, n));
    carried == map[] || (KeyOf(w, n) in top && FieldsOf(top, KeyOf(w, n)) + carried == FieldsOf(top, KeyOf(w, n)))
  }

  lemma {:induction false} NothingCarried(w: World, n: Node, values: Fields)
    requires EntityOf(w, n).root in w.ledgers && HeldAlready(w, n, values)
    ensures CarryBack(Tick(w), n, values) == Tick(w)
  {
    var l, root := LedgerOf(w, n), EntityOf(w, n).root;
    assert AddFields(Top(l), KeyOf(w, n), Carried(values)) == Top(l);
    assert WithTop(l, Top(l)) == l;
    assert w.ledgers[root := l] == w.ledgers;
  }

  lemma {:induction false} LeafAttaches(w: World, n: Node)
    ensures Attach(w, Leaf(n), EntityOf(w, n).root) == Progress(w, false)
  {
  }

  lemma {:induction false} LeafReserves(env: Environment, w: World, n: Node)
    requires EntityOf(w, n).action != Create
    ensures Reserve(env, w, Leaf(n)) == Progress(w, false)
  {
  }

  lemma {:induction false} LeafPreflights(env: Environment, w: World, n: Node)
    requires Changed(w, n) && EntityOf(w, n).root in w.ledgers
    requires var verdict := env.preflight(w.clock, BuildCommand(w, n));
      verdict.Accepts? && HeldAlready(w, n, verdict.values)
    ensures Preflight(env, w, Leaf(n)) == Progress(Tick(w), false)
  {
    NothingCarried(w, n, env.preflight(w.clock, BuildCommand(w, n)).values);
  }

  /** The entry a command that is accepted and persisted leaves. */
  function LeafEntry(env: Environment, w: World, n: Node, scope: TraceScope.Scope): Sent {
    var built := BuildCommand(w, n);
    var command := built.(values := env.check(w.clock, built).values);
    var specific := TraceChain(LedgerOf(w, n), KeyOf(w, n));
    Sent(n, w.clock, built, command, specific, if specific != [] then specific else TraceScope.Recovered(scope),
         OriginOf(w, n), env.mutate(w.clock + 1, command))
  }

  /** The world after such a save: the entity has the new version, everything else is log and registered actions. */
  function LeafSaved(w: World, n: Node, entry: Sent, version: int): World {
    var e := EntityOf(w, n);
    World(w.entities[n.self := e.(version := Some(version), loaded := e.loaded + {"id"} + {"version"})], w.ledgers, w.clock + 2,
          w.undo + [UndoSave(n, e, e.ledgerId)], w.commits + [CommitEntity(n, KeyOf(w, n))],
          w.visits + [Visit(n, Update, true)], w.sent + [entry])
  }

  /** The environment lets the entity's command through and answers with this version. */
  predicate LetsThrough(env: Environment, w: World, n: Node, version: int) {
    var built := BuildCommand(w, n);
    var verdict := env.check(w.clock, built);
    && verdict.Accepts? && HeldAlready(w, n, verdict.values)
    && env.mutate(w.clock + 1, built.(values := verdict.values)) == Persisted(EntityOf(w, n).id, Some(version), map[])
  }

  lemma {:induction false} LeafSends(env: Environment, w: World, n: Node, scope: TraceScope.Scope, version: int)
    requires Changed(w, n) && EntityOf(w, n).root in w.ledgers && LetsThrough(env, w, n, version)
    ensures var entry := LeafEntry(env, w, n, scope);
      Send(env, w, n, scope)
      == (Progress(w.(clock := w.clock + 2, sent := w.sent + [entry]), false), Persisted(EntityOf(w, n).id, Some(version), map[]))
  {
    NothingCarried(w, n, env.check(w.clock, BuildCommand(w, n)).values);
  }

  lemma {:induction false} NoColumnsStored(e: Entity, fields: seq<Field>)
    ensures StoreFields(e, map[], fields) == e
  {
    if fields != [] {
      NoColumnsStored(e, fields[..|fields| - 1]);
    }
  }

  lemma {:induction false} LeafAdopts(w: World, n: Node, version: int)
    requires EntityOf(w, n).action == Update && EntityOf(w, n).id == Some(EntityOf(w, n).ledgerId)
    requires EntityOf(w, n).root in w.ledgers
    ensures var e := EntityOf(w, n);
      Adopt(w, n, Persisted(e.id, Some(version), map[]))
      == Progress(w.(entities := w.entities[n.self := e.(version := Some(version), loaded := e.loaded + {"id"} + {"version"})],
                     undo := w.undo + [UndoSave(n, e, e.ledgerId)]), false)
  {
    var e := EntityOf(w, n);
    NoColumnsStored(e, n.fields);
    var adopted := Adopted(n, e, Persisted(e.id, Some(version), map[]));
    assert adopted == e.(version := Some(version), loaded := e.loaded + {"id"} + {"version"});
    assert Rekey(LedgerOf(w, n), KeyOf(w, n), EntityKey(n.typeName, adopted.ledgerId)) == Ok(LedgerOf(w, n));
    assert w.ledgers[e.root := LedgerOf(w, n)] == w.ledgers;
    assert w.entities[n.self := adopted][n.self := adopted] == w.entities[n.self := adopted];
  }

  lemma {:induction false} LeafSaves(env: Environment, w: World, n: Node, parent: Option<TraceScope.Scope>,
      scope: TraceScope.Scope,
      version: int)
    requires Changed(w, n) && EntityOf(w, n).root in w.ledgers && LetsThrough(env, w, n, version)
    requires ScopeOf(w, n, parent) == Some(scope)
    ensures Save(env, w, Leaf(n), parent) == Progress(LeafSaved(w, n, LeafEntry(env, w, n, scope), version), false)
  {
    var w1, e := Reach(w, n), EntityOf(w, n);
    ReachedLeaf(env, w, n, scope, version);
    LeafAttaches(w1, n);
    LeafSends(env, w1, n, scope, version);
    var w2 := w1.(clock := w1.clock + 2, sent := w1.sent + [LeafEntry(env, w1, n, scope)]);
    assert EntityOf(w2, n) == e;
    LeafAdopts(w2, n, version);
    LeafRegisters(env, w1, n, scope, Send(env, w1, n, scope).0.world, Adopt(w2, n, Persisted(e.id, Some(version), map[])).world);
  }

  /** Reaching an entity changes nothing that its command depends on. */
  lemma {:induction false} ReachedLeaf(env: Environment, w: World, n: Node, scope: TraceScope.Scope, version: int)
    requires EntityOf(w, n).action == Update
    ensures var w1 := Reach(w, n);
      && LeafEntry(env, w1, n, scope) == LeafEntry(env, w, n, scope)
      && (Changed(w, n) ==> Changed(w1, n)) && (LetsThrough(env, w, n, version) ==> LetsThrough(env, w1, n, version))
  {
    var w1 := Reach(w, n);
    assert EntityOf(w1, n) == EntityOf(w, n) && LedgerOf(w1, n) == LedgerOf(w, n);
    assert BuildCommand(w1, n) == BuildCommand(w, n);
    forall member | member in EntityOf(w, n).attributes
      ensures Resolved(w1, EntityOf(w, n).attributes[member]) == Resolved(w, EntityOf(w, n).attributes[member])
    {
    }
    assert ResolvedAttributes(w1, n) == ResolvedAttributes(w, n);
  }

  /** A command that was sent and adopted, without children, ends with its commit action. */
  lemma {:induction false} LeafRegisters(env: Environment, w: World, n: Node, scope: TraceScope.Scope, sent: World,
      own: World)
    requires Send(env, w, n, scope).0 == Progress(sent, false)
      && Adopt(sent, n, Send(env, w, n, scope).1) == Progress(own, false)
    ensures SaveCommanded(env, w, Leaf(n), scope, false) == Progress(RegisterCommit(own, n, KeyOf(own, n)), false)
  {
    LeafAttaches(w, n);
    assert SaveOwn(env, w, Leaf(n), scope) == Progress(own, false);
    assert SaveAll(env, own, n, Done, scope) == Progress(own, false);
  }

  /** The early check lets the entity's command through. */
  predicate PassesEarly(env: Environment, w: World, n: Node) {
    var verdict := env.preflight(w.clock, BuildCommand(w, n));
    verdict.Accepts? && HeldAlready(w, n, verdict.values)
  }

  /** A whole save of one entity. */
  lemma {:induction false} LeafWork(env: Environment, w: World, n: Node, scope: TraceScope.Scope, version: int)
    requires Changed(w, n) && EntityOf(w, n).root in w.ledgers && PassesEarly(env, w, n)
      && LetsThrough(env, Tick(w), n, version)
    requires ScopeOf(Tick(w), n, None) == Some(scope)
    ensures Work(env, w, Leaf(n)) == Progress(LeafSaved(Tick(w), n, LeafEntry(env, Tick(w), n, scope), version), false)
  {
    LeafReserves(env, w, n);
    LeafPreflights(env, w, n);
    assert EntityOf(Tick(w), n) == EntityOf(w, n) && LedgerOf(Tick(w), n) == LedgerOf(w, n);
    LeafSaves(env, Tick(w), n, None, scope, version);
  }

  // ----- children, one after another

  /** The child is in its parent's ledger and points at it already. */
  predicate InPlace(w: World, parent: Node, f: Forest, n: Node) {
    && f.Child? && f.child == Leaf(n) && EntityOf(w, n).root == EntityOf(w, parent).root
    && Reference(w, n, f.member) == IdValue(EntityOf(w, parent).id)
  }

  lemma {:induction false} NextLeafReserves(env: Environment, w: World, parent: Node, f: Forest, n: Node)
    requires InPlace(w, parent, f, n) && EntityOf(w, n).action != Create
    ensures ReserveAll(env, w, parent, f) == ReserveAll(env, w, parent, f.rest)
  {
    LeafAttaches(w, n);
    LeafReserves(env, w, n);
  }

  lemma {:induction false} NextLeafPreflights(env: Environment, w: World, parent: Node, f: Forest, n: Node)
    requires InPlace(w, parent, f, n) && Changed(w, n) && EntityOf(w, n).root in w.ledgers && PassesEarly(env, w, n)
    ensures PreflightAll(env, w, parent, f) == PreflightAll(env, Tick(w), parent, f.rest)
  {
    LeafAttaches(w, n);
    LeafPreflights(env, w, n);
  }

  lemma {:induction false} NextLeafSaves(env: Environment, w: World, parent: Node, f: Forest, n: Node,
      scope: TraceScope.Scope, own: TraceScope.Scope, version: int)
    requires InPlace(w, parent, f, n) && Changed(w, n) && EntityOf(w, n).root in w.ledgers
      && LetsThrough(env, w, n, version)
    requires ScopeOf(w, n, Some(scope)) == Some(own)
    ensures SaveAll(env, w, parent, f, scope)
         == SaveAll(env, LeafSaved(w, n, LeafEntry(env, w, n, own), version), parent, f.rest, scope)
  {
    LeafAttaches(w, n);
    LeafSaves(env, w, n, Some(scope), own, version);
  }
}
