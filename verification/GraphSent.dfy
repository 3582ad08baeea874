/** What every command sent to the provider carries: the values its checker left, built from its entity's fields. */
module GraphSent {
  import opened Outcomes
  import opened LedgerModel
  import opened GraphModel
  import opened GraphInduction
  import TraceScope

  // ----- entries of the log

  /** The command was checked, sent as its checker left it, and answered; nothing else comes between. */
  ghost predicate SentAsChecked(env: Environment, s: Sent) {
    var verdict := env.check(s.clock, s.built);
    && verdict.Accepts?
    && s.command == (if s.built.action == Delete then s.built else s.built.(values := verdict.values))
    && s.reply == env.mutate(s.clock + 1, s.command)
  }

  /** The value an attribute had when its entity's command was built. */
  function SentReference(s: Sent, member: string): Cell {
    if member in s.origin.attributes then s.origin.attributes[member] else None
  }

  // ----- what a command is built from

  /** Field `i` is loaded and stored in this column. */
  predicate Stores(s: Sent, i: int, column: string) {
    0 <= i < |s.node.fields| && s.node.fields[i].column == column && s.node.fields[i].member in s.origin.entity.loaded
  }

  /** The last such field. */
  ghost predicate StoresLast(s: Sent, i: int, column: string) {
    Stores(s, i, column) && forall j :: i < j ==> !Stores(s, j, column)
  }

  /** The id or the version, which are stored in columns of their own names. */
  predicate IsHeader(s: Sent, column: string) {
    (column == "id" || column == "version") && column in s.origin.entity.loaded
  }

  /** What an attribute contributes: its value, or for a relation the id of its object, or the object itself. */
  function Contributed(s: Sent, member: string): Cell {
    var attributes := s.origin.entity.attributes;
    if SentReference(s, member).Some? then SentReference(s, member)
    else if member in attributes && attributes[member].Object? then Some(Ref(attributes[member].node))
    else None
  }

  /** The attributes that are plain values count as those values. */
  ghost predicate PlainAttributesStand(s: Sent) {
    var attributes := s.origin.entity.attributes;
    && s.origin.attributes.Keys == attributes.Keys
    && forall m :: m in attributes && attributes[m].Scalar? ==> s.origin.attributes[m] == attributes[m].value
  }

  /** The columns of an insert are those of the loaded fields, and the id and the version if they are loaded. */
  ghost predicate InsertsWhatIsLoaded(s: Sent) {
    var e, values := s.origin.entity, s.built.values;
    && (forall column :: column in values <==> IsHeader(s, column) || exists i :: Stores(s, i, column))
    && ("id" in e.loaded ==> values["id"] == if e.id.Some? then Some(Int(e.id.value)) else None)
    && ("version" in e.loaded ==> values["version"] == if e.version.Some? then Some(Int(e.version.value)) else None)
    && (forall i, column :: StoresLast(s, i, column) && !IsHeader(s, column) ==>
          column in values && values[column] == Contributed(s, s.node.fields[i].member))
  }

  /** The columns of an update are those of the fields on top of its ledger, but for id and version. */
  ghost predicate UpdatesWhatIsOnTop(s: Sent) {
    s.origin.fields != [] && forall column :: var top := s.origin.fields[|s.origin.fields| - 1];
      && (column in s.built.values <==> column in top && column != "id" && column != "version")
      && (column in s.built.values ==> s.built.values[column] == top[column])
  }

  /**
    A command says whose it is and what it expects: an insert expects no version, and the others expect the
    version the ledger has recorded, or else the entity's.
   */
  ghost predicate AddressesItsEntity(s: Sent) {
    var e := s.origin.entity;
    && s.built.action == e.action && s.built.typeName == s.node.typeName && s.built.id == e.id
    && s.built.expectedVersion
       == if e.action == Create then None else if s.origin.version.Some? then s.origin.version else e.version
  }

  /** A lineage that the ledger has for the entity replaces the one of its path. */
  ghost predicate RecordedLineageWins(s: Sent) {
    s.specific == s.origin.trace && (s.specific != [] ==> s.lineage == s.specific)
  }

  ghost predicate BuiltFromOrigin(s: Sent) {
    && AddressesItsEntity(s) && PlainAttributesStand(s) && s.origin.fields != []
    && match s.built.action
       case Create => InsertsWhatIsLoaded(s)
       case Update => UpdatesWhatIsOnTop(s)
       case Delete => s.built.values == map[]
  }

  ghost predicate GoodEntry(env: Environment, s: Sent) {
    SentAsChecked(env, s) && BuiltFromOrigin(s) && RecordedLineageWins(s)
  }

  // ----- payloads

  predicate HasColumn(w: World, n: Node, fields: seq<Field>, i: int, column: string) {
    0 <= i < |fields| && fields[i].column == column && fields[i].member in EntityOf(w, n).loaded
  }

  lemma {:induction false} FrontHasColumn(w: World, n: Node, fields: seq<Field>, column: string)
    requires fields != []
    ensures forall i :: i != |fields| - 1 ==>
      (HasColumn(w, n, fields, i, column) <==> HasColumn(w, n, fields[..|fields| - 1], i, column))
  {
  }

  lemma {:induction false} PayloadColumns(w: World, n: Node, fields: seq<Field>, column: string)
    ensures column in FieldPayload(w, n, fields) <==> exists i :: HasColumn(w, n, fields, i, column)
  {
    if fields != [] {
      var k := |fields| - 1;
      PayloadColumns(w, n, fields[..k], column);
      FrontHasColumn(w, n, fields, column);
      if i :| HasColumn(w, n, fields, i, column) && !HasColumn(w, n, fields, k, column) {
        assert HasColumn(w, n, fields[..k], i, column);
      }
      if HasColumn(w, n, fields, k, column) {
        assert column in FieldPayload(w, n, fields);
      } else if i :| HasColumn(w, n, fields[..k], i, column) {
        assert HasColumn(w, n, fields, i, column);
      }
    }
  }

  lemma {:induction false} PayloadColumnIs(w: World, n: Node, fields: seq<Field>, i: int, column: string)
    requires HasColumn(w, n, fields, i, column) && forall j :: i < j ==> !HasColumn(w, n, fields, j, column)
    ensures column in FieldPayload(w, n, fields)
    ensures FieldPayload(w, n, fields)[column] == PayloadValue(w, n, fields[i].member)
  {
    var k := |fields| - 1;
    if i < k {
      FrontHasColumn(w, n, fields, column);
      forall j | i < j
        ensures !HasColumn(w, n, fields[..k], j, column)
      {
        assert j < k ==> fields[..k][j] == fields[j] && !HasColumn(w, n, fields, j, column);
      }
      PayloadColumnIs(w, n, fields[..k], i, column);
      assert !HasColumn(w, n, fields, k, column);
    }
  }

  lemma {:induction false} InsertIs(w: World, n: Node, s: Sent)
    requires s.node == n && s.built == BuildCommand(w, n) && s.origin == OriginOf(w, n) && s.built.action == Create
    ensures InsertsWhatIsLoaded(s)
  {
    forall column
      ensures column in s.built.values <==> IsHeader(s, column) || exists i :: Stores(s, i, column)
    {
      PayloadColumns(w, n, n.fields, column);
      assert forall i :: Stores(s, i, column) <==> HasColumn(w, n, n.fields, i, column);
    }
    forall i, column | StoresLast(s, i, column) && !IsHeader(s, column)
      ensures column in s.built.values && s.built.values[column] == Contributed(s, s.node.fields[i].member)
    {
      assert forall j :: Stores(s, j, column) <==> HasColumn(w, n, n.fields, j, column);
      PayloadColumnIs(w, n, n.fields, i, column);
      PayloadIsContributed(w, n, s, s.node.fields[i].member);
    }
  }

  lemma {:induction false} PayloadIsContributed(w: World, n: Node, s: Sent, member: string)
    requires s.origin == OriginOf(w, n)
    ensures PayloadValue(w, n, member) == Contributed(s, member)
  {
  }

  lemma {:induction false} BuiltEntry(w: World, n: Node, s: Sent)
    requires s.node == n && s.built == BuildCommand(w, n) && s.origin == OriginOf(w, n)
    ensures BuiltFromOrigin(s)
  {
    assert s.origin.fields[|s.origin.fields| - 1] == FieldsOf(Top(LedgerOf(w, n)), KeyOf(w, n));
    if s.built.action == Create {
      InsertIs(w, n, s);
    }
  }

  ghost predicate AllGood(env: Environment, sent: seq<Sent>) {
    forall i :: 0 <= i < |sent| ==> GoodEntry(env, sent[i])
  }

  ghost predicate LogGood(env: Environment, w: World) {
    AllGood(env, w.sent)
  }

  /** The entry a send adds, if it adds one. */
  lemma {:induction false} SendLogs(env: Environment, w: World, n: Node, scope: TraceScope.Scope)
    ensures var w1 := Send(env, w, n, scope).0.world;
      w1.sent == w.sent || (|w1.sent| == |w.sent| + 1 && w1.sent[..|w.sent|] == w.sent && GoodEntry(env, w1.sent[|w.sent|]))
  {
    var w1 := Send(env, w, n, scope).0.world;
    if w1.sent != w.sent {
      BuiltEntry(w, n, w1.sent[|w.sent|]);
    }
  }

  lemma {:induction false} SendKeepsGood(env: Environment, w: World, n: Node, scope: TraceScope.Scope)
    requires AllGood(env, w.sent)
    ensures AllGood(env, Send(env, w, n, scope).0.world.sent)
  {
    SendLogs(env, w, n, scope);
    var w1 := Send(env, w, n, scope).0.world;
    forall i | 0 <= i < |w1.sent|
      ensures GoodEntry(env, w1.sent[i])
    {
      assert i < |w.sent| ==> w1.sent[..|w.sent|][i] == w.sent[i];
    }
  }

  lemma {:induction false} EarlyStepsKeepLog(env: Environment, nodes: set<Node>, edges: set<Edge>)
    ensures KeptByAttach(nodes, u => LogGood(env, u)) && KeptByReserve(env, nodes, u => LogGood(env, u))
    ensures KeptByCarryBack(nodes, u => LogGood(env, u)) && KeptByLink(nodes, edges, u => LogGood(env, u))
  {
  }

  lemma {:induction false} LaterStepsKeepLog(env: Environment, nodes: set<Node>)
    ensures KeptByReach(nodes, u => LogGood(env, u)) && KeptByAdopt(env, nodes, u => LogGood(env, u))
    ensures KeptByCommitEntry(nodes, u => LogGood(env, u))
  {
  }

  /**
    In every save, wherever it stops: every command that reached the provider had been accepted by its checker
    and carried exactly the values the checker left in it (a deletion carries none), and the record that was
    adopted is the provider's answer to it.
   */
  lemma {:induction false} WorkSendsAsChecked(env: Environment, w: World, t: Tree)
    requires w.sent == []
    ensures AllGood(env, Work(env, w, t).world.sent)
  {
    var nodes, edges := Nodes(t), Edges(t);
    var inv := (u: World) => LogGood(env, u);
    EarlyStepsKeepLog(env, nodes, edges);
    LaterStepsKeepLog(env, nodes);
    forall u, n, scope | inv(u) && n in nodes
      ensures inv(Send(env, u, n, scope).0.world)
    {
      SendKeepsGood(env, u, n, scope);
    }
    ReserveKeeps(env, nodes, inv, w, t);
    var r := Reserve(env, w, t);
    if !r.raised {
      PreflightKeeps(env, nodes, edges, inv, r.world, t);
      var p := Preflight(env, r.world, t);
      if !p.raised {
        SaveKeeps(env, nodes, edges, inv, p.world, t, None);
      }
    }
  }
}
