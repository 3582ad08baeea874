/**
  What a save loses of what is pending: updates send the top layer as their checkers leave it, but commits and
  attachments act on every layer. Exactly when nothing is lost.
 */
module PendingLimits {
  import opened Outcomes
  import opened LedgerModel
  import opened GraphModel
  import opened GraphRetained
  import opened GraphSent
  import opened GraphEarly
  import opened GraphRecorded
  import opened GraphRuns
  import opened GraphCommit
  import opened GraphTheorems
  import TraceScope

  // ----- what is pending, and what of it an update leaves out

  /** Everything pending for a key: its fields in all layers, the higher ones winning. */
  function Overlay(fields: seq<Fields>): Fields {
    if fields == [] then map[] else Overlay(fields[..|fields| - 1]) + fields[|fields| - 1]
  }

  /** The columns a command may carry. */
  function Columns(fields: Fields): set<string> {
    fields.Keys - {"id", "version"}
  }

  lemma {:induction false} OverlayColumns(fields: seq<Fields>, column: string)
    ensures column in Overlay(fields) <==> exists i :: 0 <= i < |fields| && column in fields[i]
  {
    if fields != [] {
      var front, last := fields[..|fields| - 1], fields[|fields| - 1];
      OverlayColumns(front, column);
      if i :| 0 <= i < |fields| && column in fields[i] {
        assert i < |front| ==> front[i] == fields[i];
      }
      if i :| 0 <= i < |front| && column in front[i] {
        assert fields[i] == front[i];
      }
    }
  }

  lemma {:induction false} OverlayWithCarried(fields: seq<Fields>, values: Fields)
    requires fields != []
    ensures Overlay(WithCarried(fields, values)) == Overlay(fields) + Carried(values)
  {
    var last := |fields| - 1;
    assert WithCarried(fields, values)[..last] == fields[..last];
  }

  /** The pending columns that the top layer does not have: those a pushed change set hides. */
  function Hidden(fields: seq<Fields>): set<string> {
    if fields == [] then {} else Columns(Overlay(fields)) - Columns(fields[|fields| - 1])
  }

  /** A column is hidden exactly when some lower layer has it and the top one does not; one layer hides nothing. */
  lemma {:induction false} HiddenMeans(fields: seq<Fields>, column: string)
    requires fields != []
    ensures column in Hidden(fields) <==>
      && column != "id" && column != "version" && column !in fields[|fields| - 1]
      && exists i :: 0 <= i < |fields| - 1 && column in fields[i]
    ensures |fields| == 1 ==> Hidden(fields) == {}
  {
    OverlayColumns(fields, column);
    if |fields| == 1 {
      forall c
        ensures c !in Hidden(fields)
      {
        OverlayColumns(fields, c);
      }
    }
  }

  /** The checker took no column away. */
  predicate CheckerKeptAll(s: Sent) {
    s.built.values.Keys <= s.command.values.Keys
  }

  /** Every column that was pending when the command was built was sent. */
  predicate SentAllPending(s: Sent) {
    Columns(Overlay(s.origin.fields)) <= s.command.values.Keys
  }

  lemma {:induction false} SentAllPendingMeans(s: Sent)
    requires BuiltFromOrigin(s) && s.built.action == Update
    ensures SentAllPending(s) <==> CheckerKeptAll(s) && Hidden(s.origin.fields) <= s.command.values.Keys
    ensures s.command.values.Keys <= s.built.values.Keys ==> (SentAllPending(s) <==> CheckerKeptAll(s) && Hidden(s.origin.fields) == {})
  {
    var top := s.origin.fields[|s.origin.fields| - 1];
    assert s.built.values.Keys == Columns(top);
    forall column | column in top
      ensures column in Overlay(s.origin.fields)
    {
      OverlayColumns(s.origin.fields, column);
    }
    assert Columns(Overlay(s.origin.fields)) == Columns(top) + Hidden(s.origin.fields);
  }

  /**
    In every save, wherever it stops: an update that was sent carried every pending column if and only if its
    checker took none away and supplied those that a pushed change set hid. A checker that adds no columns
    leaves just this: it took none away, and none were hidden.
   */
  lemma {:induction false} UpdateSendsAllPendingIff(env: Environment, w: World, t: Tree, i: nat)
    requires w.sent == [] && i < |Work(env, w, t).world.sent| && Work(env, w, t).world.sent[i].built.action == Update
    ensures var s := Work(env, w, t).world.sent[i];
      && (SentAllPending(s) <==> CheckerKeptAll(s) && Hidden(s.origin.fields) <= s.command.values.Keys)
      && (s.command.values.Keys <= s.built.values.Keys ==> (SentAllPending(s) <==> CheckerKeptAll(s) && Hidden(s.origin.fields) == {}))
  {
    WorkSendsAsChecked(env, w, t);
    assert GoodEntry(env, Work(env, w, t).world.sent[i]);
    SentAllPendingMeans(Work(env, w, t).world.sent[i]);
  }

  /** Everything pending under the entity's key was sent, with just these values. */
  ghost predicate AllWasSent(w: World, s: Sent) {
    var pending := Overlay(LayeredFields(w, s.node));
    forall column :: column in Columns(pending) ==>
      column in s.command.values && pending[column] == s.command.values[column]
  }

  lemma {:induction false} AllWasSentMeans(w: World, s: Sent)
    requires Recorded(w, s) && s.built.action != Delete
    ensures AllWasSent(w, s) <==> SentAllPending(s)
  {
    var before, values := Overlay(s.origin.fields), s.command.values;
    OverlayWithCarried(s.origin.fields, values);
    var pending := Overlay(LayeredFields(w, s.node));
    assert pending == before + Carried(values);
    assert forall column :: column in Columns(before) ==> column in Columns(pending);
    assert forall column :: column in Carried(values) <==> column in values && column != "id" && column != "version";
  }

  /**
    After a save that went through, for the last update of a row: what the commit clears is exactly what it sent if
    and only if its checker took no column away and supplied the hidden ones. Either way the commit clears it all.
   */
  lemma {:induction false} CommitClearsWhatWasSentIff(env: Environment, w: World, t: Tree, i: nat)
    requires Consistent(env, w, t) && !Work(env, w, t).raised && i < |Work(env, w, t).world.sent|
    requires Work(env, w, t).world.sent[i].built.action == Update
    requires LastOfItsRow(Work(env, w, t).world, Nodes(t), Work(env, w, t).world.sent, i)
    ensures var saved, s := Work(env, w, t).world, Work(env, w, t).world.sent[i];
      && (AllWasSent(saved, s) <==> CheckerKeptAll(s) && Hidden(s.origin.fields) <= s.command.values.Keys)
      && !Pending(Committed(saved).0, s.node)
  {
    WorkRecordsWhatItSent(env, w, t, i);
    UpdateSendsAllPendingIff(env, w, t, i);
    AllWasSentMeans(Work(env, w, t).world, Work(env, w, t).world.sent[i]);
    CommittedSaveIsSettled(env, w, t, i);
  }

  // ----- attaching

  /**
    Attaching a pending entity to another ledger leaves it pending if and only if it was marked or had fields on
    top of its own ledger, or its key was pending in the other one already.
   */
  lemma {:induction false} AttachKeepsPendingIff(w: World, n: Node, root: RootId)
    requires EntityOf(w, n).root != root && Pending(w, n) && !AttachOne(w, n, root).raised
    ensures Pending(AttachOne(w, n, root).world, n)
       <==> OnTop(LedgerOf(w, n), KeyOf(w, n)) || HasPending(LedgerAt(w, root), KeyOf(w, n))
  {
    var target, source, key := LedgerAt(w, root), LedgerOf(w, n), KeyOf(w, n);
    var w1 := AttachOne(w, n, root).world;
    assert LedgerOf(w1, n) == Import(target, Snapshot(source, key)) && KeyOf(w1, n) == key;
    ImportPendingIff(target, source, key);
  }

  lemma {:induction false} ImportPendingIff(target: Root, source: Root, key: EntityKey)
    ensures HasPending(Import(target, Snapshot(source, key)), key) <==> OnTop(source, key) || HasPending(target, key)
  {
    var r := Import(target, Snapshot(source, key));
    if OnTop(source, key) {
      ImportKeepsOnTop(target, source, key, key);
      OnTopIsPending(r, key);
    } else {
      assert r.layers == target.layers;
      assert r.newKeys == target.newKeys && r.deletedKeys == target.deletedKeys;
    }
  }

  // ----- inputs where it is lost

  const NODE := Node(0, "T", [Field("name", "name"), Field("note", "note")], Some("reason"))
  const KEY := EntityKey("T", 5)
  const NAME: Fields := map["name" := Some(Str("new"))]
  const NOTE: Fields := map["note" := Some(Str("noted"))]
  const ENTITY := Entity(0, Update, Some(5), Some(1), 5, {"id", "version", "name", "note"},
                         map["name" := Scalar(Some(Str("new"))), "note" := Scalar(Some(Str("noted")))])

  /** The note was written to a change set that was pushed on top of the name. */
  function PushedLayers(): seq<Changes> {
    [map[KEY := NAME], map[KEY := NOTE]]
  }

  /** Both are in one layer. */
  function OneLayer(): seq<Changes> {
    [map[KEY := NAME + NOTE]]
  }

  /** An entity with these changes pending. */
  function Edited(layers: seq<Changes>): World
    requires layers != []
  {
    World(map[0 := ENTITY], map[0 := Ledger(layers, map[KEY := 1], {}, {}, map[]), 1 := EMPTY], 0, [], [], [], [])
  }

  /** Nobody refuses; the last check leaves what `fix` makes of the values. */
  function Willing(fix: Fields -> Fields): Environment {
    Environment((_, _) => None, (_, c: Command) => Accepts(c.values), (_, c: Command) => Accepts(fix(c.values)),
                (_, c: Command) => Persisted(c.id, Some(2), map[]))
  }

  function Reason(): TraceScope.Scope {
    TraceScope.Scope(TraceScope.AuditReason("T", 5, "reason"), None)
  }

  /** The world after its save. */
  function EditedSaved(env: Environment, layers: seq<Changes>): World
    requires layers != []
  {
    var w := Tick(Edited(layers));
    LeafSaved(w, NODE, LeafEntry(env, w, NODE, Reason()), 2)
  }

  /** The name is pending, the note is on top, and the note is all that the check leaves. */
  ghost predicate LeavesNote(fix: Fields -> Fields, layers: seq<Changes>)
    requires layers != []
  {
    && KEY in layers[0] && "name" in layers[0][KEY] && GetFrom(layers, KEY, "name") == Some(Str("new"))
    && KEY in layers[|layers| - 1] && var top := layers[|layers| - 1][KEY];
       top + NOTE == top && Carried(top) == top && fix(top) == NOTE
  }

  lemma {:induction false} EditedIsChanged(layers: seq<Changes>)
    requires layers != [] && KEY in layers[|layers| - 1]
    ensures var w := Edited(layers);
      && Changed(w, NODE) && KeyOf(w, NODE) == KEY && ScopeOf(Tick(w), NODE, None) == Some(Reason())
      && LedgerOf(w, NODE).layers == layers && LedgerOf(Tick(w), NODE).layers == layers
        && EntityOf(Tick(w), NODE) == ENTITY
  {
    assert KEY in LedgerOf(Edited(layers), NODE).layers[|layers| - 1];
    assert "reason"[0] in "reason";
  }

  lemma {:induction false} BuiltFrom(w: World)
    requires EntityOf(w, NODE) == ENTITY
    ensures BuildCommand(w, NODE).values == Carried(FieldsOf(Top(LedgerOf(w, NODE)), KEY))
  {
  }

  lemma {:induction false} EditedIsStarting(fix: Fields -> Fields, layers: seq<Changes>)
    requires layers != []
    ensures Starting(Willing(fix), Edited(layers), Leaf(NODE))
  {
    assert Nodes(Leaf(NODE)) == {NODE};
  }

  lemma {:induction false} CleanHasNoCells(layers: seq<Changes>, key: EntityKey, field: string)
    requires forall i :: 0 <= i < |layers| ==> key !in layers[i]
    ensures GetFrom(layers, key, field) == None
  {
    if layers != [] {
      CleanHasNoCells(layers[..|layers| - 1], key, field);
    }
  }

  /** The save goes through with a command that lacks the pending name, and the commit clears the name. */
  ghost predicate LosesName(env: Environment, w: World, t: Tree) {
    && Starting(env, w, t) && !Work(env, w, t).raised && |Work(env, w, t).world.sent| == 1
    && Pending(w, NODE) && Get(LedgerOf(w, NODE), KEY, "name") == Some(Str("new"))
    && Get(LedgerOf(Committed(Work(env, w, t).world).0, NODE), KEY, "name") == None
    && var s := Work(env, w, t).world.sent[0];
       s.node == NODE && s.built.action == Update && s.command.values == NOTE && !SentAllPending(s)
  }

  lemma {:induction false} NameIsCleared(env: Environment, w: World, t: Tree, saved: World)
    requires Starting(env, w, t) && Work(env, w, t) == Progress(saved, false) && |saved.sent| == 1
      && saved.sent[0].node == NODE
    requires KeyOf(saved, NODE) == KEY
    ensures Get(LedgerOf(Committed(saved).0, NODE), KEY, "name") == None
  {
    StartingIsConsistent(env, w, t);
    CommittedSaveIsSettled(env, w, t, 0);
    CommitClearsWhatItIsAbout(saved);
    var end := Committed(saved).0;
    assert EntityOf(end, NODE) == EntityOf(saved, NODE);
    CleanHasNoCells(LedgerOf(end, NODE).layers, KEY, "name");
  }

  lemma {:induction false} EditedPasses(fix: Fields -> Fields, layers: seq<Changes>)
    requires layers != [] && LeavesNote(fix, layers)
    ensures PassesEarly(Willing(fix), Edited(layers), NODE)
  {
    EditedIsChanged(layers);
    BuiltFrom(Edited(layers));
  }

  lemma {:induction false} EditedIsLetThrough(fix: Fields -> Fields, layers: seq<Changes>)
    requires layers != [] && LeavesNote(fix, layers)
    ensures LetsThrough(Willing(fix), Tick(Edited(layers)), NODE, 2)
  {
    EditedIsChanged(layers);
    BuiltFrom(Tick(Edited(layers)));
    assert Carried(NOTE) == NOTE;
  }

  lemma {:induction false} EditedGoesThrough(fix: Fields -> Fields, layers: seq<Changes>)
    requires layers != [] && LeavesNote(fix, layers)
    ensures Work(Willing(fix), Edited(layers), Leaf(NODE)) == Progress(EditedSaved(Willing(fix), layers), false)
  {
    EditedIsChanged(layers);
    EditedPasses(fix, layers);
    EditedIsLetThrough(fix, layers);
    LeafWork(Willing(fix), Edited(layers), NODE, Reason(), 2);
  }

  /** The one entry of that save. */
  lemma {:induction false} EditedEntry(fix: Fields -> Fields, layers: seq<Changes>)
    requires layers != [] && LeavesNote(fix, layers)
    ensures var saved := EditedSaved(Willing(fix), layers);
      && |saved.sent| == 1 && KeyOf(saved, NODE) == KEY && saved.sent[0].node == NODE
      && saved.sent[0].origin.fields == FieldsIn(layers, KEY) && saved.sent[0].built.action == Update
      && saved.sent[0].built.values == Carried(layers[|layers| - 1][KEY])
        && saved.sent[0].command.values == NOTE
  {
    EditedIsChanged(layers);
    BuiltFrom(Tick(Edited(layers)));
    assert EntityOf(EditedSaved(Willing(fix), layers), NODE).ledgerId == 5;
  }

  lemma {:induction false} NameIsLost(fix: Fields -> Fields, layers: seq<Changes>)
    requires layers != [] && LeavesNote(fix, layers)
    ensures LosesName(Willing(fix), Edited(layers), Leaf(NODE))
    ensures var s := Work(Willing(fix), Edited(layers), Leaf(NODE)).world.sent[0];
      s.origin.fields == FieldsIn(layers, KEY) && s.built.values == Carried(layers[|layers| - 1][KEY])
  {
    EditedGoesThrough(fix, layers);
    EditedEntry(fix, layers);
    EditedIsStarting(fix, layers);
    EditedIsChanged(layers);
    assert "name" in FieldsIn(layers, KEY)[0];
    WithoutNameIsLost(Willing(fix), Edited(layers), Leaf(NODE), EditedSaved(Willing(fix), layers));
  }

  lemma {:induction false} WithoutNameIsLost(env: Environment, w: World, t: Tree, saved: World)
    requires Starting(env, w, t) && Work(env, w, t) == Progress(saved, false) && |saved.sent| == 1
      && KeyOf(saved, NODE) == KEY
    requires Pending(w, NODE) && Get(LedgerOf(w, NODE), KEY, "name") == Some(Str("new"))
    requires var s := saved.sent[0];
      s.node == NODE && s.built.action == Update && s.command.values == NOTE && s.origin.fields != [] && "name" in s.origin.fields[0]
    ensures LosesName(env, w, t)
  {
    NameIsCleared(env, w, t, saved);
    NoteIsNotAll(saved.sent[0]);
  }

  lemma {:induction false} NoteIsNotAll(s: Sent)
    requires s.command.values == NOTE && s.origin.fields != [] && "name" in s.origin.fields[0]
    ensures !SentAllPending(s)
  {
    OverlayColumns(s.origin.fields, "name");
    assert "name" in Columns(Overlay(s.origin.fields)) && "name" !in NOTE;
  }

  lemma {:induction false} PushedHidesName()
    ensures GetFrom(PushedLayers(), KEY, "name") == Some(Str("new"))
    ensures Hidden(FieldsIn(PushedLayers(), KEY)) == {"name"}
  {
    var fields := FieldsIn(PushedLayers(), KEY);
    LookupInTwo(PushedLayers(), KEY, "name");
    assert fields[0] == NAME && fields[1] == NOTE;
    forall column
      ensures column in Hidden(fields) <==> column == "name"
    {
      HiddenMeans(fields, column);
    }
  }

  /** A pushed change set hides the name, and the update carries the note only. */
  lemma {:induction false} PushedUpdateIsLost() returns (env: Environment, w: World, t: Tree)
    ensures LosesName(env, w, t)
    ensures var s := Work(env, w, t).world.sent[0];
      CheckerKeptAll(s) && Hidden(s.origin.fields) == {"name"}
  {
    var fix := (values: Fields) => values;
    PushedHidesName();
    assert Carried(NOTE) == NOTE;
    env, w, t := Willing(fix), Edited(PushedLayers()), Leaf(NODE);
    NameIsLost(fix, PushedLayers());
  }

  function WithoutName(values: Fields): Fields {
    values - {"name"}
  }

  lemma {:induction false} NameIsTakenOut()
    ensures LeavesNote(WithoutName, OneLayer()) && "name" in Carried(NAME + NOTE)
  {
    assert OneLayer()[..0] == [];
    assert Carried(NAME + NOTE) == NAME + NOTE && WithoutName(NAME + NOTE) == NOTE;
  }

  /** The checker accepts the update and takes the name out of it. */
  lemma {:induction false} DroppedUpdateIsLost() returns (env: Environment, w: World, t: Tree)
    ensures LosesName(env, w, t)
    ensures var s := Work(env, w, t).world.sent[0];
      !CheckerKeptAll(s) && Hidden(s.origin.fields) == {}
  {
    NameIsTakenOut();
    HiddenMeans(FieldsIn(OneLayer(), KEY), "name");
    env, w, t := Willing(WithoutName), Edited(OneLayer()), Leaf(NODE);
    NameIsLost(WithoutName, OneLayer());
    assert "name" !in NOTE;
  }

  lemma {:induction false} LookupInTwo(layers: seq<Changes>, key: EntityKey, field: string)
    requires |layers| == 2
    ensures GetFrom(layers, key, field)
         == if CellOf(layers[1], key, field).Some? then CellOf(layers[1], key, field) else CellOf(layers[0], key, field)
  {
    assert layers[..1][..0] == [];
    assert GetFrom(layers[..1], key, field) == CellOf(layers[0], key, field);
  }

  /**
    With only the name pending, below an empty pushed change set: attached to another ledger, it is pending no
    more.
   */
  lemma {:induction false} PushedUpdateIsDropped()
    ensures var w := Edited([map[KEY := NAME], map[]]);
      Pending(w, NODE) && !AttachOne(w, NODE, 1).raised && !Pending(AttachOne(w, NODE, 1).world, NODE)
  {
    var w := Edited([map[KEY := NAME], map[]]);
    assert KEY in LedgerOf(w, NODE).layers[0];
    AttachKeepsPendingIff(w, NODE, 1);
  }
}
