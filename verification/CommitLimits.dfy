/** Two objects for one row, in one save: an input at which the version one of them persisted is not recorded. */
module CommitLimits {
  import opened Outcomes
  import opened LedgerModel
  import opened GraphModel
  import opened GraphRuns
  import opened GraphCommit
  import opened GraphTrace
  import opened GraphRollback
  import opened GraphTheorems
  import TraceScope

  const ROOT := Node(0, "Platform", [], Some("reason"))
  const FIRST := Node(1, "School", [Field("platform", "platform")], None)
  const SECOND := Node(2, "School", [Field("platform", "platform")], None)
  const KEY := EntityKey("School", 5)
  const TREE := Tree(ROOT, Child("platform", "platform", Leaf(FIRST), Child("platform", "platform", Leaf(SECOND), Done)))

  const LEDGER := Ledger([map[KEY := map["name" := Some(Str("new"))]]], map[], {}, {}, map[])
  const SCHOOL := Entity(0, Update, Some(5), None, 5, {"id", "version", "platform"}, map["platform" := Scalar(Some(Int(1)))])
  const PLATFORM := Entity(0, Update, Some(1), None, 1, {}, map[])

  /** Two objects of school 5, which has a pending name, below a platform with nothing to save. */
  function Shared(): World {
    World(map[0 := PLATFORM, 1 := SCHOOL, 2 := SCHOOL], map[0 := LEDGER], 0, [], [], [], [])
  }

  /** Every check passes, and the provider counts versions by its calls. */
  function Counting(): Environment {
    var accepts := (_: nat, c: Command) => Accepts(c.values);
    Environment((_, _) => None, accepts, accepts, (clock, c: Command) => Persisted(c.id, Some(clock), map[]))
  }

  lemma {:induction false} SharedIsStarting()
    ensures Starting(Counting(), Shared(), TREE)
  {
    assert Nodes(Leaf(FIRST)) == {FIRST} && Nodes(Leaf(SECOND)) == {SECOND} && Nodes(TREE) == {ROOT, FIRST, SECOND};
    assert Selves(Leaf(FIRST)) == {1} && Selves(Leaf(SECOND)) == {2};
    assert WellFormed(Shared(), Nodes(TREE));
  }

  /** A school that is as it was is sent, and gets the number of the call as its version. */
  lemma {:induction false} SchoolGoesThrough(w: World, n: Node)
    requires n == FIRST || n == SECOND
    requires w.ledgers == map[0 := LEDGER] && EntityOf(w, n) == SCHOOL
    ensures Changed(w, n) && PassesEarly(Counting(), w, n) && LetsThrough(Counting(), w, n, w.clock + 1)
  {
    assert KEY in LEDGER.layers[0] && KeyOf(w, n) == KEY && LedgerOf(w, n) == LEDGER;
    var built := BuildCommand(w, n);
    assert built.values == map["name" := Some(Str("new"))] == Carried(built.values);
    assert FieldsOf(Top(LEDGER), KEY) + Carried(built.values) == FieldsOf(Top(LEDGER), KEY);
    assert built.(values := built.values) == built;
  }

  // ----- the run, phase by phase

  const REASON := TraceScope.Scope(TraceScope.AuditReason("Platform", 1, "reason"), None)

  function Reached(): World {
    Reach(Tick(Tick(Shared())), ROOT)
  }

  function FirstSaved(): World {
    LeafSaved(Reached(), FIRST, LeafEntry(Counting(), Reached(), FIRST, REASON), 3)
  }

  function BothSaved(): World {
    LeafSaved(FirstSaved(), SECOND, LeafEntry(Counting(), FirstSaved(), SECOND, REASON), 5)
  }

  lemma {:induction false} NothingReserved()
    ensures Reserve(Counting(), Shared(), TREE) == Progress(Shared(), false)
  {
    NextLeafReserves(Counting(), Shared(), ROOT, TREE.children, FIRST);
    NextLeafReserves(Counting(), Shared(), ROOT, TREE.children.rest, SECOND);
  }

  lemma {:induction false} BothChecked()
    ensures Preflight(Counting(), Shared(), TREE) == Progress(Tick(Tick(Shared())), false)
  {
    var w := Shared();
    assert !Pending(w, ROOT);
    SchoolGoesThrough(w, FIRST);
    NextLeafPreflights(Counting(), w, ROOT, TREE.children, FIRST);
    SchoolGoesThrough(Tick(w), SECOND);
    NextLeafPreflights(Counting(), Tick(w), ROOT, TREE.children.rest, SECOND);
  }

  lemma {:induction false} ReasonIsGiven()
    ensures !TraceScope.BlankReason(ROOT.reason)
    ensures TraceScope.BlankReason(None)
  {
    assert "reason"[0] in "reason";
  }

  lemma {:induction false} FirstIsSaved()
    ensures SaveAll(Counting(), Reached(), ROOT, TREE.children, REASON)
         == SaveAll(Counting(), FirstSaved(), ROOT, TREE.children.rest, REASON)
  {
    ReasonIsGiven();
    SchoolGoesThrough(Reached(), FIRST);
    NextLeafSaves(Counting(), Reached(), ROOT, TREE.children, FIRST, REASON, REASON, 3);
  }

  lemma {:induction false} SecondIsAsBefore()
    ensures var w := FirstSaved();
      && w.ledgers == map[0 := LEDGER] && EntityOf(w, SECOND) == SCHOOL && w.clock + 1 == 5
      && InPlace(w, ROOT, TREE.children.rest, SECOND) && ScopeOf(w, SECOND, Some(REASON)) == Some(REASON)
  {
    ReasonIsGiven();
  }

  lemma {:induction false} SecondIsSaved()
    ensures SaveAll(Counting(), FirstSaved(), ROOT, TREE.children.rest, REASON) == Progress(BothSaved(), false)
  {
    var w := FirstSaved();
    SecondIsAsBefore();
    SchoolGoesThrough(w, SECOND);
    NextLeafSaves(Counting(), w, ROOT, TREE.children.rest, SECOND, REASON, REASON, 5);
  }

  lemma {:induction false} BothSavedInTurn()
    ensures Save(Counting(), Tick(Tick(Shared())), TREE, None) == Progress(BothSaved(), false)
  {
    var p := Tick(Tick(Shared()));
    ReasonIsGiven();
    assert !Pending(p, ROOT) && ScopeOf(p, ROOT, None) == Some(REASON);
    FirstIsSaved();
    SecondIsSaved();
  }

  lemma {:induction false} BothAreSaved()
    ensures Work(Counting(), Shared(), TREE) == Progress(BothSaved(), false)
  {
    NothingReserved();
    BothChecked();
    BothSavedInTurn();
  }

  /** A saved world with two entries for one row, the first with version 3 and the second with version 5. */
  ghost predicate EndsOnSecond(saved: World) {
    && |saved.sent| == 2 && saved.sent[0].node == FIRST && saved.sent[1].node == SECOND
    && saved.sent[0].reply == Persisted(Some(5), Some(3), map[]) && EntityOf(saved, FIRST).version == Some(3)
    && EntityOf(saved, FIRST).root == 0 && KeyOf(saved, FIRST) == KEY && EntityOf(saved, FIRST).action == Update
    && |saved.commits| == 2 && RecordsLast(saved, 2, 1, 0, KEY) && ActionVersion(saved, 1) == Some(5)
  }

  lemma {:induction false} SecondIsLast()
    ensures EndsOnSecond(BothSaved())
  {
    assert EntityOf(BothSaved(), FIRST).version == Some(3);
    assert EntityOf(BothSaved(), SECOND).version == Some(5);
  }

  /**
    The save goes through and commits without a failure, and both objects are clean; but the first one's version is
    3 and the ledger records 5, on which its next command will be conditional.
   */
  lemma {:induction false} SharedRowLosesVersion() returns (env: Environment, w: World, t: Tree)
    ensures Starting(env, w, t) && !Work(env, w, t).raised
    ensures var saved, end := Work(env, w, t).world, Committed(Work(env, w, t).world).0;
      && |saved.sent| == 2 && saved.sent[0].node == FIRST && saved.sent[0].reply == Persisted(Some(5), Some(3), map[])
      && IsClean(end, saved.sent[0]) && IsClean(end, saved.sent[1])
      && EntityOf(end, FIRST).version == Some(3) && VersionOf(LedgerOf(end, FIRST), KeyOf(end, FIRST)) == Some(5)
      && !RecordsReply(end, saved.sent[0]) && BuildCommand(end, FIRST).expectedVersion == Some(5)
  {
    env, w, t := Counting(), Shared(), TREE;
    SharedIsStarting();
    BothAreSaved();
    SecondIsLast();
    FirstLosesVersion(env, w, t);
  }

  lemma {:induction false} FirstLosesVersion(env: Environment, w: World, t: Tree)
    requires Starting(env, w, t) && !Work(env, w, t).raised && EndsOnSecond(Work(env, w, t).world)
    ensures var saved, end := Work(env, w, t).world, Committed(Work(env, w, t).world).0;
      && IsClean(end, saved.sent[0]) && IsClean(end, saved.sent[1])
      && EntityOf(end, FIRST).version == Some(3) && VersionOf(LedgerOf(end, FIRST), KeyOf(end, FIRST)) == Some(5)
      && !RecordsReply(end, saved.sent[0]) && BuildCommand(end, FIRST).expectedVersion == Some(5)
  {
    var saved, end := Work(env, w, t).world, Committed(Work(env, w, t).world).0;
    StartingIsConsistent(env, w, t);
    CommittedSaveIsSettled(env, w, t, 0);
    CommittedSaveIsSettled(env, w, t, 1);
    CommitClearsWhatItIsAbout(saved);
    LastActionIsRecorded(saved, 0, KEY);
    assert EntityOf(end, FIRST) == EntityOf(saved, FIRST);
  }
}
