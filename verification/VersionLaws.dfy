/** Whole runs of ledger operations: the invariant they keep and the fate of every recorded version. */
module VersionLaws {
  import opened Outcomes
  import opened Text
  import opened LedgerModel

  /** One call on the ledger. Another ledger that is merged in is whatever it is at that moment. */
  datatype Operation =
    | SetField(key: EntityKey, field: string, cell: Cell)
    | PushChangeSet
    | PopChangeSet
    | MarkAsNew(key: EntityKey)
    | MarkAsDeleted(key: EntityKey)
    | RecordVersion(key: EntityKey, version: int)
    | AcceptVersion(key: EntityKey, version: int)
    | ClearAllCommitted
    | MergeAll(source: Root, order: seq<EntityKey>)
    | MergeOne(source: Root, key: EntityKey)
    | Move(key: EntityKey, newKey: EntityKey)
    | Clear(key: EntityKey)
    | SetTrace(key: EntityKey, chain: Chain)

  function Perform(l: Root, op: Operation): Result<Root, LedgerError> {
    match op
    case SetField(key, field, cell) => Set(l, key, field, cell)
    case PushChangeSet => Ok(Push(l))
    case PopChangeSet => (var r := Pop(l); if r.Ok? then Ok(r.value.0) else Err(r.error))
    case MarkAsNew(key) => Ok(MarkNew(l, key))
    case MarkAsDeleted(key) => Ok(MarkDeleted(l, key))
    case RecordVersion(key, version) => SetOriginalVersion(l, key, version)
    case AcceptVersion(key, version) => AcceptCommitted(l, key, version)
    case ClearAllCommitted => Ok(ClearCommitted(l))
    case MergeAll(source, order) => MergeFrom(l, source, order)
    case MergeOne(source, key) => MergeEntity(l, source, key)
    case Move(key, newKey) => Rekey(l, key, newKey)
    case Clear(key) => Ok(ClearEntity(l, key))
    case SetTrace(key, chain) => SetTraceChain(l, key, chain)
  }

  /** An operation that raises leaves the ledger as it was. */
  function Step(l: Root, op: Operation): Root {
    var r := Perform(l, op);
    if r.Ok? then r.value else l
  }

  function Run(l: Root, ops: seq<Operation>): Root {
    if ops == [] then l else Step(Run(l, ops[..|ops| - 1]), ops[|ops| - 1])
  }

  // ----- the invariant

  ghost predicate SourcesValid(ops: seq<Operation>) {
    forall i :: 0 <= i < |ops| ==> SourceValid(ops[i])
  }

  ghost predicate SourceValid(op: Operation) {
    (op.MergeAll? ==> op.source.Valid()) && (op.MergeOne? ==> op.source.Valid())
  }

  lemma {:induction false} AddFieldsKeepsValid(layer: Changes, key: EntityKey, fields: Fields)
    requires ValidLayer(layer) && forall f :: f in fields ==> !Blank(f)
    ensures ValidLayer(AddFields(layer, key, fields))
  {
    if fields != map[] {
      var f :| f in fields;
      assert f in FieldsOf(layer, key) + fields;
    }
  }

  lemma {:induction false} ImportKeepsValid(l: Root, source: Root, key: EntityKey)
    requires l.Valid() && source.Valid()
    ensures Import(l, Snapshot(source, key)).Valid()
  {
    var e := Snapshot(source, key);
    AddFieldsKeepsValid(Top(l), key, e.fields);
    var l1 := WithTop(l, AddFields(Top(l), key, e.fields));
    assert l1.Valid();
    assert MarkDeleted(l1, key).Valid();
  }

  lemma {:induction false} ImportAllKeepsValid(l: Root, source: Root, order: seq<EntityKey>)
    requires l.Valid() && source.Valid()
    ensures ImportAll(l, source, order).Valid()
  {
    if order != [] {
      ImportAllKeepsValid(l, source, order[..|order| - 1]);
      ImportKeepsValid(ImportAll(l, source, order[..|order| - 1]), source, order[|order| - 1]);
    }
  }

  lemma {:induction false} RekeyedKeepsValid(l: Root, oldKey: EntityKey, newKey: EntityKey)
    requires l.Valid()
    ensures Rekeyed(l, oldKey, newKey).Valid()
  {
    forall i | 0 <= i < |l.layers|
      ensures ValidLayer(RekeyLayer(l.layers[i], oldKey, newKey))
    {
      if oldKey in l.layers[i] {
        AddFieldsKeepsValid(l.layers[i] - {oldKey}, newKey, l.layers[i][oldKey]);
      }
    }
  }

  lemma {:induction false} SetKeepsValid(l: Root, key: EntityKey, field: string, cell: Cell)
    requires l.Valid() && !Blank(field)
    ensures Set(l, key, field, cell).value.Valid()
  {
    assert field in FieldsOf(Top(l), key)[field := cell];
  }

  /** No operation ever leaves a key listed without a field, or a blank field name. */
  lemma {:induction false} StepKeepsValid(l: Root, op: Operation)
    requires l.Valid() && SourceValid(op)
    ensures Step(l, op).Valid()
  {
    match op
    case SetField(key, field, cell) =>
      if !Blank(field) { SetKeepsValid(l, key, field, cell); }
    case MergeAll(source, order) => ImportAllKeepsValid(l, source, order);
    case MergeOne(source, key) => ImportKeepsValid(l, source, key);
    case Move(key, newKey) => RekeyedKeepsValid(l, key, newKey);
    case _ =>
  }

  lemma {:induction false} RunKeepsValid(l: Root, ops: seq<Operation>)
    requires l.Valid() && SourcesValid(ops)
    ensures Run(l, ops).Valid()
  {
    if ops != [] {
      RunKeepsValid(l, ops[..|ops| - 1]);
      StepKeepsValid(Run(l, ops[..|ops| - 1]), ops[|ops| - 1]);
    }
  }

  // ----- versions

  lemma {:induction false} ImportAllKeepsVersion(target: Root, source: Root, order: seq<EntityKey>, key: EntityKey)
    requires key in target.versions && !AnyConflict(target, source, order)
    ensures VersionOf(ImportAll(target, source, order), key) == VersionOf(target, key)
  {
    if order != [] {
      var last := order[|order| - 1];
      assert last in order && !Conflicts(target, last, VersionOf(source, last));
      assert !AnyConflict(target, source, order[..|order| - 1]);
      ImportAllKeepsVersion(target, source, order[..|order| - 1], key);
    }
  }

  /** The name a key goes by after the operation. */
  function NameAfter(l: Root, op: Operation, key: EntityKey): EntityKey {
    if op.Move? && op.key == key && Perform(l, op).Ok? then op.newKey else key
  }

  /**
    The number an operation is entitled to record for a key that has one: a new one only by acceptance, with
    nothing pending.
   */
  function VersionAfter(l: Root, op: Operation, key: EntityKey, version: int): int {
    if op.AcceptVersion? && op.key == key && !HasPending(l, key) then op.version else version
  }

  lemma {:induction false} VersionStep(l: Root, op: Operation, key: EntityKey)
    requires key in l.versions
    ensures VersionOf(Step(l, op), NameAfter(l, op, key)) == Some(VersionAfter(l, op, key, l.versions[key]))
  {
    match op
    case MergeAll(source, order) =>
      if !AnyConflict(l, source, order) { ImportAllKeepsVersion(l, source, order, key); }
    case Move(oldKey, newKey) => MoveTakesVersion(l, oldKey, newKey, key);
    case _ =>
  }

  lemma {:induction false} MoveTakesVersion(l: Root, oldKey: EntityKey, newKey: EntityKey, key: EntityKey)
    requires key in l.versions
    ensures var op := Move(oldKey, newKey);
      VersionOf(Step(l, op), NameAfter(l, op, key)) == Some(l.versions[key])
  {
  }

  /** A recorded number that is different after one operation was accepted, and nothing was pending. */
  lemma {:induction false} OnlyAcceptanceReplaces(l: Root, op: Operation, key: EntityKey)
    requires key in l.versions && key in Step(l, op).versions
    requires Step(l, op).versions[key] != l.versions[key]
    ensures op == AcceptVersion(key, Step(l, op).versions[key]) && !HasPending(l, key)
  {
    VersionStep(l, op, key);
  }

  /** The name and the number of a recorded key after a run, following every move and every accepted version. */
  function Tracked(l: Root, ops: seq<Operation>, key: EntityKey, version: int): (EntityKey, int) {
    if ops == [] then (key, version)
    else
      var front, op := ops[..|ops| - 1], ops[|ops| - 1];
      var before := Tracked(l, front, key, version);
      (NameAfter(Run(l, front), op, before.0), VersionAfter(Run(l, front), op, before.0, before.1))
  }

  /**
    Over every run a recorded version is never lost and never replaced by a different number, except by
    `accept_committed_version` on that key while it has nothing pending; a rekey takes it along.
   */
  lemma {:induction false} RecordedVersionIsTracked(l: Root, ops: seq<Operation>, key: EntityKey)
    requires key in l.versions
    ensures var tracked := Tracked(l, ops, key, l.versions[key]);
      VersionOf(Run(l, ops), tracked.0) == Some(tracked.1)
  {
    if ops != [] {
      var front := ops[..|ops| - 1];
      RecordedVersionIsTracked(l, front, key);
      VersionStep(Run(l, front), ops[|ops| - 1], Tracked(l, front, key, l.versions[key]).0);
    }
  }
}
