# Verification of the TeaQL Python runtime core

A Dafny model of four parts of the runtime, with proofs of what they promise:

1. **Business identifiers.** An eight-round Feistel network on 32 bits, driven by HMAC, is walked until it falls below
   36^6 and printed as six base-36 characters; a per-scope counter feeds it, and an idempotent service wraps it. HMAC is
   an arbitrary function to 16 bits, and everything is proved for every such function.
2. **Mutation ledger and graph save.** The ledger layers change sets and records versions, marks and lineage per key. A
   save of a tree of entities reserves ids, checks every command, sends the commands parents first, and registers what to
   do on commit and on rollback. `GraphModel` says on values what a save computes; `GraphSession` holds the entity and
   session objects whose fields are assigned step by step, each method proved to compute just that.
   `EntityRoot` does the same for the ledger's own classes.
3. **Query rewrites.** Expressions and queries, with subqueries, get their three-valued meaning over tables of rows
   (sections 8.4 and 8.12 of ISO/IEC 9075:1992); the rewrites of filters and of NOT IN are proved against it.
4. **Entity references.** The byte codec of the claims, unpadded base64url (sections 3.2 and 5 of RFC 4648), and
   sealing under a rotating key ring, with the cipher as an inverse pair that adds a 16-byte tag.

`dafny verify dfyconfig.toml` checks the project. Each file holds one module of the same name.

Calls that leave the program are parameters: HMAC and UTF-8 are functions, and a save's `Environment` answers its
allocator, checkers and provider by the number of the call, so a proof over all environments covers a save that stops at
any call, with any answers. What a theorem needs of them is stated where it is used: the allocator hands out fresh
numbers (`Fresh`), a persisted record carries the id its command carried (`ReturnsReservedId`).

Five promises hold only in part; the model follows the code and gives the exact condition, with an input at which each
one fails:

- `not_in_subquery` is the null-safe opposite of `in_subquery`, but its null check changes which rows the subquery's
  offset and limit select. `QueryWindows.NotInHoldsIff` gives the condition on the subquery: it has no window, or its
  filter never takes both rows with a null in the column and rows with a value there.
- `rekey` leaves nothing of the old key, but between two entity types that share a number a lineage node may still name
  it; `RekeyLaws.OldKeyMentionedIff` says exactly when. Within one type nothing is left.
- Rolling a reservation back restores the state, but only for a number the ledger does not know yet, as the allocator's
  numbers are; `ReservationLimits.ReservationUndoableIff` says so, whole state for whole state. A known number is kept
  if the move is refused, and otherwise what the ledger held for it ends up under the temporary key.
- What a commit clears was sent, but an update is built from the top change set only, and a checker may take columns
  out of it: over every update of every save, `PendingLimits.UpdateSendsAllPendingIff` says that all that was pending is
  sent exactly when the checker took nothing away and supplied what a pushed change set hides, and
  `PendingLimits.CommitClearsWhatWasSentIff` carries that to what the commit clears.
  `PendingLimits.AttachKeepsPendingIff` says when an entity that is attached to another ledger stays pending.
- A commit records the version the provider gave, but two objects of one tree may stand for one row; then the last
  commit action of the row decides, and the other object keeps a version that its next command is not conditional on.
  `GraphCommit.OwnVersionIsRecordedIff` gives the condition in every world, `GraphTheorems.CommittedSaveIsSettled` for
  every command of a save; trees in which no two entities share a row meet it.

## Model

| member | source | states |
|---|---|---|
| Feistel.PermutedIsBijective | src/teaql/runtime/business_id.py:227-236 | for every HMAC, key and tweak the eight rounds permute [0, 2^32) |
| Feistel.Permute32 | src/teaql/runtime/business_id.py:227-236 | the loop over the two halves computes that permutation, of which `PermutedIs` says every round |
| Feistel.PermutedIs | src/teaql/runtime/business_id.py:230-236 | round by round: the next half is the left one with the bits flipped that HMAC answers to the tweak, the round number, and the right half's high and low byte |
| Feistel.PermutedIsOnly | src/teaql/runtime/business_id.py:230-236 | the rounds have one result |
| CycleWalking.WalkIsShort | src/teaql/runtime/business_id.py:214-219 | a walk that stays outside the domain has no more steps than there are numbers outside it |
| CycleWalking.FirstReturnIsInjective | src/teaql/runtime/business_id.py:214-219 | two starts below the domain never first return to the same number |
| CycleWalking.FirstReturnIsSurjective | src/teaql/runtime/business_id.py:214-219 | every number below the domain is some start's first return |
| BusinessIdCode.Walk | src/teaql/runtime/business_id.py:214-219 | the unbounded loop ends after at most 2118184961 applications, at the number whose digits are the code |
| BusinessIdCode.Encode | src/teaql/runtime/business_id.py:195-224 | the encoder returns the sequence's code, or the error of an exhausted range or an oversized scope field |
| BusinessIdEncoding.EncodedIs | src/teaql/runtime/business_id.py:195-250 | from its inputs alone: each refusal, and else the six characters of the first number below 36^6 that the rounds walk to from the sequence, under the tweak of scope and key version |
| BusinessIdEncoding.CodeIsOnly | src/teaql/runtime/business_id.py:214-224 | no other text is the end of that walk |
| BusinessIdEncoding.TweakIs | src/teaql/runtime/business_id.py:239-250 | the tweak byte by byte: magic, zero, one, key version, and each field behind its four-byte length |
| BusinessIdCode.CodesAreDistinct | src/teaql/runtime/business_id.py:195-224 | different sequences get different codes |
| BusinessIdCode.EveryCodeHasASequence | src/teaql/runtime/business_id.py:195-224 | every six-character code belongs to a sequence below 36^6 |
| BusinessIdCode.TweakIsInjective | src/teaql/runtime/business_id.py:239-250 | scopes or key versions that differ get different tweaks |
| Base36.DigitsRoundTrip | src/teaql/runtime/business_id.py:220-224 | fixed-width base-36 digits read back as the number |
| Base36.FromDigitsRoundTrip | src/teaql/runtime/business_id.py:220-224 | every string of base-36 digits is the print of a number that fits its width |
| Base36.Print | src/teaql/runtime/business_id.py:220-224 | the loop that fills the characters from the right prints those digits |
| BusinessIdCore.CanonicalKeyRecoversFields | src/teaql/core/business_id.py:52-61 | splitting and unescaping a canonical key gives the four scope fields back |
| BusinessIdCore.CanonicalKeyIsInjective | src/teaql/core/business_id.py:52-61 | two scopes never share a canonical key |
| BusinessIdAllocator.InMemoryBusinessIdAllocator.Allocate | src/teaql/runtime/business_id.py:43-52 | one call answers the scope's next number and moves that counter alone, or fails and moves none |
| BusinessIdAllocator.CounterCountsCalls | src/teaql/runtime/business_id.py:43-52 | after any interleaved run a scope's counter is its number of calls, capped at 36^6 |
| BusinessIdAllocator.SequencesAreConsecutive | src/teaql/runtime/business_id.py:43-52 | a scope's calls are answered 0, 1, 2, ... whatever other scopes do; past the last number they fail and change nothing |
| BusinessIdAllocator.CodeIsHandedOutOnce | src/teaql/runtime/business_id.py:43-52 | no two calls of a run hand out one code in a scope |
| BusinessIdAllocator.FullScopeUsesEveryCode | src/teaql/runtime/business_id.py:43-52 | after 36^6 calls of a scope every code has been handed out in it |
| BusinessIdProfile.Format | src/teaql/runtime/business_id.py:92-116 | prints prefix, date and code, or the mismatch, key or encoding error |
| BusinessIdEnsure.FormattedIs | src/teaql/runtime/business_id.py:92-116 | for any plan and allocation: each refusal in its order, and else the text of prefix, date and the number's code |
| BusinessIdProfile.ValidateAcceptsPrinted | src/teaql/runtime/business_id.py:118-138 | validation accepts every printed value and returns an equal one |
| BusinessIdProfile.ValidateIs | src/teaql/runtime/business_id.py:118-138 | validation accepts a text, as itself, if and only if it is not blank and reads prefix, separator, a calendar day, separator, six characters; every other text is FORMAT_INVALID |
| BusinessIdProfile.PrintedIsInjective | src/teaql/runtime/business_id.py:92-116 | a printed value determines its date and its code |
| BusinessIdProfile.DateTextRoundTrip | src/teaql/runtime/business_id.py:118-138 | the eight date digits read back as the date |
| BusinessIdService.DefaultBusinessIdService.Ensure | src/teaql/runtime/business_id.py:161-192 | fills a blank slot of a new aggregate from the allocator, validates a filled one, and otherwise fails, touching nothing else |
| BusinessIdEnsure.FilledSlotIsValidated | src/teaql/runtime/business_id.py:161-178 | a filled slot changes nothing: a missing profile or key provider is refused first, then every text that is not well formed, and a well-formed one is the answer |
| BusinessIdEnsure.BlankSlotIsFilled | src/teaql/runtime/business_id.py:179-192 | a blank slot, branch by branch: refusals, the scope, the number taken, the one counter that moves, and the characters of the value that slot and answer get |
| BusinessIdService.IssueIs | src/teaql/runtime/business_id.py:161-192 | an issued value is the print of the code of the scope's next sequence, and validates as itself |
| BusinessIdService.EnsureIsIdempotent | src/teaql/runtime/business_id.py:161-192 | once ensure has succeeded on a slot, every later call in whatever context answers the same value and allocates nothing |
| BusinessIdService.OnlyNewBlankSlotsAllocate | src/teaql/runtime/business_id.py:161-192 | a filled slot or an established aggregate leaves counters and slot alone; an established blank slot is refused |
| BusinessIdService.IssuedAreDistinct | src/teaql/runtime/business_id.py:161-192 | in every run, values issued for one definition, domain root and aggregate type differ, on one date and across dates |
| EntityRoot.EntityChangeSet.Set | src/teaql/core/entity.py:54-57 | writes one cell, or refuses a blank field and writes nothing |
| EntityRoot.EntityChangeSet.Rekey | src/teaql/core/entity.py:73-76 | moves the old key's fields onto the new key's, the moved ones winning |
| EntityRoot.EntityRoot.SetTraceChain | src/teaql/core/entity.py:93-100 | stores a lineage of audit reasons and refuses any other, changing nothing |
| EntityRoot.EntityRoot.PushChangeSet | src/teaql/core/entity.py:106-108 | adds a new, empty layer on top |
| EntityRoot.EntityRoot.PopChangeSet | src/teaql/core/entity.py:110-114 | hands out the top layer, never the last one |
| EntityRoot.EntityRoot.Set | src/teaql/core/entity.py:120-122 | writes to the top layer only |
| EntityRoot.EntityRoot.Get | src/teaql/core/entity.py:124-130 | the loop over the layers answers the topmost value that is not None |
| EntityRoot.EntityRoot.MarkAsNew | src/teaql/core/entity.py:132-134 | marks the key and changes nothing else |
| EntityRoot.EntityRoot.MarkAsDeleted | src/teaql/core/entity.py:136-140 | clears the key from every layer and marks it |
| EntityRoot.EntityRoot.SetOriginalVersion | src/teaql/core/entity.py:142-145 | records a version unless a different one is recorded |
| EntityRoot.EntityRoot.AcceptCommittedVersion | src/teaql/core/entity.py:147-152 | replaces the recorded version unless the key has something pending |
| EntityRoot.EntityRoot.HasPending | src/teaql/core/entity.py:154-157 | whether the key is new, deleted, or listed in some layer |
| EntityRoot.EntityRoot.ClearCommitted | src/teaql/core/entity.py:171-176 | empties the top layer, the marks and the lineages and keeps the versions |
| EntityRoot.EntityRoot.MergeFrom | src/teaql/core/entity.py:178-191 | checks every key before importing any; a conflict changes nothing; else all the source has is laid over the target; the source is untouched |
| EntityRoot.EntityRoot.MergeEntityFrom | src/teaql/core/entity.py:193-200 | imports one key or refuses; the source is untouched |
| EntityRoot.EntityRoot.Snapshot | src/teaql/core/entity.py:202-206 | one key's top-layer fields, version, marks and lineage |
| EntityRoot.EntityRoot.Import | src/teaql/core/entity.py:213-224 | adds a snapshot's fields to the top layer, then its version, marks and lineage |
| EntityRoot.EntityRoot.Rekey | src/teaql/core/entity.py:226-246 | moves the key in every layer, the version, the marks and every lineage node, or refuses before changing anything |
| EntityRoot.EntityRoot.ClearEntity | src/teaql/core/entity.py:248-254 | removes the key from layers, marks and lineages and keeps its version |
| LedgerEffects.OperationsHaveTheirEffects | src/teaql/core/entity.py:54-254 | every operation, on every valid ledger, changes exactly the layers, versions, marks and lineages that its effect names, and is refused exactly when its effect says |
| LedgerEffects.MergeFromIs | src/teaql/core/entity.py:178-191 | a merge is refused if and only if some version clashes, and otherwise lays all versions, lineages, marks and top-layer fields of the source over the target, less what the source deleted |
| LedgerEffects.MergeEntityIs | src/teaql/core/entity.py:193-224 | merging one key is merging the part of the source that is about it |
| LedgerEffects.RekeyIs | src/teaql/core/entity.py:226-246 | refused if and only if both versions are there and differ; else each layer, the version, the marks and the lineage move, the moved fields winning, and each node about the old key gets the new number |
| LedgerLaws.GetIsFlattenedLookup | src/teaql/core/entity.py:124-130 | get is lookup in the layers poured together bottom to top, None values ignored |
| LedgerLaws.PopUndoesPush | src/teaql/core/entity.py:106-122 | push, any sets, pop: the ledger is exactly as before and the popped layer holds exactly the last writes |
| LedgerLaws.MergeIgnoresOrder | src/teaql/core/entity.py:178-191 | a merge has one outcome whatever order the key set is iterated in |
| LedgerLaws.MergeFromIsMergeEach | src/teaql/core/entity.py:178-200 | merging everything succeeds exactly when merging key by key does, and gives the same ledger |
| LedgerLaws.MergeIsIdempotent | src/teaql/core/entity.py:178-191 | merging a second time changes nothing |
| RekeyLaws.OldKeyMentionedIff | src/teaql/core/entity.py:226-246 | exactly when anything of the old key is left after a rekey |
| RekeyLaws.OldKeyStaysNamed | src/teaql/core/entity.py:226-246 | an input at which the old key is still named: a lineage node of it, moved to another type under the same number |
| RekeyLaws.RekeyMovesEverything | src/teaql/core/entity.py:226-246 | within one type nothing of the old key is left, the new key is pending exactly when either was, other keys are untouched |
| RekeyLaws.RekeyToFreshKeyIsUndone | src/teaql/core/entity.py:226-246 | moving to a key that occurs nowhere and back restores the ledger exactly |
| VersionLaws.RunKeepsValid | src/teaql/core/entity.py:48-254 | no run of operations leaves a key listed without a field or a blank field name |
| VersionLaws.OnlyAcceptanceReplaces | src/teaql/core/entity.py:142-152 | an operation that replaces a recorded version is an acceptance on that key with nothing pending |
| VersionLaws.RecordedVersionIsTracked | src/teaql/core/entity.py:142-246 | over every run a recorded version is kept, follows every rekey, and changes only by acceptance |
| TraceScope.Recover | src/teaql/core/trace_scope.py:42-51 | walking the parents and reversing gives the token's reasons oldest first |
| GraphSession.GraphMutationSession.AfterRollback | src/teaql/runtime/graph_session.py:80-82 | registers an action last, or refuses on a session that is closed or committed |
| GraphSession.GraphMutationSession.AfterCommit | src/teaql/runtime/graph_session.py:76-78 | the same for commit actions |
| GraphSession.GraphMutationSession.RolledBack | src/teaql/runtime/graph_session.py:107-118 | the reversed loop runs every rollback action last-in-first-out, passing over failures, and counts them |
| GraphSession.GraphMutationSession.RunUndo | examples/school-management/models/school_type.py:303-311 | one rollback closure: the entity's fields, then its ledger key |
| GraphSession.GraphMutationSession.Committed | src/teaql/runtime/graph_session.py:88-105 | closes the session for writing, delivers every audit event, then runs every commit action in order, and counts both kinds of failures |
| GraphSession.GraphMutationSession.QueueAudit | src/teaql/runtime/graph_session.py:84-86 | queues an audit event last, or refuses on a session that is closed or committed |
| GraphSession.GraphMutationSession.RunCommit | examples/school-management/models/school_type.py:317-322 | one commit closure: clear the key, then record the persisted version |
| GraphSession.GraphMutationSession.Close | src/teaql/runtime/graph_session.py:120-129 | ends the session and empties its lists, audit events included |
| GraphSession.GeneratedEntity.AttachOne | examples/school-management/models/school_type.py:80-84 | a pending entity of another ledger is merged into this one and moves there |
| GraphSession.GeneratedEntity.AttachRoot | examples/school-management/models/school_type.py:80-87 | the entity and everything below it is attached, in order |
| GraphAttach.AttachOneAttaches | examples/school-management/models/school_type.py:80-84 | an entity moves exactly when it points at another ledger, has something pending there and no version clashes; then its part of that ledger is laid over this one, and nothing else changes |
| GraphAttach.AttachBringsTogether | examples/school-management/models/school_type.py:80-87 | after a subtree is attached, whatever of it is pending is in this ledger; no other entity moved, and no other ledger changed |
| GraphSession.GeneratedEntity.ReserveId | examples/school-management/models/school_type.py:111-134 | takes an id, moves the ledger key, records the id, registers the undo last |
| GraphSession.GeneratedEntity.ReserveGraphIds | examples/school-management/models/school_type.py:106-137 | reserves parents first, attaching each child before its own turn |
| GraphSession.GeneratedEntity.ScalarPayload | examples/school-management/models/school_type.py:144-168 | the loaded fields by column, a relation by its id, or the object itself while that has none |
| GraphSession.GeneratedEntity.BuildCommand | examples/school-management/models/school_type.py:170-190 | insert with the payload, update with the pending fields, delete; the expected version is the ledger's, else the entity's |
| GraphSession.GeneratedEntity.LinkTo | examples/school-management/models/school_type.py:378-382 | stores the parent's id as foreign key and in the child's ledger |
| GraphSession.GeneratedEntity.PreflightGraph | examples/school-management/models/school_type.py:192-227 | checks the commands of the whole tree, linking each child first |
| GraphSession.GeneratedEntity.Send | examples/school-management/models/school_type.py:238-256 | builds the command, has it checked, carries the checked values back and sends the command as checked, with its lineage |
| GraphSession.GeneratedEntity.Adopt | examples/school-management/models/school_type.py:257-313 | adopts the record field by field, moves the key, registers the undo, turns to Update |
| GraphSession.GeneratedEntity.SaveWithinGraph | examples/school-management/models/school_type.py:229-323 | the save recursion, commit action last |
| GraphSession.GeneratedEntity.SaveChildren | examples/school-management/models/platform.py:345-362 | attaches, links and saves the children in order |
| GraphSession.ExecuteGraphSave | src/teaql/runtime/context.py:239-269 | a root without a reason is refused before anything is touched; else work that may stop anywhere, then exactly one ending, then close; failed audit deliveries and commit actions are raised after the commit |
| GraphSafety.WorkKeepsInvariant | examples/school-management/models/school_type.py:106-323 | wherever the work stops, the registered actions undo every entity step by step back to its start |
| GraphSafety.RollbackRestores | src/teaql/runtime/graph_session.py:107-118 | wherever a save stops, rollback never fails and gives every entity its id, version, action, key, recorded version and loaded attributes back, links to parents aside; what was marked or changed in its top change set is pending again, and no version of any key is lost from any ledger |
| GraphSafety.RetriesKeepRestoring | src/teaql/runtime/graph_session.py:107-118 | after any number of rolled-back saves every entity is back in that sense, every recorded version is still recorded, and the graph can be saved again |
| GraphLimits.FirstInFirstOutLeavesReservedId | src/teaql/runtime/graph_session.py:107-118 | on every tree with a new root, rollback in registration order leaves the root's reserved id behind; the real order does not |
| ReservationLimits.ReservationUndoableIff | examples/school-management/models/school_type.py:106-134 | a reservation is undone, whole state for whole state, if and only if the ledger mentions nothing under the new number |
| ReservationLimits.RollbackMovesForeignState | examples/school-management/models/school_type.py:124-132 | an input at which the rollback moves another entity's version and pending name to the temporary key |
| ReservationLimits.ConflictKeepsNumber | examples/school-management/models/school_type.py:111-122 | an input at which the move is refused and the entity keeps the number |
| PendingLimits.UpdateSendsAllPendingIff | examples/school-management/models/school_type.py:238-256 | in every save, wherever it stops, an update that was sent carries every pending column if and only if its checker took none away and supplied those a pushed change set hides |
| PendingLimits.CommitClearsWhatWasSentIff | examples/school-management/models/school_type.py:315-323 | after a save that went through, what the commit clears for a row is just what its last update sent, under the same condition; it clears it all either way |
| PendingLimits.PushedUpdateIsLost | examples/school-management/models/school_type.py:170-190 | a whole save that goes through without the pending name, which a pushed change set hides, and a commit that clears it |
| PendingLimits.DroppedUpdateIsLost | examples/school-management/models/school_type.py:238-256 | the same with one change set, where the checker accepts the update and takes the name out |
| PendingLimits.AttachKeepsPendingIff | src/teaql/core/entity.py:193-224 | attaching leaves a pending entity pending if and only if it was marked or changed in its top change set, or its key was pending there already |
| PendingLimits.PushedUpdateIsDropped | examples/school-management/models/school_type.py:80-87 | an input at which attaching makes a pending entity clean |
| GraphTheorems.NothingSentUnlessPreflightPasses | examples/school-management/models/school_type.py:139-142 | if any reservation or check fails, nothing is sent |
| GraphSent.WorkSendsAsChecked | examples/school-management/models/school_type.py:144-256 | in every save, every command that reaches the provider was built from its entity column by column, passed its check and carries the values the checker left; deletions go as built; a lineage recorded for the entity goes before that of its path |
| GraphOrigins.CommandIsBuiltFromTheStart | examples/school-management/models/school_type.py:106-256 | the entity it was built from is the one of the start, but for links to parents, and with a number from the allocator if it was new and had none |
| GraphOrigins.InsertCarriesWhatWasLoaded | examples/school-management/models/school_type.py:144-190 | every insert carries its number, the version if loaded, every field loaded at the start with the value it had, and no column that is not a loaded field's or a link |
| GraphOrigins.CommandExpectsRecordedVersion | examples/school-management/models/school_type.py:170-190 | an update or deletion expects the version recorded for its entity when the save started |
| GraphChecks.EveryoneIsCheckedFirst | examples/school-management/models/school_type.py:139-227 | before the first command is sent, every entity had its turn in the early check, linked to its parent, fully loaded if it is updated, and its command was accepted |
| GraphRecorded.OnlyNumberedAreSent | src/teaql/core/trace_scope.py:25-40 | nothing is sent for an entity without an assigned, positive number |
| GraphRecorded.WorkTakesOverReplies | examples/school-management/models/school_type.py:257-313 | an entity whose command was persisted holds what the provider answered, field by field, and otherwise what it held when the command was built |
| GraphRecorded.WorkRecordsWhatItSent | examples/school-management/models/school_type.py:229-341 | once every entity of a row was sent, its ledger holds in every layer, up to the end of the save, what it held before the last command and that command's values on top |
| GraphRecorded.SentIsRecorded | examples/school-management/models/school_type.py:238-256 | so every column that command sent, but id and version, is on top with the sent value when the save is to be committed |
| GraphTheorems.CommandsFollowPreOrder | examples/school-management/models/school_type.py:229-341 | exactly the new, deleted and pending entities reached are sent one command each, none below a deletion, ancestors first |
| GraphTheorems.ForeignKeysAreParentIds | examples/school-management/models/school_type.py:325-341 | whenever a command of a child is sent, its link holds its parent's id, which is there; an insert that stores the column stores that id |
| GraphTheorems.LineageIsThePath | src/teaql/core/trace_scope.py:25-51 | a command's lineage is the root's reason and then exactly the non-blank reasons on the path, each with its ancestor's key |
| GraphTheorems.WorkNeedsAReason | src/teaql/core/trace_scope.py:25-30 | a root without a reason, or with one of white space only, is not saved |
| GraphTheorems.CommitsArePostOrder | examples/school-management/models/school_type.py:315-323 | commit actions are registered for exactly the entities that sent a command, children before parents |
| GraphCommit.CommitClearsWhatItIsAbout | examples/school-management/models/school_type.py:315-323 | in every world, committing raises nothing, leaves nothing pending under any committed key, and every other key as pending as before |
| GraphCommit.LastActionIsRecorded | examples/school-management/models/school_type.py:315-323 | in every world, the version recorded for a key is that of the last commit action for it that has one, else the one before |
| GraphCommit.OwnVersionIsRecordedIff | examples/school-management/models/school_type.py:315-323 | an entity's own version is recorded if and only if the commit actions of its ledger and key end on it |
| GraphCommit.CommitSettlesEverySavedEntity | examples/school-management/models/school_type.py:315-323 | the same for every save that went through: what was saved is clean, other keys are untouched, and an entity's version is recorded if and only if the actions for its row end on it, as they do when no two entities stand for one row |
| CommitLimits.SharedRowLosesVersion | examples/school-management/models/school_type.py:315-323 | a whole save of two objects of one school: both are clean, but the first has version 3, the ledger records 5, and its next command expects 5 |
| GraphTheorems.CommittedSaveIsSettled | examples/school-management/models/school_type.py:315-323 | after such a commit every entity that sent a command is not new any more and has nothing pending, and its ledger holds the version the provider gave if and only if the actions for its row end on it |
| GraphTheorems.NextCommandExpectsPersistedVersion | examples/school-management/models/school_type.py:170-190 | the next command for a saved entity is conditional on the version this save persisted, under exactly that condition |
| GraphTheorems.ExecuteRestoresOrSettles | src/teaql/runtime/context.py:239-269 | a save that stopped or was not committed saves nothing, every entity is back and no version is lost; otherwise all that was sent is clean, versions are recorded under that condition, and only failed audit deliveries are raised |
| QueryLaws.RemovalMeans | src/teaql/core/query.py:109-132 | for every filter and row, the original is the rewritten filter AND `version >= 1` when such a conjunct is there, and equal otherwise |
| QueryLaws.RemovalIsRest | src/teaql/core/query.py:109-132 | the rewritten filter means the original with every conjunct `version >= 1` counted as true |
| QueryLaws.NothingIsLeftIff | src/teaql/core/query.py:118-132 | no filter is left exactly when nothing but `version >= 1` was asked, in conjunctions of any depth |
| QueryLaws.GeneratedRequestOptsOut | src/teaql/core/query.py:294-314 | a request built on `version >= 1` becomes, including deleted rows, exactly what the application built on it, and for deleted rows only, that and `version <= -1` |
| QueryLaws.RemovalIsIdempotent | src/teaql/core/query.py:118-132 | no conjunct `version >= 1` survives the rewrite, so a second one changes nothing |
| QueryLaws.WithDeletedRowsOnlyDropsLiveness | src/teaql/core/query.py:301-309 | asking for live rows again after including deleted ones gives the original rows, in order |
| QueryLaws.DeletedRowsOnlyAccepts | src/teaql/core/query.py:311-314 | accepts exactly the rows with version at most -1 on which all that the filter asks besides `version >= 1` is true |
| QueryLaws.NotInIsNotIn | src/teaql/core/expr.py:335-347 | on a non-null value NOT IN is never unknown and is true exactly when IN on the caller's query is not, nulls or not |
| QueryLaws.NotInOfNull | src/teaql/core/expr.py:338-347 | on a null value NOT IN is unknown, or true when no value is left |
| QueryWindows.NotInHoldsIff | src/teaql/core/expr.py:338-347 | if the subquery has no window or its filter never takes both nulls and values, NOT IN is the opposite of IN on every database and non-null value; and only if, when the filter does not read the queried table |
| QueryWindows.LimitBreaksNotIn | src/teaql/core/query.py:426-433 | for every filter that takes a null and a value from the table built of them, subqueries on that table included, the limit makes NOT IN and IN no opposites there |
| QueryWindows.OffsetBreaksNotIn | src/teaql/core/query.py:435-442 | the same for an offset, on the table built for it |
| QueryWindows.NotNullFilterMakesWindowsHarmless | src/teaql/core/expr.py:338-347 | a subquery that asks for values in its column may have any window |
| QueryWindows.MeaningIgnoresTable | src/teaql/core/expr.py:335-347 | a condition whose subqueries do not read a table means the same whatever its rows |
| SelectQuery.RemoveLiveFilter | src/teaql/core/query.py:118-132 | the recursive loop over conjuncts computes the rewritten filter |
| SelectQuery.NotInSubQuery | src/teaql/core/expr.py:338-347 | works on a copy; the caller's query object is unchanged |
| SelectQuery.SelectQuery.AndFilter | src/teaql/core/query.py:294-299 | joins a condition to the filter in place |
| SelectQuery.SelectQuery.WithDeletedRows | src/teaql/core/query.py:301-309 | drops the live condition in place |
| SelectQuery.SelectQuery.DeletedRowsOnly | src/teaql/core/query.py:311-314 | replaces it by the condition for deleted rows |
| SelectQuery.SelectQuery.Limit | src/teaql/core/query.py:426-433 | sets the limit and keeps the offset, or refuses a limit below one |
| SelectQuery.SelectQuery.Offset | src/teaql/core/query.py:435-442 | sets the offset and keeps the limit, or refuses a negative one |
| ReferenceClaims.ReadWritten | src/teaql/runtime/entity_reference.py:69-86 | a written text reads back anywhere in a payload, with the offset behind it |
| ReferenceClaims.DecodeEncoded | src/teaql/runtime/entity_reference.py:89-123 | encoded claims decode to themselves in whole seconds, or are refused for an empty type or a zero id |
| ReferenceLayout.EncodeClaimsIs | src/teaql/runtime/entity_reference.py:69-102 | the payload byte by byte, and exactly when there is none |
| ReferenceLayout.DecodeClaimsIff | src/teaql/runtime/entity_reference.py:77-123 | a payload is accepted as claims if and only if it is their encoding and they have a type, an id, and whole seconds in the years 1 to 9999 |
| ReferenceClaims.EncodeDecoded | src/teaql/runtime/entity_reference.py:89-123 | every accepted payload is the encoding of the claims it decodes to |
| ReferenceClaims.NoTrailingBytes | src/teaql/runtime/entity_reference.py:105-123 | no accepted payload is accepted with bytes appended |
| Base64Url.RoundTrip | src/teaql/runtime/entity_reference.py:126-136 | unpadded base64url reads back every byte string, of every length |
| Base64UrlLayout.EncodeSpells | src/teaql/runtime/entity_reference.py:126-127 | every byte string becomes its characters of the URL alphabet, six bits each, and no filler |
| Base64UrlLayout.DecodeReads | src/teaql/runtime/entity_reference.py:130-136 | what is accepted reads, six bits a character, as the bytes it is accepted as, but for one or two filler characters at its end |
| Base64UrlLayout.AlphabetIsAccepted | src/teaql/runtime/entity_reference.py:130-136 | every text of the alphabet is accepted, unless one character is left over |
| EntityReference.SealedOpens | src/teaql/runtime/entity_reference.py:222-246 | a sealed payload is opened under its key version by every ring that still holds the key |
| EntityReference.TokenRoundTrip | src/teaql/runtime/entity_reference.py:139-246 | a token decodes under every later ring holding its key to the same claims exactly when unexpired, issued at most a minute ahead, and meant for this type and purpose |
| ReferenceLayout.EncodeReferenceIs | src/teaql/runtime/entity_reference.py:139-220 | each refusal in its order, and otherwise the token: prefix, key version, nonce, and the payload of the request sealed under the active key |
| ReferenceLayout.DecodeReferenceIff | src/teaql/runtime/entity_reference.py:160-246 | a token is answered with claims if and only if it holds their encoding under a key of the ring and they are current; every other token is refused |

## Left out

- HMAC-SHA256, AES-GCM, UTF-8, the date library and the regular-expression engine: arbitrary functions, an inverse pair, an exact encoding, four-digit-year dates (1000 to 9999) and literal patterns with ASCII digits.
- Scheduling and locks: every allocator or ledger call is one atomic step; calls of different scopes interleave freely.
- BusinessIdService.IssuedAreDistinct: the key provider is a function of definition and scope, because uniqueness is claimed under unchanged keys only.
- EntityReference.TokenRoundTrip: times are integer microseconds; the rounding of floating-point timestamps after about the year 2514 is not modelled.
- Raw entity references, and the platform's behaviour for years below 1000 in formatted dates.
- Entities shared by two parents in one save: a save is a tree, so the visited set is not needed; child lists do not change during a save.
- GraphSession.GeneratedEntity.AttachOne: a save's ledgers are held by value under their identity, so sharing one ledger among entities is modelled and the ledger's own objects are not; `EntityRoot` is proved separately to compute the same functions on objects.
- GraphSession.GeneratedEntity.ScalarPayload: decimals and texts are plain values.
- GraphSession.GeneratedEntity.BuildCommand: the old values sent for auditing, the loaded snapshots and log privacy are not modelled.
- GraphSession.GeneratedEntity.PreflightGraph: the error's path prefixes are not modelled; columns are never blank.
- GraphSafety.RollbackRestores: links to parents set during preflight, and ledger values that checkers fixed, are not part of what is restored; pending fields that a pushed change set hides may be dropped by attaching, as `PendingLimits` says; the temporary key's copy in a ledger that an entity was attached from stays there, as in the code.
- GraphSession.GraphMutationSession.Committed: audit sinks are a function that says which event is delivered; what an event holds is not modelled.
- GraphSession.ExecuteGraphSave: a transaction that cannot begin does nothing and is not modelled; a failure of the provider's own rollback is swallowed there, and left out here; the method counts the audit events queued before the work, while in `GraphTheorems.ExecuteRestoresOrSettles` the number that is not delivered is arbitrary.
- GraphSession.GraphMutationSession.RunCommit: the snapshot of loaded values that a commit refreshes is not modelled, as snapshots serve auditing only.
- GraphRecorded.WorkRecordsWhatItSent: of two objects of one row, the one sent first may be overwritten by the other's checker; nothing is said of it, nor of a row of which some object is never sent. The same goes for `PendingLimits.CommitClearsWhatWasSentIff`.
- The hook that assigns business identifiers inside a save: it does nothing for the entities modelled here.
- Checker bodies, mutation policies, telemetry, masking, transports and SQL execution: a save's environment answers for them.
- Owner checks of lineage tokens between sessions: tokens of other sessions are not part of this model.
- Queries: entity, projection, filter and slice only; aggregates, grouping, ordering, relations, search text, raw SQL and partitions are not modelled, nor is a NOT IN without a query.
- QueryWindows.NotInHoldsIff: the only-if half leaves out filters with a subquery on the queried table itself, because their rows cannot be chosen freely then; the if half holds for them too. `in_subquery` keeps the caller's mutable query object; the meaning is taken at the moment of the call.
- An IN over an empty literal list, which the compiler refuses: the model gives it the value false.
- `EntityChangeSet.merge_from`, `changes` and `is_empty`, `BaseEntityData`, dynamic search, lists, traces, spreadsheets, generated request builders and tool wrappers: only easier claims.
