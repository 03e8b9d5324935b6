# OURD control core, modelled and proved

This project models the deterministic control code of the OURD agent and proves what it keeps
over every input, every fault and every run of tool calls. It checks with
`dafny verify dfyconfig.toml`.

Code that updates objects or runs loops is modelled as classes and methods, each proved equal
to a function or a stated property; the promises are then proved about those functions, and
about runs of them. For every main operation there is besides a second account that does not
name those functions: exactly when it succeeds, and what it then leaves (`LifecycleCalls`,
`LoopVerdicts`, `ContextCompaction`, the last part of `EvidenceProjection`, and
`StateStores.RestoredExactly`). Digests wrap what they are taken of, so that equal digests mean
equal material.

| part | files |
|---|---|
| Transaction engine: prepare, apply with backups, restore, verify, roll back, over a file map in which any step may fail | `Disk`, `Records`, `Transactions`, `TransactionManager` |
| Governed lifecycle: the tool calls as steps of a state machine, the agent object that runs it, and what every run keeps | `Lifecycle`, `Agent`, `LifecycleRuns`, `LifecycleSafety`, `LifecycleLimits`, `LifecycleRestart`, `LifecycleBinding`, `LifecycleCalls`, `LifecycleSamples` |
| Progress and cycle controller: windowed memory, streak budget, periods, and a run bound that is reached | `LoopControl`, `LoopVerdicts`, `LoopBoundReached`, `LoopProgressController` |
| Context-budget recovery: four reduction loops and their ledger | `ContextBudget`, `ContextRecovery`, `ContextExchanges`, `ContextCompaction` |
| Graph checks: colouring depth-first search, worklist reachability, peeling | `Graphs`, `FormalWriting`, `BrainFeed` |
| Finite evidence state: bit masks, updates as joins, projection | `Masks`, `Evidence`, `EvidenceUpdates`, `EvidenceProjection` |
| Line coverage and the summaries that depend on it | `Coverage`, `CorpusReader` |
| Hash-chained event log and the state rebuilt from it | `EventLog`, `StateStore` |
| Shared: results, string order and sorting | `Results`, `Ordering` |

## What the proofs found

- `apply` is all-or-nothing except in two places. A fault after `os.replace` and before
  `applied.append` (the clean-up of the temporary file, `ourd/transactions.py:220-224`) leaves that
  one target overwritten, because it is not among the targets restored. A fault after the last
  target (`ourd/transactions.py:233-238`) is outside the handler and leaves everything written.
  `Transactions.ApplyLeavesFilesExactlyWhen` gives the exact condition, and
  `Transactions.CleanupFaultLeavesFile` and `TailFaultLeavesFile` an input for each.
- If the record file of a finalize or a roll-back of the active transaction cannot be written, the
  status has already changed while `active_transaction_id` still names the transaction, and the state
  does not load again until a later call mends it. `LifecycleRestart.StrandsExactlyWhen` and
  `LifecycleRestart.MendsExactlyWhen` say exactly which calls do that, in terms of the state before
  them; `LifecycleRestart.OneWriterInEveryRun` says exactly which reachable states load; and
  `LifecycleRestart.StrandedRun` is a run of three calls that ends in one that does not.
- The limits of a gate bind only if its verdict is APPROVE_WITH_LIMITS (`ourd/agent.py:1462-1463`). A
  plain APPROVE is filed with any limits, unchecked, and its `max_uses`, targets and commands are not
  looked at again. `LifecycleLimits.LimitsBindExactlyWhen` gives the exact condition, and
  `LifecycleSamples.ThreeUsesUnderMaxUsesOne` a run with three uses under `max_uses` 1.
- The use limit holds between one proposal and the next (`LifecycleLimits.UsesPerProposal`), not per
  action identifier: proposing the same material again gives the same identifier with no use counted
  and its evidence still bound to it (`ProposedAgain` there), so that an action with one use can be used
  any number of times (`LifecycleSamples.UsesUnbounded`).
- The constructor compares the manifest with the record of the transaction it is told to recover, not
  with that of the open one (`ourd/agent.py:139-145`). A session started for a VERIFIED transaction
  takes over an open one that was prepared under another manifest.
  `LifecycleBinding.UnbindsExactlyWhen` and `RebindsExactlyWhen` say exactly when, `BoundExactlyWhen`
  says it of every run, and `LifecycleSamples.TakenOverRun` is such a run.
- A command that times out, and an application stopped by a fault, count no use although they may
  have changed files; they still need a use to be left when they start.
  `LifecycleSafety.UseLimitsInEveryRun`.
- The `context_preserve`, `summary` and `report` markers do not survive a compaction, so an exchange
  they protect can be dropped once its output was compacted.
  `ContextExchanges.ProtectionLostExactlyWhen` says exactly when.
- Keeping the two newest exchanges before keeping none makes no difference:
  `ContextBudget.TwoTiersAreOne`.
- Two outputs that share a call identifier can leave an output without its call:
  `ContextExchanges.SharedIdLeavesOrphan`.
- The two mask checks of `FiniteEvidenceState` (`ourd/models.py:349-353`) can never reject: the masks
  were summed again, from the bits of the universe only, before they are checked.
  `Evidence.ConstructsExactlyWhen`.
- The check for coverage bound to stale content in `record_document_summary`
  (`ourd/agent.py:1734-1735`) can never refuse: a saved coverage always carries the digest of its
  manifest. Nor can the check of a document's content against a current manifest
  (`ourd/agent.py:1689-1690`), unless the file is an ignored one.
  `CorpusReaders.CorpusReader.RecordDocumentSummary` and `ReadCorpusDocument` there.

## Model

| member | source | states |
|---|---|---|
| `Disk.RestoreExact` | ourd/transactions.py:286-303 | restoring from a manifest and backups that describe an earlier file map returns every listed path to its earlier bytes, mode or absence, whatever was edited since, and raises nothing |
| `Disk.RestoreTouchesOnlyListed` | ourd/transactions.py:286-303 | however restoring fails, only listed paths change |
| `Disk.RestoreRaisesFor` | ourd/transactions.py:286-303 | restoring raises exactly when a listed path has an I/O error, a backup that is gone, or backup bytes that differ from the recorded digest |
| `Disk.RestoreOneExact` | ourd/transactions.py:289-303 | one turn of the restore loop puts back one target |
| `Ordering.Reversed` | ourd/transactions.py:289 | the order of the restore loop: last applied first |
| `Disk.UndoOfWrite` | ourd/transactions.py:193-232 | putting back a complete or partial write gives the file map it started from |
| `Disk.SnapshotAfterWrite` | ourd/workspace.py:133-149 | file maps that agree on the source snapshot agree on the snapshot after the write, so a transaction identifier settles its applied snapshot |
| `Disk.SameSnapshotExactlyWhen` | ourd/workspace.py:133-149 | two workspaces have the same snapshot if and only if they agree, in bytes, mode and absence, on every path that is not ignored |
| `Transactions.IdOf` | ourd/transactions.py:105-125 | the identifier holds the operation, the source snapshot, the targets in ascending order, none twice, and the digest of every candidate |
| `Transactions.SameIdExactlyWhen` | ourd/transactions.py:112-125 | two preparations get the same identifier exactly when they agree on the operation, every target and its content, and the source snapshot |
| `Transactions.FirstFault` | ourd/transactions.py:193-232 | the loop over the targets stops at the first target whose turn fails |
| `Transactions.AppliedSoFar` | ourd/transactions.py:193-232 | the targets noted as applied when a turn raises: all before the failing one, and that one too only if the comparison after its move raised |
| `Transactions.ApplyAllOrNothing` | ourd/transactions.py:178-239 | for every set of targets and every failing turn: either APPLIED with every target holding its candidate (an existing target keeping its mode) and nothing else touched, or an error with the whole file map and the status as before; excluded are a fault between os.replace and the note of it, and a fault after the last target |
| `Transactions.ApplyLeavesFilesExactlyWhen` | ourd/transactions.py:193-239 | after an error the files differ from before if and only if the loop was entered and either a clean-up fault left one target that differed from its candidate, or every turn succeeded, some target differed, and a later step raised |
| `Transactions.CleanupFaultLeavesFile` | ourd/transactions.py:213-232 | the failing input: a new file prepared in an empty workspace, whose clean-up fails, is left behind by a call that raises, with the record still PREPARED |
| `Transactions.TailFaultLeavesFile` | ourd/transactions.py:233-239 | the other failing input: the same file, and the new snapshot cannot be read after the loop; the call raises, the file stays written, the record stays PREPARED, cannot be rolled back, and discarding it leaves the file there |
| `Transactions.InterruptedApplyFiles` | ourd/transactions.py:213-232 | an interrupted loop raises for the failing target and leaves the file map it found, plus that one target after a clean-up fault |
| `Transactions.ApplyTouchesOnlyTargets` | ourd/transactions.py:178-239 | whatever fails, no file but the targets, no other record and no other transaction's backups change |
| `Transactions.MidwayUndone` | ourd/transactions.py:213-232 | what the exception handler puts back, for each place a turn can fail |
| `Transactions.MidwayDescribes` | ourd/transactions.py:194-207 | manifest and backups describe the original of every target noted as applied |
| `Transactions.WrittenIs` | ourd/transactions.py:208-224 | the written file map: candidates' bytes, kept modes, nothing else |
| `Transactions.WrittenChangesExactlyWhen` | ourd/transactions.py:208-224 | writing changes the file map exactly when some target did not already hold its candidate |
| `Transactions.AppliedRecord` | ourd/transactions.py:233-239 | an APPLIED record: manifest and backups describe the files before, the applied hashes are the candidates', the applied snapshot is the snapshot of what was written |
| `Transactions.AppliedStatus` | ourd/transactions.py:178-239 | a PREPARED record becomes APPLIED exactly when the source snapshot is current, the candidates intact, no turn fails and the new snapshot can be read |
| `Transactions.RollbackExact` | ourd/transactions.py:265-274 | roll-back returns every target to its bytes, mode or absence from before the application, whatever was edited since, leaves other files alone, and marks the record ROLLED_BACK |
| `Transactions.UnstackRestores` | ourd/transactions.py:178-274 | rolling back any stack of applied transactions with distinct identifiers in reverse order restores the initial file map |
| `Transactions.StackKeepsOthers` | ourd/transactions.py:178-239 | applying a stack leaves the record and backups of every other transaction alone |
| `Transactions.UnstackKeepsOthers` | ourd/transactions.py:265-303 | so does rolling a stack back |
| `TransactionManagers.TransactionManager.Prepare` | ourd/transactions.py:105-165 | `_prepare` as it runs: the new store is the function PrepareStep of the old one; identical content from the same snapshot reuses the identifier |
| `TransactionManagers.TransactionManager.StoreCandidates` | ourd/transactions.py:131-135 | the loop that writes the candidate directory adds exactly the candidates |
| `TransactionManagers.TransactionManager.VerifyCandidate` | ourd/transactions.py:167-176 | raises exactly when a stored candidate is missing or its digest is not the one in the identifier |
| `TransactionManagers.TransactionManager.Restore` | ourd/transactions.py:286-303 | the loop of `_restore` computes RestoreFrom over the applied targets, last first |
| `TransactionManagers.TransactionManager.Apply` | ourd/transactions.py:178-239 | the method computes ApplyStep, for every fault |
| `TransactionManagers.TransactionManager.ApplyChecked` | ourd/transactions.py:193-239 | the loop with its exception handler and the tail computes ApplyTargets |
| `TransactionManagers.TransactionManager.ApplyTargetsInTurn` | ourd/transactions.py:193-229 | the loop alone: which target failed, which were noted as applied, and the exact intermediate store |
| `TransactionManagers.TransactionManager.ApplyOne` | ourd/transactions.py:194-229 | one turn: back up, move, compare, note |
| `TransactionManagers.TurnContinues` | ourd/transactions.py:194-229 | one turn leads from the state after k targets to the state after k + 1, or to where its fault stops it |
| `TransactionManagers.TransactionManager.VerifyApplied` | ourd/transactions.py:241-252 | raises exactly when the status, a target's content or the snapshot no longer is what the record says |
| `TransactionManagers.TransactionManager.Finalize` | ourd/transactions.py:254-263 | computes FinalizeStep |
| `TransactionManagers.TransactionManager.Rollback` | ourd/transactions.py:265-274 | computes RollbackStep |
| `TransactionManagers.TransactionManager.Discard` | ourd/transactions.py:276-284 | computes DiscardStep |
| `LifecycleRuns.StatusGraph` | ourd/agent.py:998-1547 | each tool call moves each record along at most one edge of the status graph, or binds it to an action; while it stays applied its manifest, snapshot and backups stay |
| `LifecycleRuns.OneOpenStep` | ourd/agent.py:1062-1078 | every call keeps: at most one transaction is PREPARED or APPLIED |
| `LifecycleRuns.AppliedStays` | ourd/agent.py:1350-1547 | while a transaction stays APPLIED or VERIFIED, what is needed to undo it stays as it was |
| `LifecycleRuns.BecomesApplied` | ourd/agent.py:1350-1429 | a transaction becomes APPLIED only by a call of `apply_transaction` for it whose checks all passed |
| `LifecycleRuns.AppliedEarlier` | ourd/agent.py:1350-1429 | in every run an APPLIED or VERIFIED transaction was applied by an earlier call, and its undo information still is what that call recorded |
| `LifecycleRuns.RollbackInEveryRun` | ourd/agent.py:1510-1547 | in every reachable state, rolling back an APPLIED or VERIFIED transaction succeeds, returns its targets to the files the applying call found, and leaves every other file as it is |
| `LifecycleRuns.AppliedSnapshotSettled` | ourd/transactions.py:233-239 | in every run the applied snapshot of a transaction depends on its identifier alone |
| `LifecycleRuns.StoreWellFormed` | ourd/agent.py:1062-1078 | every reachable store is well formed and has at most one PREPARED or APPLIED transaction |
| `LifecycleSafety.ItemsAccepted` | ourd/agent.py:1258-1275 | items pass the loop only if each artifact is registered under the pending action and its source snapshot, and none is used twice |
| `LifecycleSafety.UnderExact` | ourd/agent.py:1258-1275 | the list filed under a category holds exactly the artifacts offered under it, once each |
| `LifecycleSafety.SubmittedGateSound` | ourd/agent.py:1249-1348 | a gate that approves certifies its action: artifacts of that action and snapshot, each in one category, invariant and boundary covered (counterexample for L2), all required evidence satisfied; and, only if it approves with limits, limits on targets, capabilities, commands and uses within what the action asks for |
| `LifecycleSafety.GateSoundStep` | ourd/agent.py:1249-1320 | every call keeps the pending gate certified by the evidence registry |
| `LifecycleSafety.EvidenceGrows` | ourd/agent.py:708-758 | the registry only grows, by at most one artifact a call, under a fresh identifier |
| `LifecycleSafety.ActionSoundStep` | ourd/agent.py:1080-1247 | every call keeps: use limit within 1..20, use count within the limit, mandatory evidence and tests included |
| `LifecycleSafety.LinkSoundStep` | ourd/agent.py:1243-1244 | every call keeps the link between the pending action and its transaction consistent |
| `LifecycleSafety.SafeInEveryRun` | ourd/agent.py:998-1547 | all of these invariants hold in every state of every run |
| `LifecycleCalls.PrepareExactlyWhen` | ourd/agent.py:1005-1078 | a prepare is accepted if and only if governance is current, the manifest may write and was issued for these files or none, nothing is PREPARED or APPLIED, policy admits it and something changes; it then adds exactly the candidates and a fresh PREPARED record, and makes it active unless the record file cannot be written |
| `LifecycleCalls.ProposeExactlyWhen` | ourd/agent.py:1080-1247 | a proposal is accepted if and only if governance is current, policy admits it, and its transaction is known, current and of the same targets, or it needs none; the pending action then is unused, without a gate, and holds exactly what was asked for: evidence and tests that are mandatory or proposed, commands proposed or tests, the proposed texts, targets, risk, transaction and capabilities, the clamped use limit, the current manifest and snapshot |
| `LifecycleCalls.MaterialIsAskedFor` | ourd/agent.py:1207-1235 | the material of an action is what its proposal and the manifest ask for, no more and no less |
| `LifecycleCalls.SubmitExactlyWhen` | ourd/agent.py:1249-1348 | a gate is accepted if and only if the action is current with a use left, every item names a registered artifact of it and its snapshot, none twice, and the limits of an approval with limits lie within the action; it files exactly the items, and its verdict is the proposed one if and only if the categories its risk asks for are offered, all required evidence is satisfied, a full approval leaves nothing uncovered and a limited one gives a limit; otherwise it is REQUEST_EVIDENCE |
| `LifecycleCalls.MayApplyExactlyWhen` | ourd/agent.py:1350-1374 | the checks of `apply_transaction` pass if and only if the transaction is known, the action current, bound to it, with a use left and from these files, the gate approves, its limits (if it approves with limits) hold, policy admits it, and the operator's permission or a yes covers its risk; at L2 a yes is enough where interactive use is allowed |
| `LifecycleCalls.ApplyExactlyWhen` | ourd/agent.py:1350-1429 | an application returns if and only if those checks pass, the transaction is PREPARED from these files, every stored candidate is what the identifier was made of, and no file operation fails; then every target holds its candidate, the record is APPLIED, one use is counted, and no other record changes |
| `LifecycleCalls.MayRunExactlyWhen` | ourd/agent.py:2317-2345 | the checks of a command above L0 pass if and only if the action is current with a use left, names its capability and its exact text, the gate approves, its limits hold, and the workspace is the action's or, with a transaction, exactly as its application left it |
| `LifecycleCalls.CommandExactlyWhen` | ourd/agent.py:2310-2408 | a command returns if and only if its checks pass and it ends; it then has done what it does to the files, its outcome is recorded under the pending action and the new files, and above L0 a use is counted; if the checks fail nothing changes |
| `LifecycleCalls.FinalizeExactlyWhen` | ourd/agent.py:1477-1508 | a finalize returns if and only if the action is current and bound to the transaction, that is APPLIED with targets and snapshot as recorded, every offered artifact is a registered successful command of the action, whatever snapshot it was recorded at, every required test is the description of one, and the record can be written; the transaction is then VERIFIED with that evidence and nothing is active |
| `LifecycleCalls.EvidenceExactlyWhen` | ourd/agent.py:1489-1499 | the loop over the offered evidence raises nothing if and only if each is a registered command of the action that succeeded |
| `LifecycleCalls.RollbackExactlyWhen` | ourd/agent.py:1510-1547 | a roll-back returns if and only if the transaction is PREPARED, or applied with every target restorable, and the record can be written; it is then DISCARDED with no file touched, or ROLLED_BACK with only its targets touched, nothing is active, and the pending action with its gate is gone if and only if it was bound to the transaction |
| `LifecycleCalls.GovernanceIs` | ourd/agent.py:771-825 | governance is established if and only if policy admits it, and then takes the pending action and its gate away and nothing else |
| `LifecycleCalls.ObserveIs` | ourd/agent.py:708-758 | what a reading tool saw is recorded under the pending action and the current snapshot, and nothing else changes |
| `LifecycleCalls.PermittedExactlyWhen` | ourd/policy.py:106-125 | which consent an application needs: none below L1; none at L1 if the manifest allows automatic application; else a yes, or the flag with its permission, and at L2 the permission for interactive use besides |
| `LifecycleCalls.VerdictExactlyWhen` | ourd/agent.py:1277-1304 | the verdict of a gate is the proposed one if it is sufficient for it, and REQUEST_EVIDENCE if not |
| `LifecycleCalls.ProposedEarlier` | ourd/agent.py:1080-1247 | in every run the pending action was proposed by an earlier call, which asked for exactly what is in it |
| `LifecycleCalls.GateMeetsProposal` | ourd/agent.py:1350-1429 | in every run whatever acts under an L1 or L2 action does so under a gate that satisfies all the evidence the call that proposed the action asked for |
| `LifecycleCalls.VerifiedMeetsProposal` | ourd/agent.py:1477-1508 | in every run a transaction becomes VERIFIED only with a successful run, from its applied snapshot, of every test the call that proposed the action asked for |
| `LifecycleRestart.StrandsExactlyWhen` | ourd/agent.py:1477-1547 | from a state that loads, the next state loads if and only if the call is not a finalize that passes its checks, or a roll-back that would go through, of the active transaction while the record file cannot be written |
| `LifecycleRestart.MendsExactlyWhen` | ourd/agent.py:998-1547 | from a state that does not load, the next state loads if and only if the call is a finalize or roll-back that goes through, or a prepare that does, or a prepare of the very transaction the active identifier names that fails only in writing its record file |
| `LifecycleRestart.ActiveExactlyWhen` | ourd/agent.py:1504-1547 | in every run the active identifier is empty or names a PREPARED or APPLIED transaction exactly when every call that stranded it was followed by one that mends it |
| `LifecycleRestart.LoadsExactlyWhen` | ourd/agent.py:221-243 | of the transaction checks of a restart only the one on the active identifier can refuse a reachable state |
| `LifecycleRestart.OneWriterInEveryRun` | ourd/agent.py:101-145 | in every run at most one transaction is PREPARED or APPLIED; a reachable state loads exactly when every stranding call was mended since; a session starts over it if and only if moreover the constructor refuses neither the manifest nor the recovery transaction; it then makes the one open transaction active and changes nothing but that and the manifest, and otherwise changes nothing |
| `LifecycleRestart.SessionExactlyWhen` | ourd/agent.py:101-145 | the guards pass if and only if: without a recovery transaction nothing is PREPARED or APPLIED, and with one it is PREPARED, APPLIED or VERIFIED and was prepared under this very manifest; the manifest is valid, its permissions fit its read-only flag, and its source snapshot, which only a read-only one may lack, is current unless the recovery transaction was applied |
| `LifecycleRestart.LoadsWithoutStranding` | ourd/agent.py:221-243 | every state of a run without a stranding call loads |
| `LifecycleRestart.StrandedDoesNotLoad` | ourd/agent.py:1504-1508 | a stranding call raises and leaves a state that does not load |
| `LifecycleRestart.StrandedRun` | ourd/agent.py:1510-1547 | the failing input: governance, one prepared file, and its roll-back while the record file cannot be written |
| `LifecycleBinding.UnbindsExactlyWhen` | ourd/agent.py:101-145 | from a state whose open transaction was prepared under the current manifest, the next state is such a state if and only if the call does not start a session for a transaction that was prepared under another manifest than the open one |
| `LifecycleBinding.RebindsExactlyWhen` | ourd/agent.py:101-145 | from a state whose open transaction was prepared under another manifest, the next state has none such if and only if the call starts a session for a transaction of the open one's manifest, or resolves the open transaction |
| `LifecycleBinding.BoundExactlyWhen` | ourd/agent.py:101-145 | in every run the open transaction was prepared under the manifest of the session exactly when every session that parted the two was followed by a call that brought them together |
| `LifecycleBinding.AppliedUnderItsManifest` | ourd/agent.py:649-683 | in every run a transaction becomes APPLIED under an action of the manifest it was prepared under exactly when no session that parted them was left without such a call |
| `LifecycleBinding.VerifiedUnderItsManifest` | ourd/agent.py:1477-1508 | the same for VERIFIED; and then every test the manifest of the record makes mandatory is among those the action had to prove |
| `LifecycleSafety.GateSubmittedEarlier` | ourd/agent.py:1249-1320 | in every run the pending gate was submitted by an earlier call for the action then pending |
| `LifecycleSafety.GateBeforeMutation` | ourd/agent.py:1350-1429 | in every run, whatever an application or a command above L0 under an L1 or L2 action changes, even if it raises afterwards, and whatever becomes APPLIED, is under an approving gate, submitted earlier for that very action, that certifies it, with a use left under the action, and under the gate if it approves with limits |
| `LifecycleSafety.ApplicationIsBound` | ourd/agent.py:1350-1429 | in every run an application that changes anything, and every step that makes a transaction APPLIED, is an admitted call for exactly the transaction the pending action is bound to, from its source snapshot; L2 needs the interactive permission and a consent |
| `LifecycleSafety.RefusedChangesNothing` | ourd/agent.py:1350-1422 | an application or a command above L0 that is refused by its checks changes nothing |
| `LifecycleSafety.AdmittedHasUse` | ourd/agent.py:649-706 | getting past the checks means: the authority is current, a use is left under the action, and above L0 an approving gate for it is current, with a use left if it approves with limits; the `max_uses` of an APPROVE gate is not looked at |
| `LifecycleSafety.ApplyChecks` | ourd/agent.py:1350-1422 | what passing the checks of `apply_transaction` means |
| `LifecycleSafety.UseLimitsInEveryRun` | ourd/agent.py:649-706 | in every run the use count is at most the use limit; every application and command above L0 that is admitted or changes anything finds a use left under the action, and under its gate if that approves with limits, and counts exactly one if it returns and none if it raises |
| `LifecycleSafety.UseCounted` | ourd/agent.py:1423 | an application or a command above L0 counts one use exactly when it returns |
| `LifecycleLimits.LimitsBindExactlyWhen` | ourd/agent.py:1453-1475 | an application or a command above L0 under an L1 or L2 action passes its checks if and only if it passes them with the limits of the gate taken away and, when the gate approves with limits, stays within them; so the targets, capabilities, commands and uses given with an APPROVE gate decide nothing |
| `LifecycleLimits.OtherVerdictsTakeAnyLimits` | ourd/agent.py:1249-1320 | a gate proposed with any verdict but APPROVE_WITH_LIMITS is filed with whatever limits it came with, and refused or decided as if it had none |
| `LifecycleLimits.LeavesLimitsOnlyUnderApprove` | ourd/agent.py:1453-1475 | in every run an acting call that leaves the limits of its gate, or is taken at or above its `max_uses`, has a gate with verdict APPROVE |
| `LifecycleLimits.UsesPerProposal` | ourd/agent.py:649-706 | in every run at most as many calls as its use limit use an action between the proposal of it and the next successful proposal, and while it is pending its use count is how many did |
| `LifecycleLimits.ProposedAgain` | ourd/agent.py:1207-1247 | proposing the material of the pending action again gives the same action identifier with no use counted and no gate, and leaves all evidence bound to it, so that the items of an earlier gate are accepted as before |
| `LifecycleLimits.ActionOnlyByProposal` | ourd/agent.py:1080-1247 | any other call leaves the pending action as it is, counts one use of it, or takes it away |
| `LifecycleSamples.ThreeUsesUnderMaxUsesOne` | ourd/agent.py:1453-1475 | the failing input for limits: under an APPROVE gate whose limits name another file, no capability, no command and one use, the application and two commands are admitted and count three uses |
| `LifecycleSamples.UsesUnbounded` | ourd/agent.py:1207-1247 | for every n there is a run in which an action with a use limit of one is used n times, being proposed again after each use |
| `LifecycleSamples.TakenOverRun` | ourd/agent.py:101-145 | the failing input for manifests: a transaction is verified under one manifest, another is prepared under a second one, and a session under the first manifest, started for the verified transaction, goes on with the second one's open transaction |
| `LifecycleSamples.TestedRun` | ourd/agent.py:1477-1508 | a run from a new agent with a mandatory test: prepare, propose, gate, apply, run the test, finalize with its evidence; the transaction is VERIFIED although that evidence was recorded at the applied and not at the source snapshot |
| `LifecycleSafety.GovernanceRevokes` | ourd/agent.py:771-825 | after governance was established nothing is admitted, gated, finalized or becomes APPLIED until something is proposed again |
| `LifecycleSafety.CommandRecordedEarlier` | ourd/agent.py:2310-2408 | in every run command evidence was recorded by an earlier `run_command` with that command, result and action |
| `LifecycleSafety.CommandStartsFromApplied` | ourd/agent.py:2317-2382 | a command above L0 that passes its checks under an action bound to a transaction, even if it times out afterwards, starts from exactly the applied snapshot |
| `LifecycleSafety.FinalizeEvidenceSound` | ourd/agent.py:1491-1499 | evidence accepted by finalize is successful command evidence of the pending action |
| `LifecycleSafety.BecomesVerified` | ourd/agent.py:1477-1508 | a transaction becomes VERIFIED only by a finalize of an APPLIED transaction whose checks all passed |
| `LifecycleSafety.VerifiedOnlyWithTests` | ourd/agent.py:1477-1508 | in every run a transaction becomes VERIFIED only while the workspace is still its applied snapshot, and for each required test of its action an earlier successful run of that command under that action, started (above L0) from that snapshot |
| `Agents.Agent.Prepare` | ourd/agent.py:998-1038 | the tool method computes the state machine's step and refusal for the three prepare tools |
| `Agents.Agent.ProposeEonAction` | ourd/agent.py:1080-1247 | the tool method computes the state machine's step and refusal for a proposal |
| `Agents.Agent.SubmitEvidenceGate` | ourd/agent.py:1249-1320 | the tool method computes the state machine's step and refusal for a gate submission |
| `Agents.Agent.ApplyTransaction` | ourd/agent.py:1350-1429 | the tool method computes the state machine's step and refusal for an application |
| `Agents.Agent.RunCommand` | ourd/agent.py:2310-2408 | the tool method computes the state machine's step and refusal for a command |
| `Agents.Agent.FinalizeTransaction` | ourd/agent.py:1477-1508 | the tool method computes the state machine's step and refusal for a finalize |
| `Agents.Agent.RollbackTransaction` | ourd/agent.py:1510-1547 | the tool method computes the state machine's step and refusal for a roll-back or discard |
| `Agents.Agent.FileItems` | ourd/agent.py:1258-1275 | the loop over the gate items files them as the step function says, or reports the first bad one |
| `Agents.Agent.CheckTestEvidence` | ourd/agent.py:1491-1503 | the loops over evidence and required tests find exactly the refusal of the step function |
| `Agents.Dispatch` | ourd/agent.py:998-1547 | one call of any tool method is the step of the state machine for it |
| `Agents.Session` | ourd/agent.py:998-1547 | any sequence of calls made on an agent is a run of the state machine, and leaves the agent in a safe state |
| `LoopControl.Initial` | ourd/loop_control.py:338-352 | the constructor's clamping leaves a memory whose lists fit its window, with twice the maximal period inside the window |
| `LoopControl.AssessRefines` | ourd/loop_control.py:366-547 | one assessment with the windowed lists gives the verdict of one over the whole history, and keeps the lists equally long and within the window |
| `LoopControl.ExhaustRefines` | ourd/loop_control.py:549-574 | so does `exhaust_budget` |
| `LoopControl.BoundedRefinesFull` | ourd/loop_control.py:366-574 | on every run of calls the windowed controller gives the very verdicts of one that keeps the whole history (and, like the code, looks for revisited states among the last `window` of them) |
| `LoopControl.BoundedRefinesFullFromStart` | ourd/loop_control.py:338-574 | the same from any new controller, for any arguments |
| `LoopControl.DetectsIsSilent` | ourd/loop_control.py:500-520 | the test of period p holds exactly when the last p steps repeat the p before them and none of the last 2p brought new evidence or collisions |
| `LoopControl.PeriodIsLeastSilent` | ourd/loop_control.py:497-520 | the reported period is the least such period up to the maximum, over the whole history, and zero exactly when there is none |
| `LoopControl.AcceptedExactlyWhen` | ourd/oiec.py:333-388 | the certificate of a nonterminal step is accepted exactly when something was learned or the step is control-only within its budget |
| `LoopControl.AllowedExactlyWhen` | ourd/loop_control.py:366-520 | a nonterminal step is allowed if and only if it learned something or is control-only within its budget, does not return to a remembered state, and completes no silent period |
| `LoopControl.AllowedMeansProgress` | ourd/loop_control.py:366-489 | an allowed nonterminal step either learned something and reset the streak, or is control-only within its budget |
| `LoopVerdicts.AssessDecides` | ourd/loop_control.py:366-547 | one assessment, over the whole history: it raises exactly when boundary uncertainty moved by more than the scale; a terminal step is allowed, no cycle, period 0, SOLUTION_OR_MODEL_FINAL and streak 0; a nonterminal step is stopped with each of the four kinds exactly when its own condition on new atoms, streak, states and history holds and no earlier one does, and is CYCLE_STOP exactly when not allowed; a periodic cycle carries the least silent period; counts, gain, reasons and what is remembered are those of the two projections |
| `LoopVerdicts.ExhaustDecides` | ourd/loop_control.py:549-574 | exhausting the budget is a step that changes nothing, remembered as stopped for its own reason, with period 0 and the streak as it was |
| `LoopVerdicts.ChangeMeans` | ourd/loop_control.py:375-418 | a step counts as progress exactly when it brings a new evidence, active or collision atom or lowers uncertainty by 100, and as control-only exactly when it does not and brings a new control or hypothesis atom |
| `LoopVerdicts.CertificateMeans` | ourd/loop_control.py:420-448 | the certificate is accepted exactly for a terminal step, for progress and for a control-only step within its budget, and carries exactly the reasons that apply |
| `LoopVerdicts.PeriodMeans` | ourd/loop_control.py:497-520 | the reported period is the least silent period of the history up to the allowed maximum, and there is one exactly when some is silent |
| `LoopVerdicts.InitialIs` | ourd/loop_control.py:338-352 | each argument of the constructor counts as given if it is in its range, and else as the nearest value that is |
| `LoopControl.PotentialFalls` | ourd/loop_control.py:366-439 | what is left to learn never grows and shrinks with every step that learned something |
| `LoopControl.RunBound` | ourd/loop_control.py:466-489 | the run bound from any streak |
| `LoopControl.RunLengthBound` | ourd/loop_control.py:366-489 | with finite universes of N evidence, A active-evidence and M collision atoms and boundary uncertainty from U, which never rises, at most E + (E + 1) * budget consecutive allowed nonterminal assessments, E = N + A + M + U / 100 |
| `LoopBoundReached.BoundIsReached` | ourd/loop_control.py:366-489 | the bound cannot be improved: for every new controller and every number of atoms there is an allowed run of exactly that length |
| `LoopBoundReached.LongRunAllowed` | ourd/loop_control.py:366-520 | every step of that run is allowed, from any point of it |
| `LoopProgressControllers.LoopProgressController.DetectPeriod` | ourd/loop_control.py:497-520 | the loop over candidate periods finds the period of the specification |
| `LoopProgressControllers.LoopProgressController.Detects` | ourd/loop_control.py:500-520 | its body tests one candidate |
| `LoopProgressControllers.LoopProgressController.SumCounts` | ourd/loop_control.py:508-511 | the sum over the compared assessments |
| `LoopProgressControllers.LoopProgressController.AssessTransition` | ourd/loop_control.py:366-547 | `assess` updates the object as the function Assess says, and raises without a change |
| `LoopProgressControllers.LoopProgressController.Judge` | ourd/loop_control.py:466-520 | the chain of verdicts |
| `LoopProgressControllers.LoopProgressController.Remember` | ourd/loop_control.py:541-547 | the three lists are extended and cut to the window together |
| `LoopProgressControllers.LoopProgressController.ExhaustBudget` | ourd/loop_control.py:549-574 | `exhaust_budget` never raises and stops the run |
| `ContextBudget.FirstCompactable` | ourd/context_budget.py:599-607 | the first active item that compacts, if any |
| `ContextBudget.CompactUntilFitSound` | ourd/context_budget.py:594-695 | a compaction loop keeps every item but outputs, of an output its call and evidence, only shortens, and stops only when the request fits or nothing compacts |
| `ContextBudget.CompactKeeps` | ourd/context_budget.py:352-417 | a compacted output keeps its call identifier and evidence and is strictly shorter |
| `ContextBudget.OutputIndex` | ourd/context_budget.py:427-449 | the dictionary holds, for every identifier, its last droppable output |
| `ContextBudget.ExchangeIndices` | ourd/context_budget.py:420-462 | an exchange found is a call and a droppable output with the same identifier, two different active items |
| `ContextBudget.TwoTiersAreOne` | ourd/context_budget.py:697-708 | keeping the two newest first, and then none, picks the same exchange as never keeping any |
| `ContextRecovery.EstimateExactlyWhen` | ourd/context_budget.py:40-42 | the estimate is the least token count, at least one, at four characters a token |
| `ContextRecovery.FitsExactlyWhen` | ourd/context_budget.py:49-66 | a request fits if and only if the estimate is within the configured budget and, with a known runtime context, the estimate, the reserved output and the margin together are within it |
| `ContextRecovery.ReportAccepted` | ourd/context_budget.py:147-183 | no check of the report constructor can fail inside recovery, and the verdict is FIT exactly when the request fits |
| `ContextRecovery.StepAccepted` | ourd/context_budget.py:88-102 | no check of the step constructor can fail inside recovery |
| `ContextRecovery.ExtendLedger` | ourd/context_budget.py:555-747 | one more recorded step keeps the ledger: estimates join up and never rise, and no item leaves or changes unrecorded |
| `ContextRecovery.LedgerCounts` | ourd/context_budget.py:465-523 | conservation: items in = items out + history removed + two for every exchange dropped |
| `ContextRecovery.RecordStep` | ourd/context_budget.py:560-593 | the estimate, step and report every iteration makes, without an exception |
| `ContextRecovery.NextTurn` | ourd/context_budget.py:226-235 | after a prefix of whole turns the next turn gives the next such prefix, with none in between |
| `ContextRecovery.TurnsNeverSplitPairs` | ourd/context_budget.py:226-235 | a prefix of whole turns is exactly a prefix that does not part a user item from an assistant item right after it |
| `ContextRecovery.DropHistoryTurns` | ourd/context_budget.py:555-593 | the first loop removes the shortest prefix of whole turns that makes the request fit, or all history |
| `ContextRecovery.FindCompactable` | ourd/context_budget.py:597-607 | the inner loop finds the oldest active item that compacts |
| `ContextRecovery.CompactOutputs` | ourd/context_budget.py:594-695 | the second and third loop compute CompactUntilFit, with a ledger |
| `ContextRecovery.DropExchanges` | ourd/context_budget.py:696-747 | the fourth loop, with its two tiers, computes DropUntilFit, with a ledger |
| `ContextRecovery.RecoverContextRequest` | ourd/context_budget.py:526-752 | raises exactly for a history count out of range; otherwise the four loops terminate with a recovery as specified |
| `ContextRecovery.HistoryGoesFirst` | ourd/context_budget.py:555-593 | if any history is left, the request fits and nothing active was touched |
| `ContextRecovery.InsufficientMeansExhausted` | ourd/context_budget.py:594-747 | if the verdict is not FIT, no history, no output that still compacts and no droppable exchange is left |
| `ContextRecovery.RecoveredCounts` | ourd/context_budget.py:465-523 | removed plus remaining history is the original count, items are conserved, the estimate never ends above where it began, and budgets, overage and counts of the report are those of the request |
| `ContextRecovery.PlainComesThrough` | ourd/context_budget.py:594-747 | items that are neither calls nor outputs come through unaltered and in order, whatever the identifiers |
| `ContextRecovery.RecoveredExchanges` | ourd/context_budget.py:526-752 | with unique call identifiers the result is the active part with outputs shortened in place and then the fewest oldest exchanges removed that make it fit |
| `ContextCompaction.RecoveredCompaction` | ourd/context_budget.py:594-695 | every recovery compacts in two stages, to 1000 and then to 160 characters, each oldest first and no more than needed, and then only drops exchanges |
| `ContextCompaction.LoopIsOldestFirst` | ourd/context_budget.py:594-650 | a compaction loop shortens each active output as far as it goes before it turns to a later one, leaves all later ones as they were, stops at a request that fits or when nothing compacts, and would not have fitted without its last compaction |
| `ContextCompaction.ShortExcerptsAreLast` | ourd/context_budget.py:594-695 | an output is cut to 160 characters only if the request does not fit although no active output compacts any more to 1000; one of at most 1600 characters is left alone until then |
| `ContextCompaction.ChangedIsProjected` | ourd/context_budget.py:352-417 | an output a stage changed is its projection with the excerpt of that stage, or comes from it if projecting again gains something; and it was longer than 1600 characters, a projection already, or forced |
| `ContextCompaction.CompactsExactlyWhen` | ourd/context_budget.py:352-417 | an item compacts to another if and only if that is its projection and shorter, and the item is a projection already, longer than 1600 characters, or forced; call and evidence stay, and markers stay only in a repeated projection |
| `ContextCompaction.DroppingKeepsProtected` | ourd/context_budget.py:427-462 | the last loop leaves every output that names no call, is no object, carries a marker or has no evidence, in order, whatever the identifiers |
| `ContextCompaction.NothingToDropExactlyWhen` | ourd/context_budget.py:420-462 | no exchange is found if and only if every output with the identifier of a call is protected so |
| `ContextExchanges.OldestIsFirst` | ourd/context_budget.py:451-462 | the exchange found is that of the first call with a droppable output |
| `ContextExchanges.OldestIsKeep` | ourd/context_budget.py:420-462 | with unique identifiers, deleting it removes exactly the items of its identifier |
| `ContextExchanges.DropsOldestFewest` | ourd/context_budget.py:696-747 | with unique identifiers the fourth loop removes the oldest exchanges, the fewest that make the request fit, and nothing else |
| `ContextExchanges.NoOrphans` | ourd/context_budget.py:696-747 | with unique identifiers a call and its output stay or go together, and an output that may not be dropped stays with its call |
| `ContextExchanges.SharedIdLeavesOrphan` | ourd/context_budget.py:427-462 | without uniqueness an orphan can stay: two outputs sharing an identifier, of which only the later goes with the call |
| `ContextExchanges.ProtectionLostExactlyWhen` | ourd/context_budget.py:397-412 | a compacted output may be dropped if and only if it names a call and has evidence (first compaction, whatever its markers were) or could be dropped before (repeated compaction) |
| `ContextExchanges.DroppingKeepsPlain` | ourd/context_budget.py:696-747 | the fourth loop keeps items that are neither calls nor outputs |
| `ContextExchanges.CompactionKeepsUnique` | ourd/context_budget.py:594-695 | compaction keeps call identifiers unique |
| `Graphs.OrderExcludesCycles` | ourd/formal_writing.py:185-206 | a node in a reverse topological order lies on no cycle |
| `Graphs.OrderOfAllIsAcyclic` | ourd/formal_writing.py:185-206 | a graph whose nodes are all in such an order is acyclic |
| `Graphs.OrderExtends` | ourd/formal_writing.py:194-206 | a node all of whose successors are listed can be listed next |
| `Graphs.PathBackIsCycle` | ourd/formal_writing.py:194-206 | an edge back into the calls in progress closes a cycle |
| `Graphs.EndlessReachesCycle` | ourd/brain_cli.py:168-177 | in a finite set without an exit every node reaches a cycle |
| `Graphs.ClosedKeepsPaths` | ourd/formal_writing.py:208-220 | paths cannot leave a set closed under edges |
| `FormalWriting.Reaches` | ourd/formal_writing.py:208-220 | true exactly when there is a path, for every source, target and adjacency |
| `FormalWriting.AcyclicityCheck.Visit` | ourd/formal_writing.py:194-203 | a normal return makes the node permanent and keeps reverse topological order; an error proves a cycle |
| `FormalWriting.AcyclicityCheck.VisitTargets` | ourd/formal_writing.py:198-200 | the loop over the sorted targets |
| `FormalWriting.AcyclicityCheck.Run` | ourd/formal_writing.py:185-206 | raises exactly when the positive edges have a cycle; otherwise the order of entry into `permanent` is a reverse topological order of all nodes |
| `FormalWriting.PositiveGraphAcyclic` | ourd/formal_writing.py:185-206 | the adjacency filled edge by edge is the graph of the positive edges |
| `FormalWriting.Validate` | ourd/formal_writing.py:101-155 | accepts exactly the sound topologies, and otherwise names the first condition that fails |
| `FormalWriting.Check` | ourd/formal_writing.py:101-155 | the checks in their order: the error is the first condition that fails |
| `FormalWriting.OneExplanation` | ourd/formal_writing.py:101-155 | at most one error explains a topology, so the error raised is determined by it |
| `FormalWriting.SoundMeetsAll` | ourd/formal_writing.py:101-155 | a topology is sound exactly when it meets every condition an error can name |
| `FormalWriting.ExplainedIsUnsound` | ourd/formal_writing.py:101-155 | every error contradicts soundness |
| `FormalWriting.FindThesis` | ourd/formal_writing.py:107-110 | finds the thesis exactly when there is only one |
| `FormalWriting.EndpointsKnown` | ourd/formal_writing.py:112-114 | every edge joins known nodes |
| `FormalWriting.AllReachThesis` | ourd/formal_writing.py:118-129 | every node is connected to the thesis |
| `FormalWriting.EvidenceSourced` | ourd/formal_writing.py:131-135 | evidence nodes carry sources |
| `FormalWriting.CounterclaimsAnswered` | ourd/formal_writing.py:137-155 | every attacking counterclaim is rebutted |
| `BrainFeed.Peel` | ourd/brain_cli.py:168-177 | the peeling loop leaves exactly the items that can reach a cycle or an unknown reference |
| `BrainFeed.PeelReady` | ourd/brain_cli.py:169-177 | one round completes exactly the ready items |
| `BrainFeed.CompletedNotDoomed` | ourd/brain_cli.py:168-177 | a completed item can reach neither |
| `BrainFeed.StuckIsDoomed` | ourd/brain_cli.py:168-177 | when nothing is ready, every pending item can |
| `BrainFeed.FindDuplicates` | ourd/brain_cli.py:157-162 | reports exactly the identifiers that occur twice |
| `BrainFeed.FindMissing` | ourd/brain_cli.py:163-166 | reports exactly the unknown references |
| `BrainFeed.MissingExactly` | ourd/brain_cli.py:150-163 | a missing reference is reported exactly for an item that depends on, or has evidence from, an identifier no item has |
| `BrainFeed.RefGraphExactly` | ourd/brain_cli.py:164-167 | an identifier stands for the references, of either kind, of its last item |
| `BrainFeed.BuildPending` | ourd/brain_cli.py:167 | the dictionary of pending references |
| `BrainFeed.ValidateGraph` | ourd/brain_cli.py:152-183 | valid exactly when identifiers are unique, references known and the graph acyclic; the errors are exactly the expected ones; the item limits are enforced |
| `BrainFeed.NoErrorsExactlyWhen` | ourd/brain_cli.py:157-183 | there is no error exactly when those three conditions hold |
| `BrainFeed.DoomedExactlyWhenCyclic` | ourd/brain_cli.py:168-177 | without unknown references something stays unresolved exactly when there is a cycle |
| `Masks.GatherBits` | ourd/models.py:335-344 | summing the moved powers of two gives exactly the moved bits |
| `Masks.BitsDetermine` | ourd/models.py:335-344 | bits determine a mask that is not negative |
| `Evidence.RearrangedKeepsCells` | ourd/models.py:329-349 | sorting the atoms keeps every atom's present bit, conflict bit, quality and representative |
| `Evidence.ConstructsExactlyWhen` | ourd/models.py:319-353 | the constructor rejects exactly misaligned arrays, bad atoms and qualities out of range; its two mask checks never reject, since masks were summed again before them and bits outside the universe, or of a negative mask, were dropped |
| `Evidence.ConstructedIsCanonical` | ourd/models.py:319-353 | what is constructed has sorted atoms, the same universe, and masks inside it |
| `Evidence.CanonicalByCells` | ourd/models.py:319-353 | a constructed state is determined by its universe and its cells |
| `Evidence.ConstructIdempotent` | ourd/models.py:319-353 | constructing again changes nothing |
| `EvidenceUpdates.EmptyIsCanonical` | ourd/oiec.py:260-269 | the empty state of a set of atoms is a constructed state over its non-empty atoms |
| `EvidenceUpdates.EmptyCells` | ourd/oiec.py:260-269 | and all its cells are empty |
| `EvidenceUpdates.UpdateJoins` | ourd/oiec.py:272-304 | an update is accepted exactly for a known atom and a quality in range; it joins the artifact into the cell of its atom and keeps all other cells |
| `EvidenceUpdates.JoinSummarizes` | ourd/oiec.py:286-298 | one more join adds one more observation to the summary: or of the bits, maximal quality, least non-empty identifier at that quality |
| `EvidenceUpdates.SummaryUnique` | ourd/oiec.py:286-298 | a set of observations has only one summary |
| `EvidenceUpdates.FoldJoins` | ourd/oiec.py:272-304 | a sequence of updates is accepted exactly when every one is, and every cell then summarizes the observations of its atom |
| `EvidenceUpdates.OrderDoesNotMatter` | ourd/oiec.py:272-304 | two sequences with the same observations, in any order and with any repetition, are both refused or give the same state |
| `EvidenceUpdates.MassNeverFalls` | ourd/oiec.py:307-312 | one update raises the mass by exactly what its cell gains, never less than zero |
| `EvidenceUpdates.EmptyHasNoMass` | ourd/oiec.py:307-312 | the empty state has mass 0 |
| `EvidenceProjection.ProjectEvidence` | ourd/oiec.py:584-648 | accepted exactly when there are no more non-empty atoms than the cap, every artifact of the action and its snapshot has a known polarity, and scores in range where they count; the state then has a cell for every non-empty evidence requirement and required test: present exactly when an artifact with this action id and this snapshot has the atom among its requirements, description or kind, or a gate of this action calls it satisfied and names such a registered artifact; in conflict exactly when one of those is; of their best quality; and represented by the least non-empty identifier at it |
| `EvidenceProjection.AtomMeans` | ourd/oiec.py:598-647 | what the observations about one atom amount to is what the artifacts behind them do: presence, conflict, best quality and least identifier, the gate lending the first by identifier of the best it names |
| `EvidenceProjection.AcceptableExactlyWhen` | ourd/oiec.py:593-606 | the cap, the polarities and the scores, said of the artifacts and of the gate |
| `EvidenceProjection.ObserveArtifacts` | ourd/oiec.py:598-619 | the first loop folds in one observation for every eligible artifact and every atom it speaks about |
| `EvidenceProjection.ObserveArtifact` | ourd/oiec.py:604-619 | one artifact |
| `EvidenceProjection.ObserveGate` | ourd/oiec.py:620-647 | the second loop folds in the gate's observations |
| `EvidenceProjection.BestQuality` | ourd/oiec.py:634 | the maximal quality of the candidates |
| `EvidenceProjection.SpeaksAboutExactly` | ourd/oiec.py:607-611 | an artifact speaks about an atom exactly when it is one of its requirements, its description or its kind |
| `EvidenceProjection.GateObservationIsBest` | ourd/oiec.py:626-647 | the gate adds the best quality of the artifacts it names, the least identifier that reaches it, and a conflict when any of them is one |
| `EvidenceProjection.Named` | ourd/oiec.py:621-632 | exactly the eligible registered artifacts a gate names |
| `Coverage.CanonicalRanges` | ourd/summarization.py:18-32 | sorted, disjoint, non-adjacent ranges that cover exactly the given lines within 1..n |
| `Coverage.UncoveredRanges` | ourd/summarization.py:35-46 | canonical ranges of exactly the lines of 1..n that are not covered |
| `Coverage.CanonicalUnique` | ourd/summarization.py:18-32 | canonical ranges that cover the same lines are identical |
| `Coverage.NewCoverage` | ourd/summarization.py:115-135 | the constructor: covered, uncovered, sorted evidence identifiers, completeness |
| `Coverage.CompleteExactlyWhen` | ourd/summarization.py:118 | complete exactly when every line 1..n is covered |
| `Coverage.CoverageUnique` | ourd/summarization.py:115-135 | equal documents, line sets and reads give identical coverages |
| `Coverage.Reload` | ourd/summarization.py:315-322 | a saved coverage loads again as itself, so its signature is accepted |
| `Coverage.MergeCoverage` | ourd/summarization.py:336-353 | one more read adds exactly its lines within 1..n and its evidence identifier |
| `Coverage.ReadRunCovers` | ourd/summarization.py:336-353 | folding reads one at a time covers exactly the lines some read returned and names every read |
| `Coverage.ReadOrderDoesNotMatter` | ourd/summarization.py:336-353 | runs that returned the same lines in reads of the same names end in the same coverage, whatever the order and overlaps |
| `CorpusReaders.ReadFile` | ourd/agent.py:2240-2258 | which lines a read returns: from the start on as many as asked for, but at least one and at most 2001, none past the last line, and none at all exactly when the start is |
| `CorpusReaders.StripSound` | ourd/summarization.py:169-171 | stripping removes exactly the surrounding blanks, and leaves nothing exactly of a blank text |
| `CorpusReaders.CorpusReader.ReadCorpusDocument` | ourd/agent.py:1675-1714 | accepted exactly when the manifest is known and current, the document in it and the content what it bound, which of a current manifest only an ignored file can fail; the coverage moves on by exactly the lines returned and names exactly the reads so far and this one |
| `CorpusReaders.CorpusReader.RecordDocumentSummary` | ourd/agent.py:1716-1760 | in every run a summary is recorded exactly when the manifest is current, the text not blank, and earlier reads returned every line of the bound document, verbatim; unless the file is ignored its content still is what was read; the check for stale coverage never refuses |
| `CorpusReaders.CorpusReader.BuildManifest` | ourd/summarization.py:240-285 | a manifest binds contents, line counts and the snapshot |
| `CorpusReaders.CompleteMeansReturned` | ourd/agent.py:1731-1735 | a tracked coverage is complete exactly when every line was returned with its text |
| `CorpusReaders.TrackRead` | ourd/agent.py:1691-1702 | a read keeps the coverage in step with the lines returned |
| `EventLog.ValidateChain` | ourd/persistence.py:319-348 | accepts exactly the valid logs, returns their head, and otherwise names the first event that does not follow |
| `EventLog.HeadDeterminesLog` | ourd/persistence.py:319-348 | valid logs with the same head have the same length and agree event by event on every hashed field and on the payload, missing lineage fields reading as empty when one is present |
| `EventLog.HeadsDiffer` | ourd/persistence.py:319-348 | no two prefixes of a valid log have the same head |
| `EventLog.AppendKeepsChain` | ourd/persistence.py:350-384 | appending keeps the chain valid, and its recomputed head is the new event's hash |
| `EventLog.EventStore.Append` | ourd/persistence.py:350-384 | the file grows by one event and the head moves to it |
| `EventLog.EventStore.Open` | ourd/persistence.py:297-301 | a store opens exactly for a valid log |
| `EventLog.EventStore.LastStateSnapshot` | ourd/persistence.py:386-391 | the last snapshot event of the log |
| `StateStores.RestoredExactly` | ourd/persistence.py:410-463 | what a load gives: the initial state if neither the last snapshot in the log nor, failing that, the projection file holds one; and of the state held its body after every migration from its version on, each once and in order, a missing version reading as 1, or the error that says what is wrong with it |
| `StateStores.CurrentExactlyWhen` | ourd/persistence.py:410-427 | which state is current: that of the last snapshot event, with the hash of the event as head, or the projection file if no last snapshot holds one |
| `StateStores.UpgradedClimbs` | ourd/persistence.py:434-456 | an upgrade applies each migration from the version of the state up to 5 once and in order |
| `StateStores.LadderReaches` | ourd/persistence.py:434-456 | from any version 1..5 the migrations reach version 6 in turn, and none meets a version it was not made for |
| `StateStores.StateStore.ChoosePayload` | ourd/persistence.py:410-427 | the state in the log decides; the projection only counts when the log holds none |
| `StateStores.StateStore.Decode` | ourd/persistence.py:428-463 | which states are refused, resumed or upgraded |
| `StateStores.StateStore.Load` | ourd/persistence.py:410-485 | load depends on the current state alone and writes only for an old version: exactly one snapshot |
| `StateStores.StateStore.Save` | ourd/persistence.py:487-512 | save appends one snapshot and then writes the projection, or is stopped in between |
| `StateStores.StateStore.Trace` | ourd/persistence.py:514-529 | trace appends one event |
| `StateStores.RunRecovers` | ourd/persistence.py:410-512 | after any run of saves, traces and loads, stopped wherever they were, loading resumes the state saved last without a migration; before the first save it gives what it gave at the start |
| `StateStores.LoadKeepsRestored` | ourd/persistence.py:464-485 | a load, stopped or not, does not change what the next load gives |
| `StateStores.ProjectionDecidesNothing` | ourd/persistence.py:419-427 | as soon as the log holds a state the projection file decides nothing |
| `StateStores.ProjectionAgrees` | ourd/persistence.py:500-512 | a save that was not stopped leaves a projection equal to what the log says |
| `StateStores.SecondLoadAppendsNone` | ourd/persistence.py:464-485 | loading a version 1..5 state appends exactly one version 6 snapshot, stopped or not, and loading again appends none |

## Left out

- Real I/O: fsync, file locks, temporary file names, subprocesses, git, clocks and random identifiers. A file step succeeds or fails, and identifiers, timestamps, a command's effect on the files and a person's answers are inputs.
- Hash functions and JSON text: digests wrap their material, and the length of a request is the sum of opaque item lengths.
- `redact` is taken as the identity on the payloads and states modelled.
- Path canonicalization, `fnmatch` and ignore lists: paths are opaque keys, and the ignored ones a parameter.
- Risk classification, command parsing and the boundary, dimension, size and retry policies: their answer to a call is an input.
- The text edits of `prepare_replace`, unified diffs, and the `original_hashes` of a record, which only the reader of a record uses.
- Directories that `mkdir` makes, temporary files that a failed write leaves behind, and the expiry dates of the authority and of an action (`expires_at`, `ourd/agent.py:664-671`).
- Records are values in maps. That `TransactionRecord` objects are shared between the state and the caller is not captured.
- The backups kept under the state directory are assumed to change only through the engine. Candidates are not: commands and edits may change them.
- Records without an authority hash, for which the constructor falls back on the saved manifest: a record always carries the manifest it was prepared under.
- A restart is taken to find the state as the last call left it in memory: that every call saved it is assumed, not modelled together with the event log.
- Exceptions outside `Exception`, such as an interrupt, and the death of the process inside the loop of `apply`, which skip `_restore`.
- `Lifecycle` and `EvidenceProjection` each keep the fields of artifacts, actions and gates that their code reads; no lemma links the two views.
- Agents.Session: restarts are not among the calls made on one agent object; they are steps of the runs in `LifecycleRuns`.
- The changed files and collisions that `run_command` records, and the retry bookkeeping of collisions.
- Reasoning certificates, super-reasoning and the `egcf` packages, whose part in actions and loaded states is not part of this model.
- Hypothesis scoring, severity weights, utilities and quantization: clamped arithmetic that would add easy members.
- Certificate signatures and the reason texts of assessments and gates.
- How `verified_projection` builds its atoms from the runtime state: projections are sets of atoms.
- LoopControl.RunLengthBound: between two allowed assessments other calls may add atoms but not lose any; that universes are finite and boundary uncertainty does not rise is assumed of the run, as the bound is about such runs.
- The fields inside a projection of a tool output and the length of its excerpt (`_bounded_excerpt`): a projection is an opaque text with a length, and only what later loops look at is kept.
- The token counts a report gives for the parts of a request, and its signatures.
- Python's recursion limit in `visit`, which a very deep topology can exceed.
- `linked_inference_groups` and the per-kind counts of a brain feed report.
- Non-text values in the fields of an argument node or an event, and a torn last line in the log file.
- StateStores.LadderReaches: what each migration does to the fields of a state is a parameter; that it needs a state it can decode is one flag.
- StateStores.RunRecovers: traces are assumed not to use the event type of snapshots, as none in the repository does.
- The corpus listing (`fnmatch` patterns), media types, and the corpus summary report.
- Read capabilities and path scopes, which `read_file` checks first.
- Model providers, prompts, tool schemas, text rendering, the other command lines and the user interface.
