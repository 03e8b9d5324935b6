/** What every run of the governed lifecycle keeps: one writer, gates before mutation, use
    limits, test evidence before VERIFIED, and the possibility of exact roll-back. */
module LifecycleRuns {
  import opened Results
  import opened Ordering
  import opened Disk
  import opened Records
  import opened Transactions
  import opened Lifecycle

  /** A run: the states ss[0], ss[1], ... joined by the calls cs[0], cs[1], ..., refused
      calls included, from a new agent. */
  ghost predicate IsRun(ss: seq<State>, cs: seq<Call>, ignored: Ignored) {
    && |ss| == |cs| + 1
    && ss[0] == Fresh(ss[0].store.files, ss[0].authority)
    && forall i :: 0 <= i < |cs| ==> ss[i + 1] == Next(ss[i], ignored, cs[i]).state
  }

  lemma RunExtends(ss: seq<State>, cs: seq<Call>, ignored: Ignored, c: Call)
    requires IsRun(ss, cs, ignored)
    ensures IsRun(ss + [Next(ss[|ss| - 1], ignored, c).state], cs + [c], ignored)
  {
    hide Next;
  }

  // ----- the store -----

  predicate IsApplied(s: Store, id: TransactionId) {
    id in s.transactions && (s.transactions[id].status == Applied || s.transactions[id].status == Verified)
  }

  ghost predicate OneOpen(s: Store) {
    forall a, b | a in s.transactions && b in s.transactions ::
      Unresolved(s.transactions[a].status) && Unresolved(s.transactions[b].status) ==> a == b
  }

  /** The files as the source snapshot of an identifier shows them. */
  function FilesOf(source: SnapshotHash): Files {
    map p | p in source.entries :: File(source.entries[p].0.bytes, source.entries[p].1)
  }

  /** The snapshot after any successful application of the identifier. */
  function AppliedSnapshotOf(id: TransactionId, ignored: Ignored): SnapshotHash {
    SnapshotOf(Written(FilesOf(id.source), id.candidate, id.targets), ignored)
  }

  lemma SnapshotOfItsFiles(files: Files, ignored: Ignored)
    ensures SnapshotOf(FilesOf(SnapshotOf(files, ignored)), ignored) == SnapshotOf(files, ignored)
  {
    var source := SnapshotOf(files, ignored);
    assert SnapshotOf(FilesOf(source), ignored).entries == source.entries;
  }

  /** Every way the record of `id` can change in one step. */
  datatype Move = Kept | Bound | PreparedAnew | AppliedNow | InterruptedNow | VerifiedNow | RolledBackNow | DiscardedNow

  /** In one step the record of `id` is untouched, is bound to an action, or takes one edge of
      the status graph; while it stays applied its manifest, snapshot and backups stay too. */
  ghost predicate Moves(s: Store, t: Store, id: TransactionId, move: Move) {
    match move
    case Kept =>
      && (id in t.transactions <==> id in s.transactions)
      && (id in s.transactions ==> t.transactions[id] == s.transactions[id])
    case Bound =>
      && id in s.transactions && id in t.transactions
      && t.transactions[id] == s.transactions[id].(actionId := t.transactions[id].actionId)
    case PreparedAnew =>
      && (forall other :: other in s.transactions ==> !Unresolved(s.transactions[other].status))
      && id in t.transactions && t.transactions[id] == FreshRecord(id, t.transactions[id].authority)
    case AppliedNow =>
      && id in s.transactions && id in t.transactions && s.transactions[id].status == Prepared
      && t.transactions[id].status == Applied && t.transactions[id].authority == s.transactions[id].authority
    case InterruptedNow =>
      && id in s.transactions && id in t.transactions && s.transactions[id].status == Prepared
      && t.transactions[id].status == Prepared && t.transactions[id].authority == s.transactions[id].authority
    case VerifiedNow =>
      && id in s.transactions && id in t.transactions && s.transactions[id].status == Applied
      && t.transactions[id] == s.transactions[id].(status := Verified, evidenceIds := t.transactions[id].evidenceIds)
    case RolledBackNow =>
      && IsApplied(s, id) && id in t.transactions
      && t.transactions[id] == s.transactions[id].(status := RolledBack)
    case DiscardedNow =>
      && id in s.transactions && id in t.transactions && s.transactions[id].status == Prepared
      && t.transactions[id] == s.transactions[id].(status := Discarded)
  }

  /** The edge that call c makes the record of `id` take. */
  ghost function MoveOf(s: State, ignored: Ignored, c: Call, id: TransactionId): Move {
    var r := Next(s, ignored, c);
    if r.state.store.transactions == s.store.transactions then Kept
    else match c
      case PrepareCall(operation, contents, _, _) =>
        if id == IdOf(operation, contents, SnapshotOf(s.store.files, ignored)) then PreparedAnew else Kept
      case ProposeCall(p, _) => if p.transaction == Some(id) then Bound else Kept
      case ApplyCall(target, _, _, _, _) =>
        if target != id then Kept
        else if id in r.state.store.transactions && r.state.store.transactions[id].status == Applied
          then AppliedNow else InterruptedNow
      case FinalizeCall(target, _, _) => if target == id then VerifiedNow else Kept
      case RollbackCall(target, _, _) =>
        if target != id then Kept
        else if target in s.store.transactions && s.store.transactions[target].status == Prepared
          then DiscardedNow else RolledBackNow
      case _ => Kept
  }

  /** Which function each of these calls is. */
  lemma NextIs(s: State, ignored: Ignored, c: Call)
    ensures c.PrepareCall? ==>
      Next(s, ignored, c) == Prepare(s, ignored, c.operation, c.contents, c.admits, c.recordFails)
    ensures c.ProposeCall? ==> Next(s, ignored, c) == Propose(s, ignored, c.proposal, c.admits)
    ensures c.SubmitGateCall? ==>
      Next(s, ignored, c) == SubmitGate(s, ignored, c.proposed, c.items, c.uncovered, c.limits)
    ensures c.ApplyCall? ==>
      Next(s, ignored, c) == Apply(s, ignored, c.id, c.yolo, c.approves, c.admits, c.faults)
    ensures c.RunCommandCall? ==>
      Next(s, ignored, c) ==
        RunCommand(s, ignored, c.risk, c.capability, c.command, c.allowed, c.admits, c.effect)
    ensures c.FinalizeCall? ==> Next(s, ignored, c) == Finalize(s, ignored, c.id, c.evidenceIds, c.recordFails)
    ensures c.RollbackCall? ==> Next(s, ignored, c) == Rollback(s, c.id, c.restore, c.recordFails)
    ensures c.RestartCall? ==> Next(s, ignored, c) == Restart(s, ignored, c.authority, c.recovery, c.valid)
  {
    hide Prepare, Propose, SubmitGate, Apply, RunCommand, Finalize, Rollback, Restart;
  }

  lemma PrepareStatus(s: State, ignored: Ignored, c: Call)
    requires c.PrepareCall?
    ensures var t, id := Next(s, ignored, c).state, IdOf(c.operation, c.contents, SnapshotOf(s.store.files, ignored));
      if PrepareError(s, ignored, c.contents, c.admits).Some? then t == s
      else
        && t.active == (if c.recordFails then s.active else Some(id))
        && t.store.transactions == s.store.transactions[id := FreshRecord(id, AuthorityHash(s.authority))]
  {
    hide Next, IdOf, SnapshotOf, PrepareError, CandidateFiles;
    NextIs(s, ignored, c);
  }

  lemma PrepareMoves(s: State, ignored: Ignored, c: Call, id: TransactionId)
    requires s.store.WellFormed() && c.PrepareCall?
    ensures Moves(s.store, Next(s, ignored, c).state.store, id, MoveOf(s, ignored, c, id))
    ensures Next(s, ignored, c).state.store.WellFormed()
  {
    hide Next, SnapshotOf, IdOf, GovernanceError;
    PrepareStatus(s, ignored, c);
  }

  lemma ProposeMoves(s: State, ignored: Ignored, c: Call, id: TransactionId)
    requires s.store.WellFormed() && c.ProposeCall?
    ensures Moves(s.store, Next(s, ignored, c).state.store, id, MoveOf(s, ignored, c, id))
    ensures Next(s, ignored, c).state.store.WellFormed()
  {
    hide Next, SnapshotOf, IdOf, MaterialOf, GovernanceError;
    NextIs(s, ignored, c);
  }

  lemma ApplyMoves(s: State, ignored: Ignored, c: Call, id: TransactionId)
    requires s.store.WellFormed() && c.ApplyCall?
    ensures Moves(s.store, Next(s, ignored, c).state.store, id, MoveOf(s, ignored, c, id))
    ensures Next(s, ignored, c).state.store.WellFormed()
  {
    hide Next, ApplyStep, ApplyError, IdOf, SnapshotOf;
    NextOfApply(s, ignored, c);
    if c.id in s.store.transactions {
      ApplyTouchesOnlyTargets(s.store, ignored, c.id, c.faults);
      ApplyRecord(s.store, ignored, c.id, c.faults);
    }
  }

  lemma FinalizeMoves(s: State, ignored: Ignored, c: Call, id: TransactionId)
    requires s.store.WellFormed() && c.FinalizeCall?
    ensures Moves(s.store, Next(s, ignored, c).state.store, id, MoveOf(s, ignored, c, id))
    ensures Next(s, ignored, c).state.store.WellFormed()
  {
    hide Next, FinalizeError, FirstOccurrences, IdOf, SnapshotOf;
    NextIs(s, ignored, c);
  }

  lemma RollbackMoves(s: State, ignored: Ignored, c: Call, id: TransactionId)
    requires s.store.WellFormed() && c.RollbackCall?
    ensures Moves(s.store, Next(s, ignored, c).state.store, id, MoveOf(s, ignored, c, id))
    ensures Next(s, ignored, c).state.store.WellFormed()
  {
    hide Next, Rollback, IdOf, SnapshotOf;
    NextIs(s, ignored, c);
    RollbackRecords(s, c.id, c.restore, c.recordFails);
  }

  lemma RollbackRecords(s: State, id: TransactionId, restore: RestoreFaults, recordFails: bool)
    requires s.store.WellFormed()
    ensures var before, after := s.store, Rollback(s, id, restore, recordFails).state.store;
      after == before || (id in before.transactions && Closes(before, after, id))
  {
    hide CloseStep, Closes;
    if id in s.store.transactions {
      CloseRecords(s.store, id, restore, recordFails);
    }
  }

  /** The record of `id` goes from PREPARED to DISCARDED, or from applied to ROLLED_BACK, or
      nothing but files changed. */
  ghost predicate Closes(before: Store, after: Store, id: TransactionId)
    requires id in before.transactions
  {
    var r := before.transactions[id];
    && after.backups == before.backups && after.candidates == before.candidates
    && (|| after.transactions == before.transactions
        || (r.status == Prepared && after.transactions == before.transactions[id := r.(status := Discarded)])
        || (IsApplied(before, id) && after.transactions == before.transactions[id := r.(status := RolledBack)]))
  }

  lemma CloseRecords(s: Store, id: TransactionId, restore: RestoreFaults, recordFails: bool)
    requires id in s.transactions
    ensures Closes(s, CloseStep(s, id, restore, recordFails).store, id)
  {
    hide RestoreFrom;
    var r := s.transactions[id];
    var closed := r.(status := if r.status == Prepared then Discarded else RolledBack);
    assert CloseStep(s, id, restore, recordFails).store.transactions in {s.transactions, s.transactions[id := closed]};
  }

  /** The status graph is complete: no call moves a record any other way. */
  lemma StatusGraph(s: State, ignored: Ignored, c: Call, id: TransactionId)
    requires s.store.WellFormed()
    ensures Moves(s.store, Next(s, ignored, c).state.store, id, MoveOf(s, ignored, c, id))
    ensures Next(s, ignored, c).state.store.WellFormed()
  {
    if c.PrepareCall? { PrepareMoves(s, ignored, c, id); }
    else if c.ProposeCall? { ProposeMoves(s, ignored, c, id); }
    else if c.ApplyCall? { ApplyMoves(s, ignored, c, id); }
    else if c.FinalizeCall? { FinalizeMoves(s, ignored, c, id); }
    else if c.RollbackCall? { RollbackMoves(s, ignored, c, id); }
    else { OtherCallsKeep(s, ignored, c); }
  }

  /** The remaining calls leave every record and every backup alone. */
  lemma OtherCallsKeep(s: State, ignored: Ignored, c: Call)
    requires !c.PrepareCall? && !c.ProposeCall? && !c.ApplyCall? && !c.FinalizeCall? && !c.RollbackCall?
    ensures Next(s, ignored, c).state.store.transactions == s.store.transactions
    ensures Next(s, ignored, c).state.store.backups == s.store.backups
  {
    hide ApplyStep, RestoreFrom, SnapshotOf, GovernanceError, CurrentActionError, GateError, LimitError,
      TransitionError, PermissionError, VerifyAppliedError, ItemsError, VerdictOf, FinalizeEvidenceError,
      TestsCovered, LoadError, IdOf, MaterialOf, CandidateFiles, FirstOccurrences;
  }

  lemma ApplyRecord(s: Store, ignored: Ignored, id: TransactionId, faults: Faults)
    requires id in s.transactions && s.WellFormed()
    ensures var t := ApplyStep(s, ignored, id, faults).store;
      && t.transactions[id].id == id && t.transactions[id].authority == s.transactions[id].authority
      && (s.transactions[id].status != Prepared ==> t == s)
      && (s.transactions[id].status == Prepared ==>
            t.transactions[id].status == Applied || t.transactions[id].status == Prepared)
  {
    hide Written, ManifestOf, BackupsOf, HashesOf, RestoreFrom, SnapshotOf;
    if s.transactions[id].status == Prepared {
      AppliedStatus(s, ignored, id, faults);
    }
  }

  lemma NextWellFormed(s: State, ignored: Ignored, c: Call)
    requires s.store.WellFormed()
    ensures Next(s, ignored, c).state.store.WellFormed()
  {
    hide Next;
    StatusGraph(s, ignored, c, TransactionId("", [], SnapshotHash(map[]), CandidateHash(map[])));
  }

  // ----- one writer -----

  /** At most one transaction is PREPARED or APPLIED after a step if that held before it. */
  lemma OneOpenStep(s: State, ignored: Ignored, c: Call)
    requires s.store.WellFormed() && OneOpen(s.store)
    ensures OneOpen(Next(s, ignored, c).state.store)
  {
    hide Next, IdOf, SnapshotOf;
    var t := Next(s, ignored, c).state.store;
    forall a, b | a in t.transactions && b in t.transactions && Unresolved(t.transactions[a].status)
      && Unresolved(t.transactions[b].status)
      ensures a == b
    {
      StatusGraph(s, ignored, c, a);
      StatusGraph(s, ignored, c, b);
    }
  }

  // ----- what stays true of an applied transaction -----

  /** While a transaction stays applied, what is needed to undo it stays as it was. */
  ghost predicate SameUndo(s: Store, t: Store, id: TransactionId) {
    && id in s.transactions && id in t.transactions
    && t.transactions[id].manifest == s.transactions[id].manifest
    && t.transactions[id].appliedSnapshot == s.transactions[id].appliedSnapshot
    && forall p: Path ::
         && ((id, p) in t.backups <==> (id, p) in s.backups)
         && ((id, p) in s.backups ==> t.backups[(id, p)] == s.backups[(id, p)])
  }

  lemma AppliedStays(s: State, ignored: Ignored, c: Call, id: TransactionId)
    requires s.store.WellFormed()
    requires IsApplied(s.store, id) && IsApplied(Next(s, ignored, c).state.store, id)
    ensures SameUndo(s.store, Next(s, ignored, c).state.store, id)
  {
    hide MoveOf, Moves, Next;
    StatusGraph(s, ignored, c, id);
    BackupsStay(s, ignored, c, id);
    StaysApplied(s.store, Next(s, ignored, c).state.store, id, MoveOf(s, ignored, c, id));
  }

  lemma StaysApplied(s: Store, t: Store, id: TransactionId, move: Move)
    requires IsApplied(s, id) && IsApplied(t, id) && Moves(s, t, id, move)
    ensures t.transactions[id].manifest == s.transactions[id].manifest
    ensures t.transactions[id].appliedSnapshot == s.transactions[id].appliedSnapshot
  {
  }

  lemma BackupsStay(s: State, ignored: Ignored, c: Call, id: TransactionId)
    requires s.store.WellFormed() && IsApplied(s.store, id)
    ensures var b, a := s.store.backups, Next(s, ignored, c).state.store.backups;
      forall p: Path :: ((id, p) in a <==> (id, p) in b) && ((id, p) in b ==> a[(id, p)] == b[(id, p)])
  {
    hide Next, ApplyStep, ApplyError, OnlyOwnRecord;
    if !c.ApplyCall? {
      OnlyApplyWritesBackups(s, ignored, c);
    } else if c.id in s.store.transactions {
      NextOfApply(s, ignored, c);
      ApplyTouchesOnlyTargets(s.store, ignored, c.id, c.faults);
      ApplyRecord(s.store, ignored, c.id, c.faults);
      OwnBackups(s.store, ApplyStep(s.store, ignored, c.id, c.faults).store, c.id, id);
    } else {
      NextOfApply(s, ignored, c);
    }
  }

  lemma OnlyApplyWritesBackups(s: State, ignored: Ignored, c: Call)
    requires s.store.WellFormed() && !c.ApplyCall?
    ensures Next(s, ignored, c).state.store.backups == s.store.backups
  {
    hide ApplyStep, RestoreFrom, SnapshotOf, GovernanceError, CurrentActionError, ApplyError, VerifyAppliedError,
      ItemsError, VerdictOf, FinalizeEvidenceError, TestsCovered, LoadError, IdOf, MaterialOf, CandidateFiles,
      FirstOccurrences;
    if c.RollbackCall? {
      RollbackRecords(s, c.id, c.restore, c.recordFails);
    }
  }

  lemma OwnBackups(a: Store, b: Store, own: TransactionId, id: TransactionId)
    requires (OnlyOwnRecord(a, b, own) && id != own) || a == b
    ensures forall p: Path ::
      && ((id, p) in b.backups <==> (id, p) in a.backups)
      && ((id, p) in a.backups ==> b.backups[(id, p)] == a.backups[(id, p)])
  {
  }

  /** What the engine establishes in the step that makes a transaction APPLIED. */
  ghost predicate AppliedBy(s: State, ignored: Ignored, c: Call, t: State, id: TransactionId) {
    && c.ApplyCall? && c.id == id
    && id in s.store.transactions && s.store.transactions[id].status == Prepared
    && SnapshotOf(s.store.files, ignored) == id.source
    && t.store.files == Written(s.store.files, id.candidate, id.targets)
    && id in t.store.transactions
    && t.store.transactions[id].status == Applied
    && t.store.transactions[id].appliedSnapshot == Some(SnapshotOf(t.store.files, ignored))
    && (forall p :: p in id.targets ==>
          Describes(t.store.transactions[id].manifest, t.store.backups, id, s.store.files, p))
  }

  lemma BecomesApplied(s: State, ignored: Ignored, c: Call, id: TransactionId)
    requires s.store.WellFormed()
    requires !IsApplied(s.store, id) && IsApplied(Next(s, ignored, c).state.store, id)
    ensures AppliedBy(s, ignored, c, Next(s, ignored, c).state, id)
    ensures ApplyError(s, ignored, id, c.yolo, c.approves, c.admits).None?
  {
    hide ApplyStep, Next, Written, SnapshotOf, Describes, ApplyError;
    StatusGraph(s, ignored, c, id);
    NextOfApply(s, ignored, c);
    assert c.ApplyCall? && c.id == id;
    AppliedRecord(s.store, ignored, id, c.faults);
  }

  /** `Next` on an application, in terms of the engine's step. */
  lemma NextOfApply(s: State, ignored: Ignored, c: Call)
    ensures c.ApplyCall? ==>
      var t := Next(s, ignored, c).state;
      if ApplyError(s, ignored, c.id, c.yolo, c.approves, c.admits).Some? || c.id !in s.store.transactions then t == s
      else t.store == ApplyStep(s.store, ignored, c.id, c.faults).store
  {
    hide ApplyStep, ApplyError;
  }

  // ----- exact roll-back in every reachable state -----

  /** In every run, a transaction that is APPLIED or VERIFIED was applied by some earlier
      call, and its manifest and backups still describe the files as that call found them. */
  lemma {:induction false} AppliedEarlier(ss: seq<State>, cs: seq<Call>, ignored: Ignored, i: nat, id: TransactionId)
      returns (j: nat)
    requires IsRun(ss, cs, ignored) && i < |ss|
    requires IsApplied(ss[i].store, id)
    ensures j < i && AppliedBy(ss[j], ignored, cs[j], ss[j + 1], id)
    ensures ApplyError(ss[j], ignored, id, cs[j].yolo, cs[j].approves, cs[j].admits).None?
    ensures forall k :: j < k <= i ==> IsApplied(ss[k].store, id)
    ensures SameUndo(ss[j + 1].store, ss[i].store, id)
    decreases i
  {
    hide Next, ApplyError, AppliedBy;
    StoreWellFormed(ss, cs, ignored, i - 1);
    if IsApplied(ss[i - 1].store, id) {
      j := AppliedEarlier(ss, cs, ignored, i - 1, id);
      AppliedStays(ss[i - 1], ignored, cs[i - 1], id);
    } else {
      j := i - 1;
      BecomesApplied(ss[j], ignored, cs[j], id);
    }
  }

  lemma {:induction false} StoreWellFormed(ss: seq<State>, cs: seq<Call>, ignored: Ignored, i: int)
    requires IsRun(ss, cs, ignored) && i < |ss|
    ensures i >= 0 ==> ss[i].store.WellFormed() && OneOpen(ss[i].store)
    decreases i
  {
    hide Next;
    if i > 0 {
      StoreWellFormed(ss, cs, ignored, i - 1);
      NextWellFormed(ss[i - 1], ignored, cs[i - 1]);
      OneOpenStep(ss[i - 1], ignored, cs[i - 1]);
    }
  }

  /** In every reachable state and for every transaction that is APPLIED or VERIFIED there,
      roll-back (no file operation failing) returns every target to the bytes, mode or
      absence the applying call found, however the files were edited since, and leaves every
      other file as it is. */
  lemma RollbackInEveryRun(ss: seq<State>, cs: seq<Call>, ignored: Ignored, i: nat, id: TransactionId,
      restore: RestoreFaults) returns (j: nat)
    requires IsRun(ss, cs, ignored) && i < |ss|
    requires IsApplied(ss[i].store, id)
    requires forall t :: t in id.targets ==> t !in restore
    ensures j < i && AppliedBy(ss[j], ignored, cs[j], ss[j + 1], id)
    ensures var r := Rollback(ss[i], id, restore, false);
      && r.refusal.None?
      && r.state.store.transactions[id].status == RolledBack
      && r.state.store.files == Reverted(ss[i].store.files, ss[j].store.files, set t | t in id.targets)
  {
    hide Next, ApplyError, RollbackStep, Written, SnapshotOf, EntryOf, Reverted;
    StoreWellFormed(ss, cs, ignored, i);
    j := AppliedEarlier(ss, cs, ignored, i, id);
    RollbackExact(ss[i].store, ss[j].store.files, id, restore, false);
  }

  /** In every run the applied snapshot of a transaction is settled by its identifier alone,
      even if it was rolled back, prepared again and applied again in between. */
  lemma AppliedSnapshotSettled(ss: seq<State>, cs: seq<Call>, ignored: Ignored, i: nat, id: TransactionId)
    requires IsRun(ss, cs, ignored) && i < |ss|
    requires IsApplied(ss[i].store, id)
    ensures ss[i].store.transactions[id].appliedSnapshot == Some(AppliedSnapshotOf(id, ignored))
  {
    hide Next, ApplyError, Written, SnapshotOf;
    var j := AppliedEarlier(ss, cs, ignored, i, id);
    var files := ss[j].store.files;
    SnapshotOfItsFiles(files, ignored);
    SnapshotAfterWrite(files, FilesOf(id.source), id.candidate, id.targets, ignored);
  }
}
