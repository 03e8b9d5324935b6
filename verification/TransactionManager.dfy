/** `TransactionManager` as it runs: an object whose fields the methods update, one file and
    one record at a time. Each method is proved equal to the step function of `Transactions`. */
module TransactionManagers {
  import opened Results
  import opened Ordering
  import opened Disk
  import opened Records
  import opened Transactions

  class TransactionManager {
    const ignored: Path -> bool
    var files: Files
    var candidates: Candidates
    var backups: Backups
    var transactions: map<TransactionId, TransactionRecord>

    function View(): Store
      reads this
    {
      Store(files, candidates, backups, transactions)
    }

    ghost predicate Valid()
      reads this
    {
      View().WellFormed()
    }

    constructor (files: Files, ignored: Path -> bool)
      ensures Valid() && View() == Store(files, map[], map[], map[])
      ensures this.ignored == ignored
    {
      this.ignored := ignored;
      this.files := files;
      candidates, backups, transactions := map[], map[], map[];
    }

    /** `_prepare`: stores every candidate under the identifier, then the fresh record. */
    method Prepare(operation: string, contents: map<Path, Bytes>, authority: AuthorityHash) returns (id: TransactionId)
      requires Valid()
      modifies this
      ensures Valid()
      ensures id == IdOf(operation, contents, SnapshotOf(old(files), ignored))
      ensures View() == PrepareStep(old(View()), ignored, operation, contents, authority)
    {
      id := IdOf(operation, contents, SnapshotOf(files, ignored));
      StoreCandidates(id, contents);
      transactions := transactions[id := FreshRecord(id, authority)];
    }

    /** The loop of `_prepare` that writes the candidate directory. */
    method StoreCandidates(id: TransactionId, contents: map<Path, Bytes>)
      modifies this`candidates
      ensures candidates == old(candidates) + CandidateFiles(id, contents)
    {
      hide CandidateFiles;
      var todo := contents.Keys;
      ghost var stored: map<Path, Bytes> := map[];
      NoCandidateFiles(candidates, id);
      while todo != {}
        invariant todo <= contents.Keys && stored.Keys == contents.Keys - todo
        invariant forall p :: p in stored ==> stored[p] == contents[p]
        invariant candidates == old(candidates) + CandidateFiles(id, stored)
      {
        var target :| target in todo;
        CandidateFilesStep(old(candidates), id, stored, target, contents[target]);
        candidates := candidates[(id, target) := contents[target]];
        todo, stored := todo - {target}, stored[target := contents[target]];
      }
      assert stored == contents;
    }

    /** `verify_candidate`: hashes the stored candidates again. */
    method VerifyCandidate(id: TransactionId) returns (error: Option<TransactionError>)
      requires Valid() && id in transactions
      ensures error == CandidateCheck(candidates, id)
    {
      var observed: map<Path, FileHash> := map[];
      var i := 0;
      while i < |id.targets|
        invariant 0 <= i <= |id.targets|
        invariant forall j :: 0 <= j < i ==> (id, id.targets[j]) in candidates
        invariant observed.Keys == set t | t in id.targets[..i]
        invariant forall j :: 0 <= j < i ==> observed[id.targets[j]] == FileHash(candidates[(id, id.targets[j])])
      {
        var target := id.targets[i];
        if (id, target) !in candidates {
          return Some(CandidateArtifactMissing);
        }
        observed := observed[target := FileHash(candidates[(id, target)])];
        i := i + 1;
      }
      assert id.targets[..i] == id.targets;
      ObservedMatches(candidates, id, observed);
      error := if observed == id.candidate.hashes then None else Some(CandidateHashMismatch);
    }

    /** `_restore`: goes through `applied` backwards and stops at the first error. */
    method Restore(id: TransactionId, manifest: map<Path, BackupEntry>, applied: seq<Path>, faults: RestoreFaults)
        returns (error: Option<RestoreError>)
      modifies this`files
      ensures RestoreOutcome(files, error) == RestoreFrom(old(files), manifest, backups, id, Reversed(applied), faults)
    {
      ghost var order := Reversed(applied);
      var i := |applied|;
      while i > 0
        invariant 0 <= i <= |applied|
        invariant RestoreFrom(files, manifest, backups, id, order[|applied| - i..], faults)
               == RestoreFrom(old(files), manifest, backups, id, order, faults)
        invariant backups == old(backups)
      {
        i := i - 1;
        var target := applied[i];
        ghost var rest := order[|applied| - i - 1..];
        assert rest[0] == target && rest[1..] == order[|applied| - i..];
        if target in faults {
          files := PutOrRemove(files, target, faults[target]);
          return Some(RestoreIoError(target));
        }
        if target in manifest && manifest[target].Existed? {
          if (id, target) !in backups {
            return Some(BackupMissing(target));
          }
          files := files[target := File(backups[(id, target)].bytes, manifest[target].mode)];
          if HashOrNone(files, target) != Some(manifest[target].sha) {
            return Some(RollbackHashMismatch(target));
          }
        } else {
          files := files - {target};
        }
      }
      error := None;
    }

    /** `apply`: back up, move the candidate into place and compare, target by target; on the
        first error restore what was noted as applied and raise. */
    method Apply(id: TransactionId, faults: Faults) returns (error: Option<TransactionError>)
      requires Valid() && id in transactions
      modifies this
      ensures Valid()
      ensures Step(View(), error) == ApplyStep(old(View()), ignored, id, faults)
    {
      var record := transactions[id];
      if record.status != Prepared {
        return Some(NotPrepared(record.status));
      }
      if SnapshotOf(files, ignored) != id.source {
        return Some(SourceDrift);
      }
      error := VerifyCandidate(id);
      if error.Some? {
        return;
      }
      ApplyTouchesOnlyTargets(View(), ignored, id, faults);
      error := ApplyChecked(id, faults);
    }

    /** `apply` once its checks passed. */
    method ApplyChecked(id: TransactionId, faults: Faults) returns (error: Option<TransactionError>)
      requires id in transactions && id.WellFormed() && CandidateIntact(candidates, id)
      modifies this
      ensures Step(View(), error) == ApplyTargets(old(View()), ignored, id, faults)
    {
      hide Written, ManifestOf, BackupsOf, HashesOf, RestoreFrom, SnapshotOf;
      var applied, failed := ApplyTargetsInTurn(id, faults);
      if failed.Some? {
        var restoreError := Restore(id, transactions[id].manifest, applied, faults.restore);
        return Some(if restoreError.Some?
          then RestoreFailed(restoreError.value) else StepFailed(failed.value, faults.steps[failed.value]));
      }
      if faults.tail.SnapshotFault? {
        return Some(TailFailed(SnapshotFault));
      }
      transactions := transactions[id := transactions[id].(appliedSnapshot := Some(SnapshotOf(files, ignored)),
          status := Applied)];
      error := if faults.tail.RecordFault? then Some(TailFailed(RecordFault)) else None;
    }

    /** The loop of `apply` over the targets: it returns the targets noted as applied and the
        one whose turn raised, if any. */
    method ApplyTargetsInTurn(id: TransactionId, faults: Faults) returns (applied: seq<Path>, failed: Option<Path>)
      requires id in transactions && id.WellFormed() && CandidateIntact(candidates, id)
      modifies this
      ensures id in transactions
      ensures var k := FirstFault(id.targets, faults.steps);
        if k < |id.targets| then
          && failed == Some(id.targets[k])
          && applied == AppliedSoFar(id, k, faults.steps[id.targets[k]])
          && View() == Midway(old(View()), id, k, faults.steps[id.targets[k]])
        else
          failed.None? && View() == Interrupted(old(View()), id, id.targets, id.targets, id.targets)
    {
      hide Written, ManifestOf, BackupsOf, HashesOf, Interrupted, BackedUp, Moved, Hashed;
      ghost var s := View();
      ghost var ts := id.targets;
      ghost var k := FirstFault(ts, faults.steps);
      applied, failed := [], None;
      var i := 0;
      AfterNone(s, id);
      while i < |id.targets| && failed.None?
        invariant 0 <= i <= k && id in transactions && candidates == s.candidates
        invariant failed.None? ==> applied == ts[..i] && View() == After(s, id, i)
        invariant failed.Some? ==>
          i == k < |ts| && failed.value == ts[k] && applied == AppliedSoFar(id, k, faults.steps[ts[k]])
        invariant failed.Some? ==> View() == Midway(s, id, k, faults.steps[ts[k]])
        decreases |ts| - i, failed.None?
      {
        var target := id.targets[i];
        var fault := if target in faults.steps then Some(faults.steps[target]) else None;
        assert ts[..i + 1] == ts[..i] + [target];
        TurnContinues(s, id, i, fault);
        TurnKeeps(View(), id, target, fault);
        var noted := ApplyOne(id, target, fault);
        if noted {
          applied := applied + [target];
        }
        if fault.Some? {
          failed := Some(target);
        } else {
          i := i + 1;
        }
      }
      assert failed.None? ==> View() == Interrupted(s, id, ts, ts, ts) by {
        assert ts[..|ts|] == ts;
        AfterIs(s, id, |ts|);
      }
    }

    /** One turn of that loop; `noted` tells whether the target was appended to `applied`. */
    method ApplyOne(id: TransactionId, target: Path, fault: Option<Fault>) returns (noted: bool)
      requires id in transactions && target in id.candidate.hashes
      requires (id, target) in candidates && FileHash(candidates[(id, target)]) == id.candidate.hashes[target]
      modifies this
      ensures View() == Turn(old(View()), id, target, fault)
      ensures noted <==> fault.None? || fault.value.VerifyFault?
    {
      noted := false;
      if fault == Some(BackupFault) {
        return;
      }
      var metadata := EntryOf(files, target);
      if metadata.Existed? {
        backups := backups[(id, target) := files[target]];
      }
      var record := transactions[id];
      transactions := transactions[id := record.(manifest := record.manifest[target := metadata])];
      if fault == Some(StageFault) {
        return;
      }
      var mode := if metadata.Existed? then metadata.mode else NEW_FILE_MODE;
      files := files[target := File(candidates[(id, target)], mode)];
      if fault == Some(CleanupFault) {
        return;
      }
      noted := true;
      if fault == Some(VerifyFault) {
        return;
      }
      record := transactions[id];
      var hashes := record.appliedHashes[target := FileHash(files[target].bytes)];
      transactions := transactions[id := record.(appliedHashes := hashes)];
    }

    /** `verify_applied` */
    method VerifyApplied(id: TransactionId) returns (error: Option<TransactionError>)
      requires id in transactions
      ensures error == VerifyAppliedError(View(), ignored, id)
    {
      var record := transactions[id];
      if record.status != Applied && record.status != Verified {
        return Some(NotApplied(record.status));
      }
      var todo := record.appliedHashes.Keys;
      while todo != {}
        invariant todo <= record.appliedHashes.Keys
        invariant forall t :: t in record.appliedHashes && t !in todo ==>
          HashOrNone(files, t) == Some(record.appliedHashes[t])
      {
        var target :| target in todo;
        if HashOrNone(files, target) != Some(record.appliedHashes[target]) {
          return Some(AppliedTargetMismatch);
        }
        todo := todo - {target};
      }
      if record.appliedSnapshot.Some? && SnapshotOf(files, ignored) != record.appliedSnapshot.value {
        return Some(WorkspaceChanged);
      }
      error := None;
    }

    method Finalize(id: TransactionId, evidenceIds: seq<EvidenceId>, recordFails: bool)
        returns (error: Option<TransactionError>)
      requires Valid() && id in transactions
      modifies this`transactions
      ensures Valid()
      ensures Step(View(), error) == FinalizeStep(old(View()), id, evidenceIds, recordFails)
    {
      var record := transactions[id];
      if record.status != Applied {
        return Some(NotApplied(record.status));
      }
      var unique: seq<EvidenceId> := [];
      for i := 0 to |evidenceIds|
        invariant unique == FirstOccurrences(evidenceIds[..i])
        invariant transactions == old(transactions)
      {
        assert evidenceIds[..i + 1][..i] == evidenceIds[..i];
        if evidenceIds[i] !in unique {
          unique := unique + [evidenceIds[i]];
        }
      }
      assert evidenceIds[..|evidenceIds|] == evidenceIds;
      transactions := transactions[id := record.(evidenceIds := unique, status := Verified)];
      error := if recordFails then Some(TailFailed(RecordFault)) else None;
    }

    method Rollback(id: TransactionId, restore: RestoreFaults, recordFails: bool)
      returns (error: Option<TransactionError>)
      requires Valid() && id in transactions
      modifies this
      ensures Valid()
      ensures Step(View(), error) == RollbackStep(old(View()), id, restore, recordFails)
    {
      var record := transactions[id];
      if record.status != Applied && record.status != Verified {
        return Some(CannotRollBack(record.status));
      }
      var restoreError := Restore(id, record.manifest, id.targets, restore);
      if restoreError.Some? {
        return Some(RestoreFailed(restoreError.value));
      }
      transactions := transactions[id := record.(status := RolledBack)];
      error := if recordFails then Some(TailFailed(RecordFault)) else None;
    }

    method Discard(id: TransactionId, recordFails: bool) returns (error: Option<TransactionError>)
      requires Valid() && id in transactions
      modifies this`transactions
      ensures Valid()
      ensures Step(View(), error) == DiscardStep(old(View()), id, recordFails)
    {
      var record := transactions[id];
      if record.status != Prepared {
        return Some(CannotDiscard(record.status));
      }
      transactions := transactions[id := record.(status := Discarded)];
      error := if recordFails then Some(TailFailed(RecordFault)) else None;
    }
  }

  // ----- one turn of the loop in `Apply` -----

  /** Comparing the whole dictionary of observed hashes compares every target's. */
  lemma ObservedMatches(candidates: Candidates, id: TransactionId, observed: map<Path, FileHash>)
    requires id.WellFormed()
    requires observed.Keys == set t | t in id.targets
    requires forall t :: t in id.targets ==> (id, t) in candidates && observed[t] == FileHash(candidates[(id, t)])
    ensures observed == id.candidate.hashes <==> CandidateIntact(candidates, id)
  {
    assert observed.Keys == id.candidate.hashes.Keys;
    if CandidateIntact(candidates, id) {
      assert forall t :: t in observed ==> t in id.targets && observed[t] == id.candidate.hashes[t];
    } else {
      var t :| t in id.targets && FileHash(candidates[(id, t)]) != id.candidate.hashes[t];
    }
  }

  lemma AfterIs(s: Store, id: TransactionId, k: nat)
    requires id in s.transactions && k <= |id.targets|
    ensures After(s, id, k) == Interrupted(s, id, id.targets[..k], id.targets[..k], id.targets[..k])
  {
  }

  lemma AfterNone(s: Store, id: TransactionId)
    requires id in s.transactions
    ensures After(s, id, 0) == s
  {
    hide Written, ManifestOf, BackupsOf, HashesOf;
    var r := s.transactions[id];
    NothingAdded(s.files, s.backups, r, id);
    assert id.targets[..0] == [];
    assert s.transactions[id := r] == s.transactions;
  }

  lemma NothingAdded(files: Files, backups: Backups, r: TransactionRecord, id: TransactionId)
    ensures r.manifest + ManifestOf(files, []) == r.manifest
    ensures r.appliedHashes + HashesOf(id.candidate, []) == r.appliedHashes
    ensures Written(files, id.candidate, []) == files
    ensures backups + BackupsOf(files, id, []) == backups
  {
  }

  function BackedUp(v: Store, id: TransactionId, t: Path): Store
    requires id in v.transactions
  {
    var r := v.transactions[id];
    v.(backups := if t in v.files then v.backups[(id, t) := v.files[t]] else v.backups,
       transactions := v.transactions[id := r.(manifest := r.manifest[t := EntryOf(v.files, t)])])
  }

  function Moved(v: Store, id: TransactionId, t: Path): Store
    requires t in id.candidate.hashes
  {
    v.(files := v.files[t := File(id.candidate.hashes[t].bytes, ModeAfter(v.files, t))])
  }

  function Hashed(v: Store, id: TransactionId, t: Path): Store
    requires id in v.transactions && t in id.candidate.hashes
  {
    var r := v.transactions[id];
    v.(transactions := v.transactions[id := r.(appliedHashes := r.appliedHashes[t := id.candidate.hashes[t]])])
  }

  /** The effect of one turn of the loop, up to the point where `fault` stops it. */
  function Turn(v: Store, id: TransactionId, t: Path, fault: Option<Fault>): Store
    requires id in v.transactions && t in id.candidate.hashes
  {
    match fault
    case None => Hashed(Moved(BackedUp(v, id, t), id, t), id, t)
    case Some(BackupFault) => v
    case Some(StageFault) => BackedUp(v, id, t)
    case Some(CleanupFault) => Moved(BackedUp(v, id, t), id, t)
    case Some(VerifyFault) => Moved(BackedUp(v, id, t), id, t)
  }

  /** A turn takes the state after k targets to the state after k + 1, or to where its fault leaves it. */
  lemma TurnContinues(s: Store, id: TransactionId, k: nat, fault: Option<Fault>)
    requires id in s.transactions && id.WellFormed() && k < |id.targets|
    ensures Turn(After(s, id, k), id, id.targets[k], fault) ==
      if fault.Some? then Midway(s, id, k, fault.value) else After(s, id, k + 1)
  {
    hide Written, ManifestOf, BackupsOf, HashesOf;
    var t, done, next := id.targets[k], id.targets[..k], id.targets[..k + 1];
    assert next == done + [t];
    TurnBacksUp(s, id, done, t);
    TurnMoves(s, id, next, done, t);
    TurnHashes(s, id, next, next, done, t);
    TurnInStages(After(s, id, k), Interrupted(s, id, next, done, done), Interrupted(s, id, next, next, done),
        After(s, id, k + 1), id, t, fault);
  }

  lemma TurnKeeps(v: Store, id: TransactionId, t: Path, fault: Option<Fault>)
    requires id in v.transactions && t in id.candidate.hashes
    ensures Turn(v, id, t, fault).candidates == v.candidates && id in Turn(v, id, t, fault).transactions
  {
  }

  lemma TurnInStages(v: Store, backedUp: Store, moved: Store, hashed: Store, id: TransactionId, t: Path,
      fault: Option<Fault>)
    requires id in v.transactions && id in moved.transactions && t in id.candidate.hashes
    requires BackedUp(v, id, t) == backedUp && Moved(backedUp, id, t) == moved && Hashed(moved, id, t) == hashed
    ensures Turn(v, id, t, fault) ==
      if fault.None?
        then hashed else if fault.value.BackupFault? then v else if fault.value.StageFault? then backedUp else moved
  {
  }

  lemma TurnBacksUp(s: Store, id: TransactionId, ts: seq<Path>, t: Path)
    requires id in s.transactions && t in id.candidate.hashes && t !in ts
    ensures BackedUp(Interrupted(s, id, ts, ts, ts), id, t) == Interrupted(s, id, ts + [t], ts, ts)
  {
    var v, w := Interrupted(s, id, ts, ts, ts), BackedUp(Interrupted(s, id, ts, ts, ts), id, t);
    var next := Interrupted(s, id, ts + [t], ts, ts);
    WrittenStep(s.files, id.candidate, ts, t);
    assert EntryOf(v.files, t) == EntryOf(s.files, t);
    ManifestStep(s, id, ts, t);
    BackupsStep(s, id, ts, t);
    assert w.backups == next.backups;
    assert w.transactions[id] == next.transactions[id];
    UpdateTwice(s.transactions, id, v.transactions[id], next.transactions[id]);
  }

  lemma TurnMoves(s: Store, id: TransactionId, seen: seq<Path>, ts: seq<Path>, t: Path)
    requires id in s.transactions && t in id.candidate.hashes && t !in ts
    ensures Moved(Interrupted(s, id, seen, ts, ts), id, t) == Interrupted(s, id, seen, ts + [t], ts)
  {
    WrittenStep(s.files, id.candidate, ts, t);
  }

  lemma TurnHashes(s: Store, id: TransactionId, seen: seq<Path>, moved: seq<Path>, ts: seq<Path>, t: Path)
    requires id in s.transactions && t in id.candidate.hashes && t !in ts
    ensures Hashed(Interrupted(s, id, seen, moved, ts), id, t) == Interrupted(s, id, seen, moved, ts + [t])
  {
    var v, next := Interrupted(s, id, seen, moved, ts), Interrupted(s, id, seen, moved, ts + [t]);
    ManifestStep(s, id, ts, t);
    assert Hashed(v, id, t).transactions[id] == next.transactions[id];
    UpdateTwice(s.transactions, id, v.transactions[id], next.transactions[id]);
  }

  lemma UpdateTwice<K, V>(m: map<K, V>, k: K, v: V, w: V)
    ensures m[k := v][k := w] == m[k := w]
  {
  }

  lemma WrittenStep(files: Files, candidate: CandidateHash, ts: seq<Path>, t: Path)
    requires t in candidate.hashes && t !in ts
    ensures var now := Written(files, candidate, ts);
      && EntryOf(now, t) == EntryOf(files, t)
      && (t in now <==> t in files) && (t in files ==> now[t] == files[t])
      && Written(files, candidate, ts + [t]) == now[t := File(candidate.hashes[t].bytes, ModeAfter(now, t))]
  {
    var now, next := Written(files, candidate, ts), Written(files, candidate, ts + [t]);
    assert next.Keys == now.Keys + {t};
  }

  lemma ManifestStep(s: Store, id: TransactionId, ts: seq<Path>, t: Path)
    requires id in s.transactions && t !in ts
    requires t in id.candidate.hashes
    ensures var r := s.transactions[id];
      && r.manifest + ManifestOf(s.files, ts + [t]) == (r.manifest + ManifestOf(s.files, ts))[t := EntryOf(s.files, t)]
      && r.appliedHashes + HashesOf(id.candidate, ts + [t]) ==
         (r.appliedHashes + HashesOf(id.candidate, ts))[t := id.candidate.hashes[t]]
  {
    hide BackupsOf, Written;
    assert ManifestOf(s.files, ts + [t]) == ManifestOf(s.files, ts)[t := EntryOf(s.files, t)];
    assert HashesOf(id.candidate, ts + [t]) == HashesOf(id.candidate, ts)[t := id.candidate.hashes[t]];
  }

  lemma BackupsStep(s: Store, id: TransactionId, ts: seq<Path>, t: Path)
    requires t !in ts
    ensures s.backups + BackupsOf(s.files, id, ts + [t]) ==
      if t in s.files then (s.backups
        + BackupsOf(s.files, id, ts))[(id, t) := s.files[t]] else s.backups + BackupsOf(s.files, id, ts)
  {
    var more, less := BackupsOf(s.files, id, ts + [t]), BackupsOf(s.files, id, ts);
    if t in s.files {
      assert more.Keys == less.Keys + {(id, t)};
      assert more == less[(id, t) := s.files[t]];
    } else {
      assert more.Keys == less.Keys;
    }
  }

  lemma NoCandidateFiles(before: Candidates, id: TransactionId)
    ensures before + CandidateFiles(id, map[]) == before
  {
  }

  lemma CandidateFilesStep(before: Candidates, id: TransactionId, stored: map<Path, Bytes>, target: Path,
      content: Bytes)
    ensures before + CandidateFiles(id, stored[target := content]) ==
      (before + CandidateFiles(id, stored))[(id, target) := content]
  {
    var more, less := CandidateFiles(id, stored[target := content]), CandidateFiles(id, stored);
    assert more.Keys == less.Keys + {(id, target)};
    assert more == less[(id, target) := content];
  }
}
