/** The transaction engine (`TransactionManager`): content-addressed preparation, file by
    file application with backups, restoration after a failure, verification, roll-back.

    `Apply` and the other methods change the manager's fields step by step; each is proved
    equal to a function on the `Store` value, and the promises of the engine are proved of
    those functions. */
module Transactions {
  import opened Results
  import opened Ordering
  import opened Disk
  import opened Records

  type Candidates = map<(TransactionId, Path), Bytes>

  /** The workspace files, the candidate and backup directories, and the records. */
  datatype Store = Store(files: Files, candidates: Candidates, backups: Backups,
      transactions: map<TransactionId, TransactionRecord>) {
    ghost predicate WellFormed() {
      forall id :: id in transactions ==> id.WellFormed() && transactions[id].id == id
    }
  }

  /** Where the work on one target can fail: before its backup is complete; after that but
      before the candidate is moved into place; while looking for the temporary file after
      the move; or while comparing the written file with the candidate. */
  datatype Fault = BackupFault | StageFault | CleanupFault | VerifyFault

  /** After the last target, reading the new snapshot or writing the record file can fail. */
  datatype TailFault = NoTailFault | SnapshotFault | RecordFault

  datatype Faults = Faults(steps: map<Path, Fault>, tail: TailFault, restore: RestoreFaults)

  datatype TransactionError =
    | NotPrepared(status: Status)
    | SourceDrift
    | CandidateArtifactMissing
    | CandidateHashMismatch
    | StepFailed(at: Path, fault: Fault)
    | TailFailed(tail: TailFault)
    | RestoreFailed(cause: RestoreError)
    | NotApplied(status: Status)
    | AppliedTargetMismatch
    | WorkspaceChanged
    | CannotRollBack(status: Status)
    | CannotDiscard(status: Status)

  datatype Step = Step(store: Store, error: Option<TransactionError>)

  // ----- preparation -----

  function IdOf(operation: string, candidates: map<Path, Bytes>, source: SnapshotHash): (id: TransactionId)
    ensures id.WellFormed() && id.operation == operation && id.source == source
    ensures Ascending(id.targets) && forall p :: p in id.targets <==> p in candidates
    ensures forall p :: p in candidates ==> id.candidate.hashes[p] == FileHash(candidates[p])
  {
    var hashes := map p | p in candidates :: FileHash(candidates[p]);
    assert hashes.Keys == candidates.Keys;
    assert forall t :: t in Sorted(candidates.Keys) <==> t in set x | x in Sorted(candidates.Keys);
    TransactionId(operation, Sorted(candidates.Keys), source, CandidateHash(hashes))
  }

  /** Two preparations get the same identifier exactly when they agree on the operation, on
      every target and its content, and on the source snapshot. */
  lemma SameIdExactlyWhen(o: string, a: map<Path, Bytes>, s: SnapshotHash, p: string, b: map<Path, Bytes>,
      t: SnapshotHash)
    ensures IdOf(o, a, s) == IdOf(p, b, t) <==> o == p && a == b && s == t
  {
    hide IdOf, Sorted, Ascending;
    var x, y := IdOf(o, a, s), IdOf(p, b, t);
    if x == y {
      assert a.Keys == b.Keys by { assert forall k :: k in a <==> k in x.targets; }
      assert forall k :: k in a ==> FileHash(a[k]) == FileHash(b[k]);
    }
  }

  function FreshRecord(id: TransactionId, authority: AuthorityHash): TransactionRecord {
    TransactionRecord(id, authority, Prepared, None, map[], None, map[], [])
  }

  function CandidateFiles(id: TransactionId, candidates: map<Path, Bytes>): Candidates {
    map k: (TransactionId, Path) | k in (set p | p in candidates :: (id, p)) :: candidates[k.1]
  }

  function PrepareStep(s: Store, ignored: Path -> bool, operation: string, candidates: map<Path, Bytes>,
      authority: AuthorityHash): Store {
    var id := IdOf(operation, candidates, SnapshotOf(s.files, ignored));
    s.(candidates := s.candidates + CandidateFiles(id, candidates),
       transactions := s.transactions[id := FreshRecord(id, authority)])
  }

  // ----- application -----

  /** The stored candidate of every target hashes to what the identifier says. */
  predicate CandidateIntact(candidates: Candidates, id: TransactionId) {
    forall t :: t in id.targets ==>
      (id, t) in candidates && t in id.candidate.hashes && FileHash(candidates[(id, t)]) == id.candidate.hashes[t]
  }

  function CandidateCheck(candidates: Candidates, id: TransactionId): Option<TransactionError> {
    if exists t :: t in id.targets && (id, t) !in candidates then Some(CandidateArtifactMissing)
    else if CandidateIntact(candidates, id) then None
    else Some(CandidateHashMismatch)
  }

  /** The index of the first target whose turn fails, or the number of targets. */
  function FirstFault(targets: seq<Path>, steps: map<Path, Fault>): (k: nat)
    ensures k <= |targets|
    ensures forall j :: 0 <= j < k ==> targets[j] !in steps
    ensures k < |targets| ==> targets[k] in steps
  {
    if targets == [] || targets[0] in steps then 0 else 1 + FirstFault(targets[1..], steps)
  }

  /** The prefix of the targets up to k, with the k-th included when `upTo` says so. */
  function Prefix(targets: seq<Path>, k: nat, included: bool): (r: seq<Path>)
    requires k <= |targets| && (included ==> k < |targets|)
    ensures forall t :: t in r ==> t in targets
  {
    if included then targets[..k + 1] else targets[..k]
  }

  /** The state when the loop over the targets stops at k (k == |targets| when none failed):
      `seen` targets are in the manifest, `moved` ones hold their candidate, `hashed` ones
      were compared. */
  function Interrupted(s: Store, id: TransactionId, seen: seq<Path>, moved: seq<Path>, hashed: seq<Path>): Store
    requires id in s.transactions
  {
    var r := s.transactions[id];
    s.(files := Written(s.files, id.candidate, moved),
       backups := s.backups + BackupsOf(s.files, id, seen),
       transactions := s.transactions[id := r.(manifest := r.manifest + ManifestOf(s.files, seen),
                                               appliedHashes := r.appliedHashes + HashesOf(id.candidate, hashed))])
  }

  /** The state after the turns of the first k targets. */
  function After(s: Store, id: TransactionId, k: nat): Store
    requires id in s.transactions && k <= |id.targets|
  {
    Interrupted(s, id, id.targets[..k], id.targets[..k], id.targets[..k])
  }

  /** The state when the turn of the k-th target raised `fault`, before the handler runs. */
  function Midway(s: Store, id: TransactionId, k: nat, fault: Fault): Store
    requires id in s.transactions && k < |id.targets|
  {
    Interrupted(s, id,
                Prefix(id.targets, k, !fault.BackupFault?),
                Prefix(id.targets, k, fault.CleanupFault? || fault.VerifyFault?),
                id.targets[..k])
  }

  /** The targets noted as applied when the turn of the k-th one raised `fault`. */
  function AppliedSoFar(id: TransactionId, k: nat, fault: Fault): (r: seq<Path>)
    requires k < |id.targets|
    ensures r == id.targets[..if fault.VerifyFault? then k + 1 else k]
    ensures forall t :: t in r ==> t in id.targets
  {
    Prefix(id.targets, k, fault.VerifyFault?)
  }

  function WithFiles(s: Store, id: TransactionId, out: RestoreOutcome, otherwise: TransactionError): Step {
    Step(s.(files := out.files), Some(if out.error.Some? then RestoreFailed(out.error.value) else otherwise))
  }

  /** What the loop over the targets, its exception handler and the steps after it do. */
  function ApplyTargets(s: Store, ignored: Path -> bool, id: TransactionId, faults: Faults): Step
    requires id in s.transactions
  {
    var ts := id.targets;
    var k := FirstFault(ts, faults.steps);
    if k < |ts| then
      var fault := faults.steps[ts[k]];
      var mid := Midway(s, id, k, fault);
      var out := RestoreFrom(mid.files, mid.transactions[id].manifest, mid.backups, id,
          Reversed(AppliedSoFar(id, k, fault)), faults.restore);
      WithFiles(mid, id, out, StepFailed(ts[k], fault))
    else
      var done := Interrupted(s, id, ts, ts, ts);
      if faults.tail.SnapshotFault? then Step(done, Some(TailFailed(SnapshotFault)))
      else
        var r := done.transactions[id];
        var applied := done.(transactions := done.transactions[id := r.(status := Applied,
            appliedSnapshot := Some(SnapshotOf(done.files, ignored)))]);
        Step(applied, if faults.tail.RecordFault? then Some(TailFailed(RecordFault)) else None)
  }

  function ApplyStep(s: Store, ignored: Path -> bool, id: TransactionId, faults: Faults): Step
    requires id in s.transactions
  {
    var r := s.transactions[id];
    if r.status != Prepared then Step(s, Some(NotPrepared(r.status)))
    else if SnapshotOf(s.files, ignored) != id.source then Step(s, Some(SourceDrift))
    else if CandidateCheck(s.candidates, id).Some? then Step(s, CandidateCheck(s.candidates, id))
    else ApplyTargets(s, ignored, id, faults)
  }

  // ----- verification, roll-back, discarding -----

  function VerifyAppliedError(s: Store, ignored: Path -> bool, id: TransactionId): Option<TransactionError>
    requires id in s.transactions
  {
    var r := s.transactions[id];
    if r.status != Applied && r.status != Verified then Some(NotApplied(r.status))
    else if exists t :: t in r.appliedHashes && HashOrNone(s.files, t) != Some(r.appliedHashes[t])
      then Some(AppliedTargetMismatch)
    else if r.appliedSnapshot.Some? && SnapshotOf(s.files, ignored) != r.appliedSnapshot.value
      then Some(WorkspaceChanged)
    else None
  }

  /** The status a record moves to, and whether writing the record file then raised. */
  function WithStatus(s: Store, id: TransactionId, status: Status, recordFails: bool): Step
    requires id in s.transactions
  {
    Step(s.(transactions := s.transactions[id := s.transactions[id].(status := status)]),
         if recordFails then Some(TailFailed(RecordFault)) else None)
  }

  function RollbackStep(s: Store, id: TransactionId, restore: RestoreFaults, recordFails: bool): Step
    requires id in s.transactions
  {
    var r := s.transactions[id];
    if r.status != Applied && r.status != Verified then Step(s, Some(CannotRollBack(r.status)))
    else
      var out := RestoreFrom(s.files, r.manifest, s.backups, id, Reversed(id.targets), restore);
      if out.error.Some? then Step(s.(files := out.files), Some(RestoreFailed(out.error.value)))
      else WithStatus(s.(files := out.files), id, RolledBack, recordFails)
  }

  function DiscardStep(s: Store, id: TransactionId, recordFails: bool): Step
    requires id in s.transactions
  {
    var r := s.transactions[id];
    if r.status != Prepared then Step(s, Some(CannotDiscard(r.status)))
    else WithStatus(s, id, Discarded, recordFails)
  }

  function FinalizeStep(s: Store, id: TransactionId, evidenceIds: seq<EvidenceId>, recordFails: bool): Step
    requires id in s.transactions
  {
    var r := s.transactions[id];
    if r.status != Applied then Step(s, Some(NotApplied(r.status)))
    else WithStatus(s.(transactions := s.transactions[id := r.(evidenceIds := FirstOccurrences(evidenceIds))]), id,
        Verified, recordFails)
  }

  // ===== what the engine promises =====

  /** Only the record and the backups of `id` differ between the two stores. */
  ghost predicate OnlyOwnRecord(a: Store, b: Store, id: TransactionId) {
    && b.candidates == a.candidates
    && b.transactions.Keys == a.transactions.Keys
    && (forall other :: other in a.transactions && other != id ==> b.transactions[other] == a.transactions[other])
    && (forall k: (TransactionId, Path) :: k.0 != id ==>
          (k in b.backups <==> k in a.backups) && (k in a.backups ==> b.backups[k] == a.backups[k]))
  }

  lemma InterruptedTouches(s: Store, id: TransactionId, seen: seq<Path>, moved: seq<Path>, hashed: seq<Path>)
    requires id in s.transactions
    ensures OnlyOwnRecord(s, Interrupted(s, id, seen, moved, hashed), id)
    ensures SameOutside(Interrupted(s, id, seen, moved, hashed).files, s.files, moved)
  {
    forall k | k in BackupsOf(s.files, id, seen) ensures k.0 == id {}
  }

  /** No application touches a path that is not a target, another record or another
      transaction's backups, whatever fails on the way. */
  lemma ApplyTouchesOnlyTargets(s: Store, ignored: Path -> bool, id: TransactionId, faults: Faults)
    requires id in s.transactions && id.WellFormed()
    ensures SameOutside(ApplyStep(s, ignored, id, faults).store.files, s.files, id.targets)
    ensures OnlyOwnRecord(s, ApplyStep(s, ignored, id, faults).store, id)
  {
    var r := s.transactions[id];
    if r.status == Prepared && SnapshotOf(s.files, ignored) == id.source && CandidateCheck(s.candidates, id).None? {
      ApplyTargetsTouches(s, ignored, id, faults);
    }
  }

  lemma ApplyTargetsTouches(s: Store, ignored: Path -> bool, id: TransactionId, faults: Faults)
    requires id in s.transactions && id.WellFormed()
    ensures SameOutside(ApplyTargets(s, ignored, id, faults).store.files, s.files, id.targets)
    ensures OnlyOwnRecord(s, ApplyTargets(s, ignored, id, faults).store, id)
  {
    hide Written, ManifestOf, BackupsOf, HashesOf, Midway, RestoreFrom, SameOutside, SnapshotOf, AppliedSoFar;
    var ts, k := id.targets, FirstFault(id.targets, faults.steps);
    if k < |ts| {
      MidwayTouches(s, id, k, faults.steps[ts[k]], faults.restore);
    } else {
      InterruptedTouches(s, id, ts, ts, ts);
    }
  }

  lemma MidwayTouches(s: Store, id: TransactionId, k: nat, fault: Fault, restore: RestoreFaults)
    requires id in s.transactions && id.WellFormed() && k < |id.targets|
    ensures var mid := Midway(s, id, k, fault);
      && OnlyOwnRecord(s, mid, id)
      && SameOutside(RestoreFrom(mid.files, mid.transactions[id].manifest, mid.backups, id,
          Reversed(AppliedSoFar(id, k, fault)), restore).files, s.files, id.targets)
  {
    var ts, mid := id.targets, Midway(s, id, k, fault);
    var seen, moved := Prefix(ts, k, !fault.BackupFault?), Prefix(ts, k, fault.CleanupFault? || fault.VerifyFault?);
    InterruptedTouches(s, id, seen, moved, ts[..k]);
    var order := Reversed(AppliedSoFar(id, k, fault));
    RestoreTouchesOnlyListed(mid.files, mid.transactions[id].manifest, mid.backups, id, order, restore);
    assert forall p :: p !in ts ==> p !in moved && p !in order;
  }

  /** The manifest and backups left by an interrupted run describe the files it started from. */
  lemma InterruptedDescribes(s: Store, id: TransactionId, seen: seq<Path>, moved: seq<Path>, hashed: seq<Path>)
    requires id in s.transactions
    ensures var mid := Interrupted(s, id, seen, moved, hashed);
      forall t :: t in seen ==> Describes(mid.transactions[id].manifest, mid.backups, id, s.files, t)
  {
    var mid := Interrupted(s, id, seen, moved, hashed);
    forall t | t in seen ensures Describes(mid.transactions[id].manifest, mid.backups, id, s.files, t) {
      if t in s.files {
        assert (id, t) in BackupsOf(s.files, id, seen);
      }
    }
  }

  /** An interrupted application leaves the file map it started from, except that a fault
      between moving a candidate into place and noting it as applied leaves that one target
      holding its candidate. */
  lemma InterruptedApplyFiles(s: Store, ignored: Path -> bool, id: TransactionId, faults: Faults)
    requires id in s.transactions && id.WellFormed()
    requires FirstFault(id.targets, faults.steps) < |id.targets|
    requires forall t :: t in id.targets ==> t !in faults.restore
    ensures var k := FirstFault(id.targets, faults.steps);
      var t, fault := id.targets[k], faults.steps[id.targets[k]];
      var step := ApplyTargets(s, ignored, id, faults);
      && step.error == Some(StepFailed(t, fault))
      && step.store.files == (if fault.CleanupFault? then Written(s.files, id.candidate, [t]) else s.files)
  {
    var k := FirstFault(id.targets, faults.steps);
    var fault := faults.steps[id.targets[k]];
    var mid, applied := Midway(s, id, k, fault), AppliedSoFar(id, k, fault);
    MidwayDescribes(s, id, k, fault);
    RestoreExact(mid.files, s.files, mid.transactions[id].manifest, mid.backups, id, Reversed(applied), faults.restore);
    MidwayUndone(s, id, k, fault);
  }

  lemma MidwayDescribes(s: Store, id: TransactionId, k: nat, fault: Fault)
    requires id in s.transactions && id.WellFormed() && k < |id.targets|
    ensures var mid := Midway(s, id, k, fault);
      forall t :: t in Reversed(AppliedSoFar(id, k, fault)) ==>
        Describes(mid.transactions[id].manifest, mid.backups, id, s.files, t)
  {
    var ts := id.targets;
    InterruptedDescribes(s, id, Prefix(ts, k, !fault.BackupFault?),
        Prefix(ts, k, fault.CleanupFault? || fault.VerifyFault?), ts[..k]);
    assert forall t :: t in ts[..k] ==> t in ts[..k + 1];
  }

  lemma MidwayUndone(s: Store, id: TransactionId, k: nat, fault: Fault)
    requires id in s.transactions && id.WellFormed() && k < |id.targets|
    ensures Reverted(Midway(s, id, k, fault).files, s.files, set t | t in Reversed(AppliedSoFar(id, k, fault))) ==
      if fault.CleanupFault? then Written(s.files, id.candidate, [id.targets[k]]) else s.files
  {
    hide Written, ManifestOf, BackupsOf, HashesOf, Reverted, Interrupted;
    var applied := AppliedSoFar(id, k, fault);
    MidwayFiles(s, id, k, fault);
    SameMembers(applied);
    if fault.CleanupFault? {
      LeftOver(s.files, id.candidate, id.targets, k);
    } else {
      UndoOfWrite(s.files, id.candidate, applied, set t | t in applied);
    }
  }

  lemma SameMembers(ts: seq<Path>)
    ensures (set t | t in Reversed(ts)) == set t | t in ts
  {
  }

  lemma MidwayFiles(s: Store, id: TransactionId, k: nat, fault: Fault)
    requires id in s.transactions && k < |id.targets|
    ensures Midway(s, id, k, fault).files ==
      Written(s.files, id.candidate, if fault.CleanupFault? then id.targets[..k + 1] else AppliedSoFar(id, k, fault))
  {
    hide Written, ManifestOf, BackupsOf, HashesOf;
  }

  lemma LeftOver(files: Files, candidate: CandidateHash, ts: seq<Path>, k: nat)
    requires k < |ts| && Distinct(ts)
    requires forall t :: t in ts ==> t in candidate.hashes
    ensures Reverted(Written(files, candidate, ts[..k + 1]), files, set t | t in ts[..k]) ==
      Written(files, candidate, [ts[k]])
  {
    var done := set t | t in ts[..k];
    var left, right := Reverted(Written(files, candidate, ts[..k + 1]), files, done), Written(files, candidate,
        [ts[k]]);
    assert ts[..k + 1] == ts[..k] + [ts[k]];
    assert ts[k] !in done;
    assert forall p :: p in left <==> p in right;
    assert forall p :: p in left ==> left[p] == right[p];
  }

  /** The promise of `apply`, for every set of targets and every point of failure: either it
      returns, the transaction is APPLIED, every target holds its candidate bytes (keeping
      the mode it had) and no other file changed; or it raises, the transaction is still
      PREPARED and the whole file map is what it was. The two exceptions are exact: a fault
      between `os.replace` and the note of it, and a fault after the last target. */
  lemma ApplyAllOrNothing(s: Store, ignored: Path -> bool, id: TransactionId, faults: Faults)
    requires id in s.transactions && id.WellFormed()
    requires forall t :: t in id.targets ==> t !in faults.restore
    requires forall t :: t in id.targets && t in faults.steps ==> !faults.steps[t].CleanupFault?
    requires faults.tail == NoTailFault
    ensures var step := ApplyStep(s, ignored, id, faults);
      if step.error.None? then
        && s.transactions[id].status == Prepared
        && step.store.transactions[id].status == Applied
        && (forall t :: t in id.targets ==>
              (&& t in step.store.files
               && FileHash(step.store.files[t].bytes) == id.candidate.hashes[t]
               && step.store.files[t].mode == (if t in s.files then s.files[t].mode else NEW_FILE_MODE)))
        && SameOutside(step.store.files, s.files, id.targets)
      else
        step.store.files == s.files && step.store.transactions[id].status == s.transactions[id].status
  {
    hide Written, ManifestOf, BackupsOf, HashesOf, Midway, RestoreFrom, SameOutside, SnapshotOf, AppliedSoFar;
    if ApplyStep(s, ignored, id, faults).store != s {
      assert ApplyStep(s, ignored, id, faults) == ApplyTargets(s, ignored, id, faults);
      AppliedStatus(s, ignored, id, faults);
      if FirstFault(id.targets, faults.steps) < |id.targets| {
        InterruptedApplyFiles(s, ignored, id, faults);
      } else {
        assert ApplyTargets(s, ignored, id, faults).store.files == Written(s.files, id.candidate, id.targets);
        WrittenIs(s.files, id.candidate, id.targets);
      }
    }
  }

  lemma WrittenIs(files: Files, candidate: CandidateHash, ts: seq<Path>)
    requires forall t :: t in ts ==> t in candidate.hashes
    ensures var w := Written(files, candidate, ts);
      && SameOutside(w, files, ts)
      && forall t :: t in ts ==> t in w && w[t] == File(candidate.hashes[t].bytes, ModeAfter(files, t))
  {
  }

  /** The files are wrong after an error exactly when a clean-up fault left a target that
      differs from its candidate, or everything was written and only the tail failed. */
  lemma ApplyLeavesFilesExactlyWhen(s: Store, ignored: Path -> bool, id: TransactionId, faults: Faults)
    requires id in s.transactions && id.WellFormed()
    requires forall t :: t in id.targets ==> t !in faults.restore
    requires ApplyStep(s, ignored, id, faults).error.Some?
    ensures var k := FirstFault(id.targets, faults.steps);
      var started := s.transactions[id].status == Prepared && SnapshotOf(s.files, ignored) == id.source
        && CandidateIntact(s.candidates, id);
      var holds := (t: Path) requires t in id.candidate.hashes => t in s.files
        && FileHash(s.files[t].bytes) == id.candidate.hashes[t];
      ApplyStep(s, ignored, id, faults).store.files != s.files <==>
        && started
        && (if k < |id.targets| then faults.steps[id.targets[k]].CleanupFault? && !holds(id.targets[k])
            else exists t :: t in id.targets && !holds(t))
  {
    hide Written, ManifestOf, BackupsOf, HashesOf, Midway, RestoreFrom;
    var ts, k := id.targets, FirstFault(id.targets, faults.steps);
    var started := s.transactions[id].status == Prepared && SnapshotOf(s.files, ignored) == id.source
      && CandidateIntact(s.candidates, id);
    if started {
      assert ApplyStep(s, ignored, id, faults) == ApplyTargets(s, ignored, id, faults);
      if k < |ts| {
        InterruptedApplyFiles(s, ignored, id, faults);
        WrittenChangesExactlyWhen(s.files, id.candidate, [ts[k]]);
      } else {
        assert ApplyTargets(s, ignored, id, faults).store.files == Written(s.files, id.candidate, ts);
        WrittenChangesExactlyWhen(s.files, id.candidate, ts);
      }
    } else {
      assert ApplyStep(s, ignored, id, faults).store == s;
    }
  }

  /** A new file "a" prepared in an empty workspace. */
  lemma PreparedFile(ignored: Path -> bool, authority: AuthorityHash) returns (s: Store, id: TransactionId)
    ensures s == PrepareStep(Store(map[], map[], map[], map[]), ignored, "write_file", map["a" := [65]], authority)
    ensures id == IdOf("write_file", map["a" := [65]], SnapshotOf(map[], ignored))
    ensures id.WellFormed() && id.targets == ["a"] && id.candidate.hashes["a"] == FileHash([65])
    ensures s.transactions == map[id := FreshRecord(id, authority)] && s.files == map[] && s.backups == map[]
    ensures CandidateIntact(s.candidates, id) && CandidateCheck(s.candidates, id).None?
  {
    hide IdOf, SnapshotOf, Sorted;
    var contents: map<Path, Bytes> := map["a" := [65]];
    s := PrepareStep(Store(map[], map[], map[], map[]), ignored, "write_file", contents, authority);
    id := IdOf("write_file", contents, SnapshotOf(map[], ignored));
    OnlyTarget(id, "a");
    assert (id, "a") in CandidateFiles(id, contents);
  }

  /** An input at which all-or-nothing fails: a new file "a" is prepared in an empty workspace,
      and the clean-up after `os.replace` fails. The call raises, the record stays PREPARED,
      and the file is there. */
  lemma CleanupFaultLeavesFile(ignored: Path -> bool, authority: AuthorityHash)
      returns (s: Store, id: TransactionId, faults: Faults)
    ensures s == PrepareStep(Store(map[], map[], map[], map[]), ignored, "write_file", map["a" := [65]], authority)
    ensures id == IdOf("write_file", map["a" := [65]], SnapshotOf(map[], ignored)) && id in s.transactions
    ensures faults == Faults(map["a" := CleanupFault], NoTailFault, map[])
    ensures var step := ApplyStep(s, ignored, id, faults);
      && step.error == Some(StepFailed("a", CleanupFault))
      && id in step.store.transactions && step.store.transactions[id].status == Prepared
      && s.files == map[] && step.store.files == map["a" := File([65], NEW_FILE_MODE)]
  {
    hide Written, IdOf, Midway, RestoreFrom, SnapshotOf, PrepareStep, CandidateIntact;
    faults := Faults(map["a" := CleanupFault], NoTailFault, map[]);
    s, id := PreparedFile(ignored, authority);
    assert FirstFault(id.targets, faults.steps) == 0;
    InterruptedApplyFiles(s, ignored, id, faults);
    AppliedStatus(s, ignored, id, faults);
    ApplyTouchesOnlyTargets(s, ignored, id, faults);
    OneWritten(id.candidate, "a");
  }

  /** The other such input: the same file, and the new snapshot cannot be read after the loop.
      The call raises, everything is written, and the record stays PREPARED, so that it can
      not be rolled back, and discarding it leaves the file there too. */
  lemma TailFaultLeavesFile(ignored: Path -> bool, authority: AuthorityHash)
      returns (s: Store, id: TransactionId, faults: Faults)
    ensures s == PrepareStep(Store(map[], map[], map[], map[]), ignored, "write_file", map["a" := [65]], authority)
    ensures id == IdOf("write_file", map["a" := [65]], SnapshotOf(map[], ignored)) && id in s.transactions
    ensures faults == Faults(map[], SnapshotFault, map[])
    ensures var step := ApplyStep(s, ignored, id, faults);
      && step.error == Some(TailFailed(SnapshotFault))
      && id in step.store.transactions && step.store.transactions[id].status == Prepared
      && s.files == map[] && step.store.files == map["a" := File([65], NEW_FILE_MODE)]
      && RollbackStep(step.store, id, map[], false).error == Some(CannotRollBack(Prepared))
      && DiscardStep(step.store, id, false).error.None?
      && DiscardStep(step.store, id, false).store.files == step.store.files
  {
    hide Written, IdOf, Midway, RestoreFrom, SnapshotOf, PrepareStep, CandidateIntact, ManifestOf, BackupsOf,
      HashesOf;
    faults := Faults(map[], SnapshotFault, map[]);
    s, id := PreparedFile(ignored, authority);
    assert FirstFault(id.targets, faults.steps) == 1;
    AppliedStatus(s, ignored, id, faults);
    ApplyTouchesOnlyTargets(s, ignored, id, faults);
    OneWritten(id.candidate, "a");
  }

  lemma OnlyTarget(id: TransactionId, t: Path)
    requires id.WellFormed() && forall p :: p in id.targets <==> p == t
    ensures id.targets == [t]
  {
    DistinctBySize(id.targets);
    assert (set x | x in id.targets) == {t};
  }

  lemma OneWritten(candidate: CandidateHash, t: Path)
    requires t in candidate.hashes
    ensures Written(map[], candidate, [t]) == map[t := File(candidate.hashes[t].bytes, NEW_FILE_MODE)]
  {
    assert t in [t];
    assert Written(map[], candidate, [t]).Keys == {t};
  }

  lemma WrittenChangesExactlyWhen(files: Files, candidate: CandidateHash, ts: seq<Path>)
    requires forall t :: t in ts ==> t in candidate.hashes
    ensures Written(files, candidate, ts) != files <==>
      exists t :: t in ts && !(t in files && FileHash(files[t].bytes) == candidate.hashes[t])
  {
    var w := Written(files, candidate, ts);
    if forall t :: t in ts ==> t in files && FileHash(files[t].bytes) == candidate.hashes[t] {
      assert w.Keys == files.Keys;
      assert forall p :: p in w ==> w[p] == files[p];
    } else {
      var t :| t in ts && !(t in files && FileHash(files[t].bytes) == candidate.hashes[t]);
      assert t in w;
    }
  }

  /** A successful application leaves a manifest and backups from which the files it started
      from can be restored, and an applied snapshot that is the snapshot of what it wrote. */
  lemma AppliedRecord(s: Store, ignored: Path -> bool, id: TransactionId, faults: Faults)
    requires id in s.transactions && id.WellFormed()
    requires s.transactions[id].status == Prepared
    requires ApplyStep(s, ignored, id, faults).store.transactions[id].status == Applied
    ensures SnapshotOf(s.files, ignored) == id.source && CandidateIntact(s.candidates, id)
    ensures var after := ApplyStep(s, ignored, id, faults).store;
      && after.files == Written(s.files, id.candidate, id.targets)
      && (forall t :: t in id.targets ==> Describes(after.transactions[id].manifest, after.backups, id, s.files, t))
      && after.transactions[id].appliedSnapshot == Some(SnapshotOf(after.files, ignored))
      && (forall t :: t in id.targets ==>
            t in after.transactions[id].appliedHashes
            && after.transactions[id].appliedHashes[t] == id.candidate.hashes[t])
  {
    hide Written, ManifestOf, BackupsOf, HashesOf, Midway, RestoreFrom, Describes, SnapshotOf, CandidateIntact;
    var ts := id.targets;
    var done := Interrupted(s, id, ts, ts, ts);
    InterruptedDescribes(s, id, ts, ts, ts);
    HashesOfTargets(s.transactions[id].appliedHashes, id.candidate, ts);
    var after := ApplyStep(s, ignored, id, faults).store;
    AppliedStatus(s, ignored, id, faults);
    assert after.transactions[id].manifest == done.transactions[id].manifest;
    assert after.transactions[id].appliedHashes == done.transactions[id].appliedHashes;
  }

  lemma HashesOfTargets(before: map<Path, FileHash>, candidate: CandidateHash, ts: seq<Path>)
    requires forall t :: t in ts ==> t in candidate.hashes
    ensures forall t :: t in ts ==>
      t in before + HashesOf(candidate, ts) && (before + HashesOf(candidate, ts))[t] == candidate.hashes[t]
  {
  }

  /** Only the full run of the loop and a readable new snapshot make a record APPLIED. */
  lemma AppliedStatus(s: Store, ignored: Path -> bool, id: TransactionId, faults: Faults)
    requires id in s.transactions && id.WellFormed() && s.transactions[id].status == Prepared
    ensures var step := ApplyStep(s, ignored, id, faults);
      step.store.transactions[id].status == (
        if SnapshotOf(s.files, ignored) == id.source && CandidateIntact(s.candidates, id)
           && FirstFault(id.targets, faults.steps) == |id.targets| && !faults.tail.SnapshotFault?
              then Applied else Prepared)
  {
    hide Written, ManifestOf, BackupsOf, HashesOf, RestoreFrom, SnapshotOf;
  }

  /** Undo is exact: if the manifest and backups describe `original`, roll-back returns every
      target to it, whatever was edited since, and leaves every other file alone. */
  lemma RollbackExact(s: Store, original: Files, id: TransactionId, restore: RestoreFaults, recordFails: bool)
    requires id in s.transactions && id.WellFormed()
    requires s.transactions[id].status == Applied || s.transactions[id].status == Verified
    requires forall t :: t in id.targets ==>
      Describes(s.transactions[id].manifest, s.backups, id, original, t) && t !in restore
    ensures var step := RollbackStep(s, id, restore, recordFails);
      && step.error == (if recordFails then Some(TailFailed(RecordFault)) else None)
      && step.store.transactions[id].status == RolledBack
      && step.store.files == Reverted(s.files, original, set t | t in id.targets)
  {
    RestoreExact(s.files, original, s.transactions[id].manifest, s.backups, id, Reversed(id.targets), restore);
    assert (set t | t in Reversed(id.targets)) == set t | t in id.targets;
  }

  // ----- stacks of transactions -----

  /** Applying the transactions of `ids` one after another; each must succeed. */
  ghost predicate Stack(s: Store, ignored: Path -> bool, ids: seq<TransactionId>, top: Store)
    decreases |ids|
  {
    if ids == [] then top == s
    else
      && ids[0] in s.transactions && ids[0].WellFormed()
      && s.transactions[ids[0]].status == Prepared
      && var step := ApplyStep(s, ignored, ids[0], Faults(map[], NoTailFault, map[]));
        step.error.None? && Stack(step.store, ignored, ids[1..], top)
  }

  /** Rolling the transactions of `ids` back, the last first. */
  ghost function Unstack(s: Store, ids: seq<TransactionId>): Step
    requires forall id :: id in ids ==> id in s.transactions
    decreases |ids|
  {
    if ids == [] then Step(s, None)
    else
      var later := Unstack(s, ids[1..]);
      if later.error.Some? || ids[0] !in later.store.transactions then later
      else RollbackStep(later.store, ids[0], map[], false)
  }

  /** What a stack of other transactions leaves alone: the record and the backups of `id`. */
  lemma {:induction false} StackKeepsOthers(s: Store, ignored: Path -> bool, ids: seq<TransactionId>, top: Store,
      id: TransactionId)
    requires Stack(s, ignored, ids, top) && id !in ids && id in s.transactions
    ensures id in top.transactions && top.transactions[id] == s.transactions[id]
    ensures forall p ::
      && ((id, p) in top.backups <==> (id, p) in s.backups)
      && ((id, p) in s.backups ==> top.backups[(id, p)] == s.backups[(id, p)])
    decreases |ids|
  {
    hide ApplyStep, SameOutside;
    if ids != [] {
      var next := ApplyStep(s, ignored, ids[0], Faults(map[], NoTailFault, map[])).store;
      ApplyTouchesOnlyTargets(s, ignored, ids[0], Faults(map[], NoTailFault, map[]));
      assert ids == [ids[0]] + ids[1..];
      StackKeepsOthers(next, ignored, ids[1..], top, id);
    }
  }

  lemma {:induction false} UnstackKeepsOthers(s: Store, ids: seq<TransactionId>, id: TransactionId)
    requires forall i :: i in ids ==> i in s.transactions
    requires id !in ids && id in s.transactions
    ensures var t := Unstack(s, ids).store;
      id in t.transactions && t.transactions[id] == s.transactions[id] && t.backups == s.backups
    decreases |ids|
  {
    if ids != [] {
      assert ids == [ids[0]] + ids[1..];
      UnstackKeepsOthers(s, ids[1..], id);
    }
  }

  /** Rolling back any stack of applied transactions with distinct identifiers in reverse
      order succeeds and restores the initial file map. */
  lemma {:induction false} UnstackRestores(s: Store, ignored: Path -> bool, ids: seq<TransactionId>, top: Store)
    requires Stack(s, ignored, ids, top) && Distinct(ids)
    ensures forall id :: id in ids ==> id in top.transactions
    ensures Unstack(top, ids).error.None? && Unstack(top, ids).store.files == s.files
    decreases |ids|
  {
    hide ApplyStep, RollbackStep, Reverted, Describes;
    if ids != [] {
      var id, rest := ids[0], ids[1..];
      var next := ApplyStep(s, ignored, id, Faults(map[], NoTailFault, map[])).store;
      assert id !in rest;
      AppliedDescribes(s, ignored, id);
      UnstackRestores(next, ignored, rest, top);
      StackKeepsOthers(next, ignored, rest, top, id);
      UnstackKeepsOthers(top, rest, id);
      var back := Unstack(top, rest).store;
      forall t | t in id.targets ensures Describes(back.transactions[id].manifest, back.backups, id, s.files, t) {
        DescribesSame(next.transactions[id].manifest, next.backups, back.backups, id, s.files, t);
      }
      RollbackExact(back, s.files, id, map[], false);
      assert ids == [id] + rest;
    }
  }

  lemma DescribesSame(manifest: map<Path, BackupEntry>, a: Backups, b: Backups, id: TransactionId, original: Files,
      t: Path)
    requires Describes(manifest, a, id, original, t)
    requires (id, t) in a ==> (id, t) in b && b[(id, t)] == a[(id, t)]
    ensures Describes(manifest, b, id, original, t)
  {
  }

  lemma AppliedDescribes(s: Store, ignored: Path -> bool, id: TransactionId)
    requires id in s.transactions && id.WellFormed() && s.transactions[id].status == Prepared
    requires ApplyStep(s, ignored, id, Faults(map[], NoTailFault, map[])).error.None?
    ensures var next := ApplyStep(s, ignored, id, Faults(map[], NoTailFault, map[])).store;
      && id in next.transactions
      && next.transactions[id].status == Applied
      && (forall t :: t in id.targets ==> Describes(next.transactions[id].manifest, next.backups, id, s.files, t))
      && Reverted(next.files, s.files, set t | t in id.targets) == s.files
  {
    AppliedRecord(s, ignored, id, Faults(map[], NoTailFault, map[]));
    UndoOfWrite(s.files, id.candidate, id.targets, set t | t in id.targets);
  }
}
