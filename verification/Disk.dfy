/** The workspace seen as a file map, the digests taken of it, and the pure meaning of
    writing candidate bytes over it and of undoing such a write.

    A digest is the hashed material itself, wrapped: two digests are equal exactly when
    the material is, and no digest is the empty string. Directories are not files and do
    not appear in the map. */
module Disk {
  import opened Results
  import opened Ordering

  type Path = string
  newtype Byte = x: int | 0 <= x < 256
  type Bytes = seq<Byte>

  datatype File = File(bytes: Bytes, mode: nat)
  type Files = map<Path, File>

  datatype FileHash = FileHash(bytes: Bytes)
  datatype SnapshotHash = SnapshotHash(entries: map<Path, (FileHash, nat)>)
  datatype CandidateHash = CandidateHash(hashes: map<Path, FileHash>)

  /** The digest naming a transaction: it covers the targets, the snapshot the candidate
      was prepared from and, through the candidate hash, every candidate byte. */
  datatype TransactionId = TransactionId(operation: string, targets: seq<Path>, source: SnapshotHash,
      candidate: CandidateHash)
  {
    /** True of every identifier that `_prepare` builds: the targets list the candidates,
        none of them twice. */
    ghost predicate WellFormed() {
      && Distinct(targets)
      && forall t :: t in targets <==> t in candidate.hashes
    }
  }

  /** What the manifest remembers of a target before it is overwritten. */
  datatype BackupEntry = Absent | Existed(mode: nat, sha: FileHash)

  /** `mkstemp` creates the temporary file, and so a new target, with mode 0o600. */
  const NEW_FILE_MODE: nat := 0x180

  /** The snapshot digest sees bytes and modes of the files that are not ignored. */
  function SnapshotOf(files: Files, ignored: Path -> bool): SnapshotHash {
    SnapshotHash(map p | p in files && !ignored(p) :: (FileHash(files[p].bytes), files[p].mode))
  }

  /** Two workspaces have the same snapshot exactly when they agree, in bytes, mode and absence,
      on every path that is not ignored. */
  lemma SameSnapshotExactlyWhen(a: Files, b: Files, ignored: Path -> bool)
    ensures SnapshotOf(a, ignored) == SnapshotOf(b, ignored) <==>
      forall p :: !ignored(p) ==> (p in a <==> p in b) && (p in a ==> a[p] == b[p])
  {
    var x, y := SnapshotOf(a, ignored).entries, SnapshotOf(b, ignored).entries;
    if x == y {
      forall p | !ignored(p) ensures (p in a <==> p in b) && (p in a ==> a[p] == b[p]) {
        assert p in x <==> p in a;
        assert p in y <==> p in b;
      }
    }
    if forall p :: !ignored(p) ==> (p in a <==> p in b) && (p in a ==> a[p] == b[p]) {
      assert x.Keys == y.Keys;
    }
  }

  function HashOrNone(files: Files, p: Path): Option<FileHash> {
    if p in files then Some(FileHash(files[p].bytes)) else None
  }

  function EntryOf(files: Files, p: Path): BackupEntry {
    if p in files then Existed(files[p].mode, FileHash(files[p].bytes)) else Absent
  }

  /** The mode a target has once its candidate replaced it. */
  function ModeAfter(files: Files, p: Path): nat {
    if p in files then files[p].mode else NEW_FILE_MODE
  }

  /** The file map once the candidates of `ts` were moved into place. */
  function Written(files: Files, candidate: CandidateHash, ts: seq<Path>): Files {
    map p | p in files.Keys + (set t | t in ts && t in candidate.hashes) ::
      if p in ts && p in candidate.hashes then File(candidate.hashes[p].bytes, ModeAfter(files, p)) else files[p]
  }

  /** `files` with every path of `ts` put back to what it is in `original`, absence included. */
  function Reverted(files: Files, original: Files, ts: set<Path>): Files {
    map p | p in (files.Keys - ts) + (original.Keys * ts) :: if p in ts then original[p] else files[p]
  }

  /** The two maps agree on every path not listed in `ts`, absence included. */
  ghost predicate SameOutside(a: Files, b: Files, ts: seq<Path>) {
    forall p :: p !in ts ==> (p in a <==> p in b) && (p in b ==> a[p] == b[p])
  }

  type Backups = map<(TransactionId, Path), File>

  function ManifestOf(files: Files, ts: seq<Path>): map<Path, BackupEntry> {
    map t | t in ts :: EntryOf(files, t)
  }

  function BackupsOf(files: Files, id: TransactionId, ts: seq<Path>): Backups {
    map k: (TransactionId, Path) | k in (set t | t in ts && t in files :: (id, t)) :: files[k.1]
  }

  function HashesOf(candidate: CandidateHash, ts: seq<Path>): map<Path, FileHash> {
    map t | t in ts && t in candidate.hashes :: candidate.hashes[t]
  }

  /** The manifest and the backup directory together describe `original` at path t. */
  ghost predicate Describes(manifest: map<Path, BackupEntry>, backups: Backups, id: TransactionId, original: Files,
      t: Path) {
    && t in manifest
    && manifest[t] == EntryOf(original, t)
    && (t in original ==> (id, t) in backups && backups[(id, t)].bytes == original[t].bytes)
  }

  // ----- restoring -----

  /** What an I/O error leaves at the path being restored: anything. */
  type RestoreFaults = map<Path, Option<File>>

  datatype RestoreOutcome = RestoreOutcome(files: Files, error: Option<RestoreError>)
  datatype RestoreError = RestoreIoError(at: Path) | BackupMissing(at: Path) | RollbackHashMismatch(at: Path)

  function PutOrRemove(files: Files, p: Path, f: Option<File>): Files {
    if f.Some? then files[p := f.value] else files - {p}
  }

  /** One turn of the loop in `_restore`. */
  function RestoreOne(files: Files, manifest: map<Path, BackupEntry>, backups: Backups, id: TransactionId, t: Path,
      faults: RestoreFaults): RestoreOutcome {
    if t in faults then RestoreOutcome(PutOrRemove(files, t, faults[t]), Some(RestoreIoError(t)))
    else if t in manifest && manifest[t].Existed? then
      if (id, t) !in backups then RestoreOutcome(files, Some(BackupMissing(t)))
      else
        var bytes := backups[(id, t)].bytes;
        RestoreOutcome(files[t := File(bytes, manifest[t].mode)],
                       if FileHash(bytes) == manifest[t].sha then None else Some(RollbackHashMismatch(t)))
    else RestoreOutcome(files - {t}, None)
  }

  /** The loop of `_restore` over the paths in the order it visits them. */
  function RestoreFrom(files: Files, manifest: map<Path, BackupEntry>, backups: Backups, id: TransactionId,
      order: seq<Path>, faults: RestoreFaults): RestoreOutcome
    decreases order
  {
    if order == [] then RestoreOutcome(files, None)
    else
      var one := RestoreOne(files, manifest, backups, id, order[0], faults);
      if one.error.Some? then one else RestoreFrom(one.files, manifest, backups, id, order[1..], faults)
  }

  lemma RestoreOneExact(files: Files, original: Files, manifest: map<Path, BackupEntry>, backups: Backups,
      id: TransactionId, t: Path, faults: RestoreFaults)
    requires Describes(manifest, backups, id, original, t) && t !in faults
    ensures RestoreOne(files, manifest, backups, id, t, faults) == RestoreOutcome(Reverted(files, original, {t}), None)
  {
    var one := RestoreOne(files, manifest, backups, id, t, faults);
    if t in original {
      assert one.files == files[t := original[t]];
      assert Reverted(files, original, {t}) == files[t := original[t]];
    } else {
      assert Reverted(files, original, {t}) == files - {t};
    }
  }

  lemma RevertedTwice(files: Files, original: Files, ts: set<Path>, us: set<Path>)
    ensures Reverted(Reverted(files, original, ts), original, us) == Reverted(files, original, ts + us)
  {
  }

  /** Restoring from a manifest that describes `original` puts back exactly the bytes, the
      mode or the absence of each listed path, whatever happened to the files since, and
      touches nothing else. */
  lemma {:induction false} RestoreExact(files: Files, original: Files, manifest: map<Path, BackupEntry>,
      backups: Backups, id: TransactionId, order: seq<Path>, faults: RestoreFaults)
    requires forall t :: t in order ==> Describes(manifest, backups, id, original, t) && t !in faults
    ensures RestoreFrom(files, manifest, backups, id, order, faults) ==
      RestoreOutcome(Reverted(files, original, set t | t in order), None)
    decreases order
  {
    if order == [] {
      assert Reverted(files, original, set t | t in order) == files;
    } else {
      var t, rest := order[0], order[1..];
      RestoreOneExact(files, original, manifest, backups, id, t, faults);
      var next := Reverted(files, original, {t});
      RestoreExact(next, original, manifest, backups, id, rest, faults);
      RevertedTwice(files, original, {t}, set x | x in rest);
      assert (set x | x in order) == {t} + (set x | x in rest);
    }
  }

  /** Whatever goes wrong while restoring, only listed paths are touched. */
  lemma {:induction false} RestoreTouchesOnlyListed(files: Files, manifest: map<Path, BackupEntry>, backups: Backups,
      id: TransactionId, order: seq<Path>, faults: RestoreFaults)
    ensures SameOutside(RestoreFrom(files, manifest, backups, id, order, faults).files, files, order)
    decreases order
  {
    if order != [] {
      var one := RestoreOne(files, manifest, backups, id, order[0], faults);
      if one.error.None? {
        RestoreTouchesOnlyListed(one.files, manifest, backups, id, order[1..], faults);
      }
    }
  }

  /** Restoring raises only for a reason: an I/O error, a backup that is gone, or backup
      bytes that differ from the recorded digest. */
  lemma {:induction false} RestoreRaisesFor(files: Files, manifest: map<Path, BackupEntry>, backups: Backups,
      id: TransactionId, order: seq<Path>, faults: RestoreFaults)
    ensures RestoreFrom(files, manifest, backups, id, order, faults).error.None? <==>
      forall t :: t in order ==>
        && t !in faults
        && (t in manifest && manifest[t].Existed? ==>
              (id, t) in backups && FileHash(backups[(id, t)].bytes) == manifest[t].sha)
    decreases order
  {
    if order != [] {
      var one := RestoreOne(files, manifest, backups, id, order[0], faults);
      assert order == [order[0]] + order[1..];
      if one.error.None? {
        RestoreRaisesFor(one.files, manifest, backups, id, order[1..], faults);
      }
    }
  }

  // ----- undoing a write -----

  /** Undoing a complete or partial write gives back the map it started from. */
  lemma UndoOfWrite(files: Files, candidate: CandidateHash, written: seq<Path>, undone: set<Path>)
    requires forall t :: t in written ==> t in undone
    ensures Reverted(Written(files, candidate, written), files, undone) == files
  {
  }

  /** The applied snapshot is settled by the identifier: files that agree on the source
      snapshot agree on the snapshot after the write. */
  lemma SnapshotAfterWrite(f: Files, g: Files, candidate: CandidateHash, ts: seq<Path>, ignored: Path -> bool)
    requires SnapshotOf(f, ignored) == SnapshotOf(g, ignored)
    ensures SnapshotOf(Written(f, candidate, ts), ignored) == SnapshotOf(Written(g, candidate, ts), ignored)
  {
    var a, b := SnapshotOf(f, ignored).entries, SnapshotOf(g, ignored).entries;
    forall p | !ignored(p) ensures (p in f <==> p in g) && (p in f ==> f[p] == g[p]) {
      assert (p in a <==> p in f) && (p in b <==> p in g);
    }
  }
}
