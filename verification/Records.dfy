/** The records the governed lifecycle passes around. Whatever a record's identifier is
    the digest of is kept in the identifier; only fields that change later are separate. */
module Records {
  import opened Results
  import opened Disk

  datatype Risk = L0 | L1 | L2

  function RiskOrder(r: Risk): nat {
    match r
    case L0 => 0
    case L1 => 1
    case L2 => 2
  }

  /** The operator's manifest. An empty source snapshot binds no snapshot. */
  datatype Authority = Authority(
    taskId: string,
    source: Option<SnapshotHash>,
    readOnly: bool,
    mandatoryTests: seq<string>,
    mandatoryEvidence: seq<string>,
    allowL1AutoApply: bool,
    maxAutomaticRisk: Risk,
    allowInteractiveL2: bool,
    allowYolo: bool)

  datatype AuthorityHash = AuthorityHash(manifest: Authority)

  /** `statement` stands for the texts an action carries for the reader (summary,
      preconditions, postconditions, preserved facts, varied dimensions). */
  datatype ActionMaterial = ActionMaterial(
    statement: string,
    operation: string,
    targets: seq<Path>,
    evidence: seq<string>,
    risk: Risk,
    authority: AuthorityHash,
    source: SnapshotHash,
    transaction: Option<TransactionId>,
    capabilities: seq<string>,
    commands: seq<string>,
    requiredTests: seq<string>,
    useLimit: nat)

  datatype ActionId = ActionId(material: ActionMaterial)

  datatype Action = Action(id: ActionId, useCount: nat) {
    function Material(): ActionMaterial { id.material }
  }

  /** Evidence identifiers come from fresh event identifiers. */
  type EvidenceId = nat

  datatype EvidenceKind = CommandEvidence | ReadEvidence | ObservationEvidence

  datatype Artifact = Artifact(
    kind: EvidenceKind,
    description: string,
    actionId: Option<ActionId>,
    source: SnapshotHash,
    success: bool)

  datatype Status = Prepared | Applied | Verified | RolledBack | Discarded

  datatype TransactionRecord = TransactionRecord(
    id: TransactionId,
    authority: AuthorityHash,
    status: Status,
    actionId: Option<ActionId>,
    appliedHashes: map<Path, FileHash>,
    appliedSnapshot: Option<SnapshotHash>,
    manifest: map<Path, BackupEntry>,
    evidenceIds: seq<EvidenceId>)

  /** A transaction holds the mutation boundary until it is verified, rolled back or discarded. */
  predicate Unresolved(status: Status) {
    status == Prepared || status == Applied
  }
}
