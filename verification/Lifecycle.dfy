/** The governed lifecycle of `OURDAgent` as a state machine: one function per tool call,
    from the state it finds to the state it leaves and what it raises, if anything.

    Given to a call as inputs, because the code that settles them is outside the model: the
    effective risk of a proposal, whether path, command and dimension policies admit a call,
    a person's answer, what a command does to the files, and which file operations fail. */
module Lifecycle {
  import opened Results
  import opened Ordering
  import opened Disk
  import opened Records
  import opened Transactions

  datatype Category = Invariant | Boundary | Counterexample | Test | Observation

  datatype Verdict = Approve | ApproveWithLimits | RequestEvidence | Revise | Block

  predicate Approving(v: Verdict) {
    v == Approve || v == ApproveWithLimits
  }

  /** A limit that is absent does not constrain. */
  datatype Limits = Limits(targets: Option<set<Path>>, capabilities: Option<set<string>>,
      commands: Option<set<string>>, maxUses: Option<int>)

  const NO_LIMITS := Limits(None, None, None, None)

  datatype GateItem = GateItem(artifact: EvidenceId, category: Category, satisfies: set<string>)

  datatype Gate = Gate(
    actionId: ActionId,
    proposed: Verdict,
    verdict: Verdict,
    categories: map<Category, seq<EvidenceId>>,
    satisfied: set<string>,
    uncovered: seq<string>,
    limits: Limits)

  datatype State = State(
    store: Store,
    authority: Authority,
    governance: Option<AuthorityHash>,
    action: Option<Action>,
    gate: Option<Gate>,
    active: Option<TransactionId>,
    evidence: map<EvidenceId, Artifact>,
    nextEvent: EvidenceId)

  datatype Refusal =
    | NoGovernance
    | ReadOnlyAuthority
    | UnresolvedTransaction
    | AuthoritySnapshotStale
    | PolicyRefuses
    | NoChange
    | UnknownTransaction
    | TargetsDiffer
    | SourceStale
    | NeedsTransaction
    | NoAction
    | UseLimitExhausted
    | AuthorityStale
    | NotBoundToAction
    | UnknownEvidence
    | EvidenceOfOtherAction
    | EvidenceStale
    | EvidenceReused
    | LimitsExceedAction
    | GateRequired
    | GateNotApproving
    | LimitExceeded
    | ApprovedUsesExhausted
    | PermissionMissing
    | ApprovalDenied
    | NotInAction
    | CommandRaised
    | EvidenceNotSuccessfulCommand
    | TestEvidenceMissing
    | RecoveryUnknown
    | RecoveryResolved(status: Status)
    | RecoveryNeeded
    | ManifestInvalid
    | RecoveryManifestDiffers
    | StateConflict
    | Transactional(error: TransactionError)

  datatype Reaction = Reaction(state: State, refusal: Option<Refusal>)

  type Ignored = Path -> bool

  // ----- checks shared by the calls -----

  function GovernanceError(s: State): Option<Refusal> {
    if s.governance != Some(AuthorityHash(s.authority)) then Some(NoGovernance) else None
  }

  /** `_require_current_action`, with the transaction the caller names, if any. */
  function CurrentActionError(s: State, ignored: Ignored, named: Option<TransactionId>,
      needsUse: bool): Option<Refusal> {
    if GovernanceError(s).Some? then GovernanceError(s)
    else if s.action.None? then Some(NoAction)
    else
      var a := s.action.value;
      var m := a.id.material;
      if needsUse && a.useCount >= m.useLimit then Some(UseLimitExhausted)
      else if m.authority != AuthorityHash(s.authority) then Some(AuthorityStale)
      else if named.Some? && m.transaction != named then Some(NotBoundToAction)
      else if m.transaction.Some? && m.transaction.value !in s.store.transactions then Some(UnknownTransaction)
      else if (m.transaction.None? || s.store.transactions[m.transaction.value].status == Prepared)
        && SnapshotOf(s.store.files, ignored) != m.source then
        Some(SourceStale)
      else None
  }

  /** `_require_gate`: none is needed below L1. */
  function GateError(s: State, a: Action): Option<Refusal> {
    if a.id.material.risk == L0 then None
    else if s.gate.None? || s.gate.value.actionId != a.id then Some(GateRequired)
    else if !Approving(s.gate.value.verdict) then Some(GateNotApproving)
    else None
  }

  /** `_enforce_gate_limits` under the gate that `_require_gate` returned. */
  function LimitError(s: State, a: Action, targets: set<Path>, capability: Option<string>,
      command: Option<string>): Option<Refusal> {
    if a.id.material.risk == L0 || s.gate.None? || s.gate.value.verdict != ApproveWithLimits then None
    else
      var l := s.gate.value.limits;
      if l.targets.Some? && !(targets <= l.targets.value) then Some(LimitExceeded)
      else if capability.Some? && l.capabilities.Some? && capability.value !in l.capabilities.value
        then Some(LimitExceeded)
      else if command.Some? && l.commands.Some? && command.value !in l.commands.value then Some(LimitExceeded)
      else if a.useCount >= MaxUses(l, a) then Some(ApprovedUsesExhausted)
      else None
  }

  function MaxUses(l: Limits, a: Action): int {
    if l.maxUses.Some? then l.maxUses.value else a.id.material.useLimit
  }

  /** The part of `_prepare_oiec_transition` that looks at snapshots and authority; `admits`
      stands for its boundary, dimension, size and retry policies. */
  function TransitionError(s: State, ignored: Ignored, a: Action, expected: Option<SnapshotHash>,
      admits: bool): Option<Refusal> {
    var wanted := if expected.Some? then expected.value else a.id.material.source;
    if SnapshotOf(s.store.files, ignored) != wanted then Some(SourceStale)
    else if a.id.material.authority != AuthorityHash(s.authority) then Some(AuthorityStale)
    else if !admits then Some(PolicyRefuses)
    else None
  }

  /** `require_auto_or_interactive_permission` and the interactive question. */
  function PermissionError(authority: Authority, risk: Risk, yolo: bool, approves: bool): Option<Refusal> {
    if risk == L0 then None
    else if risk == L1 && authority.allowL1AutoApply && RiskOrder(authority.maxAutomaticRisk) >= RiskOrder(L1) then None
    else if risk == L2 && !authority.allowInteractiveL2 then Some(PermissionMissing)
    else if yolo then (if authority.allowYolo then None else Some(PermissionMissing))
    else if approves then None
    else Some(ApprovalDenied)
  }

  function ActionIdOf(s: State): Option<ActionId> {
    if s.action.Some? then Some(s.action.value.id) else None
  }

  /** `_record_evidence`: bound to the pending action and to the snapshot it is recorded at. */
  function WithEvidence(s: State, ignored: Ignored, kind: EvidenceKind, description: string, success: bool): State {
    var artifact := Artifact(kind, description, ActionIdOf(s), SnapshotOf(s.store.files, ignored), success);
    s.(evidence := s.evidence[s.nextEvent := artifact], nextEvent := s.nextEvent + 1)
  }

  function WithUse(s: State): State {
    if s.action.None? then s
    else s.(action := Some(s.action.value.(useCount := s.action.value.useCount + 1)))
  }

  // ----- the calls -----

  function EstablishGovernance(s: State, admits: bool): Reaction {
    if !admits then Reaction(s, Some(PolicyRefuses))
    else Reaction(s.(governance := Some(AuthorityHash(s.authority)), action := None, gate := None), None)
  }

  function PrepareError(s: State, ignored: Ignored, contents: map<Path, Bytes>, admits: bool): Option<Refusal> {
    if GovernanceError(s).Some? then GovernanceError(s)
    else if s.authority.readOnly then Some(ReadOnlyAuthority)
    else if exists id :: id in s.store.transactions && Unresolved(s.store.transactions[id].status)
      then Some(UnresolvedTransaction)
    else if s.authority.source.Some? && SnapshotOf(s.store.files, ignored) != s.authority.source.value
      then Some(AuthoritySnapshotStale)
    else if !admits then Some(PolicyRefuses)
    else if contents == map[] then Some(NoChange)
    else None
  }

  function Prepare(s: State, ignored: Ignored, operation: string, contents: map<Path, Bytes>, admits: bool,
      recordFails: bool): Reaction {
    var error := PrepareError(s, ignored, contents, admits);
    if error.Some? then Reaction(s, error)
    else
      var id := IdOf(operation, contents, SnapshotOf(s.store.files, ignored));
      var prepared := s.(store := PrepareStep(s.store, ignored, operation, contents, AuthorityHash(s.authority)));
      if recordFails then Reaction(prepared, Some(Transactional(TailFailed(RecordFault))))
      else Reaction(prepared.(active := Some(id)), None)
  }

  /** What a proposal asks for; commands and tests are in canonical form. */
  datatype Proposal = Proposal(
    statement: string,
    operation: string,
    targets: seq<Path>,
    evidence: seq<string>,
    risk: Risk,
    transaction: Option<TransactionId>,
    capabilities: seq<string>,
    commands: seq<string>,
    requiredTests: seq<string>,
    useLimit: int)

  function MaterialOf(s: State, ignored: Ignored, p: Proposal): ActionMaterial {
    ActionMaterial(
      p.statement, p.operation, p.targets,
      FirstOccurrences(s.authority.mandatoryEvidence + p.evidence),
      p.risk, AuthorityHash(s.authority), SnapshotOf(s.store.files, ignored), p.transaction, p.capabilities,
      FirstOccurrences(p.commands + s.authority.mandatoryTests + p.requiredTests),
      FirstOccurrences(s.authority.mandatoryTests + p.requiredTests),
      if p.useLimit < 1 then 1 else if p.useLimit > 20 then 20 else p.useLimit)
  }

  function ProposeError(s: State, ignored: Ignored, p: Proposal, admits: bool): Option<Refusal> {
    if GovernanceError(s).Some? then GovernanceError(s)
    else if !admits then Some(PolicyRefuses)
    else if p.transaction.Some? then
      var id := p.transaction.value;
      if id !in s.store.transactions then Some(UnknownTransaction)
      else if (set t | t in id.targets) != (set t | t in p.targets) then Some(TargetsDiffer)
      else if id.source != SnapshotOf(s.store.files, ignored) then Some(SourceStale)
      else None
    else if p.operation in {"write_file", "replace_text", "apply_transaction"} then Some(NeedsTransaction)
    else None
  }

  function Propose(s: State, ignored: Ignored, p: Proposal, admits: bool): Reaction {
    var error := ProposeError(s, ignored, p, admits);
    if error.Some? then Reaction(s, error)
    else
      var id := ActionId(MaterialOf(s, ignored, p));
      var records := s.store.transactions;
      var bound := if p.transaction.None? || p.transaction.value !in records then records
                   else records[p.transaction.value := records[p.transaction.value].(actionId := Some(id))];
      Reaction(s.(store := s.store.(transactions := bound), action := Some(Action(id, 0)), gate := None), None)
  }

  /** What the loop over the offered items raises, `used` being the artifacts seen so far. */
  function ItemsError(s: State, a: Action, items: seq<GateItem>, used: set<EvidenceId>): Option<Refusal> {
    if items == [] then None
    else
      var e := items[0].artifact;
      if e !in s.evidence then Some(UnknownEvidence)
      else if s.evidence[e].actionId != Some(a.id) then Some(EvidenceOfOtherAction)
      else if s.evidence[e].source != a.id.material.source then Some(EvidenceStale)
      else if e in used then Some(EvidenceReused)
      else ItemsError(s, a, items[1..], used + {e})
  }

  /** The artifacts offered under one category, in order. */
  function Under(items: seq<GateItem>, c: Category): (r: seq<EvidenceId>)
  {
    if items == [] then []
    else
      var before, last := Under(items[..|items| - 1], c), items[|items| - 1];
      if last.category == c then before + [last.artifact] else before
  }

  function SatisfiedBy(items: seq<GateItem>): set<string> {
    set i, r | 0 <= i < |items| && r in items[i].satisfies :: r
  }

  function CategoryMap(items: seq<GateItem>): map<Category, seq<EvidenceId>> {
    map[Invariant := Under(items, Invariant), Boundary := Under(items, Boundary),
        Counterexample := Under(items, Counterexample),
        Test := Under(items, Test), Observation := Under(items, Observation)]
  }

  predicate CategoriesMissing(risk: Risk, categories: map<Category, seq<EvidenceId>>)
    requires Invariant in categories && Boundary in categories && Counterexample in categories
  {
    || (risk != L0 && (categories[Invariant] == [] || categories[Boundary] == []))
    || (risk == L2 && categories[Counterexample] == [])
  }

  function LimitsError(a: Action, l: Limits): Option<Refusal> {
    var m := a.id.material;
    if l.targets.Some? && !(l.targets.value <= set t | t in m.targets) then Some(LimitsExceedAction)
    else if l.capabilities.Some? && !(l.capabilities.value <= set c | c in m.capabilities) then Some(LimitsExceedAction)
    else if l.commands.Some? && !(l.commands.value <= set c | c in m.commands) then Some(LimitsExceedAction)
    else if l.maxUses.Some? && (l.maxUses.value < 1 || l.maxUses.value > m.useLimit) then Some(LimitsExceedAction)
    else None
  }

  /** The verdict the deterministic requirements leave of the proposed one. */
  function VerdictOf(a: Action, proposed: Verdict, categories: map<Category, seq<EvidenceId>>, satisfied: set<string>,
      uncovered: seq<string>, limits: Limits): Verdict
    requires Invariant in categories && Boundary in categories && Counterexample in categories
  {
    if proposed == Approve && uncovered != [] then RequestEvidence
    else if CategoriesMissing(a.id.material.risk, categories) then RequestEvidence
    else if exists r :: r in a.id.material.evidence && r !in satisfied then RequestEvidence
    else if proposed == ApproveWithLimits && limits == NO_LIMITS then RequestEvidence
    else proposed
  }

  function SubmitGate(s: State, ignored: Ignored, proposed: Verdict, items: seq<GateItem>, uncovered: seq<string>,
      limits: Limits): Reaction {
    var error := CurrentActionError(s, ignored, None, true);
    if error.Some? || s.action.None? then Reaction(s, error)
    else
      var a := s.action.value;
      var bad := ItemsError(s, a, items, {});
      if bad.Some? then Reaction(s, bad)
      else if proposed == ApproveWithLimits && LimitsError(a, limits).Some? then Reaction(s, LimitsError(a, limits))
      else
        var verdict := VerdictOf(a, proposed, CategoryMap(items), SatisfiedBy(items), uncovered, limits);
        Reaction(s.(gate := Some(Gate(a.id, proposed, verdict, CategoryMap(items), SatisfiedBy(items), uncovered,
            limits))), None)
  }

  /** Everything `apply_transaction` checks before it hands over to the engine. */
  function ApplyError(s: State, ignored: Ignored, id: TransactionId, yolo: bool, approves: bool,
      admits: bool): Option<Refusal> {
    if id !in s.store.transactions then Some(UnknownTransaction)
    else if CurrentActionError(s, ignored, Some(id), true).Some? then CurrentActionError(s, ignored, Some(id), true)
    else if s.action.None? then None
    else
      var a := s.action.value;
      if GateError(s, a).Some? then GateError(s, a)
      else if LimitError(s, a, (set t | t in id.targets), None, None).Some?
        then LimitError(s, a, (set t | t in id.targets), None, None)
      else if TransitionError(s, ignored, a, None, admits).Some? then TransitionError(s, ignored, a, None, admits)
      else PermissionError(s.authority, a.id.material.risk, yolo, approves)
  }

  function Apply(s: State, ignored: Ignored, id: TransactionId, yolo: bool, approves: bool, admits: bool,
      faults: Faults): Reaction
  {
    var error := ApplyError(s, ignored, id, yolo, approves, admits);
    if error.Some? || id !in s.store.transactions then Reaction(s, error)
    else
      var step := ApplyStep(s.store, ignored, id, faults);
      var after := s.(store := step.store);
      if step.error.Some? then Reaction(after, Some(Transactional(step.error.value)))
      else Reaction(WithUse(after), None)
  }

  /** What a command leaves behind: the files, and whether it ended with return code zero or
      did not end at all (a timeout). The candidate directory is not protected from it. */
  datatype Effect = Effect(files: Files, candidates: Candidates, ended: bool, success: bool)

  function CommandError(s: State, ignored: Ignored, risk: Risk, capability: string, command: string, allowed: bool,
      admits: bool): Option<Refusal> {
    if !allowed then Some(PolicyRefuses)
    else if risk == L0 then None
    else if CurrentActionError(s, ignored, None, true).Some? then CurrentActionError(s, ignored, None, true)
    else if s.action.None? then None
    else
      var a := s.action.value;
      var m := a.id.material;
      if capability !in m.capabilities || command !in m.commands then Some(NotInAction)
      else if GateError(s, a).Some? then GateError(s, a)
      else if LimitError(s, a, {}, Some(capability), Some(command)).Some?
        then LimitError(s, a, {}, Some(capability), Some(command))
      else if m.transaction.None? || m.transaction.value !in s.store.transactions
        then TransitionError(s, ignored, a, None, admits)
      else
        var id := m.transaction.value;
        if VerifyAppliedError(s.store, ignored, id).Some?
          then Some(Transactional(VerifyAppliedError(s.store, ignored, id).value))
        else TransitionError(s, ignored, a, s.store.transactions[id].appliedSnapshot, admits)
  }

  function RunCommand(s: State, ignored: Ignored, risk: Risk, capability: string, command: string, allowed: bool,
      admits: bool, effect: Effect): Reaction {
    var error := CommandError(s, ignored, risk, capability, command, allowed, admits);
    if error.Some? then Reaction(s, error)
    else
      var ran := s.(store := s.store.(files := effect.files, candidates := effect.candidates));
      if !effect.ended then Reaction(ran, Some(CommandRaised))
      else
        var recorded := WithEvidence(ran, ignored, CommandEvidence, command, effect.success);
        Reaction(if risk == L0 then recorded else WithUse(recorded), None)
  }

  /** The loop over the evidence offered to `finalize_transaction`. */
  function FinalizeEvidenceError(s: State, a: Action, ids: seq<EvidenceId>): Option<Refusal> {
    if ids == [] then None
    else
      var e := ids[0];
      if e !in s.evidence then Some(UnknownEvidence)
      else if s.evidence[e].kind != CommandEvidence || !s.evidence[e].success then Some(EvidenceNotSuccessfulCommand)
      else if s.evidence[e].actionId != Some(a.id) then Some(EvidenceOfOtherAction)
      else FinalizeEvidenceError(s, a, ids[1..])
  }

  /** Every required test is the description of some offered artifact. */
  predicate TestsCovered(s: State, a: Action, ids: seq<EvidenceId>)
  {
    forall t :: t in a.id.material.requiredTests ==>
      exists e :: e in ids && e in s.evidence && s.evidence[e].description == t
  }

  function FinalizeError(s: State, ignored: Ignored, id: TransactionId, ids: seq<EvidenceId>): Option<Refusal> {
    if id !in s.store.transactions then Some(UnknownTransaction)
    else if CurrentActionError(s, ignored, Some(id), false).Some? then CurrentActionError(s, ignored, Some(id), false)
    else if VerifyAppliedError(s.store, ignored, id).Some?
      then Some(Transactional(VerifyAppliedError(s.store, ignored, id).value))
    else if s.action.None? then None
    else if FinalizeEvidenceError(s, s.action.value, ids).Some? then FinalizeEvidenceError(s, s.action.value, ids)
    else if !TestsCovered(s, s.action.value, ids) then Some(TestEvidenceMissing)
    else None
  }

  function Finalize(s: State, ignored: Ignored, id: TransactionId, ids: seq<EvidenceId>, recordFails: bool): Reaction {
    var error := FinalizeError(s, ignored, id, ids);
    if error.Some? || id !in s.store.transactions then Reaction(s, error)
    else
      var step := FinalizeStep(s.store, id, ids, recordFails);
      var after := s.(store := step.store);
      if step.error.Some? then Reaction(after, Some(Transactional(step.error.value)))
      else Reaction(after.(active := None), None)
  }

  /** A prepared transaction is discarded, any other is rolled back. */
  function CloseStep(s: Store, id: TransactionId, restore: RestoreFaults, recordFails: bool): Step
    requires id in s.transactions
  {
    if s.transactions[id].status == Prepared
      then DiscardStep(s, id, recordFails) else RollbackStep(s, id, restore, recordFails)
  }

  function Rollback(s: State, id: TransactionId, restore: RestoreFaults, recordFails: bool): Reaction {
    if id !in s.store.transactions then Reaction(s, Some(UnknownTransaction))
    else
      var step := CloseStep(s.store, id, restore, recordFails);
      var after := s.(store := step.store);
      if step.error.Some? then Reaction(after, Some(Transactional(step.error.value)))
      else
        var closed := after.(active := None);
        if s.action.Some? && s.action.value.id.material.transaction == Some(id)
        then Reaction(closed.(action := None, gate := None), None)
        else Reaction(closed, None)
  }

  /** Tools that only look at the workspace record what they saw. */
  function Observe(s: State, ignored: Ignored, missing: bool, description: string, success: bool): Reaction {
    Reaction(WithEvidence(s, ignored, if missing then ObservationEvidence else ReadEvidence, description, success),
        None)
  }

  /** The transaction part of `_validate_loaded_state`. */
  function LoadError(s: State): Option<Refusal> {
    var open := set id | id in s.store.transactions && Unresolved(s.store.transactions[id].status);
    if |open| > 1 then Some(StateConflict)
    else if s.active.Some? && s.active.value !in open then Some(StateConflict)
    else if s.action.Some? && s.action.value.id.material.transaction.Some? then
      var id := s.action.value.id.material.transaction.value;
      if id !in s.store.transactions then Some(StateConflict)
      else if s.store.transactions[id].actionId.Some? && s.store.transactions[id].actionId != Some(s.action.value.id)
        then Some(StateConflict)
      else None
    else None
  }

  /** `validate_authority`; `valid` stands for what it asks of fields outside the model, and a
      recovery from an applied transaction lets the snapshot differ. */
  function ManifestError(s: State, ignored: Ignored, authority: Authority, mayDiffer: bool, valid: bool):
      Option<Refusal> {
    if !valid then Some(ManifestInvalid)
    else if !mayDiffer && authority.source.Some? && SnapshotOf(s.store.files, ignored) != authority.source.value
      then Some(AuthoritySnapshotStale)
    else if !authority.readOnly && authority.source.None? then Some(ManifestInvalid)
    else if authority.readOnly && (authority.allowL1AutoApply || authority.allowInteractiveL2 || authority.allowYolo)
      then Some(ManifestInvalid)
    else None
  }

  /** What the constructor refuses before it looks at the loaded state as a whole: `recovery`
      is the transaction the session is started for, if any. */
  function SessionError(s: State, ignored: Ignored, authority: Authority, recovery: Option<TransactionId>,
      valid: bool): Option<Refusal> {
    if recovery.Some? then
      if recovery.value !in s.store.transactions then Some(RecoveryUnknown)
      else
        var r := s.store.transactions[recovery.value];
        if r.status == RolledBack || r.status == Discarded then Some(RecoveryResolved(r.status))
        else if ManifestError(s, ignored, authority, r.status != Prepared, valid).Some?
          then ManifestError(s, ignored, authority, r.status != Prepared, valid)
        else if AuthorityHash(authority) != r.authority then Some(RecoveryManifestDiffers)
        else None
    else if exists id :: id in s.store.transactions && Unresolved(s.store.transactions[id].status)
      then Some(RecoveryNeeded)
    else ManifestError(s, ignored, authority, false, valid)
  }

  /** A new session over the saved state, under the manifest it is started with; the one
      unresolved transaction, if any, becomes the active one. */
  ghost function Restart(s: State, ignored: Ignored, authority: Authority, recovery: Option<TransactionId>,
      valid: bool): Reaction {
    if SessionError(s, ignored, authority, recovery, valid).Some?
      then Reaction(s, SessionError(s, ignored, authority, recovery, valid))
    else if LoadError(s).Some? then Reaction(s, LoadError(s))
    else
      var active := if exists id :: id in s.store.transactions && Unresolved(s.store.transactions[id].status)
                    then var id :| id in s.store.transactions && Unresolved(s.store.transactions[id].status); Some(id)
                      else None;
      Reaction(s.(authority := authority, active := active), None)
  }

  datatype Call =
    | EstablishGovernanceCall(admits: bool)
    | PrepareCall(operation: string, contents: map<Path, Bytes>, admits: bool, recordFails: bool)
    | ProposeCall(proposal: Proposal, admits: bool)
    | SubmitGateCall(proposed: Verdict, items: seq<GateItem>, uncovered: seq<string>, limits: Limits)
    | ApplyCall(id: TransactionId, yolo: bool, approves: bool, admits: bool, faults: Faults)
    | RunCommandCall(risk: Risk, capability: string, command: string, allowed: bool, admits: bool, effect: Effect)
    | FinalizeCall(id: TransactionId, evidenceIds: seq<EvidenceId>, recordFails: bool)
    | RollbackCall(id: TransactionId, restore: RestoreFaults, recordFails: bool)
    | ObserveCall(missing: bool, description: string, success: bool)
    | EditCall(files: Files, candidates: Candidates)
    | RestartCall(authority: Authority, recovery: Option<TransactionId>, valid: bool)

  /** One step of a run: a tool call, an edit made by anyone else, or a restart. */
  ghost function Next(s: State, ignored: Ignored, c: Call): Reaction {
    match c
    case EstablishGovernanceCall(admits) => EstablishGovernance(s, admits)
    case PrepareCall(operation, contents, admits, recordFails) =>
      Prepare(s, ignored, operation, contents, admits, recordFails)
    case ProposeCall(p, admits) => Propose(s, ignored, p, admits)
    case SubmitGateCall(proposed, items, uncovered, limits) =>
      SubmitGate(s, ignored, proposed, items, uncovered, limits)
    case ApplyCall(id, yolo, approves, admits, faults) => Apply(s, ignored, id, yolo, approves, admits, faults)
    case RunCommandCall(risk, capability, command, allowed, admits, effect) =>
      RunCommand(s, ignored, risk, capability, command, allowed, admits, effect)
    case FinalizeCall(id, ids, recordFails) => Finalize(s, ignored, id, ids, recordFails)
    case RollbackCall(id, restore, recordFails) => Rollback(s, id, restore, recordFails)
    case ObserveCall(missing, description, success) => Observe(s, ignored, missing, description, success)
    case EditCall(files, candidates) => Reaction(s.(store := s.store.(files := files, candidates := candidates)), None)
    case RestartCall(authority, recovery, valid) => Restart(s, ignored, authority, recovery, valid)
  }

  /** The state of a new agent over some workspace. */
  function Fresh(files: Files, authority: Authority): State {
    State(Store(files, map[], map[], map[]), authority, None, None, None, None, map[], 0)
  }
}
