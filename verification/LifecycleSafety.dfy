/** Gates, use limits and test evidence over every run of the governed lifecycle. */
module LifecycleSafety {
  import opened Results
  import opened Ordering
  import opened Disk
  import opened Records
  import opened Transactions
  import opened Lifecycle
  import opened LifecycleRuns

  // ----- the pending action and the evidence registry -----

  ghost predicate ActionSound(a: Action) {
    var m := a.id.material;
    && a.useCount <= m.useLimit && 1 <= m.useLimit <= 20
    && (forall t :: t in m.authority.manifest.mandatoryTests ==> t in m.requiredTests)
    && (forall t :: t in m.requiredTests ==> t in m.commands)
    && (forall e :: e in m.authority.manifest.mandatoryEvidence ==> e in m.evidence)
  }

  ghost predicate LinkSound(s: State) {
    s.action.Some? && s.action.value.id.material.transaction.Some? ==>
      var id := s.action.value.id.material.transaction.value;
      && id in s.store.transactions
      && (s.store.transactions[id].actionId.None? || s.store.transactions[id].actionId == Some(s.action.value.id))
  }

  ghost predicate EvidenceFresh(s: State) {
    forall e :: e in s.evidence ==> e < s.nextEvent
  }

  ghost predicate Grows(a: map<EvidenceId, Artifact>, b: map<EvidenceId, Artifact>) {
    forall e :: e in a ==> e in b && b[e] == a[e]
  }

  /** The registry only grows, and by at most one artifact, under a fresh identifier. */
  lemma EvidenceGrows(s: State, ignored: Ignored, c: Call)
    requires EvidenceFresh(s)
    ensures EvidenceFresh(Next(s, ignored, c).state)
    ensures Grows(s.evidence, Next(s, ignored, c).state.evidence)
    ensures forall e :: e in Next(s, ignored, c).state.evidence && e !in s.evidence ==> e == s.nextEvent
  {
    hide ApplyStep, RestoreFrom, SnapshotOf, GovernanceError, CurrentActionError, ApplyError, VerifyAppliedError,
      CommandError, FinalizeError, ItemsError, VerdictOf, FinalizeEvidenceError, TestsCovered, LoadError, IdOf,
      MaterialOf, CandidateFiles, FirstOccurrences, CloseStep, PrepareStep;
  }

  // ----- gates -----

  /** The artifacts under the categories were recorded under the action and its snapshot, and
      each stands in one place of one category only. */
  ghost predicate CategoriesSound(categories: map<Category, seq<EvidenceId>>, evidence: map<EvidenceId, Artifact>,
      a: ActionId) {
    && (forall c, e :: c in categories && e in categories[c] ==>
          e in evidence && evidence[e].actionId == Some(a) && evidence[e].source == a.material.source)
    && (forall c, d, e :: c in categories && d in categories && e in categories[c] && e in categories[d] ==> c == d)
    && (forall c :: c in categories ==> Distinct(categories[c]))
    && Invariant in categories && Boundary in categories && Counterexample in categories
  }

  /** What an approving verdict certifies about the action it names. */
  ghost predicate Certifies(g: Gate, evidence: map<EvidenceId, Artifact>) {
    var m := g.actionId.material;
    && CategoriesSound(g.categories, evidence, g.actionId)
    && (m.risk != L0 ==> g.categories[Invariant] != [] && g.categories[Boundary] != [])
    && (m.risk == L2 ==> g.categories[Counterexample] != [])
    && (forall r :: r in m.evidence ==> r in g.satisfied)
    && (g.verdict == Approve ==> g.uncovered == [])
    && (g.verdict == ApproveWithLimits ==> g.limits != NO_LIMITS && LimitsInside(g.limits, m))
  }

  /** Every limit that is given lies within what the action asks for; only an approval with
      limits certifies this. */
  ghost predicate LimitsInside(l: Limits, m: ActionMaterial) {
    && (l.targets.Some? ==> forall t :: t in l.targets.value ==> t in m.targets)
    && (l.capabilities.Some? ==> forall c :: c in l.capabilities.value ==> c in m.capabilities)
    && (l.commands.Some? ==> forall c :: c in l.commands.value ==> c in m.commands)
    && (l.maxUses.Some? ==> 1 <= l.maxUses.value <= m.useLimit)
  }

  ghost predicate GateSound(s: State) {
    s.gate.Some? && Approving(s.gate.value.verdict) ==> Certifies(s.gate.value, s.evidence)
  }

  /** When the loop over the items raises nothing, every item is in the registry, bound to
      the action and its snapshot, and no artifact is offered twice. */
  lemma {:induction false} ItemsAccepted(s: State, a: Action, items: seq<GateItem>, used: set<EvidenceId>)
    requires ItemsError(s, a, items, used).None?
    ensures forall i :: 0 <= i < |items| ==>
      (&& items[i].artifact in s.evidence
       && s.evidence[items[i].artifact].actionId == Some(a.id)
       && s.evidence[items[i].artifact].source == a.id.material.source
       && items[i].artifact !in used)
    ensures forall i, j :: 0 <= i < j < |items| ==> items[i].artifact != items[j].artifact
  {
    if items != [] {
      var rest, e := items[1..], items[0].artifact;
      ItemsAccepted(s, a, rest, used + {e});
      forall i | 1 <= i < |items| ensures items[i] == rest[i - 1] && items[i].artifact != e {}
      forall i, j | 0 <= i < j < |items| ensures items[i].artifact != items[j].artifact {
        if i > 0 {
          assert items[i] == rest[i - 1] && items[j] == rest[j - 1];
        }
      }
    }
  }

  /** The list under a category holds exactly the artifacts offered under it, once each. */
  lemma {:induction false} UnderExact(items: seq<GateItem>, c: Category)
    requires forall i, j :: 0 <= i < j < |items| ==> items[i].artifact != items[j].artifact
    ensures forall e :: e in Under(items, c) <==>
      exists i :: 0 <= i < |items| && items[i].category == c && items[i].artifact == e
    ensures Distinct(Under(items, c))
  {
    if items != [] {
      var init, last := items[..|items| - 1], items[|items| - 1];
      UnderExact(init, c);
      forall i | 0 <= i < |init| ensures init[i].artifact != last.artifact {
        assert items[i] == init[i];
      }
      assert !exists i :: 0 <= i < |init| && init[i].category == c && init[i].artifact == last.artifact;
      assert last.artifact !in Under(init, c);
      forall e ensures e in Under(items, c) <==>
        exists i :: 0 <= i < |items| && items[i].category == c && items[i].artifact == e {
        if e in Under(init, c) {
          var i :| 0 <= i < |init| && init[i].category == c && init[i].artifact == e;
          assert items[i] == init[i];
        }
        if exists i :: 0 <= i < |items| && items[i].category == c && items[i].artifact == e {
          var i :| 0 <= i < |items| && items[i].category == c && items[i].artifact == e;
          if i < |init| {
            assert init[i] == items[i];
          }
        }
      }
    }
  }

  /** A submitted gate that approves certifies its action. */
  lemma SubmittedGateSound(s: State, ignored: Ignored, proposed: Verdict, items: seq<GateItem>, uncovered: seq<string>,
      limits: Limits)
    requires GateSound(s)
    ensures GateSound(SubmitGate(s, ignored, proposed, items, uncovered, limits).state)
  {
    hide CurrentActionError, ItemsError, SatisfiedBy, CategoryMap, LimitsError, VerdictOf, Certifies;
    var r := SubmitGate(s, ignored, proposed, items, uncovered, limits);
    if r.state != s && Approving(r.state.gate.value.verdict) {
      ItemsAccepted(s, s.action.value, items, {});
      CategoriesExact(s, s.action.value, items);
      CertifiedByVerdict(s, r.state.gate.value, s.action.value);
    }
  }

  lemma CategoriesExact(s: State, a: Action, items: seq<GateItem>)
    requires forall i :: 0 <= i < |items| ==>
      (&& items[i].artifact in s.evidence
       && s.evidence[items[i].artifact].actionId == Some(a.id)
       && s.evidence[items[i].artifact].source == a.id.material.source)
    requires forall i, j :: 0 <= i < j < |items| ==> items[i].artifact != items[j].artifact
    ensures CategoriesSound(CategoryMap(items), s.evidence, a.id)
  {
    hide Under;
    var m := CategoryMap(items);
    forall c | c in m
      ensures m[c] == Under(items, c) && Distinct(m[c])
      ensures forall e :: e in m[c] ==> exists i :: 0 <= i < |items| && items[i].category == c && items[i].artifact == e
    {
      UnderExact(items, c);
    }
  }

  lemma CertifiedByVerdict(s: State, g: Gate, a: Action)
    requires CategoriesSound(g.categories, s.evidence, a.id) && g.actionId == a.id
    requires g.verdict == VerdictOf(a, g.proposed, g.categories, g.satisfied, g.uncovered, g.limits)
    requires g.proposed == ApproveWithLimits ==> LimitsError(a, g.limits).None?
    requires Approving(g.verdict)
    ensures Certifies(g, s.evidence)
  {
    hide CategoriesSound;
  }

  /** Gates stay sound: only a submission makes one, and the evidence it rests on stays. */
  lemma GateSoundStep(s: State, ignored: Ignored, c: Call)
    requires GateSound(s) && EvidenceFresh(s)
    ensures GateSound(Next(s, ignored, c).state)
  {
    hide ApplyStep, RestoreFrom, SnapshotOf, GovernanceError, CurrentActionError, ApplyError, VerifyAppliedError,
      CommandError, FinalizeError, ItemsError, VerdictOf, FinalizeEvidenceError, TestsCovered, LoadError, IdOf,
      MaterialOf, CandidateFiles, FirstOccurrences, CloseStep, PrepareStep, Certifies, WithEvidence;
    EvidenceGrows(s, ignored, c);
    if c.SubmitGateCall? {
      SubmittedGateSound(s, ignored, c.proposed, c.items, c.uncovered, c.limits);
    } else if s.gate.Some? && Approving(s.gate.value.verdict) {
      CertifiesStill(s.gate.value, s.evidence, Next(s, ignored, c).state.evidence);
      GateOnlyBySubmission(s, ignored, c);
    } else {
      GateOnlyBySubmission(s, ignored, c);
    }
  }

  lemma CertifiesStill(g: Gate, a: map<EvidenceId, Artifact>, b: map<EvidenceId, Artifact>)
    requires Certifies(g, a) && Grows(a, b)
    ensures Certifies(g, b)
  {
  }

  lemma GateOnlyBySubmission(s: State, ignored: Ignored, c: Call)
    requires !c.SubmitGateCall?
    ensures Next(s, ignored, c).state.gate.None? || Next(s, ignored, c).state.gate == s.gate
  {
    hide ApplyStep, RestoreFrom, SnapshotOf, GovernanceError, CurrentActionError, ApplyError, VerifyAppliedError,
      CommandError, FinalizeError, FinalizeEvidenceError, TestsCovered, LoadError, IdOf, MaterialOf, CandidateFiles,
      FirstOccurrences, CloseStep, PrepareStep;
  }

  // ----- actions -----

  lemma ProposalSound(s: State, ignored: Ignored, p: Proposal)
    ensures ActionSound(Action(ActionId(MaterialOf(s, ignored, p)), 0))
  {
    hide SnapshotOf;
  }

  /** A use is counted only when one was left, and never past the limit. */
  lemma ActionSoundStep(s: State, ignored: Ignored, c: Call)
    requires s.action.Some? ==> ActionSound(s.action.value)
    ensures var t := Next(s, ignored, c).state; t.action.Some? ==> ActionSound(t.action.value)
  {
    hide ApplyStep, RestoreFrom, SnapshotOf, GovernanceError, GateError, LimitError, TransitionError, PermissionError,
      VerifyAppliedError, FinalizeError, ItemsError, VerdictOf, LoadError, IdOf, MaterialOf, CandidateFiles,
      FirstOccurrences, CloseStep, PrepareStep, ActionSound, LimitsError, CategoriesMissing;
    var t := Next(s, ignored, c).state;
    if c.ProposeCall? {
      ProposalSound(s, ignored, c.proposal);
    } else if t.action.Some? && t.action != s.action {
      assert s.action.Some? && s.action.value.useCount < s.action.value.id.material.useLimit;
      OneMoreUse(s.action.value);
    }
  }

  lemma OneMoreUse(a: Action)
    requires ActionSound(a) && a.useCount < a.id.material.useLimit
    ensures ActionSound(a.(useCount := a.useCount + 1))
  {
  }

  // ----- the link between the pending action and its transaction -----

  lemma LinkSoundStep(s: State, ignored: Ignored, c: Call)
    requires s.store.WellFormed() && LinkSound(s)
    ensures LinkSound(Next(s, ignored, c).state)
  {
    hide Next, MoveOf, Moves;
    var t := Next(s, ignored, c).state;
    ActionLinkStep(s, ignored, c);
    if t.action.Some? && t.action.value.id.material.transaction.Some? && !c.ProposeCall? {
      var id := t.action.value.id.material.transaction.value;
      StatusGraph(s, ignored, c, id);
      LinkKept(s, ignored, c, id);
    }
  }

  /** The identity of the pending action changes only by a proposal or by losing it. */
  lemma ActionLinkStep(s: State, ignored: Ignored, c: Call)
    ensures var t := Next(s, ignored, c).state;
      if c.ProposeCall? && t != s then LinkSound(t)
      else t.action.None? || (s.action.Some? && t.action.value.id == s.action.value.id)
  {
    hide ApplyStep, RestoreFrom, SnapshotOf, GovernanceError, GateError, LimitError, TransitionError, PermissionError,
      VerifyAppliedError, FinalizeError, ItemsError, VerdictOf, LoadError, IdOf, CandidateFiles, FirstOccurrences,
      CloseStep, PrepareStep, LimitsError, CategoriesMissing;
  }

  lemma LinkKept(s: State, ignored: Ignored, c: Call, id: TransactionId)
    requires !c.ProposeCall? && id in s.store.transactions
    requires Moves(s.store, Next(s, ignored, c).state.store, id, MoveOf(s, ignored, c, id))
    requires s.store.WellFormed()
    ensures var t := Next(s, ignored, c).state.store;
      id in t.transactions && (t.transactions[id].actionId.None?
        || t.transactions[id].actionId == s.store.transactions[id].actionId)
  {
    hide Next;
    if c.ApplyCall? {
      ApplyKeepsAction(s, ignored, c, id);
    }
  }

  lemma ApplyKeepsAction(s: State, ignored: Ignored, c: Call, id: TransactionId)
    requires c.ApplyCall? && id in s.store.transactions && s.store.WellFormed()
    ensures var t := Next(s, ignored, c).state.store;
      id in t.transactions && t.transactions[id].actionId == s.store.transactions[id].actionId
  {
    hide Next, Written, ManifestOf, BackupsOf, HashesOf, RestoreFrom, SnapshotOf, ApplyError;
    NextOfApply(s, ignored, c);
    if c.id in s.store.transactions {
      ApplyTouchesOnlyTargets(s.store, ignored, c.id, c.faults);
    }
  }

  // ===== every run =====

  ghost predicate Safe(s: State) {
    && s.store.WellFormed() && OneOpen(s.store)
    && EvidenceFresh(s) && GateSound(s) && LinkSound(s)
    && (s.action.Some? ==> ActionSound(s.action.value))
  }

  lemma {:induction false} SafeInEveryRun(ss: seq<State>, cs: seq<Call>, ignored: Ignored, i: nat)
    requires IsRun(ss, cs, ignored) && i < |ss|
    ensures Safe(ss[i])
  {
    hide Next, ActionSound, GateSound, LinkSound, EvidenceFresh, OneOpen;
    if i > 0 {
      SafeInEveryRun(ss, cs, ignored, i - 1);
      var s, c := ss[i - 1], cs[i - 1];
      NextWellFormed(s, ignored, c);
      OneOpenStep(s, ignored, c);
      EvidenceGrows(s, ignored, c);
      GateSoundStep(s, ignored, c);
      LinkSoundStep(s, ignored, c);
      ActionSoundStep(s, ignored, c);
    } else {
      FreshIsSafe(ss[0].store.files, ss[0].authority);
    }
  }

  lemma FreshIsSafe(files: Files, authority: Authority)
    ensures Safe(Fresh(files, authority))
  {
  }

  // ----- gates before mutation -----

  /** Call j submitted this gate for the action that was then pending. */
  ghost predicate SubmittedAt(ss: seq<State>, cs: seq<Call>, ignored: Ignored, j: nat, g: Gate)
    requires j < |cs| && j + 1 < |ss|
  {
    && cs[j].SubmitGateCall?
    && Next(ss[j], ignored, cs[j]).refusal.None?
    && ss[j].action.Some? && ss[j].action.value.id == g.actionId
    && ss[j + 1].gate == Some(g)
  }

  lemma {:induction false} GateSubmittedEarlier(ss: seq<State>, cs: seq<Call>, ignored: Ignored, i: nat)
    returns (j: nat)
    requires IsRun(ss, cs, ignored) && i < |ss| && ss[i].gate.Some?
    ensures j < i && SubmittedAt(ss, cs, ignored, j, ss[i].gate.value)
    decreases i
  {
    hide Next;
    assert i > 0 by { if i == 0 { assert ss[0] == Fresh(ss[0].store.files, ss[0].authority); } }
    if ss[i - 1].gate == ss[i].gate {
      j := GateSubmittedEarlier(ss, cs, ignored, i - 1);
    } else {
      j := i - 1;
      if !cs[j].SubmitGateCall? { GateOnlyBySubmission(ss[j], ignored, cs[j]); }
      SubmissionMakesGate(ss[j], ignored, cs[j]);
    }
  }

  lemma SubmissionMakesGate(s: State, ignored: Ignored, c: Call)
    requires c.SubmitGateCall? && Next(s, ignored, c).state.gate != s.gate
    ensures var t := Next(s, ignored, c);
      && t.refusal.None? && s.action.Some? && t.state.gate.Some?
      && t.state.gate.value.actionId == s.action.value.id
  {
    hide CurrentActionError, ItemsError, VerdictOf, LimitsError, Under, SatisfiedBy, CategoryMap;
  }

  /** The calls that may change files: applications, and commands above L0. */
  predicate Mutating(c: Call) {
    c.ApplyCall? || (c.RunCommandCall? && c.risk != L0)
  }

  /** The call gets past its checks, so that what it does can begin. */
  predicate Admitted(s: State, ignored: Ignored, c: Call)
    requires Mutating(c)
  {
    match c
    case ApplyCall(id, yolo, approves, admits, _) => ApplyError(s, ignored, id, yolo, approves, admits).None?
    case RunCommandCall(risk, capability, command, allowed, admits, _) =>
      CommandError(s, ignored, risk, capability, command, allowed, admits).None?
  }

  /** A call that did not get past its checks changed nothing. */
  lemma RefusedChangesNothing(s: State, ignored: Ignored, c: Call)
    requires Mutating(c) && !Admitted(s, ignored, c)
    ensures Next(s, ignored, c).state == s && Next(s, ignored, c).refusal.Some?
  {
    hide ApplyError, CommandError, ApplyStep;
  }

  /** What admission means: a use is left under the action, and if the action is of risk L1 or
      L2 then an approving gate for it is current; if that gate approves with limits, a use is
      left under it too. The limits of a plain approval bind nothing. */
  ghost predicate UseLeft(s: State) {
    && s.action.Some?
    && var a := s.action.value;
      && a.useCount < a.id.material.useLimit
      && (a.id.material.risk != L0 ==>
            && s.gate.Some? && s.gate.value.actionId == a.id && Approving(s.gate.value.verdict)
            && (s.gate.value.verdict == ApproveWithLimits ==> a.useCount < MaxUses(s.gate.value.limits, a)))
  }

  lemma AdmittedHasUse(s: State, ignored: Ignored, c: Call)
    requires Mutating(c) && Admitted(s, ignored, c)
    ensures s.action.Some? && s.action.value.id.material.authority == AuthorityHash(s.authority) && UseLeft(s)
  {
    hide SnapshotOf, VerifyAppliedError, TransitionError, PermissionError;
  }

  /** The call got past its checks, or anything changed, or a transaction became APPLIED. */
  ghost predicate Acts(s: State, ignored: Ignored, c: Call) {
    var t := Next(s, ignored, c).state;
    || (Mutating(c) && (t != s || Admitted(s, ignored, c)))
    || exists id :: !IsApplied(s.store, id) && IsApplied(t.store, id)
  }

  lemma AppliedByApply(s: State, ignored: Ignored, c: Call, id: TransactionId)
    requires Safe(s) && !IsApplied(s.store, id) && IsApplied(Next(s, ignored, c).state.store, id)
    ensures c.ApplyCall? && c.id == id && Next(s, ignored, c).state != s
  {
    hide Next;
    BecomesApplied(s, ignored, c, id);
  }

  lemma ActsAdmitted(s: State, ignored: Ignored, c: Call)
    requires Safe(s) && Acts(s, ignored, c)
    ensures Mutating(c) && Admitted(s, ignored, c)
    ensures forall id :: !IsApplied(s.store, id) && IsApplied(Next(s, ignored, c).state.store, id) ==>
      c.ApplyCall? && id == c.id
  {
    hide Next, Safe, Admitted, IsApplied;
    forall id | !IsApplied(s.store, id) && IsApplied(Next(s, ignored, c).state.store, id)
      ensures c.ApplyCall? && id == c.id && Next(s, ignored, c).state != s
    {
      AppliedByApply(s, ignored, c, id);
    }
    if Mutating(c) && !Admitted(s, ignored, c) { RefusedChangesNothing(s, ignored, c); }
  }

  /** In every run, whatever an application or a command above L0 does to the files, to the
      records or to the use count of an action of risk L1 or L2, even if it raises afterwards,
      it does under an approving gate that an earlier call submitted for that very action:
      its artifacts were recorded under the same action and source snapshot, each fills one
      category once, the categories its risk asks for are filled, and all evidence the action
      and the operator's manifest require is satisfied. */
  lemma GateBeforeMutation(ss: seq<State>, cs: seq<Call>, ignored: Ignored, i: nat) returns (j: nat)
    requires IsRun(ss, cs, ignored) && i < |cs|
    requires Acts(ss[i], ignored, cs[i])
    requires ss[i].action.Some? && ss[i].action.value.id.material.risk != L0
    ensures Mutating(cs[i]) && Admitted(ss[i], ignored, cs[i]) && UseLeft(ss[i])
    ensures var a, gate := ss[i].action.value, ss[i].gate;
      && gate.Some? && gate.value.actionId == a.id && Approving(gate.value.verdict)
      && Certifies(gate.value, ss[i].evidence)
      && (forall e :: e in ss[i].authority.mandatoryEvidence ==> e in gate.value.satisfied)
      && j < i && SubmittedAt(ss, cs, ignored, j, gate.value)
  {
    hide Next, ActionSound, LinkSound, EvidenceFresh, OneOpen, SnapshotOf, Certifies, Admitted, Acts;
    SafeInEveryRun(ss, cs, ignored, i);
    ActsAdmitted(ss[i], ignored, cs[i]);
    AdmittedHasUse(ss[i], ignored, cs[i]);
    MandatoryEvidence(ss[i].action.value, ss[i].gate.value, ss[i].evidence);
    j := GateSubmittedEarlier(ss, cs, ignored, i);
  }

  /** In every run, a call that makes a transaction APPLIED, or that changes any file or record
      as an application, is an admitted `apply_transaction` of exactly the transaction the
      pending action is bound to, from the action's source snapshot. */
  lemma ApplicationIsBound(ss: seq<State>, cs: seq<Call>, ignored: Ignored, i: nat)
    requires IsRun(ss, cs, ignored) && i < |cs|
    requires Acts(ss[i], ignored, cs[i])
    requires cs[i].ApplyCall? || exists id :: !IsApplied(ss[i].store, id) && IsApplied(ss[i + 1].store, id)
    ensures cs[i].ApplyCall? && Admitted(ss[i], ignored, cs[i]) && ss[i].action.Some?
    ensures var a := ss[i].action.value;
      && a.id.material.transaction == Some(cs[i].id)
      && a.id.material.authority == AuthorityHash(ss[i].authority)
      && a.id.material.source == SnapshotOf(ss[i].store.files, ignored)
      && (a.id.material.risk == L2 ==> ss[i].authority.allowInteractiveL2)
      && (a.id.material.risk == L2 ==> cs[i].approves || (cs[i].yolo && ss[i].authority.allowYolo))
    ensures forall id :: !IsApplied(ss[i].store, id) && IsApplied(ss[i + 1].store, id) ==> id == cs[i].id
  {
    hide Next, Safe, SnapshotOf, IsApplied, ApplyError, CommandError, Acts;
    SafeInEveryRun(ss, cs, ignored, i);
    ActsAdmitted(ss[i], ignored, cs[i]);
    ApplyChecks(ss[i], ignored, cs[i].id, cs[i].yolo, cs[i].approves, cs[i].admits);
  }

  lemma MandatoryEvidence(a: Action, g: Gate, evidence: map<EvidenceId, Artifact>)
    requires ActionSound(a) && Certifies(g, evidence) && g.actionId == a.id
    ensures forall e :: e in a.id.material.authority.manifest.mandatoryEvidence ==> e in g.satisfied
  {
  }

  /** What passing the checks of `apply_transaction` means. */
  lemma ApplyChecks(s: State, ignored: Ignored, id: TransactionId, yolo: bool, approves: bool, admits: bool)
    requires ApplyError(s, ignored, id, yolo, approves, admits).None?
    ensures id in s.store.transactions && s.action.Some?
    ensures var a := s.action.value; var m := a.id.material;
      && m.transaction == Some(id) && m.authority == AuthorityHash(s.authority)
      && m.source == SnapshotOf(s.store.files, ignored)
      && a.useCount < m.useLimit
      && (m.risk != L0 ==> s.gate.Some? && s.gate.value.actionId == a.id && Approving(s.gate.value.verdict))
      && (m.risk != L0 && s.gate.value.verdict == ApproveWithLimits ==> a.useCount < MaxUses(s.gate.value.limits, a))
      && (m.risk == L2 ==> s.authority.allowInteractiveL2)
      && (m.risk == L2 ==> approves || (yolo && s.authority.allowYolo))
  {
    hide SnapshotOf;
  }

  // ----- use limits -----

  /** In every run the use count of the pending action is at most its limit. Every application
      and every command above L0 that gets past its checks or changes anything, even if it
      raises afterwards, finds a use left under the action, and under its gate if that approves
      with limits. It counts one use if it returns, and none if it raises. */
  lemma UseLimitsInEveryRun(ss: seq<State>, cs: seq<Call>, ignored: Ignored, i: nat)
    requires IsRun(ss, cs, ignored) && i < |ss|
    ensures ss[i].action.Some? ==> ss[i].action.value.useCount <= ss[i].action.value.id.material.useLimit
    ensures i < |cs| && Acts(ss[i], ignored, cs[i]) ==>
      && UseLeft(ss[i])
      && ss[i + 1].action == Some(UsedIf(Next(ss[i], ignored, cs[i]).refusal.None?, ss[i].action.value))
  {
    hide Next, LinkSound, EvidenceFresh, OneOpen, SnapshotOf, GateSound, Admitted, UseLeft, Acts;
    SafeInEveryRun(ss, cs, ignored, i);
    if i < |cs| && Acts(ss[i], ignored, cs[i]) {
      ActsAdmitted(ss[i], ignored, cs[i]);
      AdmittedHasUse(ss[i], ignored, cs[i]);
      UseCounted(ss[i], ignored, cs[i]);
    }
  }

  function UsedIf(returned: bool, a: Action): Action {
    if returned then a.(useCount := a.useCount + 1) else a
  }

  lemma UseCounted(s: State, ignored: Ignored, c: Call)
    requires Mutating(c) && s.action.Some?
    ensures Next(s, ignored, c).state.action == Some(UsedIf(Next(s, ignored, c).refusal.None?, s.action.value))
  {
    hide ApplyStep, SnapshotOf, ApplyError, CommandError;
    if c.ApplyCall? && ApplyError(s, ignored, c.id, c.yolo, c.approves, c.admits).None? {
      ApplyChecks(s, ignored, c.id, c.yolo, c.approves, c.admits);
    }
  }

  // ----- governance revokes -----

  /** Establishing governance takes the pending action and its gate away: until something is
      proposed again no application or command above L0 gets past its checks, nothing becomes
      APPLIED, and every gate and every finalize is refused. */
  lemma GovernanceRevokes(ss: seq<State>, cs: seq<Call>, ignored: Ignored, g: nat, i: nat)
    requires IsRun(ss, cs, ignored) && g < i < |cs| && cs[g] == EstablishGovernanceCall(true)
    requires forall k :: g < k < i ==> !cs[k].ProposeCall?
    ensures ss[i].action.None? && !Acts(ss[i], ignored, cs[i])
    ensures cs[i].SubmitGateCall? || cs[i].FinalizeCall? ==>
      Next(ss[i], ignored, cs[i]).refusal.Some? && ss[i + 1] == ss[i]
  {
    hide Next, Acts, Admitted;
    ActionStaysAway(ss, cs, ignored, g, i);
    SafeInEveryRun(ss, cs, ignored, i);
    if Acts(ss[i], ignored, cs[i]) {
      ActsAdmitted(ss[i], ignored, cs[i]);
      AdmittedHasUse(ss[i], ignored, cs[i]);
    }
    if cs[i].SubmitGateCall? || cs[i].FinalizeCall? { NoActionRefuses(ss[i], ignored, cs[i]); }
  }

  lemma {:induction false} ActionStaysAway(ss: seq<State>, cs: seq<Call>, ignored: Ignored, g: nat, i: nat)
    requires IsRun(ss, cs, ignored) && g < i <= |cs| && cs[g] == EstablishGovernanceCall(true)
    requires forall k :: g < k < i ==> !cs[k].ProposeCall?
    ensures ss[i].action.None?
  {
    if g + 1 < i {
      hide Next;
      ActionStaysAway(ss, cs, ignored, g, i - 1);
      ActionLinkStep(ss[i - 1], ignored, cs[i - 1]);
    }
  }

  lemma NoActionRefuses(s: State, ignored: Ignored, c: Call)
    requires s.action.None? && (c.SubmitGateCall? || c.FinalizeCall?)
    ensures Next(s, ignored, c).refusal.Some? && Next(s, ignored, c).state == s
  {
    hide SnapshotOf;
  }

  // ----- test evidence before VERIFIED -----

  /** Call j ran this command and recorded artifact e for it. */
  ghost predicate RecordedAt(ss: seq<State>, cs: seq<Call>, ignored: Ignored, j: nat, e: EvidenceId, artifact: Artifact)
    requires j < |cs| && j < |ss|
  {
    && cs[j].RunCommandCall?
    && Next(ss[j], ignored, cs[j]).refusal.None?
    && ss[j].nextEvent == e
    && artifact.description == cs[j].command
    && artifact.success == cs[j].effect.success
    && artifact.actionId == ActionIdOf(ss[j])
  }

  lemma {:induction false} CommandRecordedEarlier(ss: seq<State>, cs: seq<Call>, ignored: Ignored, i: nat,
      e: EvidenceId) returns (j: nat)
    requires IsRun(ss, cs, ignored) && i < |ss|
    requires e in ss[i].evidence && ss[i].evidence[e].kind == CommandEvidence
    ensures j < i && RecordedAt(ss, cs, ignored, j, e, ss[i].evidence[e])
    decreases i
  {
    hide Next, GateSound, LinkSound, OneOpen, ActionSound;
    assert i > 0 by { if i == 0 { assert ss[0] == Fresh(ss[0].store.files, ss[0].authority); } }
    SafeInEveryRun(ss, cs, ignored, i - 1);
    EvidenceGrows(ss[i - 1], ignored, cs[i - 1]);
    if e in ss[i - 1].evidence {
      j := CommandRecordedEarlier(ss, cs, ignored, i - 1, e);
    } else {
      j := i - 1;
      NewCommandEvidence(ss[j], ignored, cs[j], e);
    }
  }

  lemma NewCommandEvidence(s: State, ignored: Ignored, c: Call, e: EvidenceId)
    requires e !in s.evidence && e in Next(s, ignored, c).state.evidence
    requires Next(s, ignored, c).state.evidence[e].kind == CommandEvidence
    ensures c.RunCommandCall? && Next(s, ignored, c).refusal.None?
    ensures var artifact := Next(s, ignored, c).state.evidence[e];
      s.nextEvent == e && artifact.description == c.command && artifact.success == c.effect.success
        && artifact.actionId == ActionIdOf(s)
  {
    hide ApplyStep, RestoreFrom, SnapshotOf, GovernanceError, CurrentActionError, ApplyError, VerifyAppliedError,
      CommandError, FinalizeError, ItemsError, VerdictOf, FinalizeEvidenceError, TestsCovered, LoadError, IdOf,
      MaterialOf, CandidateFiles, FirstOccurrences, CloseStep, PrepareStep;
  }

  /** A command above L0 that gets past its checks under an action bound to a transaction, even
      if it times out afterwards, starts from a workspace that is exactly what applying the
      transaction left. */
  lemma CommandStartsFromApplied(s: State, ignored: Ignored, c: Call, id: TransactionId)
    requires c.RunCommandCall? && c.risk != L0 && Admitted(s, ignored, c)
    requires s.action.Some? && s.action.value.id.material.transaction == Some(id)
    ensures IsApplied(s.store, id)
    ensures s.store.transactions[id].appliedSnapshot.Some? ==>
      SnapshotOf(s.store.files, ignored) == s.store.transactions[id].appliedSnapshot.value
  {
    hide SnapshotOf, GateError, LimitError, TransitionError;
  }

  /** What passing the checks of `finalize_transaction` means. */
  lemma {:induction false} FinalizeEvidenceSound(s: State, a: Action, ids: seq<EvidenceId>)
    requires FinalizeEvidenceError(s, a, ids).None?
    ensures forall e :: e in ids ==>
      e in s.evidence && s.evidence[e].kind == CommandEvidence && s.evidence[e].success
      && s.evidence[e].actionId == Some(a.id)
  {
    if ids != [] {
      FinalizeEvidenceSound(s, a, ids[1..]);
      assert ids == [ids[0]] + ids[1..];
    }
  }

  predicate IsVerified(s: Store, id: TransactionId) {
    id in s.transactions && s.transactions[id].status == Verified
  }

  lemma BecomesVerified(s: State, ignored: Ignored, c: Call, id: TransactionId)
    requires s.store.WellFormed()
    requires !IsVerified(s.store, id) && IsVerified(Next(s, ignored, c).state.store, id)
    ensures id in s.store.transactions && s.store.transactions[id].status == Applied
    ensures c.FinalizeCall? && c.id == id && FinalizeError(s, ignored, id, c.evidenceIds).None?
  {
    hide Next, FinalizeError;
    StatusGraph(s, ignored, c, id);
    if c.FinalizeCall? {
      FinalizeUnchanged(s, ignored, c);
    }
  }

  lemma FinalizeUnchanged(s: State, ignored: Ignored, c: Call)
    requires c.FinalizeCall?
    ensures FinalizeError(s, ignored, c.id, c.evidenceIds).Some? ==> Next(s, ignored, c).state == s
  {
    hide FinalizeError;
  }

  lemma FinalizeChecks(s: State, ignored: Ignored, id: TransactionId, ids: seq<EvidenceId>)
    requires id in s.store.transactions && FinalizeError(s, ignored, id, ids).None?
    ensures s.action.Some?
    ensures s.action.value.id.material.transaction == Some(id)
    ensures s.action.value.id.material.authority == AuthorityHash(s.authority)
    ensures VerifyAppliedError(s.store, ignored, id).None?
    ensures FinalizeEvidenceError(s, s.action.value, ids).None?
    ensures TestsCovered(s, s.action.value, ids)
  {
    hide SnapshotOf, VerifyAppliedError, FinalizeEvidenceError, TestsCovered;
  }

  /** Artifact e proves test t of the action: call j ran exactly that command under the same
      action with return code zero and, if it is above L0, from a workspace whose snapshot
      was the applied snapshot of the transaction. */
  ghost predicate ProvedAt(ss: seq<State>, cs: seq<Call>, ignored: Ignored, j: nat, a: ActionId, id: TransactionId,
      applied: SnapshotHash, t: string)
    requires j < |cs| && j < |ss|
  {
    && cs[j].RunCommandCall? && cs[j].command == t && cs[j].effect.success
    && Next(ss[j], ignored, cs[j]).refusal.None?
    && ActionIdOf(ss[j]) == Some(a)
    && (cs[j].risk != L0 ==> IsApplied(ss[j].store, id) && SnapshotOf(ss[j].store.files, ignored) == applied)
  }

  /** In every run a transaction becomes VERIFIED only by a finalize under the action bound to
      it, in a workspace whose snapshot is still the applied one; and every test the action
      requires, all the operator's mandatory tests among them, was passed by an earlier
      command under that action, started (above L0) from that very snapshot. */
  lemma VerifiedOnlyWithTests(ss: seq<State>, cs: seq<Call>, ignored: Ignored, i: nat, id: TransactionId)
    requires IsRun(ss, cs, ignored) && i < |cs|
    requires !IsVerified(ss[i].store, id) && IsVerified(ss[i + 1].store, id)
    ensures id in ss[i].store.transactions && ss[i].store.transactions[id].status == Applied
    ensures ss[i].action.Some? && ss[i].action.value.id.material.transaction == Some(id)
    ensures ss[i].store.transactions[id].appliedSnapshot == Some(SnapshotOf(ss[i].store.files, ignored))
    ensures forall t :: t in ss[i].authority.mandatoryTests ==> t in ss[i].action.value.id.material.requiredTests
    ensures forall t :: t in ss[i].action.value.id.material.requiredTests ==>
      exists j: nat :: j < i && ProvedAt(ss, cs, ignored, j, ss[i].action.value.id, id,
          SnapshotOf(ss[i].store.files, ignored), t)
  {
    hide Next, GateSound, LinkSound, OneOpen, EvidenceFresh, SnapshotOf, FinalizeError, ProvedAt, CommandError;
    var s, c := ss[i], cs[i];
    SafeInEveryRun(ss, cs, ignored, i);
    BecomesVerified(s, ignored, c, id);
    FinalizeChecks(s, ignored, id, c.evidenceIds);
    var a := s.action.value;
    FinalizeEvidenceSound(s, a, c.evidenceIds);
    AppliedSnapshotSettled(ss, cs, ignored, i, id);
    StillApplied(s.store, ignored, id);
    forall t | t in a.id.material.requiredTests
      ensures exists j: nat :: j < i && ProvedAt(ss, cs, ignored, j, a.id, id, SnapshotOf(s.store.files, ignored), t)
    {
      var e :| e in c.evidenceIds && e in s.evidence && s.evidence[e].description == t;
      var j := CommandRecordedEarlier(ss, cs, ignored, i, e);
      ProofOfTest(ss, cs, ignored, j, a.id, id, SnapshotOf(s.store.files, ignored), t);
    }
  }

  lemma StillApplied(s: Store, ignored: Ignored, id: TransactionId)
    requires id in s.transactions && VerifyAppliedError(s, ignored, id).None?
      && s.transactions[id].appliedSnapshot.Some?
    ensures s.transactions[id].appliedSnapshot == Some(SnapshotOf(s.files, ignored))
  {
  }

  lemma ProofOfTest(ss: seq<State>, cs: seq<Call>, ignored: Ignored, j: nat, a: ActionId, id: TransactionId,
      applied: SnapshotHash, t: string)
    requires IsRun(ss, cs, ignored) && j < |cs|
    requires cs[j].RunCommandCall? && cs[j].command == t && cs[j].effect.success
      && Next(ss[j], ignored, cs[j]).refusal.None?
    requires ActionIdOf(ss[j]) == Some(a) && a.material.transaction == Some(id)
    requires applied == AppliedSnapshotOf(id, ignored)
    ensures ProvedAt(ss, cs, ignored, j, a, id, applied, t)
  {
    hide Next, SnapshotOf, AppliedSnapshotOf, Admitted;
    if cs[j].risk != L0 {
      if !Admitted(ss[j], ignored, cs[j]) { RefusedChangesNothing(ss[j], ignored, cs[j]); }
      CommandStartsFromApplied(ss[j], ignored, cs[j], id);
      AppliedSnapshotSettled(ss, cs, ignored, j, id);
    }
  }
}
