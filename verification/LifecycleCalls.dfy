/** What each tool call does, said of the fields it reads and writes: exactly when it returns
    normally, and the state it then leaves. The refusals and helpers of `Lifecycle` are not
    named, so that each of its functions is held against a second account of the same call. */
module LifecycleCalls {
  import opened Results
  import opened Ordering
  import opened Disk
  import opened Records
  import opened Transactions
  import opened Lifecycle
  import opened LifecycleRuns
  import opened LifecycleSafety
  import opened LifecycleLimits
  import opened LifecycleRestart

  // ----- conditions several calls share -----

  ghost predicate Governed(s: State) {
    s.governance == Some(AuthorityHash(s.authority))
  }

  /** Governance and the pending action are those of the current manifest; the transaction it
      is bound to is known; and unless that one left PREPARED, the files are the action's. */
  ghost predicate Current(s: State, ignored: Ignored) {
    && Governed(s) && s.action.Some?
    && var m := s.action.value.id.material;
      && m.authority == AuthorityHash(s.authority)
      && (m.transaction.Some? ==> m.transaction.value in s.store.transactions)
      && (m.transaction.None? || s.store.transactions[m.transaction.value].status == Prepared ==>
            SnapshotOf(s.store.files, ignored) == m.source)
  }

  ghost predicate UseIsLeft(s: State) {
    s.action.Some? && s.action.value.useCount < s.action.value.id.material.useLimit
  }

  /** Above L0, the gate of the pending action approves. */
  ghost predicate Gated(s: State)
    requires s.action.Some?
  {
    s.action.value.id.material.risk == L0 ||
      (s.gate.Some? && s.gate.value.actionId == s.action.value.id
       && s.gate.value.verdict in {Approve, ApproveWithLimits})
  }

  /** Above L0, the call is within the limits of a gate that approves with limits. */
  ghost predicate Unlimited(s: State, c: Call)
    requires s.action.Some? && Mutating(c)
  {
    s.action.value.id.material.risk != L0 && s.gate.Some? && s.gate.value.verdict == ApproveWithLimits ==>
      WithinLimits(s, c)
  }

  /** Nothing is needed below L1. An L1 call goes through alone if the manifest lets it. Any
      other needs a yes, or the flag and the permission for it, and at L2 the permission for
      interactive use besides. */
  ghost predicate Permitted(authority: Authority, risk: Risk, yolo: bool, approves: bool) {
    || risk == L0
    || (risk == L1 && authority.allowL1AutoApply && authority.maxAutomaticRisk in {L1, L2})
    || ((risk == L2 ==> authority.allowInteractiveL2) && ((yolo && authority.allowYolo) || (!yolo && approves)))
  }

  /** The transaction is applied, and targets and workspace are as the application left them. */
  ghost predicate AsApplied(s: Store, ignored: Ignored, id: TransactionId) {
    && id in s.transactions && s.transactions[id].status in {Applied, Verified}
    && (forall t :: t in s.transactions[id].appliedHashes ==>
          t in s.files && FileHash(s.files[t].bytes) == s.transactions[id].appliedHashes[t])
    && (s.transactions[id].appliedSnapshot.Some? ==>
          s.transactions[id].appliedSnapshot.value == SnapshotOf(s.files, ignored))
  }

  /** The candidate directory holds for every target what the identifier was made of. */
  ghost predicate Intact(candidates: Candidates, id: TransactionId) {
    forall t :: t in id.targets ==>
      && (id, t) in candidates && t in id.candidate.hashes
      && id.candidate.hashes[t] == FileHash(candidates[(id, t)])
  }

  lemma IntactExactlyWhen(candidates: Candidates, id: TransactionId)
    ensures CandidateIntact(candidates, id) <==> Intact(candidates, id)
  {
  }

  lemma CurrentExactlyWhen(s: State, ignored: Ignored, named: Option<TransactionId>, needsUse: bool)
    ensures CurrentActionError(s, ignored, named, needsUse).None? <==>
      && Current(s, ignored) && (needsUse ==> UseIsLeft(s))
      && (named.Some? ==> s.action.value.id.material.transaction == named)
  {
    hide SnapshotOf;
  }

  lemma AsAppliedExactlyWhen(s: Store, ignored: Ignored, id: TransactionId)
    requires id in s.transactions
    ensures VerifyAppliedError(s, ignored, id).None? <==> AsApplied(s, ignored, id)
  {
    hide SnapshotOf;
  }

  lemma PermittedExactlyWhen(authority: Authority, risk: Risk, yolo: bool, approves: bool)
    ensures PermissionError(authority, risk, yolo, approves).None? <==> Permitted(authority, risk, yolo, approves)
  {
  }

  // ----- governance and preparation -----

  lemma GovernanceIs(s: State, ignored: Ignored, admits: bool)
    ensures var r := Next(s, ignored, EstablishGovernanceCall(admits));
      && (r.refusal.None? <==> admits)
      && r.state == if admits then s.(governance := Some(AuthorityHash(s.authority)), action := None,
          gate := None) else s
  {
  }

  /** Governance is current, the manifest may write, was issued for these files or for none in particular, and
      nothing is unresolved. */
  ghost predicate MayPrepare(s: State, ignored: Ignored) {
    && Governed(s) && !s.authority.readOnly
    && (s.authority.source.Some? ==> s.authority.source.value == SnapshotOf(s.store.files, ignored))
    && (forall other :: other in s.store.transactions ==>
          s.store.transactions[other].status !in {Prepared, Applied})
  }

  lemma MayPrepareExactlyWhen(s: State, ignored: Ignored, contents: map<Path, Bytes>, admits: bool)
    ensures PrepareError(s, ignored, contents, admits).None? <==>
      MayPrepare(s, ignored) && admits && contents != map[]
  {
    hide SnapshotOf;
  }

  lemma CandidatesAdded(before: Candidates, id: TransactionId, contents: map<Path, Bytes>)
    ensures Added(before, before + CandidateFiles(id, contents), id, contents)
  {
  }

  /** A prepare that is accepted adds the candidates and a fresh record, and makes it active if
      the record file can be written. */
  lemma PrepareExactlyWhen(s: State, ignored: Ignored, c: Call)
    requires c.PrepareCall?
    ensures var r, id := Next(s, ignored, c), IdOf(c.operation, c.contents, SnapshotOf(s.store.files, ignored));
      var accepted := MayPrepare(s, ignored) && c.admits && c.contents != map[];
      && (r.refusal.None? <==> accepted && !c.recordFails)
      && (!accepted ==> r.state == s)
      && (accepted ==>
            && r.state == s.(store := r.state.store, active := if c.recordFails then s.active else Some(id))
            && r.state.store == s.store.(candidates := r.state.store.candidates, transactions :=
                 s.store.transactions[id := TransactionRecord(id, AuthorityHash(s.authority), Prepared, None,
                                                              map[], None, map[], [])])
            && Added(s.store.candidates, r.state.store.candidates, id, c.contents))
  {
    NextIs(s, ignored, c);
    MayPrepareExactlyWhen(s, ignored, c.contents, c.admits);
    CandidatesAdded(s.store.candidates, IdOf(c.operation, c.contents, SnapshotOf(s.store.files, ignored)), c.contents);
    hide Next, SnapshotOf, IdOf, MayPrepare, PrepareError, CandidateFiles, Added;
  }

  /** The candidate directory of `id` holds the new contents, and nothing else changed. */
  ghost predicate Added(before: Candidates, after: Candidates, id: TransactionId, contents: map<Path, Bytes>) {
    && (forall p :: p in contents ==> (id, p) in after && after[(id, p)] == contents[p])
    && (forall k: (TransactionId, Path) :: (k.0 != id || k.1 !in contents) ==>
          (k in after <==> k in before) && (k in before ==> after[k] == before[k]))
  }

  // ----- proposals -----

  /** What a proposal asks for is in the material of its action, besides what the manifest
      makes mandatory, and nothing more. */
  ghost predicate AskedFor(authority: Authority, source: SnapshotHash, p: Proposal, m: ActionMaterial) {
    && m.statement == p.statement && m.operation == p.operation && m.targets == p.targets && m.risk == p.risk
    && m.transaction == p.transaction && m.capabilities == p.capabilities
    && m.authority == AuthorityHash(authority) && m.source == source
    && (forall e :: e in m.evidence <==> e in authority.mandatoryEvidence || e in p.evidence)
    && (forall t :: t in m.requiredTests <==> t in authority.mandatoryTests || t in p.requiredTests)
    && (forall c :: c in m.commands <==> c in p.commands || c in authority.mandatoryTests || c in p.requiredTests)
    && Distinct(m.evidence) && Distinct(m.requiredTests) && Distinct(m.commands)
    && (1 <= p.useLimit <= 20 ==> m.useLimit == p.useLimit)
    && (p.useLimit < 1 ==> m.useLimit == 1) && (p.useLimit > 20 ==> m.useLimit == 20)
  }

  lemma MaterialIsAskedFor(s: State, ignored: Ignored, p: Proposal)
    ensures AskedFor(s.authority, SnapshotOf(s.store.files, ignored), p, MaterialOf(s, ignored, p))
  {
    hide SnapshotOf, FirstOccurrences;
  }

  /** A proposal is accepted under current governance if policy admits it and, with a
      transaction, that is known, has the same targets and was prepared from these files, and
      without one, it does not ask for a change of files. It makes the action it asks for
      pending, unused and without a gate, and binds the transaction to it. */
  lemma ProposeExactlyWhen(s: State, ignored: Ignored, p: Proposal, admits: bool)
    ensures var r := Next(s, ignored, ProposeCall(p, admits));
      && (r.refusal.None? <==>
            && Governed(s) && admits
            && (p.transaction.None? ==> p.operation !in {"write_file", "replace_text", "apply_transaction"})
            && (p.transaction.Some? ==>
                  && p.transaction.value in s.store.transactions
                  && p.transaction.value.source == SnapshotOf(s.store.files, ignored)
                  && forall t :: t in p.transaction.value.targets <==> t in p.targets))
      && (r.refusal.Some? ==> r.state == s)
      && (r.refusal.None? ==>
            && r.state.action.Some? && r.state.action.value.useCount == 0 && r.state.gate.None?
            && AskedFor(s.authority, SnapshotOf(s.store.files, ignored), p, r.state.action.value.id.material)
            && r.state == s.(store := r.state.store, action := r.state.action, gate := None)
            && r.state.store == s.store.(transactions := if p.transaction.None? then s.store.transactions
                 else s.store.transactions[p.transaction.value :=
                        s.store.transactions[p.transaction.value].(actionId := Some(r.state.action.value.id))]))
  {
    MaterialIsAskedFor(s, ignored, p);
    NextIs(s, ignored, ProposeCall(p, admits));
    hide Next, SnapshotOf, MaterialOf, AskedFor;
    if p.transaction.Some? { SameMembers(p.transaction.value.targets, p.targets); }
  }

  lemma SameMembers(a: seq<Path>, b: seq<Path>)
    ensures (set t | t in a) == (set t | t in b) <==> forall t :: t in a <==> t in b
  {
    var x, y := set t | t in a, set t | t in b;
    assert forall t :: t in x <==> t in a;
    assert forall t :: t in y <==> t in b;
  }

  // ----- gates -----

  /** Every item names a registered artifact of the action and its snapshot, none twice. */
  ghost predicate ItemsGood(evidence: map<EvidenceId, Artifact>, a: ActionId, items: seq<GateItem>) {
    && (forall i :: 0 <= i < |items| ==>
          && items[i].artifact in evidence
          && evidence[items[i].artifact].actionId == Some(a)
          && evidence[items[i].artifact].source == a.material.source)
    && (forall i, j :: 0 <= i < j < |items| ==> items[i].artifact != items[j].artifact)
  }

  ghost predicate Offers(items: seq<GateItem>, c: Category) {
    exists i :: 0 <= i < |items| && items[i].category == c
  }

  ghost predicate Satisfies(items: seq<GateItem>, r: string) {
    exists i :: 0 <= i < |items| && r in items[i].satisfies
  }

  /** What a gate needs so that the proposed verdict stands. */
  ghost predicate Sufficient(m: ActionMaterial, proposed: Verdict, items: seq<GateItem>, uncovered: seq<string>,
      limits: Limits) {
    && (m.risk in {L1, L2} ==> Offers(items, Invariant) && Offers(items, Boundary))
    && (m.risk == L2 ==> Offers(items, Counterexample))
    && (forall r :: r in m.evidence ==> Satisfies(items, r))
    && (proposed == Approve ==> uncovered == [])
    && (proposed == ApproveWithLimits ==>
          limits.targets.Some? || limits.capabilities.Some? || limits.commands.Some? || limits.maxUses.Some?)
  }

  /** The items are filed under their categories, each under its own. */
  ghost predicate Filed(items: seq<GateItem>, categories: map<Category, seq<EvidenceId>>) {
    forall c: Category ::
      && c in categories && Distinct(categories[c])
      && forall e :: e in categories[c] <==>
         exists i :: 0 <= i < |items| && items[i] == GateItem(e, c, items[i].satisfies)
  }

  lemma {:induction false} ItemsExactlyWhen(s: State, a: Action, items: seq<GateItem>, used: set<EvidenceId>)
    ensures ItemsError(s, a, items, used).None? <==>
      ItemsGood(s.evidence, a.id, items) && forall i :: 0 <= i < |items| ==> items[i].artifact !in used
  {
    if ItemsError(s, a, items, used).None? {
      ItemsAccepted(s, a, items, used);
    } else if ItemsGood(s.evidence, a.id, items) && forall i :: 0 <= i < |items| ==> items[i].artifact !in used {
      var rest := items[1..];
      ItemsExactlyWhen(s, a, rest, used + {items[0].artifact});
      assert forall i :: 0 <= i < |rest| ==> rest[i] == items[i + 1];
    }
  }

  lemma LimitsExactlyWhen(a: Action, l: Limits)
    ensures LimitsError(a, l).None? <==> LimitsInside(l, a.id.material)
  {
    var m := a.id.material;
    assert l.targets.Some? ==> (l.targets.value <= (set t | t in m.targets) <==>
      forall t :: t in l.targets.value ==> t in m.targets);
    assert l.capabilities.Some? ==> (l.capabilities.value <= (set t | t in m.capabilities) <==>
      forall t :: t in l.capabilities.value ==> t in m.capabilities);
    assert l.commands.Some? ==> (l.commands.value <= (set t | t in m.commands) <==>
      forall t :: t in l.commands.value ==> t in m.commands);
  }

  lemma OffersExactlyWhen(items: seq<GateItem>, c: Category)
    requires forall i, j :: 0 <= i < j < |items| ==> items[i].artifact != items[j].artifact
    ensures Under(items, c) == [] <==> !Offers(items, c)
  {
    UnderExact(items, c);
    if Offers(items, c) {
      var i :| 0 <= i < |items| && items[i].category == c;
      assert items[i].artifact in Under(items, c);
    }
    if Under(items, c) != [] {
      var e := Under(items, c)[0];
      assert e in Under(items, c);
      var i :| 0 <= i < |items| && items[i].category == c && items[i].artifact == e;
      assert Offers(items, c);
    }
  }

  lemma VerdictExactlyWhen(a: Action, proposed: Verdict, items: seq<GateItem>, uncovered: seq<string>, limits: Limits)
    requires forall i, j :: 0 <= i < j < |items| ==> items[i].artifact != items[j].artifact
    ensures VerdictOf(a, proposed, CategoryMap(items), SatisfiedBy(items), uncovered, limits) ==
      if Sufficient(a.id.material, proposed, items, uncovered, limits) then proposed else RequestEvidence
  {
    hide Under, Offers;
    OffersExactlyWhen(items, Invariant);
    OffersExactlyWhen(items, Boundary);
    OffersExactlyWhen(items, Counterexample);
    assert forall r :: r in SatisfiedBy(items) <==> Satisfies(items, r);
  }

  lemma CategoryOf(items: seq<GateItem>, c: Category)
    ensures c in CategoryMap(items) && CategoryMap(items)[c] == Under(items, c)
  {
    hide Under;
    match c {
      case Invariant => case Boundary => case Counterexample => case Test => case Observation =>
    }
  }

  lemma FiledExactly(items: seq<GateItem>)
    requires forall i, j :: 0 <= i < j < |items| ==> items[i].artifact != items[j].artifact
    ensures Filed(items, CategoryMap(items))
  {
    hide Under;
    var m := CategoryMap(items);
    forall c: Category
      ensures c in m && Distinct(m[c])
      ensures forall e :: e in m[c] <==> exists i :: 0 <= i < |items| && items[i] == GateItem(e, c, items[i].satisfies)
    {
      UnderExact(items, c);
      CategoryOf(items, c);
      forall e ensures e in m[c] <==> exists i :: 0 <= i < |items| && items[i] == GateItem(e, c, items[i].satisfies) {
        if e in m[c] {
          var i :| 0 <= i < |items| && items[i].category == c && items[i].artifact == e;
          assert items[i] == GateItem(e, c, items[i].satisfies);
        }
      }
    }
  }

  /** A submission is accepted under a current action with a use left if its items are good
      and, for an approval with limits, the limits lie within the action. The gate files the
      items, and its verdict is the proposed one if the gate is sufficient for it, and to
      request evidence if not. */
  lemma SubmitExactlyWhen(s: State, ignored: Ignored, c: Call)
    requires c.SubmitGateCall?
    ensures var r := Next(s, ignored, c);
      && (r.refusal.None? <==>
            && Current(s, ignored) && UseIsLeft(s) && ItemsGood(s.evidence, s.action.value.id, c.items)
            && (c.proposed == ApproveWithLimits ==> LimitsInside(c.limits, s.action.value.id.material)))
      && (r.refusal.Some? ==> r.state == s)
      && (r.refusal.None? ==>
            && r.state.gate.Some? && r.state == s.(gate := r.state.gate)
            && var g, a := r.state.gate.value, s.action.value.id;
              && g.actionId == a && g.proposed == c.proposed && g.uncovered == c.uncovered && g.limits == c.limits
              && Filed(c.items, g.categories)
              && (forall q :: q in g.satisfied <==> Satisfies(c.items, q))
              && g.verdict == if Sufficient(a.material, c.proposed, c.items, c.uncovered, c.limits)
                              then c.proposed else RequestEvidence)
  {
    CurrentExactlyWhen(s, ignored, None, true);
    NextIs(s, ignored, c);
    hide Next, SnapshotOf, CurrentActionError, Current, ItemsError, ItemsGood, LimitsError, LimitsInside, VerdictOf,
      CategoryMap, Filed, Sufficient, SatisfiedBy, Satisfies, UseIsLeft;
    if CurrentActionError(s, ignored, None, true).None? {
      UsePending(s);
      ItemsExactlyWhen(s, s.action.value, c.items, {});
      LimitsExactlyWhen(s.action.value, c.limits);
      if ItemsGood(s.evidence, s.action.value.id, c.items) {
        GoodItemsDiffer(s.evidence, s.action.value.id, c.items);
        VerdictExactlyWhen(s.action.value, c.proposed, c.items, c.uncovered, c.limits);
        FiledExactly(c.items);
        SatisfiedExactly(c.items);
      }
    }
  }

  lemma UsePending(s: State)
    requires UseIsLeft(s)
    ensures s.action.Some?
  {
  }

  lemma GoodItemsDiffer(evidence: map<EvidenceId, Artifact>, a: ActionId, items: seq<GateItem>)
    requires ItemsGood(evidence, a, items)
    ensures forall i, j :: 0 <= i < j < |items| ==> items[i].artifact != items[j].artifact
  {
  }

  lemma SatisfiedExactly(items: seq<GateItem>)
    ensures forall q :: q in SatisfiedBy(items) <==> Satisfies(items, q)
  {
  }

  // ----- applications and commands -----

  /** What an application has to meet before the engine is asked. */
  ghost predicate MayApply(s: State, ignored: Ignored, c: Call)
    requires c.ApplyCall?
  {
    && c.id in s.store.transactions && Current(s, ignored) && UseIsLeft(s) && c.admits
    && Gated(s) && Unlimited(s, c)
    && var m := s.action.value.id.material;
      && m.transaction == Some(c.id) && m.source == SnapshotOf(s.store.files, ignored)
      && Permitted(s.authority, m.risk, c.yolo, c.approves)
  }

  /** What a command has to meet before it runs: above L0 an action that names it, and a
      workspace that is the action's, or as its transaction left it. */
  ghost predicate MayRun(s: State, ignored: Ignored, c: Call)
    requires c.RunCommandCall?
  {
    && c.allowed
    && (c.risk != L0 ==>
          && Current(s, ignored) && UseIsLeft(s) && c.admits && Gated(s) && Unlimited(s, c)
          && var m := s.action.value.id.material;
            && c.capability in m.capabilities && c.command in m.commands
            && (m.transaction.Some? ==> AsApplied(s.store, ignored, m.transaction.value))
            && (m.transaction.None? || s.store.transactions[m.transaction.value].appliedSnapshot.None? ==>
                  m.source == SnapshotOf(s.store.files, ignored)))
  }

  lemma GatedExactlyWhen(s: State, ignored: Ignored, c: Call, targets: set<Path>, capability: Option<string>,
      command: Option<string>)
    requires s.action.Some? && Mutating(c) && UseIsLeft(s)
    requires c.ApplyCall? ==> targets == (set t | t in c.id.targets) && capability.None? && command.None?
    requires c.RunCommandCall? ==> targets == {} && capability == Some(c.capability) && command == Some(c.command)
    ensures GateError(s, s.action.value).None? && LimitError(s, s.action.value, targets, capability, command).None?
      <==> Gated(s) && Unlimited(s, c)
  {
    if c.ApplyCall? && s.gate.Some? && s.gate.value.limits.targets.Some? {
      assert targets <= s.gate.value.limits.targets.value <==>
        forall t :: t in c.id.targets ==> t in s.gate.value.limits.targets.value;
    }
  }

  lemma MayApplyExactlyWhen(s: State, ignored: Ignored, c: Call)
    requires c.ApplyCall?
    ensures Admitted(s, ignored, c) <==> MayApply(s, ignored, c)
  {
    CurrentExactlyWhen(s, ignored, Some(c.id), true);
    if CurrentActionError(s, ignored, Some(c.id), true).None? {
      var a := s.action.value;
      GatedExactlyWhen(s, ignored, c, (set t | t in c.id.targets), None, None);
      PermittedExactlyWhen(s.authority, a.id.material.risk, c.yolo, c.approves);
      SourceExactlyWhen(s, ignored, a, None, c.admits);
    }
    hide SnapshotOf, CurrentActionError, GateError, LimitError, Gated, Unlimited, PermissionError, Permitted,
      TransitionError;
  }

  lemma SourceExactlyWhen(s: State, ignored: Ignored, a: Action, expected: Option<SnapshotHash>, admits: bool)
    requires Current(s, ignored) && s.action == Some(a)
    ensures TransitionError(s, ignored, a, expected, admits).None? <==>
      admits && SnapshotOf(s.store.files, ignored) == (if expected.Some? then expected.value else a.id.material.source)
  {
    hide SnapshotOf;
  }

  lemma MayRunExactlyWhen(s: State, ignored: Ignored, c: Call)
    requires c.RunCommandCall? && c.risk != L0
    ensures Admitted(s, ignored, c) <==> MayRun(s, ignored, c)
  {
    CurrentExactlyWhen(s, ignored, None, true);
    if CurrentActionError(s, ignored, None, true).None? {
      var a := s.action.value;
      GatedExactlyWhen(s, ignored, c, {}, Some(c.capability), Some(c.command));
      SourceExactlyWhen(s, ignored, a, None, c.admits);
      if a.id.material.transaction.Some? {
        var id := a.id.material.transaction.value;
        AsAppliedExactlyWhen(s.store, ignored, id);
        SourceExactlyWhen(s, ignored, a, s.store.transactions[id].appliedSnapshot, c.admits);
      }
    }
    hide SnapshotOf, CurrentActionError, GateError, LimitError, Gated, Unlimited, TransitionError, VerifyAppliedError;
  }

  /** An application returns exactly when it is admitted, its transaction is PREPARED from
      these files with its candidates intact, and no file operation fails. Every target then
      holds its candidate, the transaction is APPLIED, and a use is counted. */
  lemma ApplyExactlyWhen(s: State, ignored: Ignored, c: Call)
    requires c.ApplyCall? && s.store.WellFormed()
    ensures var r := Next(s, ignored, c);
      && (r.refusal.None? <==>
            && MayApply(s, ignored, c)
            && s.store.transactions[c.id].status == Prepared && c.id.source == SnapshotOf(s.store.files, ignored)
            && Intact(s.store.candidates, c.id)
            && (forall t :: t in c.id.targets ==> t !in c.faults.steps) && c.faults.tail == NoTailFault)
      && (!MayApply(s, ignored, c) ==> r.state == s)
      && (r.refusal.None? ==>
            && r.state == s.(store := r.state.store, action := Some(s.action.value.(useCount :=
                 s.action.value.useCount + 1)))
            && r.state.store.files == Written(s.store.files, c.id.candidate, c.id.targets)
            && OnlyOwnRecord(s.store, r.state.store, c.id)
            && r.state.store.transactions[c.id].status == Applied)
  {
    hide Next, SnapshotOf, MayApply, ApplyError, ApplyStep, Intact, Written, OnlyOwnRecord, Admitted;
    MayApplyExactlyWhen(s, ignored, c);
    if MayApply(s, ignored, c) {
      MayApplyMeans(s, ignored, c);
      EngineExactlyWhen(s.store, ignored, c.id, c.faults);
      ApplyTouchesOnlyTargets(s.store, ignored, c.id, c.faults);
      ApplyPasses(s, ignored, c);
    } else {
      RefusedChangesNothing(s, ignored, c);
    }
  }

  lemma MayApplyMeans(s: State, ignored: Ignored, c: Call)
    requires c.ApplyCall? && MayApply(s, ignored, c)
    ensures s.action.Some? && c.id in s.store.transactions
  {
  }

  lemma ApplyPasses(s: State, ignored: Ignored, c: Call)
    requires c.ApplyCall? && Admitted(s, ignored, c) && s.action.Some? && c.id in s.store.transactions
    ensures var r, step := Next(s, ignored, c), ApplyStep(s.store, ignored, c.id, c.faults);
      && (r.refusal.None? <==> step.error.None?)
      && r.state == s.(store := step.store, action := Some(s.action.value.(useCount := s.action.value.useCount
           + if step.error.None? then 1 else 0)))
  {
    NextIs(s, ignored, c);
    hide Next, ApplyStep, ApplyError;
  }

  lemma EngineExactlyWhen(s: Store, ignored: Ignored, id: TransactionId, faults: Faults)
    requires id in s.transactions && id.WellFormed()
    ensures var step := ApplyStep(s, ignored, id, faults);
      && (step.error.None? <==>
            && s.transactions[id].status == Prepared && id.source == SnapshotOf(s.files, ignored)
            && Intact(s.candidates, id)
            && (forall t :: t in id.targets ==> t !in faults.steps) && faults.tail == NoTailFault)
      && (step.error.None? ==>
            && step.store.files == Written(s.files, id.candidate, id.targets)
            && id in step.store.transactions && step.store.transactions[id].status == Applied)
  {
    hide Written, ManifestOf, BackupsOf, HashesOf, RestoreFrom, SnapshotOf, Midway, Interrupted;
    NoFault(id.targets, faults.steps);
    IntactExactlyWhen(s.candidates, id);
    if ApplyStep(s, ignored, id, faults).error.None? {
      AppliedStatus(s, ignored, id, faults);
      AppliedRecord(s, ignored, id, faults);
    }
  }

  lemma NoFault(targets: seq<Path>, steps: map<Path, Fault>)
    ensures FirstFault(targets, steps) == |targets| <==> forall t :: t in targets ==> t !in steps
  {
  }

  /** A command returns exactly when it is admitted and ends. It then has done what it does to
      the files, its outcome is recorded under the pending action and the new files, and above
      L0 a use is counted. */
  lemma CommandExactlyWhen(s: State, ignored: Ignored, c: Call)
    requires c.RunCommandCall?
    ensures var r := Next(s, ignored, c);
      && (r.refusal.None? <==> MayRun(s, ignored, c) && c.effect.ended)
      && (!MayRun(s, ignored, c) ==> r.state == s)
      && (MayRun(s, ignored, c) ==>
            var ran := s.(store := s.store.(files := c.effect.files, candidates := c.effect.candidates));
            if !c.effect.ended then r.state == ran
            else r.state == ran.(
              evidence := s.evidence[s.nextEvent := Artifact(CommandEvidence, c.command,
                                       if s.action.Some? then Some(s.action.value.id) else None,
                                       SnapshotOf(c.effect.files, ignored), c.effect.success)],
              nextEvent := s.nextEvent + 1,
              action := if c.risk == L0 || s.action.None? then s.action
                        else Some(s.action.value.(useCount := s.action.value.useCount + 1))))
  {
    if c.risk != L0 { MayRunExactlyWhen(s, ignored, c); }
    NextIs(s, ignored, c);
    RunPasses(s, ignored, c);
    hide Next, SnapshotOf, RunCommand, CommandError;
  }

  lemma RunPasses(s: State, ignored: Ignored, c: Call)
    requires c.RunCommandCall?
    ensures var r, error := RunCommand(s, ignored, c.risk, c.capability, c.command, c.allowed, c.admits, c.effect),
        CommandError(s, ignored, c.risk, c.capability, c.command, c.allowed, c.admits);
      && (c.risk == L0 ==> (error.None? <==> c.allowed))
      && (r.refusal.None? <==> error.None? && c.effect.ended)
  {
    hide SnapshotOf, CurrentActionError;
  }

  // ----- finalize and roll-back -----

  /** Every offered artifact is a registered command of the action that ended with success. */
  ghost predicate EvidenceGood(evidence: map<EvidenceId, Artifact>, a: ActionId, ids: seq<EvidenceId>) {
    forall e :: e in ids ==>
      && e in evidence
      && evidence[e].kind == CommandEvidence && evidence[e].success && evidence[e].actionId == Some(a)
  }

  ghost predicate Proves(evidence: map<EvidenceId, Artifact>, ids: seq<EvidenceId>, test: string) {
    exists e :: e in ids && e in evidence && evidence[e].description == test
  }

  /** What a finalize has to meet: the action is current and bound to the transaction, that is
      APPLIED and as its application left it, every offered artifact is good, and every
      required test is the description of one. */
  ghost predicate MayFinalize(s: State, ignored: Ignored, c: Call)
    requires c.FinalizeCall?
  {
    && Current(s, ignored) && s.action.value.id.material.transaction == Some(c.id)
    && AsApplied(s.store, ignored, c.id) && s.store.transactions[c.id].status == Applied
    && EvidenceGood(s.evidence, s.action.value.id, c.evidenceIds)
    && forall t :: t in s.action.value.id.material.requiredTests ==> Proves(s.evidence, c.evidenceIds, t)
  }

  lemma {:induction false} EvidenceExactlyWhen(s: State, a: Action, ids: seq<EvidenceId>)
    ensures FinalizeEvidenceError(s, a, ids).None? <==> EvidenceGood(s.evidence, a.id, ids)
  {
    if ids != [] {
      EvidenceExactlyWhen(s, a, ids[1..]);
      assert ids == [ids[0]] + ids[1..];
    }
  }

  lemma MayFinalizeExactlyWhen(s: State, ignored: Ignored, c: Call)
    requires c.FinalizeCall? && c.id in s.store.transactions
    ensures FinalizeError(s, ignored, c.id, c.evidenceIds).None? && s.store.transactions[c.id].status == Applied <==>
      MayFinalize(s, ignored, c)
  {
    CurrentExactlyWhen(s, ignored, Some(c.id), false);
    AsAppliedExactlyWhen(s.store, ignored, c.id);
    if s.action.Some? {
      EvidenceExactlyWhen(s, s.action.value, c.evidenceIds);
      TestsExactlyWhen(s, s.action.value, c.evidenceIds);
    }
    hide SnapshotOf, CurrentActionError, VerifyAppliedError, FinalizeEvidenceError, EvidenceGood, TestsCovered,
      Proves, AsApplied;
  }

  lemma TestsExactlyWhen(s: State, a: Action, ids: seq<EvidenceId>)
    ensures TestsCovered(s, a, ids) <==>
      forall t :: t in a.id.material.requiredTests ==> Proves(s.evidence, ids, t)
  {
  }

  /** A finalize returns exactly when it meets all that and the record can be written. The
      transaction is then VERIFIED with the offered artifacts, and nothing is active; and if
      only the record could not be written, it is VERIFIED all the same. */
  lemma FinalizeExactlyWhen(s: State, ignored: Ignored, c: Call)
    requires c.FinalizeCall?
    ensures var r := Next(s, ignored, c);
      && (r.refusal.None? <==> MayFinalize(s, ignored, c) && !c.recordFails)
      && (!MayFinalize(s, ignored, c) ==> r.state == s)
      && (MayFinalize(s, ignored, c) ==>
            && c.id in s.store.transactions && c.id in r.state.store.transactions
            && var ids := r.state.store.transactions[c.id].evidenceIds;
              && r.state == s.(active := if c.recordFails then s.active else None,
                               store := s.store.(transactions := s.store.transactions[c.id :=
                                 s.store.transactions[c.id].(status := Verified, evidenceIds := ids)]))
              && Distinct(ids) && forall e :: e in ids <==> e in c.evidenceIds)
  {
    if c.id in s.store.transactions {
      MayFinalizeExactlyWhen(s, ignored, c);
    } else {
      BoundIsKnown(s, ignored, c);
    }
    NextIs(s, ignored, c);
    hide Next, FinalizeError, MayFinalize, FirstOccurrences;
  }

  lemma BoundIsKnown(s: State, ignored: Ignored, c: Call)
    requires c.FinalizeCall?
    ensures MayFinalize(s, ignored, c) ==> c.id in s.store.transactions
  {
  }

  /** Every target can be put back: the file operations on it work, and a target that existed
      has its backup with the recorded digest. */
  ghost predicate Restorable(s: Store, id: TransactionId, restore: RestoreFaults)
    requires id in s.transactions
  {
    forall t :: t in id.targets ==>
      && t !in restore
      && (t in s.transactions[id].manifest && s.transactions[id].manifest[t].Existed? ==>
            (id, t) in s.backups && FileHash(s.backups[(id, t)].bytes) == s.transactions[id].manifest[t].sha)
  }

  ghost predicate MayClose(s: Store, id: TransactionId, restore: RestoreFaults) {
    && id in s.transactions
    && (|| s.transactions[id].status == Prepared
        || (s.transactions[id].status in {Applied, Verified} && Restorable(s, id, restore)))
  }

  lemma MayCloseExactlyWhen(s: Store, id: TransactionId, restore: RestoreFaults)
    ensures Closable(s, id, restore) <==> MayClose(s, id, restore)
  {
    hide RestoreFrom;
    if id in s.transactions {
      RestoreRaisesFor(s.files, s.transactions[id].manifest, s.backups, id, Reversed(id.targets), restore);
    }
  }

  /** A roll-back returns exactly when the transaction can be closed and the record can be
      written. A PREPARED one is then DISCARDED, with no file touched, and an applied one
      ROLLED_BACK, with nothing but its targets touched. Nothing is active any more, and the
      pending action and its gate are gone if it was bound to the transaction, and kept if
      not. If the record cannot be written the status changes, and nothing else of this. */
  lemma RollbackExactlyWhen(s: State, ignored: Ignored, c: Call)
    requires c.RollbackCall?
    ensures var r, bound := Next(s, ignored, c), s.action.Some? && s.action.value.id.material.transaction == Some(c.id);
      && (r.refusal.None? <==> MayClose(s.store, c.id, c.restore) && !c.recordFails)
      && r.state == s.(store := s.store.(files := r.state.store.files, transactions := r.state.store.transactions),
                       active := if r.refusal.None? then None else s.active,
                       action := if r.refusal.None? && bound then None else s.action,
                       gate := if r.refusal.None? && bound then None else s.gate)
      && (!MayClose(s.store, c.id, c.restore) ==> r.state.store.transactions == s.store.transactions)
      && (MayClose(s.store, c.id, c.restore) ==>
            && c.id in s.store.transactions
            && var record := s.store.transactions[c.id];
              r.state.store.transactions == s.store.transactions[c.id := record.(status :=
                if record.status == Prepared then Discarded else RolledBack)])
      && SameOutside(r.state.store.files, s.store.files, c.id.targets)
      && (c.id in s.store.transactions && s.store.transactions[c.id].status !in {Applied, Verified} ==>
            r.state.store.files == s.store.files)
  {
    MayCloseExactlyWhen(s.store, c.id, c.restore);
    NextIs(s, ignored, c);
    hide Next, MayClose, Closable, SameOutside;
    if c.id in s.store.transactions {
      CloseIs(s.store, c.id, c.restore, c.recordFails);
    } else {
      ClosableIsThere(s.store, c.id, c.restore);
      SameFiles(s.store.files, c.id.targets);
    }
    hide CloseStep;
  }

  lemma SameFiles(files: Files, ts: seq<Path>)
    ensures SameOutside(files, files, ts)
  {
  }

  lemma CloseIs(s: Store, id: TransactionId, restore: RestoreFaults, recordFails: bool)
    requires id in s.transactions
    ensures var step, r := CloseStep(s, id, restore, recordFails), s.transactions[id];
      && (step.error.None? <==> Closable(s, id, restore) && !recordFails)
      && step.store == s.(files := step.store.files, transactions := if !Closable(s, id, restore) then s.transactions
           else s.transactions[id := r.(status := if r.status == Prepared then Discarded else RolledBack)])
      && SameOutside(step.store.files, s.files, id.targets)
      && (r.status !in {Applied, Verified} ==> step.store.files == s.files)
  {
    hide RestoreFrom, SameOutside;
    SameFiles(s.files, id.targets);
    var r := s.transactions[id];
    RestoreTouchesOnlyListed(s.files, r.manifest, s.backups, id, Reversed(id.targets), restore);
    SameListed(RestoreFrom(s.files, r.manifest, s.backups, id, Reversed(id.targets), restore).files, s.files,
        id.targets);
  }

  lemma SameListed(a: Files, b: Files, ts: seq<Path>)
    requires SameOutside(a, b, Reversed(ts))
    ensures SameOutside(a, b, ts)
  {
  }

  /** What a tool saw is recorded under the pending action and the files it saw. */
  lemma ObserveIs(s: State, ignored: Ignored, c: Call)
    requires c.ObserveCall?
    ensures Next(s, ignored, c) == Reaction(s.(nextEvent := s.nextEvent + 1, evidence := s.evidence[s.nextEvent :=
      Artifact(if c.missing then ObservationEvidence else ReadEvidence, c.description,
               if s.action.Some? then Some(s.action.value.id) else None, SnapshotOf(s.store.files, ignored),
               c.success)]), None)
  {
    hide SnapshotOf;
  }

  // ===== every run =====

  /** Call j proposed the action. */
  ghost predicate ProposedAt(ss: seq<State>, cs: seq<Call>, ignored: Ignored, j: nat, a: ActionId)
    requires j < |cs| && j < |ss|
  {
    && cs[j].ProposeCall? && Next(ss[j], ignored, cs[j]).refusal.None?
    && AskedFor(ss[j].authority, SnapshotOf(ss[j].store.files, ignored), cs[j].proposal, a.material)
  }

  /** In every run the pending action was proposed by an earlier call, which asked for exactly
      what is in it. */
  lemma {:induction false} ProposedEarlier(ss: seq<State>, cs: seq<Call>, ignored: Ignored, i: nat) returns (j: nat)
    requires IsRun(ss, cs, ignored) && i < |ss| && ss[i].action.Some?
    ensures j < i && ProposedAt(ss, cs, ignored, j, ss[i].action.value.id)
    decreases i
  {
    hide Next, AskedFor, SnapshotOf;
    assert i > 0 by { if i == 0 { assert ss[0] == Fresh(ss[0].store.files, ss[0].authority); } }
    var s, c := ss[i - 1], cs[i - 1];
    if c.ProposeCall? && Next(s, ignored, c).refusal.None? {
      j := i - 1;
      ProposeExactlyWhen(s, ignored, c.proposal, c.admits);
    } else {
      ActionOnlyByProposal(s, ignored, c);
      j := ProposedEarlier(ss, cs, ignored, i - 1);
    }
  }

  /** In every run, whatever acts under an action of risk L1 or L2 does so under a gate that
      satisfies all the evidence its proposal asked for. */
  lemma GateMeetsProposal(ss: seq<State>, cs: seq<Call>, ignored: Ignored, i: nat) returns (j: nat)
    requires IsRun(ss, cs, ignored) && i < |cs|
    requires Acts(ss[i], ignored, cs[i])
    requires ss[i].action.Some? && ss[i].action.value.id.material.risk != L0
    ensures j < i && ProposedAt(ss, cs, ignored, j, ss[i].action.value.id)
    ensures ss[i].gate.Some? && forall e :: e in cs[j].proposal.evidence ==> e in ss[i].gate.value.satisfied
  {
    hide Next, Acts, Admitted, SnapshotOf, CategoriesSound, UseLeft, SubmittedAt;
    j := ProposedEarlier(ss, cs, ignored, i);
    var submitted := GateBeforeMutation(ss, cs, ignored, i);
  }

  /** In every run a transaction becomes VERIFIED only with a passed run of every test its
      proposal asked for, as `VerifiedOnlyWithTests` says of the required ones. */
  lemma VerifiedMeetsProposal(ss: seq<State>, cs: seq<Call>, ignored: Ignored, i: nat, id: TransactionId)
      returns (j: nat)
    requires IsRun(ss, cs, ignored) && i < |cs|
    requires !IsVerified(ss[i].store, id) && IsVerified(ss[i + 1].store, id)
    ensures ss[i].action.Some? && j < i && ProposedAt(ss, cs, ignored, j, ss[i].action.value.id)
    ensures cs[j].proposal.transaction == Some(id)
    ensures forall t :: t in cs[j].proposal.requiredTests ==>
      exists k: nat :: k < i && ProvedAt(ss, cs, ignored, k, ss[i].action.value.id, id,
          SnapshotOf(ss[i].store.files, ignored), t)
  {
    hide Next, IsVerified, ProvedAt, SnapshotOf;
    VerifiedOnlyWithTests(ss, cs, ignored, i, id);
    j := ProposedEarlier(ss, cs, ignored, i);
  }
}
