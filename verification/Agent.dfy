/** `OURDAgent` as an object: the tool methods of the governed lifecycle update the fields of
    the runtime state and call the transaction manager. Each is proved equal to the call of
    `Lifecycle` with the same name, and `Session` shows that any sequence of them is a run. */
module Agents {
  import opened Results
  import opened Ordering
  import opened Disk
  import opened Records
  import opened Transactions
  import opened TransactionManagers
  import L = Lifecycle
  import Runs = LifecycleRuns
  import Safety = LifecycleSafety

  class Agent {
    const manager: TransactionManager
    var authority: Authority
    var governance: Option<AuthorityHash>
    var action: Option<Action>
    var gate: Option<L.Gate>
    var active: Option<TransactionId>
    var evidence: map<EvidenceId, Artifact>
    var nextEvent: EvidenceId

    function View(): L.State
      reads this, manager
    {
      L.State(manager.View(), authority, governance, action, gate, active, evidence, nextEvent)
    }

    ghost predicate Valid()
      reads this, manager
    {
      manager.Valid()
    }

    constructor (files: Files, ignored: L.Ignored, authority: Authority)
      ensures Valid() && fresh(manager) && manager.ignored == ignored
      ensures View() == L.Fresh(files, authority)
    {
      manager := new TransactionManager(files, ignored);
      this.authority := authority;
      governance, action, gate, active := None, None, None, None;
      evidence, nextEvent := map[], 0;
    }

    method EstablishGovernance(admits: bool) returns (refusal: Option<L.Refusal>)
      requires Valid()
      modifies this
      ensures Valid()
      ensures L.Reaction(View(), refusal) == L.EstablishGovernance(old(View()), admits)
    {
      if !admits {
        return Some(L.PolicyRefuses);
      }
      governance := Some(AuthorityHash(authority));
      action, gate := None, None;
      refusal := None;
    }

    /** `prepare_write_file`, `prepare_replace_text` and `prepare_transaction` */
    method Prepare(operation: string, contents: map<Path, Bytes>, admits: bool, recordFails: bool)
        returns (refusal: Option<L.Refusal>)
      requires Valid()
      modifies this, manager
      ensures Valid()
      ensures L.Reaction(View(), refusal) ==
        L.Prepare(old(View()), manager.ignored, operation, contents, admits, recordFails)
    {
      refusal := L.PrepareError(View(), manager.ignored, contents, admits);
      if refusal.Some? {
        return;
      }
      var id := manager.Prepare(operation, contents, AuthorityHash(authority));
      if recordFails {
        return Some(L.Transactional(TailFailed(RecordFault)));
      }
      active := Some(id);
      refusal := None;
    }

    method ProposeEonAction(p: L.Proposal, admits: bool) returns (refusal: Option<L.Refusal>)
      requires Valid()
      modifies this, manager
      ensures Valid()
      ensures L.Reaction(View(), refusal) == L.Propose(old(View()), manager.ignored, p, admits)
    {
      hide FirstOccurrences;
      refusal := L.ProposeError(View(), manager.ignored, p, admits);
      if refusal.Some? {
        return;
      }
      var proposed := Action(ActionId(L.MaterialOf(View(), manager.ignored, p)), 0);
      action, gate := Some(proposed), None;
      if p.transaction.Some? {
        var record := manager.transactions[p.transaction.value];
        manager.transactions := manager.transactions[p.transaction.value := record.(actionId := Some(proposed.id))];
      }
      refusal := None;
    }

    /** The loop of `submit_evidence_gate` files each item under its category. */
    method SubmitEvidenceGate(proposed: L.Verdict, items: seq<L.GateItem>, uncovered: seq<string>, limits: L.Limits)
        returns (refusal: Option<L.Refusal>)
      requires Valid()
      modifies this`gate
      ensures Valid()
      ensures L.Reaction(View(), refusal) ==
        L.SubmitGate(old(View()), manager.ignored, proposed, items, uncovered, limits)
    {
      refusal := L.CurrentActionError(View(), manager.ignored, None, true);
      if refusal.Some? {
        return;
      }
      var a := action.value;
      var bad, categories, satisfied := FileItems(a, items);
      if bad.Some? {
        return bad;
      }
      if proposed == L.ApproveWithLimits && L.LimitsError(a, limits).Some? {
        return L.LimitsError(a, limits);
      }
      var verdict := L.VerdictOf(a, proposed, categories, satisfied, uncovered, limits);
      gate := Some(L.Gate(a.id, proposed, verdict, categories, satisfied, uncovered, limits));
      refusal := None;
    }

    method FileItems(a: Action, items: seq<L.GateItem>) returns (bad: Option<L.Refusal>,
        categories: map<L.Category, seq<EvidenceId>>, satisfied: set<string>)
      ensures bad == L.ItemsError(View(), a, items, {})
      ensures bad.None? ==> categories == L.CategoryMap(items) && satisfied == L.SatisfiedBy(items)
    {
      categories := map[L.Invariant := [], L.Boundary := [], L.Counterexample := [], L.Test := [], L.Observation := []];
      satisfied := {};
      var used: set<EvidenceId> := {};
      var i := 0;
      assert items[0..] == items;
      while i < |items|
        invariant 0 <= i <= |items|
        invariant L.ItemsError(View(), a, items[i..], used) == L.ItemsError(View(), a, items, {})
        invariant categories == L.CategoryMap(items[..i]) && satisfied == L.SatisfiedBy(items[..i])
      {
        var item := items[i];
        assert items[i..][0] == item && items[i..][1..] == items[i + 1..];
        if item.artifact !in evidence {
          return Some(L.UnknownEvidence), categories, satisfied;
        }
        var artifact := evidence[item.artifact];
        if artifact.actionId != Some(a.id) {
          return Some(L.EvidenceOfOtherAction), categories, satisfied;
        }
        if artifact.source != a.id.material.source {
          return Some(L.EvidenceStale), categories, satisfied;
        }
        if item.artifact in used {
          return Some(L.EvidenceReused), categories, satisfied;
        }
        used := used + {item.artifact};
        FiledStep(items, i);
        categories := categories[item.category := categories[item.category] + [item.artifact]];
        satisfied := satisfied + item.satisfies;
        i := i + 1;
      }
      assert items[..i] == items;
      bad := None;
    }

    method ApplyTransaction(id: TransactionId, yolo: bool, approves: bool, admits: bool, faults: Faults)
        returns (refusal: Option<L.Refusal>)
      requires Valid()
      modifies this, manager
      ensures Valid()
      ensures L.Reaction(View(), refusal) == L.Apply(old(View()), manager.ignored, id, yolo, approves, admits, faults)
    {
      hide ApplyStep, SnapshotOf;
      refusal := L.ApplyError(View(), manager.ignored, id, yolo, approves, admits);
      if refusal.Some? {
        return;
      }
      var error := manager.Apply(id, faults);
      if error.Some? {
        return Some(L.Transactional(error.value));
      }
      CountUse();
      refusal := None;
    }

    method CountUse()
      modifies this`action
      ensures View() == L.WithUse(old(View()))
    {
      if action.Some? {
        action := Some(action.value.(useCount := action.value.useCount + 1));
      }
    }

    /** `_record_evidence` */
    method RecordEvidence(kind: EvidenceKind, description: string, success: bool)
      modifies this`evidence, this`nextEvent
      ensures View() == L.WithEvidence(old(View()), manager.ignored, kind, description, success)
    {
      var artifact := Artifact(kind, description, L.ActionIdOf(View()), SnapshotOf(manager.files, manager.ignored),
          success);
      evidence := evidence[nextEvent := artifact];
      nextEvent := nextEvent + 1;
    }

    method RunCommand(risk: Risk, capability: string, command: string, allowed: bool, admits: bool, effect: L.Effect)
        returns (refusal: Option<L.Refusal>)
      requires Valid()
      modifies this, manager
      ensures Valid()
      ensures L.Reaction(View(), refusal) ==
        L.RunCommand(old(View()), manager.ignored, risk, capability, command, allowed, admits, effect)
    {
      hide SnapshotOf, L.CommandError, L.WithEvidence, L.WithUse;
      refusal := L.CommandError(View(), manager.ignored, risk, capability, command, allowed, admits);
      if refusal.Some? {
        return;
      }
      manager.files, manager.candidates := effect.files, effect.candidates;
      if !effect.ended {
        return Some(L.CommandRaised);
      }
      RecordEvidence(CommandEvidence, command, effect.success);
      if risk != L0 {
        CountUse();
      }
      refusal := None;
    }

    method FinalizeTransaction(id: TransactionId, ids: seq<EvidenceId>, recordFails: bool)
        returns (refusal: Option<L.Refusal>)
      requires Valid()
      modifies this, manager
      ensures Valid()
      ensures L.Reaction(View(), refusal) == L.Finalize(old(View()), manager.ignored, id, ids, recordFails)
    {
      hide SnapshotOf, FinalizeStep, L.CurrentActionError, VerifyAppliedError, L.FinalizeEvidenceError,
        L.TestsCovered;
      if id !in manager.transactions {
        return Some(L.UnknownTransaction);
      }
      refusal := L.CurrentActionError(View(), manager.ignored, Some(id), false);
      if refusal.Some? {
        return;
      }
      var changed := manager.VerifyApplied(id);
      if changed.Some? {
        return Some(L.Transactional(changed.value));
      }
      if action.Some? {
        refusal := CheckTestEvidence(action.value, ids);
        if refusal.Some? {
          return;
        }
      }
      var error := manager.Finalize(id, ids, recordFails);
      if error.Some? {
        return Some(L.Transactional(error.value));
      }
      active := None;
      refusal := None;
    }

    /** The two loops of `finalize_transaction`: over the evidence and over the required tests. */
    method CheckTestEvidence(a: Action, ids: seq<EvidenceId>) returns (refusal: Option<L.Refusal>)
      ensures refusal ==
        if L.FinalizeEvidenceError(View(), a, ids).Some? then L.FinalizeEvidenceError(View(), a, ids)
        else if !L.TestsCovered(View(), a, ids) then Some(L.TestEvidenceMissing) else None
    {
      var descriptions: set<string> := {};
      var i := 0;
      assert ids[0..] == ids;
      while i < |ids|
        invariant 0 <= i <= |ids|
        invariant L.FinalizeEvidenceError(View(), a, ids[i..]) == L.FinalizeEvidenceError(View(), a, ids)
        invariant forall k :: 0 <= k < i ==> ids[k] in evidence
        invariant descriptions == set k | 0 <= k < i :: evidence[ids[k]].description
      {
        assert ids[i..][0] == ids[i] && ids[i..][1..] == ids[i + 1..];
        if ids[i] !in evidence {
          return Some(L.UnknownEvidence);
        }
        var artifact := evidence[ids[i]];
        if artifact.kind != CommandEvidence || !artifact.success {
          return Some(L.EvidenceNotSuccessfulCommand);
        }
        if artifact.actionId != Some(a.id) {
          return Some(L.EvidenceOfOtherAction);
        }
        descriptions := descriptions + {artifact.description};
        i := i + 1;
      }
      var tests := a.id.material.requiredTests;
      forall t ensures t in descriptions <==> exists e :: e in ids && e in evidence && evidence[e].description == t {
        if t in descriptions {
          var k :| 0 <= k < |ids| && evidence[ids[k]].description == t;
          assert ids[k] in ids;
        }
      }
      if exists t :: t in tests && t !in descriptions {
        refusal := Some(L.TestEvidenceMissing);
      } else {
        refusal := None;
      }
    }

    method RollbackTransaction(id: TransactionId, restore: RestoreFaults, recordFails: bool)
        returns (refusal: Option<L.Refusal>)
      requires Valid()
      modifies this, manager
      ensures Valid()
      ensures L.Reaction(View(), refusal) == L.Rollback(old(View()), id, restore, recordFails)
    {
      hide RollbackStep, DiscardStep;
      if id !in manager.transactions {
        return Some(L.UnknownTransaction);
      }
      var error: Option<TransactionError>;
      if manager.transactions[id].status == Prepared {
        error := manager.Discard(id, recordFails);
      } else {
        error := manager.Rollback(id, restore, recordFails);
      }
      if error.Some? {
        return Some(L.Transactional(error.value));
      }
      active := None;
      if action.Some? && action.value.id.material.transaction == Some(id) {
        action, gate := None, None;
      }
      refusal := None;
    }

    /** The tools that only look at the workspace. */
    method Observe(missing: bool, description: string, success: bool)
      modifies this`evidence, this`nextEvent
      ensures View() == L.Observe(old(View()), manager.ignored, missing, description, success).state
    {
      RecordEvidence(if missing then ObservationEvidence else ReadEvidence, description, success);
    }

    /** Anyone else may change files and candidates between two calls. */
    method Edit(files: Files, candidates: Candidates)
      requires Valid()
      modifies manager
      ensures Valid()
      ensures View() == old(View()).(store := old(View()).store.(files := files, candidates := candidates))
    {
      manager.files, manager.candidates := files, candidates;
    }
  }

  // ----- sessions -----

  /** One tool call, or one edit by anyone else. */
  method Dispatch(agent: Agent, c: L.Call) returns (refusal: Option<L.Refusal>)
    requires agent.Valid() && !c.RestartCall?
    modifies agent, agent.manager
    ensures agent.Valid()
    ensures L.Reaction(agent.View(), refusal) == L.Next(old(agent.View()), agent.manager.ignored, c)
  {
    hide L.EstablishGovernance, L.Prepare, L.Propose, L.SubmitGate, L.Apply, L.RunCommand, L.Finalize, L.Rollback,
      L.Restart;
    match c
    case EstablishGovernanceCall(admits) => refusal := agent.EstablishGovernance(admits);
    case PrepareCall(operation, contents, admits, recordFails) =>
      refusal := agent.Prepare(operation, contents, admits, recordFails);
    case ProposeCall(p, admits) => refusal := agent.ProposeEonAction(p, admits);
    case SubmitGateCall(proposed, items, uncovered, limits) =>
      refusal := agent.SubmitEvidenceGate(proposed, items, uncovered, limits);
    case ApplyCall(id, yolo, approves, admits, faults) =>
      refusal := agent.ApplyTransaction(id, yolo, approves, admits, faults);
    case RunCommandCall(risk, capability, command, allowed, admits, effect) =>
      refusal := agent.RunCommand(risk, capability, command, allowed, admits, effect);
    case FinalizeCall(id, ids, recordFails) => refusal := agent.FinalizeTransaction(id, ids, recordFails);
    case RollbackCall(id, restore, recordFails) => refusal := agent.RollbackTransaction(id, restore, recordFails);
    case ObserveCall(missing, description, success) =>
      agent.Observe(missing, description, success);
      refusal := None;
    case EditCall(files, candidates) =>
      agent.Edit(files, candidates);
      refusal := None;
  }

  /** Whatever calls are made on an agent, one after the other, they are a run, so that what
      holds in every run holds of the agent afterwards. */
  method Session(files: Files, ignored: L.Ignored, authority: Authority, calls: seq<L.Call>)
      returns (agent: Agent, ghost states: seq<L.State>)
    requires forall c :: c in calls ==> !c.RestartCall?
    ensures fresh(agent) && agent.Valid() && agent.manager.ignored == ignored
    ensures Runs.IsRun(states, calls, ignored) && agent.View() == states[|calls|]
    ensures Safety.Safe(agent.View())
  {
    hide L.Next, Safety.Safe;
    agent := new Agent(files, ignored, authority);
    states := [agent.View()];
    for i := 0 to |calls|
      invariant fresh(agent) && fresh(agent.manager) && agent.Valid() && agent.manager.ignored == ignored
      invariant Runs.IsRun(states, calls[..i], ignored) && agent.View() == states[i]
    {
      Runs.RunExtends(states, calls[..i], ignored, calls[i]);
      assert calls[..i + 1] == calls[..i] + [calls[i]];
      var refusal := Dispatch(agent, calls[i]);
      states := states + [agent.View()];
    }
    assert calls[..|calls|] == calls;
    Safety.SafeInEveryRun(states, calls, ignored, |calls|);
  }

  /** Filing one more item appends it to the list of its category only. */
  lemma FiledStep(items: seq<L.GateItem>, i: nat)
    requires i < |items|
    ensures var now := L.CategoryMap(items[..i]);
      && items[i].category in now
      && L.CategoryMap(items[..i + 1]) == now[items[i].category := now[items[i].category] + [items[i].artifact]]
    ensures L.SatisfiedBy(items[..i + 1]) == L.SatisfiedBy(items[..i]) + items[i].satisfies
  {
    assert items[..i + 1][..i] == items[..i];
    match items[i].category {
      case Invariant => case Boundary => case Counterexample => case Test => case Observation =>
    }
    forall r ensures r in L.SatisfiedBy(items[..i + 1]) <==> r in L.SatisfiedBy(items[..i]) + items[i].satisfies {
      if r in L.SatisfiedBy(items[..i]) {
        var k :| 0 <= k < i && r in items[..i][k].satisfies;
        assert r in items[..i + 1][k].satisfies;
      } else if r in items[i].satisfies {
        assert r in items[..i + 1][i].satisfies;
      }
    }
  }
}
