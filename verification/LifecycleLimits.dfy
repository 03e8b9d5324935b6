/** What the limits of a gate bind and what they do not, and how proposing an action again
    gives it its uses back. */
module LifecycleLimits {
  import opened Results
  import opened Ordering
  import opened Disk
  import opened Records
  import opened Transactions
  import opened Lifecycle
  import opened LifecycleRuns
  import opened LifecycleSafety

  // ----- limits on a gate -----

  /** The same state, its gate carrying no limits. */
  function WithoutLimits(s: State): State {
    if s.gate.None? then s else s.(gate := Some(s.gate.value.(limits := NO_LIMITS)))
  }

  /** The call stays within every limit the gate carries, its number of uses included. */
  predicate WithinLimits(s: State, c: Call)
    requires Mutating(c) && s.gate.Some? && s.action.Some?
  {
    var l := s.gate.value.limits;
    && (c.ApplyCall? && l.targets.Some? ==> forall t :: t in c.id.targets ==> t in l.targets.value)
    && (c.RunCommandCall? && l.capabilities.Some? ==> c.capability in l.capabilities.value)
    && (c.RunCommandCall? && l.commands.Some? ==> c.command in l.commands.value)
    && (l.maxUses.Some? ==> s.action.value.useCount < l.maxUses.value)
  }

  /** The limits of a gate decide about a call exactly when its verdict is to approve with
      limits; those of a plain approval decide nothing, the number of uses included. */
  lemma LimitsBindExactlyWhen(s: State, ignored: Ignored, c: Call)
    requires Mutating(c) && s.gate.Some? && s.action.Some? && s.action.value.id.material.risk != L0
    ensures Admitted(s, ignored, c) <==>
      && Admitted(WithoutLimits(s), ignored, c)
      && (s.gate.value.verdict == ApproveWithLimits ==> WithinLimits(s, c))
  {
    hide SnapshotOf, PermissionError, VerifyAppliedError;
    if c.ApplyCall? && s.gate.value.limits.targets.Some? {
      assert (set t | t in c.id.targets) <= s.gate.value.limits.targets.value <==>
        forall t :: t in c.id.targets ==> t in s.gate.value.limits.targets.value;
    }
  }

  /** Only a proposal to approve with limits has its limits checked; any other gate is filed
      with whatever limits it came with, and decided as if it had none. */
  lemma OtherVerdictsTakeAnyLimits(s: State, ignored: Ignored, proposed: Verdict, items: seq<GateItem>,
      uncovered: seq<string>, limits: Limits)
    requires proposed != ApproveWithLimits
    ensures var r, plain := SubmitGate(s, ignored, proposed, items, uncovered, limits),
        SubmitGate(s, ignored, proposed, items, uncovered, NO_LIMITS);
      && r.refusal == plain.refusal
      && WithoutLimits(r.state) == WithoutLimits(plain.state)
      && (r.refusal.None? ==> r.state.gate.Some? && r.state.gate.value.limits == limits)
  {
    hide SnapshotOf, ItemsError, CategoryMap, SatisfiedBy, LimitsError, CategoriesMissing;
  }

  /** In every run an acting call under an L1 or L2 action that leaves the limits of its gate,
      the number of uses included, has a gate that approves without limits. */
  lemma LeavesLimitsOnlyUnderApprove(ss: seq<State>, cs: seq<Call>, ignored: Ignored, i: nat)
    requires IsRun(ss, cs, ignored) && i < |cs|
    requires Acts(ss[i], ignored, cs[i])
    requires ss[i].action.Some? && ss[i].action.value.id.material.risk != L0
    ensures Mutating(cs[i]) && ss[i].gate.Some?
    ensures WithinLimits(ss[i], cs[i]) || ss[i].gate.value.verdict == Approve
  {
    hide Next, Safe, Admitted, Acts, WithinLimits, WithoutLimits;
    SafeInEveryRun(ss, cs, ignored, i);
    ActsAdmitted(ss[i], ignored, cs[i]);
    AdmittedHasUse(ss[i], ignored, cs[i]);
    LimitsBindExactlyWhen(ss[i], ignored, cs[i]);
  }

  // ----- uses between proposals -----

  /** An application or a command above L0 under action a that returns, and so counts a use. */
  ghost predicate Uses(s: State, ignored: Ignored, c: Call, a: ActionId) {
    Mutating(c) && ActionIdOf(s) == Some(a) && Next(s, ignored, c).refusal.None?
  }

  /** How many of the calls from g up to, but not including, i used action a. */
  ghost function UsesBetween(ss: seq<State>, cs: seq<Call>, ignored: Ignored, g: nat, i: nat, a: ActionId): nat
    requires i <= |cs| <= |ss|
    decreases i
  {
    if i <= g then 0
    else UsesBetween(ss, cs, ignored, g, i - 1, a) + (if Uses(ss[i - 1], ignored, cs[i - 1], a) then 1 else 0)
  }

  /** Unless something is proposed, the pending action stays, with a use more if one was
      counted, or goes. */
  lemma ActionOnlyByProposal(s: State, ignored: Ignored, c: Call)
    requires c.ProposeCall? ==> Next(s, ignored, c).refusal.Some?
    ensures var t := Next(s, ignored, c).state;
      t.action.None? || (s.action.Some?
        && t.action == Some(UsedIf(Uses(s, ignored, c, s.action.value.id), s.action.value)))
  {
    if s.action.Some? && Mutating(c) {
      hide Next;
      UseCounted(s, ignored, c);
    } else {
      hide ApplyStep, RestoreFrom, SnapshotOf, GovernanceError, CurrentActionError, ApplyError, VerifyAppliedError,
        CommandError, FinalizeError, ItemsError, VerdictOf, LimitsError, IdOf, MaterialOf, CandidateFiles,
        FirstOccurrences, CloseStep, PrepareStep, LoadError, SessionError, ProposeError;
    }
  }

  /** In every run at most as many calls as the use limit allows use an action between the
      proposal of it and the next one, whatever else happens; and while the action is pending
      its use count is how many did. */
  lemma {:induction false} UsesPerProposal(ss: seq<State>, cs: seq<Call>, ignored: Ignored, g: nat, i: nat)
    requires IsRun(ss, cs, ignored) && g < i <= |cs|
    requires cs[g].ProposeCall? && Next(ss[g], ignored, cs[g]).refusal.None?
    requires forall k :: g < k < i && cs[k].ProposeCall? ==> Next(ss[k], ignored, cs[k]).refusal.Some?
    ensures ss[g + 1].action.Some?
    ensures var a := ss[g + 1].action.value.id;
      && UsesBetween(ss, cs, ignored, g + 1, i, a) <= a.material.useLimit
      && (ss[i].action.Some? ==> ss[i].action == Some(Action(a, UsesBetween(ss, cs, ignored, g + 1, i, a))))
    decreases i
  {
    hide Next, Safe, Uses;
    ProposalIsUnused(ss[g], ignored, cs[g]);
    if g + 1 < i {
      UsesPerProposal(ss, cs, ignored, g, i - 1);
      SafeInEveryRun(ss, cs, ignored, i);
      ActionOnlyByProposal(ss[i - 1], ignored, cs[i - 1]);
      if Uses(ss[i - 1], ignored, cs[i - 1], ss[g + 1].action.value.id) {
        UsesPending(ss[i - 1], ignored, cs[i - 1], ss[g + 1].action.value.id);
        LimitIsKept(ss[i]);
      }
    }
  }

  lemma ProposalIsUnused(s: State, ignored: Ignored, c: Call)
    requires c.ProposeCall? && Next(s, ignored, c).refusal.None?
    ensures var t := Next(s, ignored, c).state; t.action.Some? && t.action.value.useCount == 0
  {
    NextIs(s, ignored, c);
    hide Next, MaterialOf, ProposeError;
  }

  lemma LimitIsKept(s: State)
    requires Safe(s) && s.action.Some?
    ensures s.action.value.useCount <= s.action.value.id.material.useLimit
  {
  }

  /** What uses an action finds it pending and leaves it pending. */
  lemma UsesPending(s: State, ignored: Ignored, c: Call, a: ActionId)
    requires Uses(s, ignored, c, a)
    ensures s.action.Some? && Next(s, ignored, c).state.action.Some?
  {
    hide Next;
    UseCounted(s, ignored, c);
  }

  // ----- proposing again -----

  /** Proposing the material of the pending action again gives the very same action with all
      its uses, takes the gate away, and leaves the evidence that bought it bound to it: the
      loop over the offered items decides as before. */
  lemma ProposedAgain(s: State, ignored: Ignored, p: Proposal, items: seq<GateItem>)
    requires ProposeError(s, ignored, p, true).None?
    requires s.action.Some? && s.action.value.id.material == MaterialOf(s, ignored, p)
    ensures var t := Next(s, ignored, ProposeCall(p, true)).state;
      && t.action == Some(Action(s.action.value.id, 0)) && t.gate.None?
      && t.evidence == s.evidence && t.store.files == s.store.files && t.authority == s.authority
      && ItemsError(t, t.action.value, items, {}) == ItemsError(s, s.action.value, items, {})
  {
    hide ProposeError, MaterialOf;
    var t := Next(s, ignored, ProposeCall(p, true)).state;
    SameItems(s, t, s.action.value, t.action.value, items, {});
  }

  lemma {:induction false} SameItems(s: State, t: State, a: Action, b: Action, items: seq<GateItem>,
      used: set<EvidenceId>)
    requires s.evidence == t.evidence && a.id == b.id
    ensures ItemsError(t, b, items, used) == ItemsError(s, a, items, used)
  {
    if items != [] { SameItems(s, t, a, b, items[1..], used + {items[0].artifact}); }
  }
}
