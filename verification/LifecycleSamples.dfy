/** Runs of the governed lifecycle at which a property one might expect does not hold: limits
    of an approval that bind nothing, an action with one use that is used any number of times,
    and a transaction that a session under another manifest takes over. */
module LifecycleSamples {
  import opened Results
  import opened Ordering
  import opened Disk
  import opened Records
  import opened Transactions
  import opened Lifecycle
  import opened LifecycleRuns
  import opened LifecycleSafety
  import opened LifecycleRestart
  import opened LifecycleBinding
  import opened LifecycleLimits
  import opened LifecycleCalls

  /** An L1 action on file "a" that may run one command; it asks for no evidence of its own. */
  function SomeProposal(operation: string, transaction: Option<TransactionId>, useLimit: int): Proposal {
    Proposal("", operation, ["a"], [], L1, transaction, ["run"], ["test"], [], useLimit)
  }

  /** The manifest for the empty workspace, with these tests made mandatory. */
  function TaskManifest(tests: seq<string>, ignored: Ignored): Authority {
    SomeManifest("task", map[], ignored).(mandatoryTests := tests)
  }

  const SOME_ITEMS := [GateItem(0, Invariant, {}), GateItem(1, Boundary, {})]

  /** Limits within which no call below stays. */
  const TIGHT_LIMITS := Limits(Some({"zzz"}), Some({}), Some({}), Some(1))

  function Approval(limits: Limits): Call {
    SubmitGateCall(Approve, SOME_ITEMS, [], limits)
  }

  const AN_OBSERVATION := ObserveCall(false, "", true)

  /** A run of the allowed command that succeeds and leaves these files. */
  function Command(files: Files): Call {
    RunCommandCall(L1, "run", "test", true, true, Effect(files, map[], true, true))
  }

  function Last(ss: seq<State>): State
    requires ss != []
  {
    ss[|ss| - 1]
  }

  /** How many calls of the run used action a. */
  ghost function UsesOf(ss: seq<State>, cs: seq<Call>, ignored: Ignored, a: ActionId): nat
    requires |ss| == |cs| + 1
  {
    UsesBetween(ss, cs, ignored, 0, |cs|, a)
  }

  /** A run taken one call further. */
  lemma Then(ss: seq<State>, cs: seq<Call>, ignored: Ignored, c: Call) returns (st: seq<State>, ct: seq<Call>)
    requires IsRun(ss, cs, ignored)
    ensures IsRun(st, ct, ignored) && |st| == |ss| + 1
    ensures st[0] == ss[0] && ct == cs + [c] && Last(st) == Next(Last(ss), ignored, c).state
    ensures forall k :: 0 <= k < |ss| ==> st[k] == ss[k]
    ensures forall a ::
      UsesOf(st, ct, ignored, a) == UsesOf(ss, cs, ignored, a) + (if Uses(Last(ss), ignored, c, a) then 1 else 0)
  {
    hide Next, Uses;
    RunExtends(ss, cs, ignored, c);
    st, ct := ss + [Next(Last(ss), ignored, c).state], cs + [c];
    forall a
      ensures UsesOf(st, ct, ignored, a) == UsesOf(ss, cs, ignored, a)
        + (if Uses(Last(ss), ignored, c, a) then 1 else 0)
    {
      SameUses(ss, cs, st, ct, ignored, |cs|, a);
    }
  }

  lemma {:induction false} SameUses(ss: seq<State>, cs: seq<Call>, st: seq<State>, ct: seq<Call>, ignored: Ignored,
      i: nat,
      a: ActionId)
    requires i <= |cs| <= |ss| && |cs| <= |ct| && |ss| <= |st|
    requires st[..|ss|] == ss && ct[..|cs|] == cs && |ct| <= |st|
    ensures UsesBetween(st, ct, ignored, 0, i, a) == UsesBetween(ss, cs, ignored, 0, i, a)
  {
    hide Uses;
    if i > 0 {
      SameUses(ss, cs, st, ct, ignored, i - 1, a);
      assert st[..|ss|][i - 1] == ss[i - 1] && ct[..|cs|][i - 1] == cs[i - 1];
    }
  }

  // ----- the calls the runs are made of -----

  /** The action for proposal p is pending, and none of its uses is counted. */
  ghost predicate Pending(s: State, ignored: Ignored, p: Proposal, a: ActionId) {
    && s.governance == Some(AuthorityHash(s.authority))
    && s.authority.mandatoryEvidence == []
    && s.action == Some(Action(a, 0)) && a.material == MaterialOf(s, ignored, p)
    && (p.transaction.Some? ==> p.transaction.value in s.store.transactions)
  }

  /** Artifacts 0 and 1 are bound to the action and to its source snapshot. */
  ghost predicate Observed(s: State, a: ActionId) {
    IsBound(s, 0, a) && IsBound(s, 1, a)
  }

  predicate IsBound(s: State, e: EvidenceId, a: ActionId) {
    && e in s.evidence
    && s.evidence[e].actionId == Some(a) && s.evidence[e].source == a.material.source
  }

  lemma SomeMaterial(s: State, ignored: Ignored, operation: string, transaction: Option<TransactionId>, useLimit: int)
    requires s.authority.mandatoryEvidence == [] && 1 <= useLimit <= 20
    ensures var m := MaterialOf(s, ignored, SomeProposal(operation, transaction, useLimit));
      && m.risk == L1 && m.evidence == [] && m.useLimit == useLimit
      && (forall t :: t in m.requiredTests <==> t in s.authority.mandatoryTests)
      && m.transaction == transaction && m.capabilities == ["run"] && "test" in m.commands
      && m.authority == AuthorityHash(s.authority) && m.source == SnapshotOf(s.store.files, ignored)
  {
    hide SnapshotOf;
  }

  lemma Proposes(s: State, ignored: Ignored, p: Proposal)
    requires s.authority.mandatoryEvidence == []
    requires ProposeError(s, ignored, p, true).None?
    ensures var r, a := Next(s, ignored, ProposeCall(p, true)), ActionId(MaterialOf(s, ignored, p));
      && r.refusal.None? && Pending(r.state, ignored, p, a)
      && r.state.authority == s.authority && r.state.evidence == s.evidence && r.state.nextEvent == s.nextEvent
      && r.state.store.files == s.store.files && r.state.store.candidates == s.store.candidates
      && r.state.store.transactions == (if p.transaction.None? then s.store.transactions
          else s.store.transactions[p.transaction.value :=
                 s.store.transactions[p.transaction.value].(actionId := Some(a))])
  {
    hide SnapshotOf;
  }

  /** Two observations right after the proposal give the artifacts a gate can rest on. */
  lemma Observes(s: State, ignored: Ignored, p: Proposal, a: ActionId)
    requires Pending(s, ignored, p, a) && s.nextEvent == 0 && s.evidence == map[]
    ensures var t := Next(Next(s, ignored, AN_OBSERVATION).state, ignored, AN_OBSERVATION).state;
      && Pending(t, ignored, p, a) && Observed(t, a) && EvidenceFresh(t)
      && t.store == s.store && t.authority == s.authority
  {
    hide SnapshotOf;
  }

  lemma Approves(s: State, ignored: Ignored, p: Proposal, a: ActionId, limits: Limits)
    requires Pending(s, ignored, p, a) && Observed(s, a)
    requires a.material.risk == L1 && a.material.evidence == [] && 1 <= a.material.useLimit
    ensures var r := Next(s, ignored, Approval(limits));
      && r.refusal.None? && r.state.gate.Some? && r.state == s.(gate := r.state.gate)
      && r.state.gate.value.actionId == a && r.state.gate.value.verdict == Approve
      && r.state.gate.value.limits == limits
  {
    hide SnapshotOf, FirstOccurrences;
    NextIs(s, ignored, Approval(limits));
    assert ItemsError(s, s.action.value, SOME_ITEMS, {}).None? by { TwoItems(s, s.action.value); }
    TwoCategories();
    hide Next, ItemsError, CategoryMap, Under;
  }

  lemma TwoItems(s: State, a: Action)
    requires Observed(s, a.id)
    ensures ItemsError(s, a, SOME_ITEMS, {}).None?
  {
    var rest := SOME_ITEMS[1..];
    assert rest == [GateItem(1, Boundary, {})] && rest[1..] == [];
    assert ItemsError(s, a, rest[1..], {0, 1}).None? && {0} + {1} == {0, 1};
    assert ItemsError(s, a, rest, {0}).None? && {} + {0} == {0};
  }

  lemma TwoCategories()
    ensures CategoryMap(SOME_ITEMS)[Invariant] != [] && CategoryMap(SOME_ITEMS)[Boundary] != []
  {
    UnderExact(SOME_ITEMS, Invariant);
    UnderExact(SOME_ITEMS, Boundary);
    assert SOME_ITEMS[0].artifact in Under(SOME_ITEMS, Invariant);
    assert SOME_ITEMS[1].artifact in Under(SOME_ITEMS, Boundary);
  }

  // ----- one use, used any number of times -----

  const COMMAND_PROPOSAL := SomeProposal("run_command", None, 1)

  /** Where each round of the run below starts. */
  ghost predicate Round(s: State, ignored: Ignored, a: ActionId) {
    Pending(s, ignored, COMMAND_PROPOSAL, a) && Observed(s, a) && s.store.files == map[] && a.material.useLimit == 1
      && EvidenceFresh(s)
  }

  /** A gate for the action, its one use, and the same proposal again. */
  lemma OneRound(s: State, ignored: Ignored, a: ActionId)
    requires Round(s, ignored, a)
    ensures var r1 := Next(s, ignored, Approval(NO_LIMITS));
      var r2 := Next(r1.state, ignored, Command(map[]));
      && ActionIdOf(r1.state) == Some(a) && r2.refusal.None?
      && Round(Next(r2.state, ignored, ProposeCall(COMMAND_PROPOSAL, true)).state, ignored, a)
  {
    hide Next, SnapshotOf, MaterialOf;
    SomeMaterial(s, ignored, "run_command", None, 1);
    Approves(s, ignored, COMMAND_PROPOSAL, a, NO_LIMITS);
    var s1 := Next(s, ignored, Approval(NO_LIMITS)).state;
    SameMaterial(s, s1, ignored, COMMAND_PROPOSAL);
    CommandRuns(s1, ignored, a);
    var s2 := Next(s1, ignored, Command(map[])).state;
    SameMaterial(s, s2, ignored, COMMAND_PROPOSAL);
    Proposes(s2, ignored, COMMAND_PROPOSAL);
  }

  lemma SameMaterial(s: State, t: State, ignored: Ignored, p: Proposal)
    requires s.authority == t.authority && s.store.files == t.store.files
    ensures MaterialOf(s, ignored, p) == MaterialOf(t, ignored, p)
  {
    hide SnapshotOf, FirstOccurrences;
  }

  lemma CommandRuns(s: State, ignored: Ignored, a: ActionId)
    requires Pending(s, ignored, COMMAND_PROPOSAL, a) && Observed(s, a) && EvidenceFresh(s) && s.store.files == map[]
    requires s.gate.Some? && s.gate.value.actionId == a && s.gate.value.verdict == Approve
    ensures var r := Next(s, ignored, Command(map[]));
      && r.refusal.None? && r.state.authority == s.authority && r.state.governance == s.governance
      && r.state.store.files == s.store.files && Observed(r.state, a) && EvidenceFresh(r.state)
      && ProposeError(r.state, ignored, COMMAND_PROPOSAL, true).None?
  {
    hide SnapshotOf, MaterialOf;
    SomeMaterial(s, ignored, "run_command", None, 1);
  }

  lemma Governs(authority: Authority, ignored: Ignored)
    ensures var r := Next(Fresh(map[], authority), ignored, EstablishGovernanceCall(true));
      r.state == Fresh(map[], authority).(governance := Some(AuthorityHash(authority)))
  {
  }

  /** Governance, the proposal, and two observations. */
  lemma FirstRound(ignored: Ignored) returns (ss: seq<State>, cs: seq<Call>, a: ActionId)
    ensures IsRun(ss, cs, ignored) && Round(Last(ss), ignored, a)
    ensures UsesOf(ss, cs, ignored, a) == 0
  {
    hide Next, SnapshotOf, MaterialOf, Pending, Observed;
    var authority := TaskManifest([], ignored);
    Governs(authority, ignored);
    ss, cs := [Fresh(map[], authority)], [];
    ss, cs := Then(ss, cs, ignored, EstablishGovernanceCall(true));
    var s1 := Last(ss);
    assert ProposeError(s1, ignored, COMMAND_PROPOSAL, true).None?;
    Proposes(s1, ignored, COMMAND_PROPOSAL);
    SomeMaterial(s1, ignored, "run_command", None, 1);
    a := ActionId(MaterialOf(s1, ignored, COMMAND_PROPOSAL));
    ss, cs := Then(ss, cs, ignored, ProposeCall(COMMAND_PROPOSAL, true));
    Observes(Last(ss), ignored, COMMAND_PROPOSAL, a);
    ss, cs := Then(ss, cs, ignored, AN_OBSERVATION);
    ss, cs := Then(ss, cs, ignored, AN_OBSERVATION);
  }

  /** An action with a use limit of one can be used any number of times: whoever proposes the
      same again finds the evidence for its gate still bound to it. */
  lemma {:induction false} UsesUnbounded(ignored: Ignored, n: nat) returns (ss: seq<State>, cs: seq<Call>, a: ActionId)
    ensures IsRun(ss, cs, ignored) && Round(Last(ss), ignored, a)
    ensures a.material.useLimit == 1 && UsesOf(ss, cs, ignored, a) == n
  {
    hide Next, SnapshotOf, Pending, Observed, UsesOf;
    if n == 0 {
      ss, cs, a := FirstRound(ignored);
    } else {
      ss, cs, a := UsesUnbounded(ignored, n - 1);
      OneRound(Last(ss), ignored, a);
      ss, cs := Then(ss, cs, ignored, Approval(NO_LIMITS));
      ss, cs := Then(ss, cs, ignored, Command(map[]));
      ss, cs := Then(ss, cs, ignored, ProposeCall(COMMAND_PROPOSAL, true));
    }
  }

  // ----- limits of an approval -----

  /** Transaction `id` was applied to a workspace that was empty, under an approved action with
      five uses, `uses` of them counted. */
  ghost predicate AppliedAlone(s: State, ignored: Ignored, tests: seq<string>, id: TransactionId, a: ActionId,
      uses: nat) {
    var m := a.material;
    && s.authority == TaskManifest(tests, ignored) && s.governance == Some(AuthorityHash(s.authority))
    && s.action == Some(Action(a, uses))
    && m.risk == L1 && m.transaction == Some(id) && m.authority == AuthorityHash(s.authority) && m.useLimit == 5
    && "run" in m.capabilities && "test" in m.commands && (forall t :: t in m.requiredTests <==> t in tests)
    && m.source == SnapshotOf(map[], ignored)
    && s.gate.Some? && s.gate.value.actionId == a && s.gate.value.verdict == Approve
    && s.gate.value.limits == TIGHT_LIMITS
    && "a" in id.targets && s.store.files == map["a" := File([65], NEW_FILE_MODE)]
    && s.store.transactions.Keys == {id} && s.store.transactions[id].status == Applied
    && s.store.transactions[id].authority == AuthorityHash(s.authority)
    && s.store.transactions[id].appliedSnapshot == Some(SnapshotOf(s.store.files, ignored))
    && s.store.transactions[id].appliedHashes == map["a" := FileHash([65])]
  }

  /** Transaction `id` puts a new file "a" into the empty workspace, and an action with five
      uses is proposed for it. */
  ghost predicate FileProposed(s: State, ignored: Ignored, tests: seq<string>, id: TransactionId, a: ActionId) {
    var m := a.material;
    && IsNewFile(id, ignored)
    && s.authority == TaskManifest(tests, ignored) && s.governance == Some(AuthorityHash(s.authority))
    && s.action == Some(Action(a, 0))
    && m.risk == L1 && m.transaction == Some(id) && m.authority == AuthorityHash(s.authority) && m.useLimit == 5
    && "run" in m.capabilities && "test" in m.commands && (forall t :: t in m.requiredTests <==> t in tests)
    && m.source == id.source
    && m.evidence == []
    && s.store.files == map[] && CandidateCheck(s.store.candidates, id).None?
    && CandidateIntact(s.store.candidates, id)
    && s.store.transactions == map[id := FreshRecord(id, AuthorityHash(s.authority)).(actionId := Some(a))]
  }

  ghost predicate IsNewFile(id: TransactionId, ignored: Ignored) {
    && id.WellFormed() && id.targets == ["a"]
    && id.candidate.hashes["a"] == FileHash([65]) && id.source == SnapshotOf(map[], ignored)
  }

  /** Governance, a prepared file "a", an L1 action on it with five uses, two observations. */
  lemma ProposedRun(ignored: Ignored, tests: seq<string>) returns (ss: seq<State>, cs: seq<Call>, id: TransactionId,
      a: ActionId)
    ensures IsRun(ss, cs, ignored) && |cs| == 5
    ensures FileProposed(Last(ss), ignored, tests, id, a) && Observed(Last(ss), a)
    ensures Pending(Last(ss), ignored, SomeProposal("apply_transaction", Some(id), 5), a)
    ensures ss[0] == Fresh(map[], TaskManifest(tests, ignored)) && UsesOf(ss, cs, ignored, a) == 0
  {
    hide Next, SnapshotOf, MaterialOf, Observed, IdOf, PrepareStep, CandidateIntact, CandidateCheck;
    var authority := TaskManifest(tests, ignored);
    Governs(authority, ignored);
    ss, cs := [Fresh(map[], authority)], [];
    ss, cs := Then(ss, cs, ignored, EstablishGovernanceCall(true));
    id := Prepares(Last(ss), ignored, tests, authority);
    ss, cs := Then(ss, cs, ignored, PrepareCall("write_file", SOME_CONTENTS, true, false));
    var p := SomeProposal("apply_transaction", Some(id), 5);
    Proposes(Last(ss), ignored, p);
    SomeMaterial(Last(ss), ignored, "apply_transaction", Some(id), 5);
    a := ActionId(MaterialOf(Last(ss), ignored, p));
    ss, cs := Then(ss, cs, ignored, ProposeCall(p, true));
    Observes(Last(ss), ignored, p, a);
    ss, cs := Then(ss, cs, ignored, AN_OBSERVATION);
    ss, cs := Then(ss, cs, ignored, AN_OBSERVATION);
  }

  /** A call that gets through although it leaves the limits of its gate. */
  ghost predicate LeavesLimits(s: State, ignored: Ignored, c: Call) {
    && Mutating(c) && Admitted(s, ignored, c) && s.action.Some? && s.gate.Some?
    && s.gate.value.limits == TIGHT_LIMITS && !WithinLimits(s, c)
  }

  /** That run, an approval whose limits allow another file, no command and one use, and the
      application. */
  lemma LimitedRun(ignored: Ignored, tests: seq<string>) returns (ss: seq<State>, cs: seq<Call>, id: TransactionId,
      a: ActionId)
    ensures IsRun(ss, cs, ignored) && |cs| == 7 && AppliedAlone(Last(ss), ignored, tests, id, a, 1)
    ensures ss[0] == Fresh(map[], TaskManifest(tests, ignored))
    ensures LeavesLimits(ss[6], ignored, cs[6]) && UsesOf(ss, cs, ignored, a) == 1
  {
    hide Next, SnapshotOf, MaterialOf, Observed, CandidateIntact, CandidateCheck, IsNewFile, AppliedAlone, UsesOf,
      LeavesLimits;
    ss, cs, id, a := ProposedRun(ignored, tests);
    Approves(Last(ss), ignored, SomeProposal("apply_transaction", Some(id), 5), a, TIGHT_LIMITS);
    ss, cs := Then(ss, cs, ignored, Approval(TIGHT_LIMITS));
    Applies(Last(ss), ignored, tests, id, a);
    ss, cs := Then(ss, cs, ignored, Application(id));
  }

  lemma Prepares(s: State, ignored: Ignored, tests: seq<string>, authority: Authority) returns (id: TransactionId)
    requires authority == TaskManifest(tests, ignored)
    requires s == Fresh(map[], authority).(governance := Some(AuthorityHash(authority)))
    ensures IsNewFile(id, ignored)
    ensures var r := Next(s, ignored, PrepareCall("write_file", SOME_CONTENTS, true, false));
      && r.state == s.(active := Some(id), store := r.state.store)
      && r.state.store.files == map[] && r.state.store.backups == map[]
      && r.state.store.transactions == map[id := FreshRecord(id, AuthorityHash(authority))]
      && CandidateIntact(r.state.store.candidates, id) && CandidateCheck(r.state.store.candidates, id).None?
  {
    var st: Store;
    st, id := PreparedFile(ignored, AuthorityHash(authority));
    NextIs(s, ignored, PrepareCall("write_file", SOME_CONTENTS, true, false));
    hide Next, IdOf, SnapshotOf, PrepareStep, CandidateIntact, CandidateCheck;
    assert "a" in SOME_CONTENTS;
    assert PrepareError(s, ignored, SOME_CONTENTS, true).None?;
    assert s.store == Store(map[], map[], map[], map[]);
  }

  function Application(id: TransactionId): Call {
    ApplyCall(id, false, false, true, Faults(map[], NoTailFault, map[]))
  }

  lemma Applies(s: State, ignored: Ignored, tests: seq<string>, id: TransactionId, a: ActionId)
    requires FileProposed(s, ignored, tests, id, a)
    requires s.gate.Some? && s.gate.value.actionId == a && s.gate.value.verdict == Approve
      && s.gate.value.limits == TIGHT_LIMITS
    ensures var r := Next(s, ignored, Application(id));
      && r.refusal.None? && AppliedAlone(r.state, ignored, tests, id, a, 1)
      && LeavesLimits(s, ignored, Application(id))
  {
    ApplicationAdmitted(s, ignored, tests, id, a);
    NextIs(s, ignored, Application(id));
    AppliesFile(s.store, ignored, id);
    hide Next, SnapshotOf, CandidateIntact, CandidateCheck, ApplyStep, ApplyError, LeavesLimits;
  }

  lemma ApplicationAdmitted(s: State, ignored: Ignored, tests: seq<string>, id: TransactionId, a: ActionId)
    requires FileProposed(s, ignored, tests, id, a)
    requires s.gate.Some? && s.gate.value.actionId == a && s.gate.value.verdict == Approve
      && s.gate.value.limits == TIGHT_LIMITS
    ensures ApplyError(s, ignored, id, false, false, true).None? && LeavesLimits(s, ignored, Application(id))
  {
    hide SnapshotOf, CandidateIntact, CandidateCheck;
    assert "a" in id.targets;
  }

  lemma AppliesFile(s: Store, ignored: Ignored, id: TransactionId)
    requires IsNewFile(id, ignored)
    requires s.files == map[] && CandidateIntact(s.candidates, id) && CandidateCheck(s.candidates, id).None?
    requires s.transactions.Keys == {id} && s.transactions[id].status == Prepared
    requires s.transactions[id].appliedHashes == map[]
    ensures var step := ApplyStep(s, ignored, id, Faults(map[], NoTailFault, map[]));
      && step.error.None? && step.store.files == map["a" := File([65], NEW_FILE_MODE)]
      && step.store.transactions.Keys == {id} && step.store.transactions[id].status == Applied
      && step.store.transactions[id].authority == s.transactions[id].authority
      && step.store.transactions[id].appliedSnapshot == Some(SnapshotOf(step.store.files, ignored))
      && step.store.transactions[id].appliedHashes == map["a" := FileHash([65])]
  {
    hide Written, SnapshotOf, CandidateIntact, CandidateCheck, ManifestOf, BackupsOf;
    assert FirstFault(id.targets, map[]) == 1;
    OneWritten(id.candidate, "a");
    assert HashesOf(id.candidate, ["a"]) == map["a" := FileHash([65])];
  }

  lemma RunsAfterwards(s: State, ignored: Ignored, tests: seq<string>, id: TransactionId, a: ActionId, uses: nat)
    requires AppliedAlone(s, ignored, tests, id, a, uses) && uses < 5
    ensures var r := Next(s, ignored, Command(map["a" := File([65], NEW_FILE_MODE)]));
      && r.refusal.None? && AppliedAlone(r.state, ignored, tests, id, a, uses + 1)
      && (uses > 0 ==> LeavesLimits(s, ignored, Command(map["a" := File([65], NEW_FILE_MODE)])))
  {
    hide SnapshotOf;
    NextIs(s, ignored, Command(map["a" := File([65], NEW_FILE_MODE)]));
    hide Next;
  }

  /** Under an approval whose limits allow one use, another file and no command, the application
      and two commands get through: three uses are counted. */
  lemma ThreeUsesUnderMaxUsesOne(ignored: Ignored) returns (ss: seq<State>, cs: seq<Call>, a: ActionId)
    ensures IsRun(ss, cs, ignored) && |cs| == 9 && UsesOf(ss, cs, ignored, a) == 3
    ensures LeavesLimits(ss[6], ignored, cs[6]) && LeavesLimits(ss[7], ignored, cs[7])
      && LeavesLimits(ss[8], ignored, cs[8])
  {
    hide Next, LeavesLimits, UsesOf, SnapshotOf;
    var id, c;
    c := Command(map["a" := File([65], NEW_FILE_MODE)]);
    ss, cs, id, a := LimitedRun(ignored, []);
    RunsAfterwards(Last(ss), ignored, [], id, a, 1);
    ss, cs := Then(ss, cs, ignored, c);
    RunsAfterwards(Last(ss), ignored, [], id, a, 2);
    ss, cs := Then(ss, cs, ignored, c);
  }

  // ----- a transaction under another manifest -----

  /** Transaction `id` of the manifest for the empty workspace is VERIFIED and the only one. */
  ghost predicate VerifiedAlone(s: State, ignored: Ignored, id: TransactionId) {
    && "a" in id.targets && s.store.files == map["a" := File([65], NEW_FILE_MODE)] && s.active.None?
    && s.store.transactions.Keys == {id} && s.store.transactions[id].status == Verified
    && s.store.transactions[id].authority == AuthorityHash(TaskManifest([], ignored))
  }

  function OtherManifest(ignored: Ignored): Authority {
    SomeManifest("other", map["a" := File([65], NEW_FILE_MODE)], ignored)
  }

  const OTHER_CONTENTS: map<Path, Bytes> := map["b" := [66]]

  lemma Finalizes(s: State, ignored: Ignored, id: TransactionId, a: ActionId, uses: nat)
    requires AppliedAlone(s, ignored, [], id, a, uses)
    ensures VerifiedAlone(Next(s, ignored, FinalizeCall(id, [], false)).state, ignored, id)
  {
    hide SnapshotOf, FirstOccurrences;
    NextIs(s, ignored, FinalizeCall(id, [], false));
    hide Next;
    assert FinalizeError(s, ignored, id, []).None?;
  }

  /** A session under another manifest, which nothing open stands in the way of, prepares a
      transaction of its own. */
  lemma OtherPrepares(s: State, ignored: Ignored, id: TransactionId) returns (other: TransactionId)
    requires VerifiedAlone(s, ignored, id) && Safe(s)
    ensures var s1 := Next(s, ignored, RestartCall(OtherManifest(ignored), None, true)).state;
      var s2 := Next(s1, ignored, EstablishGovernanceCall(true)).state;
      var s3 := Next(s2, ignored, PrepareCall("write_file", OTHER_CONTENTS, true, false)).state;
      other != id && s3.active == Some(other)
        && s3.store.transactions == s.store.transactions[other :=
             FreshRecord(other, AuthorityHash(OtherManifest(ignored)))]
  {
    hide SnapshotOf, IdOf, Safe;
    other := IdOf("write_file", OTHER_CONTENTS, SnapshotOf(s.store.files, ignored));
    LoadsExactlyWhen(s);
    RestartStep(s, ignored, RestartCall(OtherManifest(ignored), None, true));
    var s1 := Next(s, ignored, RestartCall(OtherManifest(ignored), None, true)).state;
    var s2 := Next(s1, ignored, EstablishGovernanceCall(true)).state;
    assert s2 == s1.(governance := Some(AuthorityHash(s1.authority)), action := None, gate := None);
    hide Next;
    assert "b" in OTHER_CONTENTS && "a" !in OTHER_CONTENTS;
    PrepareStatus(s2, ignored, PrepareCall("write_file", OTHER_CONTENTS, true, false));
    assert PrepareError(s2, ignored, OTHER_CONTENTS, true).None?;
  }

  /** The first session is started again, for its verified transaction. */
  lemma TakesOver(s: State, ignored: Ignored, id: TransactionId, other: TransactionId)
    requires Safe(s) && s.active == Some(other) && id != other
    requires s.store.transactions.Keys == {id, other} && s.store.transactions[id].status == Verified
    requires s.store.transactions[id].authority == AuthorityHash(TaskManifest([], ignored))
    requires s.store.transactions[other] == FreshRecord(other, AuthorityHash(OtherManifest(ignored)))
    ensures var c := RestartCall(TaskManifest([], ignored), Some(id), true);
      && Unbinds(s, ignored, c) && Next(s, ignored, c).state.store == s.store
      && Next(s, ignored, c).state.authority == c.authority
  {
    hide SnapshotOf, Next, Safe;
    LoadsExactlyWhen(s);
    RestartStep(s, ignored, RestartCall(TaskManifest([], ignored), Some(id), true));
  }

  /** A session applies and verifies a transaction; a second one, under another manifest,
      prepares one; and the first manifest's session, started for its verified transaction, goes
      on with the second one's. */
  lemma TakenOverRun(ignored: Ignored) returns (ss: seq<State>, cs: seq<Call>, id: TransactionId, other: TransactionId)
    ensures IsRun(ss, cs, ignored) && |cs| == 12
    ensures cs[7..] == [FinalizeCall(id, [], false), RestartCall(OtherManifest(ignored), None, true),
                        EstablishGovernanceCall(true), PrepareCall("write_file", OTHER_CONTENTS, true, false),
                        RestartCall(TaskManifest([], ignored), Some(id), true)]
    ensures Unbinds(ss[11], ignored, cs[11])
    ensures var s := ss[12];
      && s.authority == TaskManifest([], ignored) && s.authority != OtherManifest(ignored)
      && s.store.transactions.Keys == {id, other} && s.store.transactions[other].status == Prepared
      && s.store.transactions[other].authority == AuthorityHash(OtherManifest(ignored))
      && !OpenBound(s)
  {
    hide Next, SnapshotOf, AppliedAlone, Unbinds, UsesOf, LeavesLimits, Safe;
    var a;
    ss, cs, id, a := LimitedRun(ignored, []);
    Finalizes(Last(ss), ignored, id, a, 1);
    ss, cs := Then(ss, cs, ignored, FinalizeCall(id, [], false));
    SafeInEveryRun(ss, cs, ignored, 8);
    other := OtherPrepares(Last(ss), ignored, id);
    ss, cs := Then(ss, cs, ignored, RestartCall(OtherManifest(ignored), None, true));
    ss, cs := Then(ss, cs, ignored, EstablishGovernanceCall(true));
    ss, cs := Then(ss, cs, ignored, PrepareCall("write_file", OTHER_CONTENTS, true, false));
    SafeInEveryRun(ss, cs, ignored, 11);
    TakesOver(Last(ss), ignored, id, other);
    ss, cs := Then(ss, cs, ignored, RestartCall(TaskManifest([], ignored), Some(id), true));
    assert TaskManifest([], ignored).taskId != OtherManifest(ignored).taskId;
  }

  // ----- a test before VERIFIED -----

  /** A transaction that puts a file there is VERIFIED by the run of a test its manifest makes
      mandatory, although that run's evidence was recorded at the applied snapshot and not at
      the source snapshot of the action. */
  lemma TestedRun(ignored: Ignored) returns (ss: seq<State>, cs: seq<Call>, id: TransactionId, e: EvidenceId)
    requires !ignored("a")
    ensures IsRun(ss, cs, ignored) && |cs| == 9 && ss[0].authority.mandatoryTests == ["test"]
    ensures cs[7..] == [Command(map["a" := File([65], NEW_FILE_MODE)]), FinalizeCall(id, [e], false)]
    ensures IsVerified(ss[9].store, id) && ss[9].active.None?
    ensures ss[8].action.Some? && "test" in ss[8].action.value.id.material.requiredTests
    ensures e in ss[8].evidence && ss[8].evidence[e].source != ss[8].action.value.id.material.source
  {
    hide Next, AppliedAlone, LeavesLimits, UsesOf, SnapshotOf, MayFinalize;
    var a;
    ss, cs, id, a := LimitedRun(ignored, ["test"]);
    e := Last(ss).nextEvent;
    TestRecorded(Last(ss), ignored, id, a);
    RunsAfterwards(Last(ss), ignored, ["test"], id, a, 1);
    ss, cs := Then(ss, cs, ignored, Command(map["a" := File([65], NEW_FILE_MODE)]));
    TestSuffices(Last(ss), ignored, id, a, e);
    TestVerifies(Last(ss), ignored, id, a, e);
    SourceIsLeft(Last(ss), ignored, id, a);
    ss, cs := Then(ss, cs, ignored, FinalizeCall(id, [e], false));
  }

  lemma TestRecorded(s: State, ignored: Ignored, id: TransactionId, a: ActionId)
    requires AppliedAlone(s, ignored, ["test"], id, a, 1)
    ensures var t := Next(s, ignored, Command(map["a" := File([65], NEW_FILE_MODE)])).state;
      && s.nextEvent in t.evidence
      && t.evidence[s.nextEvent] == Artifact(CommandEvidence, "test", Some(a), SnapshotOf(t.store.files, ignored), true)
  {
    var c := Command(map["a" := File([65], NEW_FILE_MODE)]);
    CommandExactlyWhen(s, ignored, c);
    RunsAfterwards(s, ignored, ["test"], id, a, 1);
    hide Next, SnapshotOf, MayRun;
  }

  lemma TestSuffices(s: State, ignored: Ignored, id: TransactionId, a: ActionId, e: EvidenceId)
    requires AppliedAlone(s, ignored, ["test"], id, a, 2)
    requires e in s.evidence
      && s.evidence[e] == Artifact(CommandEvidence, "test", Some(a), SnapshotOf(s.store.files, ignored), true)
    ensures MayFinalize(s, ignored, FinalizeCall(id, [e], false))
    ensures s.action.Some? && s.action.value.id == a && "test" in a.material.requiredTests
  {
    hide SnapshotOf;
    assert e in [e];
  }

  lemma TestVerifies(s: State, ignored: Ignored, id: TransactionId, a: ActionId, e: EvidenceId)
    requires MayFinalize(s, ignored, FinalizeCall(id, [e], false))
    ensures var t := Next(s, ignored, FinalizeCall(id, [e], false)).state; IsVerified(t.store, id) && t.active.None?
  {
    hide Next, MayFinalize;
    FinalizeExactlyWhen(s, ignored, FinalizeCall(id, [e], false));
  }

  lemma SourceIsLeft(s: State, ignored: Ignored, id: TransactionId, a: ActionId)
    requires AppliedAlone(s, ignored, ["test"], id, a, 2) && !ignored("a")
    ensures SnapshotOf(s.store.files, ignored) != a.material.source
  {
    assert "a" in SnapshotOf(s.store.files, ignored).entries;
  }
}
