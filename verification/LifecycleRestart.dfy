/** The active transaction and the restart: which calls leave a state that does not load,
    which calls mend it, and that in every run there is at most one writer. */
module LifecycleRestart {
  import opened Results
  import opened Ordering
  import opened Disk
  import opened Records
  import opened Transactions
  import opened Lifecycle
  import opened LifecycleRuns
  import opened LifecycleSafety

  // ----- the active transaction -----

  ghost predicate ActiveSound(s: State) {
    s.active.Some? ==> s.active.value in s.store.transactions && Unresolved(s.store.transactions[s.active.value].status)
  }

  /** Writing the record file fails in a finalize or a roll-back. */
  predicate RecordWriteFails(c: Call) {
    (c.FinalizeCall? && c.recordFails) || (c.RollbackCall? && c.recordFails)
  }

  lemma ActiveSoundStep(s: State, ignored: Ignored, c: Call)
    requires s.store.WellFormed() && OneOpen(s.store) && ActiveSound(s)
    requires !RecordWriteFails(c)
    ensures ActiveSound(Next(s, ignored, c).state)
  {
    hide Next, MoveOf, Moves, IdOf, SnapshotOf;
    ActiveChanges(s, ignored, c);
    var t := Next(s, ignored, c).state;
    if t.active.Some? && !(t.active.value in t.store.transactions
      && Unresolved(t.store.transactions[t.active.value].status)) {
      StatusGraph(s, ignored, c, t.active.value);
      StaysOpen(s, ignored, c, t.active.value);
    }
  }

  lemma StaysOpen(s: State, ignored: Ignored, c: Call, id: TransactionId)
    requires id in s.store.transactions && Unresolved(s.store.transactions[id].status)
    requires Moves(s.store, Next(s, ignored, c).state.store, id, MoveOf(s, ignored, c, id))
    requires c.FinalizeCall? || c.RollbackCall? ==> Next(s, ignored, c).state.store.transactions == s.store.transactions
    ensures id in Next(s, ignored, c).state.store.transactions
      && Unresolved(Next(s, ignored, c).state.store.transactions[id].status)
  {
    hide Next, IdOf, SnapshotOf;
  }

  /** Where the active identifier of the next state comes from. */
  lemma ActiveChanges(s: State, ignored: Ignored, c: Call)
    requires !RecordWriteFails(c)
    ensures var t := Next(s, ignored, c).state;
      || t.active.None?
      || (t.active == s.active && (c.FinalizeCall? || c.RollbackCall? ==> t.store.transactions == s.store.transactions))
      || (t.active.value in t.store.transactions && Unresolved(t.store.transactions[t.active.value].status))
  {
    hide ApplyStep, RestoreFrom, SnapshotOf, GovernanceError, CurrentActionError, GateError, LimitError,
      TransitionError, PermissionError, VerifyAppliedError, FinalizeError, ItemsError, VerdictOf, LoadError, IdOf,
      MaterialOf, CandidateFiles, FirstOccurrences, LimitsError, CategoriesMissing, CommandError, ApplyError,
      SessionError;
  }

  // ----- the calls that strand it, and those that mend it -----

  /** Closing the transaction would change its status: it is prepared, or it is applied and
      restoring its targets raises nothing. */
  predicate Closable(s: Store, id: TransactionId, restore: RestoreFaults) {
    && id in s.transactions
    && var r := s.transactions[id];
      || r.status == Prepared
      || ((r.status == Applied || r.status == Verified)
          && RestoreFrom(s.files, r.manifest, s.backups, id, Reversed(id.targets), restore).error.None?)
  }

  /** A finalize that passes its checks, or a roll-back that would go through, of the active
      transaction, whose record file cannot be written. */
  predicate Strands(s: State, ignored: Ignored, c: Call) {
    || (c.FinalizeCall? && c.recordFails && s.active == Some(c.id)
          && FinalizeError(s, ignored, c.id, c.evidenceIds).None?)
    || (c.RollbackCall? && c.recordFails && s.active == Some(c.id) && Closable(s.store, c.id, c.restore))
  }

  /** A successful finalize or roll-back clears the active identifier, a successful prepare
      replaces it; and preparing the very transaction it names opens that one again. */
  predicate Mends(s: State, ignored: Ignored, c: Call) {
    || (c.FinalizeCall? && !c.recordFails && FinalizeError(s, ignored, c.id, c.evidenceIds).None?
        && c.id in s.store.transactions && s.store.transactions[c.id].status == Applied)
    || (c.RollbackCall? && !c.recordFails && Closable(s.store, c.id, c.restore))
    || (c.PrepareCall? && PrepareError(s, ignored, c.contents, c.admits).None?
        && (!c.recordFails || s.active == Some(IdOf(c.operation, c.contents, SnapshotOf(s.store.files, ignored)))))
  }

  lemma FinalizeStatus(s: State, ignored: Ignored, c: Call)
    requires c.FinalizeCall?
    ensures var t, done := Next(s, ignored, c).state,
        FinalizeError(s, ignored, c.id, c.evidenceIds).None? && c.id in s.store.transactions
          && s.store.transactions[c.id].status == Applied;
      && t.active == (if done && !c.recordFails then None else s.active)
      && t.store.transactions.Keys == s.store.transactions.Keys
      && (forall id :: id in s.store.transactions ==>
            t.store.transactions[id].status == if done && id == c.id then Verified else s.store.transactions[id].status)
  {
    hide FinalizeError, FirstOccurrences;
  }

  lemma FinalizePasses(s: State, ignored: Ignored, id: TransactionId, ids: seq<EvidenceId>)
    requires FinalizeError(s, ignored, id, ids).None?
    ensures id in s.store.transactions
      && (s.store.transactions[id].status == Applied || s.store.transactions[id].status == Verified)
  {
    hide CurrentActionError, FinalizeEvidenceError, TestsCovered, SnapshotOf;
  }

  lemma CloseStatus(s: Store, id: TransactionId, restore: RestoreFaults, recordFails: bool)
    requires id in s.transactions
    ensures var step, done := CloseStep(s, id, restore, recordFails), Closable(s, id, restore);
      && (step.error.None? <==> done && !recordFails)
      && step.store.transactions.Keys == s.transactions.Keys
      && (forall other :: other in s.transactions && other != id ==>
            step.store.transactions[other] == s.transactions[other])
      && (if done then !Unresolved(step.store.transactions[id].status)
          else step.store.transactions[id].status == s.transactions[id].status)
  {
    hide RestoreFrom;
    if s.transactions[id].status == Prepared {
      hide RollbackStep;
      assert CloseStep(s, id, restore, recordFails) == DiscardStep(s, id, recordFails);
    } else {
      hide DiscardStep;
      assert CloseStep(s, id, restore, recordFails) == RollbackStep(s, id, restore, recordFails);
    }
  }

  lemma RollbackStatus(s: State, ignored: Ignored, c: Call)
    requires c.RollbackCall?
    ensures var t, done := Next(s, ignored, c).state, Closable(s.store, c.id, c.restore);
      && t.active == (if done && !c.recordFails then None else s.active)
      && t.store.transactions.Keys == s.store.transactions.Keys
      && (forall id :: id in s.store.transactions && !(done && id == c.id) ==>
            t.store.transactions[id].status == s.store.transactions[id].status)
      && (done ==> c.id in s.store.transactions && !Unresolved(t.store.transactions[c.id].status))
  {
    assert Next(s, ignored, c) == Rollback(s, c.id, c.restore, c.recordFails);
    ClosableIsThere(s.store, c.id, c.restore);
    if c.id in s.store.transactions { CloseStatus(s.store, c.id, c.restore, c.recordFails); }
    hide Next, CloseStep, Closable;
  }

  /** From a state that loads, the next state loads exactly when the call does not strand the
      active transaction; the condition only looks at the state before the call. */
  lemma StrandsExactlyWhen(s: State, ignored: Ignored, c: Call)
    requires Safe(s) && ActiveSound(s)
    ensures ActiveSound(Next(s, ignored, c).state) <==> !Strands(s, ignored, c)
  {
    hide Next, Safe, Closable, FinalizeError, IdOf, SnapshotOf;
    if !RecordWriteFails(c) {
      SafeStore(s);
      ActiveSoundStep(s, ignored, c);
    } else if c.FinalizeCall? {
      FinalizeStatus(s, ignored, c);
      if FinalizeError(s, ignored, c.id, c.evidenceIds).None? { FinalizePasses(s, ignored, c.id, c.evidenceIds); }
    } else {
      RollbackStatus(s, ignored, c);
      ClosableIsThere(s.store, c.id, c.restore);
    }
  }

  lemma SafeStore(s: State)
    requires Safe(s)
    ensures s.store.WellFormed() && OneOpen(s.store)
  {
  }

  lemma ClosableIsThere(s: Store, id: TransactionId, restore: RestoreFaults)
    ensures Closable(s, id, restore) ==> id in s.transactions
  {
  }

  /** From a state that does not load, the next state loads exactly when the call mends it. */
  lemma MendsExactlyWhen(s: State, ignored: Ignored, c: Call)
    requires Safe(s) && !ActiveSound(s)
    ensures ActiveSound(Next(s, ignored, c).state) <==> Mends(s, ignored, c)
  {
    hide Next, Safe, Closable, FinalizeError, PrepareError, IdOf, SnapshotOf;
    if c.FinalizeCall? {
      FinalizeStatus(s, ignored, c);
    } else if c.RollbackCall? {
      RollbackStatus(s, ignored, c);
      ClosableIsThere(s.store, c.id, c.restore);
    } else if c.PrepareCall? {
      PrepareStatus(s, ignored, c);
    } else {
      OtherCallsKeepActive(s, ignored, c);
    }
  }

  /** Other calls leave the active identifier and never open a resolved transaction. */
  lemma OtherCallsKeepActive(s: State, ignored: Ignored, c: Call)
    requires Safe(s) && !ActiveSound(s) && !c.FinalizeCall? && !c.RollbackCall? && !c.PrepareCall?
    ensures !ActiveSound(Next(s, ignored, c).state)
  {
    hide Next, Safe, MoveOf, IdOf, SnapshotOf;
    SafeStore(s);
    LoadsExactlyWhen(s);
    OtherActive(s, ignored, c);
    StatusGraph(s, ignored, c, s.active.value);
    NotOpened(s, ignored, c, s.active.value);
  }

  lemma OtherActive(s: State, ignored: Ignored, c: Call)
    requires LoadError(s).Some? && !c.FinalizeCall? && !c.RollbackCall? && !c.PrepareCall?
    ensures Next(s, ignored, c).state.active == s.active
  {
    hide ApplyStep, SnapshotOf, GovernanceError, CurrentActionError, ApplyError, CommandError, ItemsError, VerdictOf,
      LoadError, IdOf, MaterialOf, FirstOccurrences, LimitsError, SessionError;
  }

  lemma NotOpened(s: State, ignored: Ignored, c: Call, id: TransactionId)
    requires !c.PrepareCall? && Moves(s.store, Next(s, ignored, c).state.store, id, MoveOf(s, ignored, c, id))
    requires !(id in s.store.transactions && Unresolved(s.store.transactions[id].status))
    ensures var t := Next(s, ignored, c).state.store; !(id in t.transactions && Unresolved(t.transactions[id].status))
  {
    hide Next, IdOf, SnapshotOf;
  }

  // ===== every run =====

  /** Exactly which reachable states load: those in which every call that stranded the active
      transaction was followed by one that mends it. */
  lemma {:induction false} ActiveExactlyWhen(ss: seq<State>, cs: seq<Call>, ignored: Ignored, i: nat)
    requires IsRun(ss, cs, ignored) && i < |ss|
    ensures ActiveSound(ss[i]) <==> MendedBefore(ss, cs, ignored, i)
  {
    hide Next, ActiveSound, Safe, Strands, Mends;
    if i > 0 {
      var s, c := ss[i - 1], cs[i - 1];
      ActiveExactlyWhen(ss, cs, ignored, i - 1);
      SafeInEveryRun(ss, cs, ignored, i - 1);
      NotBoth(s, ignored, c);
      if ActiveSound(s) {
        StrandsExactlyWhen(s, ignored, c);
      } else {
        MendsExactlyWhen(s, ignored, c);
      }
    } else {
      FreshIsActive(ss[0].store.files, ss[0].authority);
    }
  }

  ghost predicate MendedBefore(ss: seq<State>, cs: seq<Call>, ignored: Ignored, i: nat)
    requires i <= |cs| && i < |ss|
  {
    forall j: nat :: j < i && Strands(ss[j], ignored, cs[j]) ==>
      exists k: nat :: j < k < i && Mends(ss[k], ignored, cs[k])
  }

  lemma NotBoth(s: State, ignored: Ignored, c: Call)
    ensures !(Strands(s, ignored, c) && Mends(s, ignored, c))
  {
    hide Closable, FinalizeError, PrepareError, IdOf, SnapshotOf;
  }

  lemma FreshIsActive(files: Files, authority: Authority)
    ensures ActiveSound(Fresh(files, authority))
  {
  }

  // ----- one writer and restart -----

  function Open(s: Store): set<TransactionId> {
    set id | id in s.transactions && Unresolved(s.transactions[id].status)
  }

  function Verifieds(s: Store): set<TransactionId> {
    set id | id in s.transactions && s.transactions[id].status == Verified
  }

  lemma OpenAtMostOne(s: Store)
    requires OneOpen(s)
    ensures |Open(s)| <= 1
  {
    if Open(s) != {} {
      var id :| id in Open(s);
      assert Open(s) == {id};
    }
  }

  /** Of the transaction checks of a restart only one can refuse a safe state: its active
      identifier names no transaction that is PREPARED or APPLIED. */
  lemma LoadsExactlyWhen(s: State)
    requires Safe(s)
    ensures LoadError(s).None? <==> ActiveSound(s)
  {
    OpenAtMostOne(s.store);
    assert Open(s.store) == set id | id in s.store.transactions && Unresolved(s.store.transactions[id].status);
  }

  /** In every run at most one transaction is PREPARED or APPLIED. A reachable state loads
      exactly when every call that stranded the active transaction was mended since. A session
      starts over it exactly when, besides, the constructor refuses neither the manifest nor the
      transaction it is started for; it then makes the one open transaction active and changes
      nothing else, and otherwise nothing at all. */
  lemma OneWriterInEveryRun(ss: seq<State>, cs: seq<Call>, ignored: Ignored, i: nat, authority: Authority,
      recovery: Option<TransactionId>, valid: bool)
    requires IsRun(ss, cs, ignored) && i < |ss|
    ensures |Open(ss[i].store)| <= 1
    ensures LoadError(ss[i]).None? <==> MendedBefore(ss, cs, ignored, i)
    ensures var r := Restart(ss[i], ignored, authority, recovery, valid);
      && (r.refusal.None? <==>
            SessionError(ss[i], ignored, authority, recovery, valid).None? && MendedBefore(ss, cs, ignored, i))
      && (r.refusal.Some? ==> r.state == ss[i])
      && (r.refusal.None? ==>
            && Open(ss[i].store) == (if r.state.active.Some? then {r.state.active.value} else {})
            && r.state == ss[i].(authority := authority, active := r.state.active))
  {
    hide Next, MendedBefore, LoadError, SessionError, Safe;
    SafeInEveryRun(ss, cs, ignored, i);
    SafeStore(ss[i]);
    OpenAtMostOne(ss[i].store);
    LoadsExactlyWhen(ss[i]);
    ActiveExactlyWhen(ss, cs, ignored, i);
    RestartActive(ss[i], ignored, authority, recovery, valid);
  }

  /** What the guards on the manifest and on the recovery transaction come to. */
  lemma SessionExactlyWhen(s: State, ignored: Ignored, authority: Authority, recovery: Option<TransactionId>,
      valid: bool)
    ensures SessionError(s, ignored, authority, recovery, valid).None? <==>
      && (recovery.None? ==> forall id :: id in s.store.transactions ==> !Unresolved(s.store.transactions[id].status))
      && (recovery.Some? ==>
            && recovery.value in Open(s.store) + Verifieds(s.store)
            && s.store.transactions[recovery.value].authority == AuthorityHash(authority))
      && valid
      && (authority.readOnly ==>
            !authority.allowL1AutoApply && !authority.allowInteractiveL2 && !authority.allowYolo)
      && (!authority.readOnly ==> authority.source.Some?)
      && (authority.source.Some? ==>
            || authority.source.value == SnapshotOf(s.store.files, ignored)
            || (recovery.Some? && IsApplied(s.store, recovery.value)))
  {
    hide SnapshotOf;
  }

  /** A run none of whose calls strands loads in every state. */
  lemma LoadsWithoutStranding(ss: seq<State>, cs: seq<Call>, ignored: Ignored, i: nat)
    requires IsRun(ss, cs, ignored) && i < |ss|
    requires forall j: nat :: j < i ==> !Strands(ss[j], ignored, cs[j])
    ensures LoadError(ss[i]).None?
  {
    hide Next, Strands, LoadError;
    SafeInEveryRun(ss, cs, ignored, i);
    LoadsExactlyWhen(ss[i]);
    ActiveExactlyWhen(ss, cs, ignored, i);
  }

  lemma RestartActive(s: State, ignored: Ignored, authority: Authority, recovery: Option<TransactionId>, valid: bool)
    requires OneOpen(s.store)
    ensures var r := Restart(s, ignored, authority, recovery, valid);
      && (r.refusal.None? <==> SessionError(s, ignored, authority, recovery, valid).None? && LoadError(s).None?)
      && (r.refusal.Some? ==> r.state == s)
      && (r.refusal.None? ==>
            && Open(s.store) == (if r.state.active.Some? then {r.state.active.value} else {})
            && r.state == s.(authority := authority, active := r.state.active))
  {
    hide LoadError, SessionError;
    var r := Restart(s, ignored, authority, recovery, valid);
    if r.refusal.None? && r.state.active.Some? {
      assert r.state.active.value in Open(s.store);
      assert forall id :: id in Open(s.store) ==> id == r.state.active.value;
    }
  }

  /** A stranding call raises, and leaves the active identifier on a resolved transaction:
      the state does not load. */
  lemma StrandedDoesNotLoad(s: State, ignored: Ignored, c: Call)
    requires Safe(s) && ActiveSound(s) && Strands(s, ignored, c)
    ensures Next(s, ignored, c).refusal == Some(Transactional(TailFailed(RecordFault)))
    ensures LoadError(Next(s, ignored, c).state) == Some(StateConflict)
  {
    StrandsExactlyWhen(s, ignored, c);
    hide RestoreFrom, SnapshotOf, FinalizeError, FirstOccurrences, Safe;
    var t := Next(s, ignored, c).state;
    assert t.active.Some? && t.active.value !in Open(t.store);
    assert Open(t.store) == set x | x in t.store.transactions && Unresolved(t.store.transactions[x].status);
  }

  // ----- the failing input -----

  /** A manifest under which a session starts over the files it was issued for: it may change
      them, and asks for no tests and no evidence of its own. */
  function SomeManifest(task: string, files: Files, ignored: Ignored): Authority {
    Authority(task, Some(SnapshotOf(files, ignored)), false, [], [], true, L1, true, false)
  }

  const SOME_CONTENTS: map<Path, Bytes> := map["a" := [65]]

  /** Governance, a prepared file "a", and its roll-back while the record file cannot be
      written: from an empty workspace, three calls lead to a state that does not load. */
  lemma StrandedRun(ignored: Ignored) returns (ss: seq<State>, cs: seq<Call>)
    ensures IsRun(ss, cs, ignored) && ss[0] == Fresh(map[], SomeManifest("task", map[], ignored))
    ensures |cs| == 3 && cs[0] == EstablishGovernanceCall(true)
      && cs[1] == PrepareCall("write_file", SOME_CONTENTS, true, false)
    ensures cs[2] == RollbackCall(IdOf("write_file", SOME_CONTENTS, SnapshotOf(map[], ignored)), map[], true)
    ensures LoadError(ss[2]).None? && LoadError(ss[3]) == Some(StateConflict)
  {
    var id := IdOf("write_file", SOME_CONTENTS, SnapshotOf(map[], ignored));
    cs := [EstablishGovernanceCall(true), PrepareCall("write_file", SOME_CONTENTS, true, false),
        RollbackCall(id, map[], true)];
    var s0 := Fresh(map[], SomeManifest("task", map[], ignored));
    var s1 := Next(s0, ignored, cs[0]).state;
    var s2 := Next(s1, ignored, cs[1]).state;
    ss := [s0, s1, s2, Next(s2, ignored, cs[2]).state];
    GovernedAndPrepared(ignored);
    hide IdOf, SnapshotOf, Next, Safe;
    assert IsRun(ss, cs, ignored);
    SafeInEveryRun(ss, cs, ignored, 2);
    LoadsExactlyWhen(s2);
    StrandedDoesNotLoad(s2, ignored, cs[2]);
  }

  lemma GovernedAndPrepared(ignored: Ignored)
    ensures var id := IdOf("write_file", SOME_CONTENTS, SnapshotOf(map[], ignored));
      var s1 := Next(Fresh(map[], SomeManifest("task", map[], ignored)), ignored, EstablishGovernanceCall(true)).state;
      var s2 := Next(s1, ignored, PrepareCall("write_file", SOME_CONTENTS, true, false)).state;
      s2.active == Some(id) && id in s2.store.transactions && s2.store.transactions[id].status == Prepared
  {
    hide IdOf, SnapshotOf, CandidateFiles;
    var s1 := Next(Fresh(map[], SomeManifest("task", map[], ignored)), ignored, EstablishGovernanceCall(true)).state;
    assert s1 == Fresh(map[], SomeManifest("task", map[],
        ignored)).(governance := Some(AuthorityHash(SomeManifest("task", map[], ignored))));
    assert "a" in SOME_CONTENTS;
    assert PrepareError(s1, ignored, SOME_CONTENTS, true).None?;
    PrepareStatus(s1, ignored, PrepareCall("write_file", SOME_CONTENTS, true, false));
    hide Next;
  }
}
