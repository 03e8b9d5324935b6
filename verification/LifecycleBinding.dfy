/** The manifest a transaction was prepared under and the manifest of the session that goes on
    with it: which calls part them, which bring them together, and what follows. */
module LifecycleBinding {
  import opened Results
  import opened Ordering
  import opened Disk
  import opened Records
  import opened Transactions
  import opened Lifecycle
  import opened LifecycleRuns
  import opened LifecycleSafety
  import opened LifecycleRestart

  /** Every transaction that is PREPARED or APPLIED was prepared under the current manifest. */
  ghost predicate OpenBound(s: State) {
    forall id :: id in s.store.transactions && Unresolved(s.store.transactions[id].status) ==>
      s.store.transactions[id].authority == AuthorityHash(s.authority)
  }

  /** The constructor raises nothing, and the session was started for a transaction. */
  ghost predicate Recovers(s: State, ignored: Ignored, c: Call) {
    && c.RestartCall? && c.recovery.Some? && c.recovery.value in s.store.transactions
    && SessionError(s, ignored, c.authority, c.recovery, c.valid).None? && LoadError(s).None?
  }

  /** A transaction that is PREPARED or APPLIED was prepared under another manifest than the one
      the session is started for. */
  ghost predicate NamesAnother(s: Store, recovery: TransactionId)
    requires recovery in s.transactions
  {
    exists id :: id in s.transactions && Unresolved(s.transactions[id].status)
      && s.transactions[id].authority != s.transactions[recovery].authority
  }

  ghost predicate Unbinds(s: State, ignored: Ignored, c: Call) {
    Recovers(s, ignored, c) && NamesAnother(s.store, c.recovery.value)
  }

  /** A session started for a transaction of the open one's manifest, or a call that resolves
      the open transaction, whether or not the record file can be written. */
  ghost predicate Rebinds(s: State, ignored: Ignored, c: Call) {
    || (Recovers(s, ignored, c) && !NamesAnother(s.store, c.recovery.value))
    || (c.FinalizeCall? && FinalizeError(s, ignored, c.id, c.evidenceIds).None?
        && c.id in s.store.transactions && s.store.transactions[c.id].status == Applied)
    || (c.RollbackCall? && Closable(s.store, c.id, c.restore) && Unresolved(s.store.transactions[c.id].status))
  }

  // ----- one step -----

  lemma RestartStep(s: State, ignored: Ignored, c: Call)
    requires c.RestartCall?
    ensures var t, r := Next(s, ignored, c).state, SessionError(s, ignored, c.authority, c.recovery, c.valid);
      && t.store == s.store
      && t.authority == (if r.None? && LoadError(s).None? then c.authority else s.authority)
  {
    NextIs(s, ignored, c);
    hide Next, LoadError, SessionError;
  }

  lemma ManifestStays(s: State, ignored: Ignored, c: Call)
    requires !c.RestartCall?
    ensures Next(s, ignored, c).state.authority == s.authority
  {
    hide ApplyStep, RestoreFrom, SnapshotOf, GovernanceError, CurrentActionError, ApplyError, VerifyAppliedError,
      CommandError, FinalizeError, ItemsError, VerdictOf, LimitsError, IdOf, MaterialOf, CandidateFiles,
      FirstOccurrences, CloseStep, PrepareStep, LoadError, SessionError;
  }

  /** A session that starts for no transaction finds none open; one started for a transaction
      runs under the manifest of its record. */
  lemma SessionManifest(s: State, ignored: Ignored, c: Call)
    requires c.RestartCall? && SessionError(s, ignored, c.authority, c.recovery, c.valid).None?
    ensures c.recovery.None? ==>
      forall id :: id in s.store.transactions ==> !Unresolved(s.store.transactions[id].status)
    ensures c.recovery.Some? ==>
      && c.recovery.value in s.store.transactions
      && s.store.transactions[c.recovery.value].authority == AuthorityHash(c.authority)
  {
    hide ManifestError;
  }

  lemma RestartBinds(s: State, ignored: Ignored, c: Call)
    requires c.RestartCall?
    ensures OpenBound(s) ==> (OpenBound(Next(s, ignored, c).state) <==> !Unbinds(s, ignored, c))
    ensures !OpenBound(s) ==> (OpenBound(Next(s, ignored, c).state) <==> Rebinds(s, ignored, c))
  {
    hide Next, SessionError, LoadError, Closable, FinalizeError;
    RestartStep(s, ignored, c);
    if SessionError(s, ignored, c.authority, c.recovery, c.valid).None? { SessionManifest(s, ignored, c); }
  }

  lemma PrepareBinds(s: State, ignored: Ignored, c: Call)
    requires c.PrepareCall?
    ensures OpenBound(s) ==> OpenBound(Next(s, ignored, c).state)
    ensures !OpenBound(s) ==> !OpenBound(Next(s, ignored, c).state)
  {
    hide Next, IdOf, SnapshotOf;
    PrepareStatus(s, ignored, c);
    ManifestStays(s, ignored, c);
  }

  lemma BoundStays(s: State, ignored: Ignored, c: Call)
    requires s.store.WellFormed() && OpenBound(s) && !c.RestartCall? && !c.PrepareCall?
    ensures OpenBound(Next(s, ignored, c).state)
  {
    hide Next, Moves, MoveOf;
    ManifestStays(s, ignored, c);
    SameManifests(s, ignored, c);
    var t := Next(s, ignored, c).state;
    forall id | id in t.store.transactions && Unresolved(t.store.transactions[id].status)
      ensures t.store.transactions[id].authority == AuthorityHash(t.authority)
    {
      StatusGraph(s, ignored, c, id);
      if !(id in s.store.transactions && Unresolved(s.store.transactions[id].status)) {
        NotOpened(s, ignored, c, id);
      }
    }
  }

  /** The open transaction stays with a session of the manifest it was prepared under
      exactly when the call does not start a session for a transaction of another one. */
  lemma UnbindsExactlyWhen(s: State, ignored: Ignored, c: Call)
    requires Safe(s) && OpenBound(s)
    ensures OpenBound(Next(s, ignored, c).state) <==> !Unbinds(s, ignored, c)
  {
    hide Next, Safe, OpenBound;
    SafeStore(s);
    if c.RestartCall? {
      RestartBinds(s, ignored, c);
    } else if c.PrepareCall? {
      PrepareBinds(s, ignored, c);
    } else {
      BoundStays(s, ignored, c);
    }
  }

  lemma StaysUnbound(s: State, ignored: Ignored, c: Call)
    requires s.store.WellFormed() && !OpenBound(s)
    requires !c.RestartCall? && !c.PrepareCall? && !c.FinalizeCall? && !c.RollbackCall?
    ensures !OpenBound(Next(s, ignored, c).state)
  {
    hide Next, Moves, MoveOf;
    var id :| id in s.store.transactions && Unresolved(s.store.transactions[id].status)
      && s.store.transactions[id].authority != AuthorityHash(s.authority);
    StatusGraph(s, ignored, c, id);
    StaysOpen(s, ignored, c, id);
    SameManifests(s, ignored, c);
    ManifestStays(s, ignored, c);
  }

  lemma FinalizeBinds(s: State, ignored: Ignored, c: Call)
    requires OneOpen(s.store) && s.store.WellFormed() && !OpenBound(s) && c.FinalizeCall?
    ensures OpenBound(Next(s, ignored, c).state) <==> Rebinds(s, ignored, c)
  {
    hide Next, FinalizeError, IdOf, SnapshotOf, MoveOf;
    FinalizeStatus(s, ignored, c);
    ManifestStays(s, ignored, c);
    SameManifests(s, ignored, c);
  }

  lemma RollbackBinds(s: State, ignored: Ignored, c: Call)
    requires OneOpen(s.store) && s.store.WellFormed() && !OpenBound(s) && c.RollbackCall?
    ensures OpenBound(Next(s, ignored, c).state) <==> Rebinds(s, ignored, c)
  {
    hide Next, Closable, IdOf, SnapshotOf, MoveOf;
    RollbackStatus(s, ignored, c);
    ClosableIsThere(s.store, c.id, c.restore);
    ManifestStays(s, ignored, c);
    SameManifests(s, ignored, c);
  }

  /** No call but a prepare changes the manifest of a record. */
  lemma SameManifests(s: State, ignored: Ignored, c: Call)
    requires s.store.WellFormed() && !c.PrepareCall?
    ensures var t := Next(s, ignored, c).state.store;
      forall id :: id in s.store.transactions && id in t.transactions ==>
        t.transactions[id].authority == s.store.transactions[id].authority
  {
    hide Next, Moves, MoveOf;
    var t := Next(s, ignored, c).state.store;
    forall id | id in s.store.transactions && id in t.transactions
      ensures t.transactions[id].authority == s.store.transactions[id].authority
    {
      StatusGraph(s, ignored, c, id);
      SameManifest(s, ignored, c, id);
    }
  }

  lemma SameManifest(s: State, ignored: Ignored, c: Call, id: TransactionId)
    requires !c.PrepareCall? && Moves(s.store, Next(s, ignored, c).state.store, id, MoveOf(s, ignored, c, id))
    requires id in s.store.transactions && id in Next(s, ignored, c).state.store.transactions
    ensures Next(s, ignored, c).state.store.transactions[id].authority == s.store.transactions[id].authority
  {
    hide Next, IdOf, SnapshotOf;
  }

  lemma RebindsExactlyWhen(s: State, ignored: Ignored, c: Call)
    requires Safe(s) && !OpenBound(s)
    ensures OpenBound(Next(s, ignored, c).state) <==> Rebinds(s, ignored, c)
  {
    hide Next, Safe, MoveOf, Moves, SessionError, FinalizeError, Closable;
    SafeStore(s);
    if c.RestartCall? {
      RestartBinds(s, ignored, c);
    } else if c.PrepareCall? {
      PrepareBinds(s, ignored, c);
    } else if c.FinalizeCall? {
      FinalizeBinds(s, ignored, c);
    } else if c.RollbackCall? {
      RollbackBinds(s, ignored, c);
    } else {
      StaysUnbound(s, ignored, c);
    }
  }

  // ===== every run =====

  ghost predicate ReboundBefore(ss: seq<State>, cs: seq<Call>, ignored: Ignored, i: nat)
    requires i <= |cs| && i < |ss|
  {
    forall j: nat :: j < i && Unbinds(ss[j], ignored, cs[j]) ==>
      exists k: nat :: j < k < i && Rebinds(ss[k], ignored, cs[k])
  }

  /** Exactly which reachable states have their open transaction under the manifest it was
      prepared under: those in which every session that parted them was followed by a call that
      brought them together. */
  lemma {:induction false} BoundExactlyWhen(ss: seq<State>, cs: seq<Call>, ignored: Ignored, i: nat)
    requires IsRun(ss, cs, ignored) && i < |ss|
    ensures OpenBound(ss[i]) <==> ReboundBefore(ss, cs, ignored, i)
  {
    hide Next, OpenBound, Safe, Unbinds, Rebinds;
    if i > 0 {
      var s, c := ss[i - 1], cs[i - 1];
      BoundExactlyWhen(ss, cs, ignored, i - 1);
      SafeInEveryRun(ss, cs, ignored, i - 1);
      NotBothWays(s, ignored, c);
      if OpenBound(s) {
        UnbindsExactlyWhen(s, ignored, c);
      } else {
        RebindsExactlyWhen(s, ignored, c);
      }
    } else {
      FreshIsBound(ss[0].store.files, ss[0].authority);
    }
  }

  lemma NotBothWays(s: State, ignored: Ignored, c: Call)
    ensures !(Unbinds(s, ignored, c) && Rebinds(s, ignored, c))
  {
    hide SessionError, LoadError, FinalizeError, Closable, NamesAnother;
  }

  lemma FreshIsBound(files: Files, authority: Authority)
    ensures OpenBound(Fresh(files, authority))
  {
  }

  /** In every run a transaction becomes APPLIED under an action of the very manifest it was
      prepared under exactly when the sessions before it left the two together. */
  lemma AppliedUnderItsManifest(ss: seq<State>, cs: seq<Call>, ignored: Ignored, i: nat, id: TransactionId)
    requires IsRun(ss, cs, ignored) && i < |cs|
    requires !IsApplied(ss[i].store, id) && IsApplied(ss[i + 1].store, id)
    ensures id in ss[i].store.transactions && ss[i].action.Some?
    ensures ss[i].store.transactions[id].authority == ss[i].action.value.id.material.authority <==>
      ReboundBefore(ss, cs, ignored, i)
  {
    hide Next, Safe, ReboundBefore, SnapshotOf, Written, Describes, ApplyError;
    var s, c := ss[i], cs[i];
    SafeInEveryRun(ss, cs, ignored, i);
    SafeStore(s);
    BoundExactlyWhen(ss, cs, ignored, i);
    BecomesApplied(s, ignored, c, id);
    ApplyChecks(s, ignored, id, c.yolo, c.approves, c.admits);
  }

  /** In every run a transaction becomes VERIFIED under the manifest it was prepared under
      exactly when the sessions before it left the two together; and then every test that
      manifest makes mandatory is among those the action had to prove. */
  lemma VerifiedUnderItsManifest(ss: seq<State>, cs: seq<Call>, ignored: Ignored, i: nat, id: TransactionId)
    requires IsRun(ss, cs, ignored) && i < |cs|
    requires !IsVerified(ss[i].store, id) && IsVerified(ss[i + 1].store, id)
    ensures id in ss[i].store.transactions && ss[i].action.Some?
    ensures ss[i].store.transactions[id].authority == ss[i].action.value.id.material.authority <==>
      ReboundBefore(ss, cs, ignored, i)
    ensures ReboundBefore(ss, cs, ignored, i) ==>
      forall t :: t in ss[i].store.transactions[id].authority.manifest.mandatoryTests ==>
        t in ss[i].action.value.id.material.requiredTests
  {
    hide Next, GateSound, LinkSound, EvidenceFresh, ReboundBefore, FinalizeError;
    var s, c := ss[i], cs[i];
    SafeInEveryRun(ss, cs, ignored, i);
    BoundExactlyWhen(ss, cs, ignored, i);
    BecomesVerified(s, ignored, c, id);
    FinalizeChecks(s, ignored, id, c.evidenceIds);
  }
}
