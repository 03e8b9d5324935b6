/** The state projection and the log it is rebuilt from: `load`, `save` and `trace`, any of
    which may be stopped between the append to the log and the write of the projection. */
module StateStores {
  import opened Results
  import opened EventLog

  const SCHEMA_VERSION := 6

  const INITIAL_BODY := ""

  datatype RuntimeState = RuntimeState(version: int, valid: bool, head: Hash, body: string)

  /** The projection file. Unreadable covers text that is not JSON. */
  datatype Projection = Absent | Unreadable | Saved(state: StoredState)

  /** What a migration from version k does to the rest of a state. */
  datatype Migrations = Migrations(step: (int, string) -> string)

  datatype StoreError = InvalidVersion | UnsupportedVersion(version: int) | InvalidState | WrongMigration | Stopped

  datatype Stamp = Stamp(eventId: string, timestamp: string)

  const NO_LINEAGE := Lineage("", "", "")

  /** What is on disk. */
  datatype Disk = Disk(log: seq<Event>, projection: Projection)

  function Dump(state: RuntimeState, head: Hash): StoredState {
    StoredState(Number(state.version), state.valid, head, state.body)
  }

  // ----- migration -----

  /** `migrate_vK_to_vK+1`; a missing version reads as K. */
  function MigrateFrom(m: Migrations, k: int, s: StoredState): Result<StoredState, StoreError> {
    if s.version != Unversioned && s.version != Number(k) then Err(WrongMigration)
    else Ok(s.(version := Number(k + 1), body := m.step(k, s.body)))
  }

  /** The migrations from version k on, one after the other. */
  function MigrateAll(m: Migrations, k: int, s: StoredState): Result<StoredState, StoreError>
    decreases SCHEMA_VERSION - k
  {
    if k >= SCHEMA_VERSION then Ok(s)
    else
      var next := MigrateFrom(m, k, s);
      if next.Err? then next else MigrateAll(m, k + 1, next.value)
  }

  /** The body after the migrations from version k on. */
  function Upgraded(m: Migrations, k: int, body: string): string
    decreases SCHEMA_VERSION - k
  {
    if k >= SCHEMA_VERSION then body else Upgraded(m, k + 1, m.step(k, body))
  }

  /** The ladder never stops half way: from any old version it reaches the current one, and
      no migration meets a version it was not made for. */
  lemma {:induction false} LadderReaches(m: Migrations, k: int, s: StoredState)
    requires k <= SCHEMA_VERSION && (s.version == Number(k) || (s.version == Unversioned && k < SCHEMA_VERSION))
    ensures MigrateAll(m, k, s) == Ok(s.(version := Number(SCHEMA_VERSION), body := Upgraded(m, k, s.body)))
    decreases SCHEMA_VERSION - k
  {
    if k < SCHEMA_VERSION {
      LadderReaches(m, k + 1, MigrateFrom(m, k, s).value);
    }
  }

  // ----- what a load should do -----

  /** The state of the last snapshot in the log, with the hash of its event as head. */
  function LoggedState(log: seq<Event>): Option<StoredState> {
    var e := LastSnapshot(log);
    if e.None? || e.value.payload.state.None? then None
    else Some(e.value.payload.state.value.(head := if e.value.eventHash.Some?
      then e.value.eventHash.value else Genesis))
  }

  /** The log decides; the projection only counts when the log holds no state. */
  function Current(d: Disk): Option<StoredState> {
    var logged := LoggedState(d.log);
    if logged.Some? then logged
    else if d.projection.Saved? then Some(d.projection.state)
    else None
  }

  datatype Plan = Fresh | Refuse(error: StoreError) | Resume(body: string) | Upgrade(from: int, body: string)

  function PlanFor(m: Migrations, current: Option<StoredState>): Plan {
    match current
    case None => Fresh
    case Some(s) =>
      if s.version == NotANumber then Refuse(InvalidVersion)
      else
        var k := if s.version.Number? then s.version.number else 1;
        if k < 1 || k > SCHEMA_VERSION then Refuse(UnsupportedVersion(k))
        else if !s.decodable then Refuse(InvalidState)
        else if k == SCHEMA_VERSION then Resume(s.body)
        else Upgrade(k, Upgraded(m, k, s.body))
  }

  function SnapshotEvent(head: Hash, state: RuntimeState, data: string, lineage: Lineage, stamp: Stamp): Event {
    NewEvent(head, STATE_SNAPSHOT, Payload(Some(Dump(state, head)), data), lineage, stamp.eventId, stamp.timestamp)
  }

  function Migration(from: int): string {
    if from == 1 then "1" else if from == 2 then "2" else if from == 3 then "3" else if from == 4 then "4" else "5"
  }

  /** Appending a snapshot, and writing the projection unless stopped before. */
  function SnapshotWritten(d: Disk, state: RuntimeState, data: string, lineage: Lineage, stamp: Stamp,
      stopped: bool): Disk {
    var e := SnapshotEvent(HeadOf(d.log), state, data, lineage, stamp);
    Disk(d.log + [e], if stopped then d.projection else Saved(Dump(state, HeadOf(d.log + [e]))))
  }

  /** The disk after a load. */
  function AfterLoad(m: Migrations, d: Disk, stamp: Stamp, stopped: bool): Disk {
    match PlanFor(m, Current(d))
    case Upgrade(k, body) =>
      SnapshotWritten(d, RuntimeState(SCHEMA_VERSION, true, HeadOf(d.log), body), Migration(k), NO_LINEAGE, stamp,
          stopped)
    case _ => d
  }

  // ----- the store -----

  class StateStore {
    const events: EventStore
    const migrations: Migrations
    var projection: Projection

    ghost predicate Valid()
      reads this, events
    {
      events.Valid()
    }

    function OnDisk(): Disk
      reads this, events
    {
      Disk(events.log, projection)
    }

    constructor (store: EventStore, m: Migrations, p: Projection)
      requires store.Valid()
      ensures Valid() && events == store && migrations == m && projection == p
    {
      events, migrations, projection := store, m, p;
    }

    /** Appending a snapshot to the log and then writing the projection, as `load` and `save`
        both do it. */
    method WriteSnapshot(state: RuntimeState, data: string, lineage: Lineage, stamp: Stamp, stopped: bool)
      requires Valid()
      modifies this, events
      ensures Valid() && OnDisk() == SnapshotWritten(old(OnDisk()), state, data, lineage, stamp, stopped)
    {
      hide ValidLog, HeadOf;
      var e := events.Append(STATE_SNAPSHOT, Payload(Some(Dump(state, events.head)), data), lineage, stamp.eventId,
          stamp.timestamp);
      if !stopped {
        projection := Saved(Dump(state, e.eventHash.value));
      }
    }

    /** The projection file, unless the log holds another state. */
    method ChoosePayload() returns (payload: Option<StoredState>)
      ensures payload == Current(OnDisk())
    {
      hide LastSnapshot;
      payload := match projection case Saved(s) => Some(s) case _ => None;
      var event := events.LastStateSnapshot();
      var eventPayload := None;
      if event.Some? && event.value.payload.state.Some? {
        eventPayload := Some(event.value.payload.state.value.(head := if event.value.eventHash.Some?
          then event.value.eventHash.value else Genesis));
      }
      if payload.None? {
        payload := eventPayload;
      } else if eventPayload.Some? && payload != eventPayload {
        payload := eventPayload;
      }
    }

    /** Migrating and decoding what was chosen; also the version it had. */
    method Decode(s: StoredState) returns (r: Result<(int, RuntimeState), StoreError>)
      ensures match PlanFor(migrations, Some(s))
        case Fresh => false
        case Refuse(e) => r == Err(e)
        case Resume(body) => r == Ok((SCHEMA_VERSION, RuntimeState(SCHEMA_VERSION, true, s.head, body)))
        case Upgrade(k, body) => k < SCHEMA_VERSION && r == Ok((k, RuntimeState(SCHEMA_VERSION, true, s.head, body)))
    {
      hide MigrateAll;
      if s.version == NotANumber { return Err(InvalidVersion); }
      var version := if s.version.Number? then s.version.number else 1;
      if version < 1 || version > SCHEMA_VERSION { return Err(UnsupportedVersion(version)); }
      LadderReaches(migrations, version, s);
      var migrated := MigrateAll(migrations, version, s).value;
      if !migrated.decodable { return Err(InvalidState); }
      r := Ok((version, RuntimeState(SCHEMA_VERSION, true, migrated.head, migrated.body)));
    }

    /** `load`: what it does depends on the current state alone, and only an old state is
        written again, as one snapshot. */
    method Load(stamp: Stamp, stopped: bool) returns (r: Result<RuntimeState, StoreError>)
      requires Valid()
      modifies this, events
      ensures Valid()
      ensures OnDisk() == AfterLoad(migrations, old(OnDisk()), stamp, stopped) ==
        Step(migrations, old(OnDisk()), LoadCall(stamp, stopped))
      ensures r == match PlanFor(migrations, old(Current(OnDisk())))
        case Fresh => Ok(RuntimeState(SCHEMA_VERSION, true, events.head, INITIAL_BODY))
        case Refuse(e) => Err(e)
        case Resume(body) => Ok(RuntimeState(SCHEMA_VERSION, true, events.head, body))
        case Upgrade(k, body) => if stopped
          then Err(Stopped) else Ok(RuntimeState(SCHEMA_VERSION, true, events.head, body))
      ensures r.Ok? ==> old(Restored(migrations, OnDisk())) == Ok(r.value.body)
      ensures r.Err? && r.error != Stopped ==> old(Restored(migrations, OnDisk())) == Err(r.error)
    {
      assert events.head == HeadOf(events.log);
      hide ValidLog, HeadOf, SnapshotWritten, Current;
      var payload := ChoosePayload();
      if payload.None? {
        return Ok(RuntimeState(SCHEMA_VERSION, true, events.head, INITIAL_BODY));
      }
      var decoded := Decode(payload.value);
      hide PlanFor;
      if decoded.Err? { return Err(decoded.error); }
      var (version, state) := decoded.value;
      if version < SCHEMA_VERSION {
        WriteSnapshot(state.(head := events.head), Migration(version), NO_LINEAGE, stamp, stopped);
        if stopped { return Err(Stopped); }
      }
      r := Ok(state.(head := events.head));
    }

    /** `save` */
    method Save(state: RuntimeState, lineage: Lineage, stamp: Stamp, stopped: bool)
        returns (r: Result<RuntimeState, StoreError>)
      requires Valid()
      modifies this, events
      ensures Valid() && OnDisk() == Step(migrations, old(OnDisk()), SaveCall(state, lineage, stamp, stopped))
      ensures r == if state.version != SCHEMA_VERSION then Err(UnsupportedVersion(state.version))
                   else if !state.valid then Err(InvalidState)
                   else if stopped then Err(Stopped)
                   else Ok(state.(head := events.head))
    {
      hide ValidLog, HeadOf, SnapshotWritten;
      if state.version != SCHEMA_VERSION { return Err(UnsupportedVersion(state.version)); }
      if !state.valid { return Err(InvalidState); }
      WriteSnapshot(state, "", lineage, stamp, stopped);
      if stopped { return Err(Stopped); }
      r := Ok(state.(head := events.head));
    }

    /** `trace` */
    method Trace(eventType: string, payload: Payload, lineage: Lineage, stamp: Stamp) returns (e: Event)
      requires Valid()
      modifies events
      ensures Valid() && OnDisk() == Step(migrations, old(OnDisk()), TraceCall(eventType, payload, lineage, stamp))
    {
      hide ValidLog, HeadOf;
      e := events.Append(eventType, payload, lineage, stamp.eventId, stamp.timestamp);
    }
  }

  // ----- runs -----

  datatype Op =
    | SaveCall(state: RuntimeState, lineage: Lineage, stamp: Stamp, stopped: bool)
    | TraceCall(eventType: string, payload: Payload, lineage: Lineage, stamp: Stamp)
    | LoadCall(stamp: Stamp, stopped: bool)

  predicate Accepted(state: RuntimeState) {
    state.version == SCHEMA_VERSION && state.valid
  }

  function Step(m: Migrations, d: Disk, op: Op): Disk {
    match op
    case SaveCall(state, lineage, stamp, stopped) =>
      if Accepted(state) then SnapshotWritten(d, state, "", lineage, stamp, stopped) else d
    case TraceCall(eventType, payload, lineage, stamp) =>
      d.(log := d.log + [NewEvent(HeadOf(d.log), eventType, payload, lineage, stamp.eventId, stamp.timestamp)])
    case LoadCall(stamp, stopped) => AfterLoad(m, d, stamp, stopped)
  }

  function After(m: Migrations, d: Disk, ops: seq<Op>): Disk {
    if ops == [] then d else Step(m, After(m, d, ops[..|ops| - 1]), ops[|ops| - 1])
  }

  /** The state a load gives, whether or not it has to upgrade it first. */
  function Restored(m: Migrations, d: Disk): Result<string, StoreError> {
    match PlanFor(m, Current(d))
    case Fresh => Ok(INITIAL_BODY)
    case Refuse(e) => Err(e)
    case Resume(body) => Ok(body)
    case Upgrade(_, body) => Ok(body)
  }

  /** The body last saved, if any call saved one. */
  function LastSaved(ops: seq<Op>): Option<string> {
    if ops == [] then None
    else
      var last := ops[|ops| - 1];
      if last.SaveCall? && Accepted(last.state) then Some(last.state.body) else LastSaved(ops[..|ops| - 1])
  }

  /** Traces leave the snapshot events to `save` and `load`. */
  ghost predicate OrdinaryTraces(ops: seq<Op>) {
    forall i :: 0 <= i < |ops| ==> ops[i].TraceCall? ==> ops[i].eventType != STATE_SNAPSHOT
  }

  lemma LoggedAfterSnapshot(log: seq<Event>, e: Event)
    requires e.eventType == Some(STATE_SNAPSHOT)
    ensures LastSnapshot(log + [e]) == Some(e)
  {
  }

  lemma LoggedAfterTrace(log: seq<Event>, e: Event)
    requires e.eventType != Some(STATE_SNAPSHOT)
    ensures LoggedState(log + [e]) == LoggedState(log)
  {
    assert (log + [e])[..|log|] == log;
  }

  /** A written snapshot is what the log says from then on, whether or not the projection was
      written after it. */
  lemma SnapshotIsLogged(d: Disk, state: RuntimeState, data: string, lineage: Lineage, stamp: Stamp, stopped: bool)
    ensures var after := SnapshotWritten(d, state, data, lineage, stamp, stopped);
      LoggedState(after.log) == Some(Dump(state, HeadOf(after.log)))
  {
    var e := SnapshotEvent(HeadOf(d.log), state, data, lineage, stamp);
    LoggedAfterSnapshot(d.log, e);
  }

  /** A written snapshot of the current version is what a load resumes. */
  lemma SnapshotIsResumed(m: Migrations, d: Disk, state: RuntimeState, data: string, lineage: Lineage, stamp: Stamp,
      stopped: bool)
    requires Accepted(state)
    ensures PlanFor(m, Current(SnapshotWritten(d, state, data, lineage, stamp, stopped))) == Resume(state.body)
  {
    SnapshotIsLogged(d, state, data, lineage, stamp, stopped);
    hide LoggedState, SnapshotWritten;
  }

  /** Crash recovery: after any run of saves, traces and loads, stopped wherever they were,
      loading resumes the state saved last, without a migration; and before the first save it
      gives what it gave at the start. */
  lemma {:induction false} RunRecovers(m: Migrations, d: Disk, ops: seq<Op>)
    requires OrdinaryTraces(ops)
    ensures LastSaved(ops).Some? ==> PlanFor(m, Current(After(m, d, ops))) == Resume(LastSaved(ops).value)
    ensures LastSaved(ops).None? ==> Restored(m, After(m, d, ops)) == Restored(m, d)
  {
    hide Current, SnapshotWritten, PlanFor, AfterLoad;
    if ops != [] {
      var init, last := ops[..|ops| - 1], ops[|ops| - 1];
      RunRecovers(m, d, init);
      var before := After(m, d, init);
      match last
      case SaveCall(state, lineage, stamp, stopped) =>
        if Accepted(state) { SnapshotIsResumed(m, before, state, "", lineage, stamp, stopped); }
      case TraceCall(eventType, payload, lineage, stamp) =>
        TraceKeepsCurrent(before, NewEvent(HeadOf(before.log), eventType, payload, lineage, stamp.eventId,
            stamp.timestamp));
      case LoadCall(stamp, stopped) =>
        LoadKeepsRestored(m, before, stamp, stopped);
    }
  }

  lemma TraceKeepsCurrent(d: Disk, e: Event)
    requires e.eventType != Some(STATE_SNAPSHOT)
    ensures Current(d.(log := d.log + [e])) == Current(d)
  {
    hide LoggedState;
    LoggedAfterTrace(d.log, e);
  }

  /** A load, stopped or not, changes nothing for the next one but that it need not migrate. */
  lemma LoadKeepsRestored(m: Migrations, d: Disk, stamp: Stamp, stopped: bool)
    ensures Restored(m, AfterLoad(m, d, stamp, stopped)) == Restored(m, d)
    ensures PlanFor(m, Current(d)).Resume? ==> AfterLoad(m, d, stamp, stopped) == d
  {
    hide Current, SnapshotWritten, PlanFor;
    match PlanFor(m, Current(d))
    case Upgrade(k, body) =>
      var state := RuntimeState(SCHEMA_VERSION, true, HeadOf(d.log), body);
      SnapshotIsResumed(m, d, state, Migration(k), NO_LINEAGE, stamp, stopped);
    case _ =>
  }

  /** As soon as the log holds a state, the projection file decides nothing. */
  lemma ProjectionDecidesNothing(m: Migrations, log: seq<Event>, p: Projection, q: Projection)
    requires LoggedState(log).Some?
    ensures Current(Disk(log, p)) == Current(Disk(log, q)) == LoggedState(log)
  {
  }

  /** A snapshot written to the end leaves a projection that agrees with the log, to the
      letter. */
  lemma ProjectionAgrees(d: Disk, state: RuntimeState, data: string, lineage: Lineage, stamp: Stamp)
    ensures var after := SnapshotWritten(d, state, data, lineage, stamp, false);
      after.projection.Saved? && LoggedState(after.log) == Some(after.projection.state)
  {
    SnapshotIsLogged(d, state, data, lineage, stamp, false);
  }

  /** Loading an old state appends exactly one snapshot, of the current version, and loading
      again, stopped or not the first time, resumes it and appends none. */
  lemma SecondLoadAppendsNone(m: Migrations, d: Disk, stamp: Stamp, stopped: bool, again: Stamp, stoppedAgain: bool)
    ensures var after := AfterLoad(m, d, stamp, stopped);
      && AfterLoad(m, after, again, stoppedAgain) == after
      && (PlanFor(m, Current(d)).Upgrade? ==>
            |after.log| == |d.log| + 1 && PlanFor(m, Current(after)) == Resume(PlanFor(m, Current(d)).body))
      && (!PlanFor(m, Current(d)).Upgrade? ==> after == d)
  {
    match PlanFor(m, Current(d))
    case Upgrade(k, body) =>
      SnapshotIsLogged(d, RuntimeState(SCHEMA_VERSION, true, HeadOf(d.log), body), Migration(k), NO_LINEAGE, stamp,
          stopped);
    case _ =>
  }

  // ----- what a load gives, said of what is on disk -----

  /** The last snapshot in the log holds a state, with the hash of its event for a head; or
      there is none that does, and the projection file holds one. */
  ghost predicate Holds(d: Disk, s: StoredState) {
    || (exists k :: IsLastSnapshot(d.log, k) && d.log[k].payload.state.Some?
          && s == d.log[k].payload.state.value.(head := s.head)
          && s.head == match d.log[k].eventHash case Some(h) => h case None => Genesis)
    || (d.projection == Saved(s) && forall k :: IsLastSnapshot(d.log, k) ==> d.log[k].payload.state.None?)
  }

  /** The version a state reads as, if it is one the store knows: a missing one reads as 1. */
  ghost predicate ReadsAs(s: StoredState, k: int) {
    1 <= k <= 6 && (s.version == Number(k) || (s.version == Unversioned && k == 1))
  }

  /** The body after every migration from version k up, each once and in order. */
  function Climbed(m: Migrations, k: int, body: string): string
    requires 1 <= k <= 6
  {
    var from1 := if k <= 1 then m.step(1, body) else body;
    var from2 := if k <= 2 then m.step(2, from1) else body;
    var from3 := if k <= 3 then m.step(3, from2) else body;
    var from4 := if k <= 4 then m.step(4, from3) else body;
    if k <= 5 then m.step(5, from4) else body
  }

  lemma UpgradedClimbs(m: Migrations, k: int, body: string)
    requires 1 <= k <= 6
    ensures Upgraded(m, k, body) == Climbed(m, k, body)
  {
    assert forall b :: Upgraded(m, 6, b) == b;
    assert forall b :: Upgraded(m, 5, b) == m.step(5, b);
    assert forall b :: Upgraded(m, 4, b) == m.step(5, m.step(4, b));
    assert forall b :: Upgraded(m, 3, b) == m.step(5, m.step(4, m.step(3, b)));
    assert forall b :: Upgraded(m, 2, b) == m.step(5, m.step(4, m.step(3, m.step(2, b))));
  }

  lemma CurrentExactlyWhen(d: Disk, s: StoredState)
    ensures Current(d) == Some(s) <==> Holds(d, s)
  {
    LastSnapshotIs(d.log);
    var e := LastSnapshot(d.log);
    if e.Some? {
      var k :| IsLastSnapshot(d.log, k) && d.log[k] == e.value;
      assert forall j :: IsLastSnapshot(d.log, j) ==> j == k;
    } else {
      assert forall j :: !IsLastSnapshot(d.log, j);
    }
    hide LastSnapshot;
  }

  /** What a load gives: the initial state if nothing is held; and of a held state its body,
      climbed to version 6, if it reads as a known version and can be decoded, and else the
      error that says which of these fails. */
  lemma RestoredExactly(m: Migrations, d: Disk)
    ensures (forall s :: !Holds(d, s)) ==> Restored(m, d) == Ok(INITIAL_BODY)
    ensures forall s, k :: Holds(d, s) && ReadsAs(s, k) ==>
      Restored(m, d) == if s.decodable then Ok(Climbed(m, k, s.body)) else Err(InvalidState)
    ensures forall s :: Holds(d, s) && s.version == NotANumber ==> Restored(m, d) == Err(InvalidVersion)
    ensures forall s, k :: Holds(d, s) && s.version == Number(k) && !ReadsAs(s, k) ==>
      Restored(m, d) == Err(UnsupportedVersion(k))
  {
    hide Current, Holds, Upgraded, Climbed;
    if Current(d).Some? { CurrentExactlyWhen(d, Current(d).value); }
    forall s ensures Holds(d, s) <==> Current(d) == Some(s) { CurrentExactlyWhen(d, s); }
    forall k, body | 1 <= k <= 6 ensures Upgraded(m, k, body) == Climbed(m, k, body) { UpgradedClimbs(m, k, body); }
    forall body ensures Climbed(m, 6, body) == body { UpgradedClimbs(m, 6, body); CurrentVersionStays(m, body); }
  }

  lemma CurrentVersionStays(m: Migrations, body: string)
    ensures Upgraded(m, 6, body) == body
  {
  }
}
