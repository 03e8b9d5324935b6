/** The hash-chained event log: `validate_chain` and `append`. A hash wraps what it was taken
    of, so that different material has different hashes and no hash is the empty text. */
module EventLog {
  import opened Results

  const STATE_SNAPSHOT := "state_snapshot"

  datatype Hash = Genesis | OfMaterial(material: Material) | OtherText(text: string)

  datatype PayloadHash = OfPayload(payload: Payload) | OtherHash(text: string)

  /** A payload object; snapshots carry a state. */
  datatype Payload = Payload(state: Option<StoredState>, data: string)

  datatype Version = Unversioned | Number(number: int) | NotANumber

  /** A state as it is written: its schema version, whether it can be decoded, its head field
      and the rest. */
  datatype StoredState = StoredState(version: Version, decodable: bool, head: Hash, body: string)

  datatype Lineage = Lineage(run: string, action: string, transaction: string)

  /** What the hash of an event is taken of. */
  datatype Material = Material(eventId: Option<string>, timestamp: Option<string>, previous: Option<Hash>,
      eventType: Option<string>,
                               payloadHash: PayloadHash, lineage: Option<Lineage>)

  /** A line of the log. Any field may be missing. */
  datatype Event = Event(eventId: Option<string>, timestamp: Option<string>, previous: Option<Hash>,
      eventType: Option<string>,
                         payloadHash: Option<PayloadHash>, run: Option<string>, action: Option<string>,
                             transaction: Option<string>,
                         payload: Payload, eventHash: Option<Hash>)

  function OrEmpty(field: Option<string>): string {
    if field.Some? then field.value else ""
  }

  /** The three identifiers count as soon as one of them is there; the others then read as
      empty. */
  function LineageOf(e: Event): Option<Lineage> {
    if e.run.None? && e.action.None? && e.transaction.None? then None
    else Some(Lineage(OrEmpty(e.run), OrEmpty(e.action), OrEmpty(e.transaction)))
  }

  function MaterialOf(e: Event): Material {
    Material(e.eventId, e.timestamp, e.previous, e.eventType, OfPayload(e.payload), LineageOf(e))
  }

  /** One event follows a given head. */
  predicate Linked(e: Event, previous: Hash) {
    e.payloadHash == Some(OfPayload(e.payload)) && e.previous == Some(previous)
      && e.eventHash == Some(OfMaterial(MaterialOf(e)))
  }

  function HeadOf(log: seq<Event>): Hash {
    if log == [] then Genesis else OfMaterial(MaterialOf(log[|log| - 1]))
  }

  ghost predicate ValidLog(log: seq<Event>) {
    forall i :: 0 <= i < |log| ==> Linked(log[i], HeadOf(log[..i]))
  }

  datatype ChainError = PayloadMismatch(index: nat) | PreviousMismatch(index: nat) | HashMismatch(index: nat)

  /** `validate_chain`: accepts exactly the valid logs, returns their head, and otherwise
      names the first event that does not follow. */
  method ValidateChain(log: seq<Event>) returns (r: Result<Hash, ChainError>)
    ensures r.Ok? <==> ValidLog(log)
    ensures r.Ok? ==> r.value == HeadOf(log)
    ensures r.Err? ==>
      r.error.index < |log| && ValidLog(log[..r.error.index])
      && !Linked(log[r.error.index], HeadOf(log[..r.error.index]))
  {
    hide HeadOf, MaterialOf;
    var previous := Genesis;
    EmptyHead();
    for i := 0 to |log|
      invariant forall k :: 0 <= k < i ==> Linked(log[k], HeadOf(log[..k]))
      invariant previous == HeadOf(log[..i])
    {
      var e := log[i];
      PrefixValid(log, i);
      if e.payloadHash != Some(OfPayload(e.payload)) { return Err(PayloadMismatch(i)); }
      var expected := OfMaterial(MaterialOf(e));
      if e.previous != Some(previous) { return Err(PreviousMismatch(i)); }
      if e.eventHash != Some(expected) { return Err(HashMismatch(i)); }
      HeadAfter(log, i);
      previous := expected;
    }
    assert log[..|log|] == log;
    r := Ok(previous);
  }

  lemma EmptyHead()
    ensures HeadOf([]) == Genesis
  {
  }

  lemma PrefixValid(log: seq<Event>, i: nat)
    requires i <= |log| && forall k :: 0 <= k < i ==> Linked(log[k], HeadOf(log[..k]))
    ensures ValidLog(log[..i])
  {
    forall k | 0 <= k < i ensures Linked(log[..i][k], HeadOf(log[..i][..k])) {
      assert log[..i][..k] == log[..k];
    }
  }

  lemma HeadAfter(log: seq<Event>, i: nat)
    requires i < |log|
    ensures HeadOf(log[..i + 1]) == OfMaterial(MaterialOf(log[i]))
  {
  }

  // ----- the head determines the log -----

  predicate NoLineage(e: Event) {
    e.run.None? && e.action.None? && e.transaction.None?
  }

  /** Either neither event has a lineage field, or both have some and agree on all three,
      missing ones reading as empty. */
  ghost predicate SameLineage(a: Event, b: Event) {
    if NoLineage(a) || NoLineage(b) then NoLineage(a) && NoLineage(b)
    else
      && OrEmpty(a.run) == OrEmpty(b.run) && OrEmpty(a.action) == OrEmpty(b.action)
      && OrEmpty(a.transaction) == OrEmpty(b.transaction)
  }

  /** Two events agree on everything their hashes cover, and on the payload. */
  ghost predicate SameHashed(a: Event, b: Event) {
    && a.eventId == b.eventId && a.timestamp == b.timestamp && a.previous == b.previous && a.eventType == b.eventType
    && a.payloadHash == b.payloadHash && a.payload == b.payload && SameLineage(a, b) && a.eventHash == b.eventHash
  }

  lemma SameMaterial(a: Event, before: Hash, b: Event, earlier: Hash)
    requires Linked(a, before) && Linked(b, earlier) && MaterialOf(a) == MaterialOf(b)
    ensures SameHashed(a, b) && before == earlier
  {
  }

  lemma LastLinked(log: seq<Event>)
    requires ValidLog(log) && log != []
    ensures ValidLog(log[..|log| - 1]) && Linked(log[|log| - 1], HeadOf(log[..|log| - 1]))
  {
    PrefixValid(log, |log| - 1);
  }

  /** The head determines the log: valid logs with the same head have the same length and
      agree event by event on everything hashed. */
  lemma {:induction false} HeadDeterminesLog(a: seq<Event>, b: seq<Event>)
    requires ValidLog(a) && ValidLog(b) && HeadOf(a) == HeadOf(b)
    ensures |a| == |b| && forall i :: 0 <= i < |a| ==> SameHashed(a[i], b[i])
  {
    hide ValidLog, Linked, MaterialOf, SameHashed;
    if a != [] && b != [] {
      LastLinked(a);
      LastLinked(b);
      SameMaterial(a[|a| - 1], HeadOf(a[..|a| - 1]), b[|b| - 1], HeadOf(b[..|b| - 1]));
      HeadDeterminesLog(a[..|a| - 1], b[..|b| - 1]);
      forall i | 0 <= i < |a| ensures SameHashed(a[i], b[i]) {
        if i < |a| - 1 { assert SameHashed(a[..|a| - 1][i], b[..|b| - 1][i]); }
      }
    }
  }

  /** No two prefixes of a valid log have the same head: the chain never returns to a hash. */
  lemma HeadsDiffer(log: seq<Event>, i: nat, j: nat)
    requires ValidLog(log) && i < j <= |log|
    ensures HeadOf(log[..i]) != HeadOf(log[..j])
  {
    PrefixValid(log, i);
    PrefixValid(log, j);
    if HeadOf(log[..i]) == HeadOf(log[..j]) {
      HeadDeterminesLog(log[..i], log[..j]);
    }
  }

  // ----- appending -----

  /** The event `append` writes. */
  function NewEvent(head: Hash, eventType: string, payload: Payload, lineage: Lineage, eventId: string,
      timestamp: string): Event {
    var material := Material(Some(eventId), Some(timestamp), Some(head), Some(eventType), OfPayload(payload),
        Some(lineage));
    Event(Some(eventId), Some(timestamp), Some(head), Some(eventType), Some(OfPayload(payload)),
          Some(lineage.run), Some(lineage.action), Some(lineage.transaction), payload, Some(OfMaterial(material)))
  }

  /** The event carries what it was made of, each in its own field. */
  predicate Says(e: Event, eventType: string, payload: Payload, lineage: Lineage, eventId: string, timestamp: string) {
    && e.eventType == Some(eventType) && e.payload == payload && e.eventId == Some(eventId)
    && e.timestamp == Some(timestamp)
    && e.run == Some(lineage.run) && e.action == Some(lineage.action) && e.transaction == Some(lineage.transaction)
  }

  /** Appending keeps the chain valid, and the recomputed head is the hash of the new event. */
  lemma AppendKeepsChain(log: seq<Event>, eventType: string, payload: Payload, lineage: Lineage, eventId: string,
      timestamp: string)
    requires ValidLog(log)
    ensures var e := NewEvent(HeadOf(log), eventType, payload, lineage, eventId, timestamp);
      ValidLog(log + [e]) && e.eventHash == Some(HeadOf(log + [e]))
  {
    var e := NewEvent(HeadOf(log), eventType, payload, lineage, eventId, timestamp);
    forall i | 0 <= i < |log + [e]| ensures Linked((log + [e])[i], HeadOf((log + [e])[..i])) {
      assert (log + [e])[..i] == log[..i];
      assert log[..|log|] == log;
    }
  }

  /** `EventStore`: the file and the head. */
  class EventStore {
    var log: seq<Event>
    var head: Hash

    ghost predicate Valid()
      reads this
    {
      ValidLog(log) && head == HeadOf(log)
    }

    /** Opening a log whose chain was validated. */
    constructor (events: seq<Event>, validated: Hash)
      requires ValidLog(events) && validated == HeadOf(events)
      ensures Valid() && log == events && head == validated
    {
      log, head := events, validated;
    }

    /** `EventStore.__init__`: there is a store exactly for a valid log. */
    static method Open(events: seq<Event>) returns (store: EventStore?, error: Option<ChainError>)
      ensures store != null <==> ValidLog(events)
      ensures store != null ==> fresh(store) && store.Valid() && store.log == events
    {
      store, error := null, None;
      var checked := ValidateChain(events);
      match checked
      case Ok(validated) => store := new EventStore(events, validated);
      case Err(e) => error := Some(e);
    }

    /** `append` */
    method Append(eventType: string, payload: Payload, lineage: Lineage, eventId: string, timestamp: string)
        returns (e: Event)
      requires Valid()
      modifies this
      ensures Valid() && e == NewEvent(old(head), eventType, payload, lineage, eventId, timestamp)
      ensures log == old(log) + [e] && e.eventHash == Some(head)
      ensures Says(e, eventType, payload, lineage, eventId, timestamp) && Linked(e, old(head))
    {
      hide ValidLog, HeadOf;
      e := NewEvent(head, eventType, payload, lineage, eventId, timestamp);
      AppendKeepsChain(log, eventType, payload, lineage, eventId, timestamp);
      log := log + [e];
      head := e.eventHash.value;
    }

    /** `last_state_snapshot` */
    method LastStateSnapshot() returns (last: Option<Event>)
      ensures last == LastSnapshot(log)
      ensures last.None? ==> forall k :: 0 <= k < |log| ==> log[k].eventType != Some(STATE_SNAPSHOT)
      ensures last.Some? ==> exists k :: IsLastSnapshot(log, k) && log[k] == last.value
    {
      LastSnapshotIs(log);
      last := None;
      for i := 0 to |log|
        invariant last == LastSnapshot(log[..i])
      {
        assert log[..i + 1][..i] == log[..i];
        if log[i].eventType == Some(STATE_SNAPSHOT) {
          last := Some(log[i]);
        }
      }
      assert log[..|log|] == log;
    }
  }

  function LastSnapshot(log: seq<Event>): Option<Event> {
    if log == [] then None
    else if log[|log| - 1].eventType == Some(STATE_SNAPSHOT) then Some(log[|log| - 1])
    else LastSnapshot(log[..|log| - 1])
  }

  /** The k-th event is a snapshot, and no later one is. */
  ghost predicate IsLastSnapshot(log: seq<Event>, k: int) {
    && 0 <= k < |log| && log[k].eventType == Some(STATE_SNAPSHOT)
    && forall j :: k < j < |log| ==> log[j].eventType != Some(STATE_SNAPSHOT)
  }

  lemma {:induction false} LastSnapshotIs(log: seq<Event>)
    ensures LastSnapshot(log).None? ==> forall k :: 0 <= k < |log| ==> log[k].eventType != Some(STATE_SNAPSHOT)
    ensures LastSnapshot(log).Some? ==> exists k :: IsLastSnapshot(log, k) && log[k] == LastSnapshot(log).value
  {
    if log != [] {
      var n := |log| - 1;
      if log[n].eventType == Some(STATE_SNAPSHOT) {
        assert IsLastSnapshot(log, n);
      } else {
        var before := log[..n];
        LastSnapshotIs(before);
        assert forall k :: 0 <= k < n ==> before[k] == log[k];
        if LastSnapshot(log).Some? {
          var k :| IsLastSnapshot(before, k) && before[k] == LastSnapshot(before).value;
          assert IsLastSnapshot(log, k);
        }
      }
    }
  }
}
