/** `project_evidence`: the finite evidence state of an action, rebuilt from the artifacts that
    were recorded under it. */
module EvidenceProjection {
  import opened Results
  import opened Ordering
  import opened Evidence
  import opened EvidenceUpdates

  /** The fields of an artifact, of an action and of a gate that the projection reads. */
  datatype EvidenceRecord = EvidenceRecord(artifactId: string, kind: string, description: string, actionId: string,
      snapshot: string,
                               requirements: seq<string>, quality: int, polarity: string)

  datatype ActionEvidence = ActionEvidence(actionId: string, snapshot: string, evidence: seq<string>,
      requiredTests: seq<string>)

  datatype GateEvidence = GateEvidence(actionId: string, evidenceIds: seq<string>, satisfied: seq<string>)

  type Registry = map<string, EvidenceRecord>

  predicate Eligible(artifact: EvidenceRecord, action: ActionEvidence) {
    artifact.actionId == action.actionId && artifact.snapshot == action.snapshot
  }

  predicate PolarityKnown(artifact: EvidenceRecord) {
    artifact.polarity in ["support", "counterexample", "conflict"]
  }

  function ActionAtoms(action: ActionEvidence): set<string> {
    ToSet(action.evidence + action.requiredTests)
  }

  /** The atoms an artifact speaks about: its requirements, its description and its kind. */
  function AtomsOf(artifact: EvidenceRecord, atoms: set<string>): set<string> {
    (ToSet(artifact.requirements)
     + (if artifact.description in atoms then {artifact.description} else {})
     + (if artifact.kind in atoms then {artifact.kind} else {})) * atoms
  }

  /** An artifact speaks about an atom of the universe exactly when the atom is one of its
      requirements, its description or its kind. */
  lemma SpeaksAboutExactly(artifact: EvidenceRecord, atoms: set<string>, a: string)
    ensures a in AtomsOf(artifact, atoms) <==>
      a in atoms && (a in artifact.requirements || a == artifact.description || a == artifact.kind)
  {
  }

  function Observed(artifact: EvidenceRecord, atom: string): Observation {
    Observation(atom, artifact.artifactId, artifact.quality, artifact.polarity == "conflict")
  }

  /** Eligible artifacts a gate names, in the order of their identifiers. */
  function Named(ids: seq<string>, registry: Registry, action: ActionEvidence): (r: seq<EvidenceRecord>)
    ensures forall x :: x in r <==> exists id :: id in ids && id in registry && registry[id] == x && Eligible(x, action)
  {
    if ids == [] then []
    else
      var before, last := Named(ids[..|ids| - 1], registry, action), ids[|ids| - 1];
      assert forall id :: id in ids <==> id in ids[..|ids| - 1] || id == last;
      if last in registry && Eligible(registry[last], action) then before + [registry[last]] else before
  }

  function BestQuality(candidates: seq<EvidenceRecord>): (q: int)
    requires candidates != []
    ensures (exists x :: x in candidates && x.quality == q) && forall x :: x in candidates ==> x.quality <= q
  {
    var last := candidates[|candidates| - 1];
    assert forall x :: x in candidates <==> x in candidates[..|candidates| - 1] || x == last;
    if |candidates| == 1 then last.quality
    else
      var before := BestQuality(candidates[..|candidates| - 1]);
      if last.quality > before then last.quality else before
  }

  /** What a gate adds for an atom it calls satisfied: the best of the artifacts it names. */
  function GateObservation(candidates: seq<EvidenceRecord>, atom: string): Observation
    requires candidates != []
  {
    var best := BestQuality(candidates);
    var ids := set x | x in candidates && x.quality == best :: x.artifactId;
    assert ids != {} by {
      var x :| x in candidates && x.quality == best;
      assert x.artifactId in ids;
    }
    Observation(atom, Least(ids), best, exists x :: x in candidates && x.polarity == "conflict")
  }

  /** The best is of maximal quality, the least of those by identifier, and in conflict when
      any named artifact is. */
  lemma GateObservationIsBest(candidates: seq<EvidenceRecord>, atom: string)
    requires candidates != []
    ensures var o := GateObservation(candidates, atom);
      && o.atom == atom && (forall x :: x in candidates ==> x.quality <= o.quality)
      && (exists x :: x in candidates && x.quality == o.quality && x.artifactId == o.artifactId)
      && (forall x :: x in candidates && x.quality == o.quality ==> StrLeq(o.artifactId, x.artifactId))
      && (o.conflict <==> exists x :: x in candidates && x.polarity == "conflict")
  {
    var best := BestQuality(candidates);
    var ids := set x | x in candidates && x.quality == best :: x.artifactId;
    assert GateObservation(candidates, atom).artifactId in ids;
    forall x | x in candidates && x.quality == best ensures x.artifactId in ids { }
  }

  // ----- what the projection should be -----

  /** An observation for every eligible artifact and every atom it speaks about. */
  ghost function Direct(keys: set<string>, artifacts: Registry, action: ActionEvidence,
      atoms: set<string>): set<Observation> {
    set key, atom | key in keys && key in artifacts && Eligible(artifacts[key], action)
      && atom in AtomsOf(artifacts[key], atoms)
      :: Observed(artifacts[key], atom)
  }

  ghost function FromGate(satisfied: set<string>, candidates: seq<EvidenceRecord>): set<Observation> {
    if candidates == [] then {} else set atom | atom in satisfied :: GateObservation(candidates, atom)
  }

  function SatisfiedAtoms(gate: Option<GateEvidence>, action: ActionEvidence, atoms: set<string>): set<string> {
    if gate.Some? && gate.value.actionId == action.actionId then ToSet(gate.value.satisfied) * atoms else {}
  }

  function GateCandidates(gate: Option<GateEvidence>, registry: Registry, action: ActionEvidence): seq<EvidenceRecord> {
    if gate.Some? then Named(SortedList(gate.value.evidenceIds), registry, action) else []
  }

  ghost function AllObservations(action: ActionEvidence, artifacts: Registry, registry: Registry,
      gate: Option<GateEvidence>): set<Observation> {
    var atoms := ActionAtoms(action) - {""};
    Direct(artifacts.Keys, artifacts, action, atoms)
    + FromGate(SatisfiedAtoms(gate, action, atoms), GateCandidates(gate, registry, action))
  }

  ghost predicate ScoresInRange(obs: set<Observation>) {
    forall o :: o in obs ==> 0 <= o.quality <= SCORE_SCALE
  }

  // ----- the loops -----

  /** The state so far is the fold of what was observed so far. */
  ghost predicate FoldOf(start: EvidenceState, log: seq<Observation>, state: EvidenceState) {
    Canonical(start) && Canonical(state) && state.atoms == start.atoms && Fold(start, log) == Ok(state)
  }

  lemma OneMore(start: EvidenceState, log: seq<Observation>, state: EvidenceState, o: Observation)
    requires FoldOf(start, log, state) && o.atom in start.atoms
    ensures UpdateEvidence(state, o).Ok? <==> 0 <= o.quality <= SCORE_SCALE
    ensures UpdateEvidence(state, o).Ok? ==> FoldOf(start, log + [o], UpdateEvidence(state, o).value)
    ensures SetOf(log + [o]) == SetOf(log) + {o}
  {
    hide UpdateEvidence;
    assert (log + [o])[..|log|] == log;
    UpdateJoins(state, o);
  }

  /** The updates of one artifact, or of the gate: one observation per atom. */
  method Observe(state: EvidenceState, atoms: seq<string>, observe: string -> Observation, ghost start: EvidenceState,
      ghost log: seq<Observation>)
    returns (r: Result<EvidenceState, EvidenceError>, ghost longer: seq<Observation>)
    requires FoldOf(start, log, state)
    requires forall a :: a in atoms ==> a in start.atoms && observe(a).atom == a
    ensures r.Ok? <==> forall a :: a in atoms ==> 0 <= observe(a).quality <= SCORE_SCALE
    ensures r.Ok? ==> FoldOf(start, longer, r.value) && SetOf(longer) == SetOf(log) + (set a | a in atoms :: observe(a))
  {
    hide FoldOf, UpdateEvidence, SetOf;
    var projected := state;
    longer := log;
    for i := 0 to |atoms|
      invariant FoldOf(start, longer, projected)
      invariant forall k :: 0 <= k < i ==> 0 <= observe(atoms[k]).quality <= SCORE_SCALE
      invariant SetOf(longer) == SetOf(log) + (set k | 0 <= k < i :: observe(atoms[k]))
    {
      FoldAligned(start, longer, projected);
      OneMore(start, longer, projected, observe(atoms[i]));
      var updated := UpdateEvidence(projected, observe(atoms[i]));
      if updated.Err? {
        r := updated;
        assert atoms[i] in atoms;
        return;
      }
      projected := updated.value;
      longer := longer + [observe(atoms[i])];
    }
    r := Ok(projected);
    assert (set k | 0 <= k < |atoms| :: observe(atoms[k])) == (set a | a in atoms :: observe(a));
  }

  lemma FoldAligned(start: EvidenceState, log: seq<Observation>, state: EvidenceState)
    requires FoldOf(start, log, state)
    ensures Aligned(state)
  {
  }

  lemma NoneYet(start: EvidenceState)
    requires Canonical(start)
    ensures FoldOf(start, [], start)
  {
  }

  lemma DirectNext(keys: set<string>, key: string, artifacts: Registry, action: ActionEvidence, atoms: set<string>)
    requires key in artifacts
    ensures Direct(keys + {key}, artifacts, action, atoms) == Direct(keys, artifacts, action, atoms)
      + (if Eligible(artifacts[key], action)
        then set a | a in AtomsOf(artifacts[key], atoms) :: Observed(artifacts[key], a) else {})
  {
    hide AtomsOf, Eligible, Observed;
  }

  /** Every eligible artifact among the keys has a known polarity and a score in range for
      every atom it speaks about. */
  ghost predicate Accepted(keys: set<string>, artifacts: Registry, action: ActionEvidence, atoms: set<string>) {
    && (forall key :: key in keys && key in artifacts && Eligible(artifacts[key], action) ==>
          PolarityKnown(artifacts[key]))
    && ScoresInRange(Direct(keys, artifacts, action, atoms))
  }

  lemma AcceptedNext(keys: set<string>, key: string, artifacts: Registry, action: ActionEvidence, atoms: set<string>)
    requires key in artifacts && Accepted(keys, artifacts, action, atoms)
    ensures Accepted(keys + {key}, artifacts, action, atoms) <==>
      || !Eligible(artifacts[key], action)
      || (&& PolarityKnown(artifacts[key])
          && forall a :: a in AtomsOf(artifacts[key], atoms) ==>
             0 <= Observed(artifacts[key], a).quality <= SCORE_SCALE)
  {
    DirectNext(keys, key, artifacts, action, atoms);
    hide Direct, AtomsOf, Eligible, Observed, PolarityKnown;
    var added := set a | a in AtomsOf(artifacts[key], atoms) :: Observed(artifacts[key], a);
    assert forall a :: a in AtomsOf(artifacts[key], atoms) ==> Observed(artifacts[key], a) in added;
  }

  /** One artifact of the first loop. */
  method ObserveArtifact(start: EvidenceState, ghost log: seq<Observation>, state: EvidenceState,
      ghost keys: set<string>,
                         key: string, action: ActionEvidence, artifacts: Registry, atoms: set<string>)
    returns (r: Result<EvidenceState, EvidenceError>, ghost longer: seq<Observation>)
    requires FoldOf(start, log, state) && SetOf(log) == Direct(keys, artifacts, action, atoms)
    requires key in artifacts && Accepted(keys, artifacts, action, atoms)
    requires forall a :: a in atoms ==> a in start.atoms
    ensures r.Ok? <==> Accepted(keys + {key}, artifacts, action, atoms)
    ensures r.Ok? ==> FoldOf(start, longer, r.value) && SetOf(longer) == Direct(keys + {key}, artifacts, action, atoms)
  {
    hide FoldOf, SetOf, Direct, AtomsOf, Eligible, PolarityKnown, Accepted, Sorted;
    var artifact := artifacts[key];
    AcceptedNext(keys, key, artifacts, action, atoms);
    DirectNext(keys, key, artifacts, action, atoms);
    AtomsInside(artifact, atoms);
    longer := log;
    if !Eligible(artifact, action) {
      r := Ok(state);
    } else if !PolarityKnown(artifact) {
      r := Err(InvalidPolarity);
    } else {
      var listed := Sorted(AtomsOf(artifact, atoms));
      r, longer := Observe(state, listed, atom => Observed(artifact, atom), start, log);
      assert (set a | a in listed :: Observed(artifact, a)) ==
        set a | a in AtomsOf(artifact, atoms) :: Observed(artifact, a);
    }
  }

  lemma AcceptedPart(keys: set<string>, artifacts: Registry, action: ActionEvidence, atoms: set<string>)
    requires keys <= artifacts.Keys && Accepted(artifacts.Keys, artifacts, action, atoms)
    ensures Accepted(keys, artifacts, action, atoms)
  {
    DirectInside(keys, artifacts, action, atoms);
    hide Direct, Eligible, PolarityKnown;
  }

  /** The first loop: every eligible artifact, in the order of the identifiers. */
  method ObserveArtifacts(start: EvidenceState, action: ActionEvidence, artifacts: Registry, atoms: set<string>)
    returns (r: Result<EvidenceState, EvidenceError>, ghost log: seq<Observation>)
    requires Canonical(start) && forall a :: a in atoms ==> a in start.atoms
    ensures r.Ok? <==> Accepted(artifacts.Keys, artifacts, action, atoms)
    ensures r.Ok? ==> FoldOf(start, log, r.value) && SetOf(log) == Direct(artifacts.Keys, artifacts, action, atoms)
  {
    hide FoldOf, SetOf, Direct, Canonical, Accepted;
    var projected := start;
    log := [];
    NoneYet(start);
    NothingSeen(artifacts, action, atoms);
    var keys := Sorted(artifacts.Keys);
    assert ToSet(keys) == artifacts.Keys && ToSet(keys[..0]) == {};
    hide Sorted, ToSet;
    for i := 0 to |keys|
      invariant FoldOf(start, log, projected)
      invariant Accepted(ToSet(keys[..i]), artifacts, action, atoms)
      invariant SetOf(log) == Direct(ToSet(keys[..i]), artifacts, action, atoms)
    {
      TakeOneMore(keys, i);
      r, log := ObserveArtifact(start, log, projected, ToSet(keys[..i]), keys[i], action, artifacts, atoms);
      if r.Err? {
        if Accepted(artifacts.Keys, artifacts, action, atoms) {
          AcceptedPart(ToSet(keys[..i + 1]), artifacts, action, atoms);
        }
        return;
      }
      projected := r.value;
    }
    assert keys[..|keys|] == keys;
    r := Ok(projected);
  }

  lemma TakeOneMore(keys: seq<string>, i: nat)
    requires i < |keys|
    ensures ToSet(keys[..i + 1]) == ToSet(keys[..i]) + {keys[i]} <= ToSet(keys)
    ensures keys[i] in ToSet(keys)
  {
    assert keys[..i + 1] == keys[..i] + [keys[i]];
  }

  lemma NothingSeen(artifacts: Registry, action: ActionEvidence, atoms: set<string>)
    ensures Direct({}, artifacts, action, atoms) == {} == SetOf([])
    ensures Accepted({}, artifacts, action, atoms)
  {
  }

  lemma DirectInside(keys: set<string>, artifacts: Registry, action: ActionEvidence, atoms: set<string>)
    requires keys <= artifacts.Keys
    ensures Direct(keys, artifacts, action, atoms) <= Direct(artifacts.Keys, artifacts, action, atoms)
  {
    hide AtomsOf, Eligible, Observed;
  }

  lemma AtomsInside(artifact: EvidenceRecord, atoms: set<string>)
    ensures AtomsOf(artifact, atoms) <= atoms
    ensures forall a :: a in Sorted(AtomsOf(artifact, atoms)) <==> a in AtomsOf(artifact, atoms)
  {
    assert forall a :: a in Sorted(AtomsOf(artifact, atoms)) <==> a in ToSet(Sorted(AtomsOf(artifact, atoms)));
  }

  /** The second loop: an observation for every atom the gate calls satisfied. */
  method ObserveGate(start: EvidenceState, ghost log: seq<Observation>, state: EvidenceState, satisfied: set<string>,
      candidates: seq<EvidenceRecord>)
    returns (r: Result<EvidenceState, EvidenceError>, ghost longer: seq<Observation>)
    requires FoldOf(start, log, state) && forall a :: a in satisfied ==> a in start.atoms
    ensures r.Ok? <==> ScoresInRange(FromGate(satisfied, candidates))
    ensures r.Ok? ==> FoldOf(start, longer, r.value) && SetOf(longer) == SetOf(log) + FromGate(satisfied, candidates)
  {
    hide FoldOf, SetOf, GateObservation;
    if candidates == [] {
      return Ok(state), log;
    }
    var atoms := Sorted(satisfied);
    assert forall a :: a in atoms <==> a in ToSet(atoms);
    forall a | a in atoms ensures GateObservation(candidates, a).atom == a { GateObservationAtom(candidates, a); }
    r, longer := Observe(state, atoms, atom requires candidates != [] => GateObservation(candidates, atom), start, log);
    assert (set a | a in atoms :: GateObservation(candidates, a)) == FromGate(satisfied, candidates);
  }

  lemma GateObservationAtom(candidates: seq<EvidenceRecord>, a: string)
    requires candidates != []
    ensures GateObservation(candidates, a).atom == a
  {
  }

  /** The projection is accepted exactly when the universe is within the cap, polarities are
      known and scores in range; and then every atom of the action holds what the artifacts
      that back it amount to, whatever order they were stored or visited in. */
  method ProjectEvidence(action: ActionEvidence, cap: int, artifacts: Registry, registry: Registry,
      gate: Option<GateEvidence>)
    returns (r: Result<EvidenceState, EvidenceError>)
    ensures r.Ok? <==> Acceptable(action, cap, artifacts, registry, gate)
    ensures r.Ok? ==> Projects(action, artifacts, registry, gate, r.value)
    ensures r.Ok? ==>
      JoinOf(EmptyState(ActionAtoms(action)), AllObservations(action, artifacts, registry, gate), r.value)
  {
    hide FoldOf, SetOf, Direct, Canonical, Accepted, FromGate, JoinOf, SatisfiedAtoms, GateCandidates, Acceptable,
      Projects, AllObservations;
    AcceptableExactlyWhen(action, cap, artifacts, registry, gate);
    var atoms := ActionAtoms(action) - {""};
    var start := EmptyState(ActionAtoms(action));
    EmptyIsCanonical(ActionAtoms(action));
    if |start.atoms| > cap {
      return Err(TooManyAtoms);
    }
    ghost var log;
    r, log := ObserveArtifacts(start, action, artifacts, atoms);
    AllScores(action, artifacts, registry, gate);
    if r.Err? { return; }
    SatisfiedInside(gate, action, atoms);
    r, log := ObserveGate(start, log, r.value, SatisfiedAtoms(gate, action, atoms),
        GateCandidates(gate, registry, action));
    if r.Ok? {
      FoldMeans(start, log, r.value);
      AllAreObserved(action, artifacts, registry, gate);
      JoinProjects(action, artifacts, registry, gate, r.value);
    }
  }

  lemma AllAreObserved(action: ActionEvidence, artifacts: Registry, registry: Registry, gate: Option<GateEvidence>)
    ensures var atoms := ActionAtoms(action) - {""};
      AllObservations(action, artifacts, registry, gate) == Direct(artifacts.Keys, artifacts, action, atoms)
        + FromGate(SatisfiedAtoms(gate, action, atoms), GateCandidates(gate, registry, action))
  {
  }

  lemma AllScores(action: ActionEvidence, artifacts: Registry, registry: Registry, gate: Option<GateEvidence>)
    ensures var atoms := ActionAtoms(action) - {""};
      var fromGate := FromGate(SatisfiedAtoms(gate, action, atoms), GateCandidates(gate, registry, action));
      Accepted(artifacts.Keys, artifacts, action, atoms) ==>
        (ScoresInRange(AllObservations(action, artifacts, registry, gate)) <==> ScoresInRange(fromGate))
  {
    hide Direct, FromGate, SatisfiedAtoms, GateCandidates, Eligible, PolarityKnown;
  }

  lemma SatisfiedInside(gate: Option<GateEvidence>, action: ActionEvidence, atoms: set<string>)
    ensures SatisfiedAtoms(gate, action, atoms) <= atoms
  {
  }

  lemma FoldMeans(start: EvidenceState, log: seq<Observation>, state: EvidenceState)
    requires FoldOf(start, log, state)
    ensures JoinOf(start, SetOf(log), state)
  {
    FoldJoins(start, log);
  }

  // ----- the projection, atom by atom -----

  /** The artifact was recorded under the action, at its source snapshot. */
  predicate Bound(x: EvidenceRecord, action: ActionEvidence) {
    x.actionId == action.actionId && x.snapshot == action.snapshot
  }

  predicate Mentions(x: EvidenceRecord, a: string) {
    a in x.requirements || a == x.description || a == x.kind
  }

  /** An artifact that itself speaks about the atom. */
  ghost predicate Speaks(action: ActionEvidence, artifacts: Registry, a: string, x: EvidenceRecord) {
    exists key :: key in artifacts && artifacts[key] == x && Bound(x, action) && Mentions(x, a)
  }

  /** A registered artifact named by a gate of the action that calls the atom satisfied. */
  ghost predicate Vouches(action: ActionEvidence, registry: Registry, gate: Option<GateEvidence>, a: string,
      x: EvidenceRecord) {
    && gate.Some? && gate.value.actionId == action.actionId && a in gate.value.satisfied
    && exists id :: id in gate.value.evidenceIds && id in registry && registry[id] == x && Bound(x, action)
  }

  ghost predicate Backs(action: ActionEvidence, artifacts: Registry, registry: Registry, gate: Option<GateEvidence>,
      a: string, x: EvidenceRecord) {
    Speaks(action, artifacts, a, x) || Vouches(action, registry, gate, a, x)
  }

  /** The artifact lends the atom its identifier: it speaks about the atom, or it is the first
      by identifier among the best the gate names. */
  ghost predicate Lends(action: ActionEvidence, artifacts: Registry, registry: Registry, gate: Option<GateEvidence>,
      a: string, x: EvidenceRecord) {
    || Speaks(action, artifacts, a, x)
    || (&& Vouches(action, registry, gate, a, x)
        && forall y :: Vouches(action, registry, gate, a, y) ==>
             y.quality < x.quality || (y.quality == x.quality && StrLeq(x.artifactId, y.artifactId)))
  }

  ghost function BackersOf(action: ActionEvidence, artifacts: Registry, registry: Registry, gate: Option<GateEvidence>,
      a: string): iset<EvidenceRecord> {
    iset x | Backs(action, artifacts, registry, gate, a, x)
  }

  ghost function LendersOf(action: ActionEvidence, artifacts: Registry, registry: Registry, gate: Option<GateEvidence>,
      a: string): iset<EvidenceRecord> {
    iset x | Lends(action, artifacts, registry, gate, a, x)
  }

  ghost predicate HasConflict(backers: iset<EvidenceRecord>) {
    exists x :: x in backers && x.polarity == "conflict"
  }

  /** The cell of an atom: present when any artifact backs it, in conflict when one of those is,
      of the best quality among them, and represented by the least non-empty identifier lent at
      that quality. */
  ghost predicate CellIs(c: Cell, backers: iset<EvidenceRecord>, lenders: iset<EvidenceRecord>) {
    && (c.present <==> exists x :: x in backers)
    && (c.conflict <==> HasConflict(backers))
    && (forall x :: x in backers ==> x.quality <= c.quality)
    && (if c.present then exists x :: x in backers && x.quality == c.quality else c.quality == 0)
    && (c.representative != "" ==>
          exists x :: x in lenders && x.quality == c.quality && x.artifactId == c.representative)
    && (forall x :: x in lenders && x.quality == c.quality && x.artifactId != "" ==>
          c.representative != "" && StrLeq(c.representative, x.artifactId))
  }

  ghost predicate AtomIs(action: ActionEvidence, artifacts: Registry, registry: Registry, gate: Option<GateEvidence>,
      a: string, c: Cell) {
    CellIs(c, BackersOf(action, artifacts, registry, gate, a), LendersOf(action, artifacts, registry, gate, a))
  }

  /** The state has a cell for every non-empty evidence requirement and required test of the
      action, and nothing else, and each is as it should be. */
  ghost predicate Projects(action: ActionEvidence, artifacts: Registry, registry: Registry, gate: Option<GateEvidence>,
      s: EvidenceState) {
    && Canonical(s)
    && (forall a :: a in s.atoms <==> a != "" && (a in action.evidence || a in action.requiredTests))
    && EveryAtomIs(action, artifacts, registry, gate, s)
  }

  ghost predicate EveryAtomIs(action: ActionEvidence, artifacts: Registry, registry: Registry,
      gate: Option<GateEvidence>, s: EvidenceState)
    requires Aligned(s)
  {
    forall a :: a in s.atoms ==> AtomIs(action, artifacts, registry, gate, a, CellOf(s, a))
  }

  lemma CandidatesVouch(action: ActionEvidence, registry: Registry, gate: Option<GateEvidence>, a: string,
      x: EvidenceRecord)
    requires gate.Some? && gate.value.actionId == action.actionId && a in gate.value.satisfied
    ensures x in GateCandidates(gate, registry, action) <==> Vouches(action, registry, gate, a, x)
  {
    hide Named, SortedList;
    var ids := SortedList(gate.value.evidenceIds);
    assert forall id :: id in ids <==> id in gate.value.evidenceIds;
  }

  function ObservationOf(a: string, x: EvidenceRecord): Observation {
    Observation(a, x.artifactId, x.quality, x.polarity == "conflict")
  }

  /** The observations about an atom, one by one. */
  lemma DirectAbout(action: ActionEvidence, artifacts: Registry, a: string, o: Observation)
    requires a in ActionAtoms(action) - {""}
    ensures o in Direct(artifacts.Keys, artifacts, action, ActionAtoms(action) - {""}) && o.atom == a <==>
      exists x :: Speaks(action, artifacts, a, x) && o == ObservationOf(a, x)
  {
    var atoms := ActionAtoms(action) - {""};
    hide ActionAtoms;
    if o in Direct(artifacts.Keys, artifacts, action, atoms) && o.atom == a {
      var key :| key in artifacts && Eligible(artifacts[key], action) && a in AtomsOf(artifacts[key], atoms)
        && o == Observed(artifacts[key], a);
      SpeaksAboutExactly(artifacts[key], atoms, a);
      assert Speaks(action, artifacts, a, artifacts[key]);
    }
    if exists x :: Speaks(action, artifacts, a, x) && o == ObservationOf(a, x) {
      var x :| Speaks(action, artifacts, a, x) && o == ObservationOf(a, x);
      var key :| key in artifacts && artifacts[key] == x && Bound(x, action) && Mentions(x, a);
      SpeaksAboutExactly(x, atoms, a);
      assert Observed(artifacts[key], a) == o;
    }
  }

  /** What a gate adds about an atom is there exactly when some artifact vouches for it. */
  lemma GateAbout(action: ActionEvidence, registry: Registry, gate: Option<GateEvidence>, a: string, o: Observation)
    requires a in ActionAtoms(action) - {""}
    ensures var cands := GateCandidates(gate, registry, action);
      o in FromGate(SatisfiedAtoms(gate, action, ActionAtoms(action) - {""}), cands) && o.atom == a <==>
        (exists x :: Vouches(action, registry, gate, a, x)) && cands != [] && o == GateObservation(cands, a)
  {
    var atoms, cands := ActionAtoms(action) - {""}, GateCandidates(gate, registry, action);
    hide ActionAtoms, GateObservation, GateCandidates, Vouches;
    if gate.Some? && gate.value.actionId == action.actionId && a in gate.value.satisfied {
      assert a in SatisfiedAtoms(gate, action, atoms);
      if cands != [] {
        CandidatesVouch(action, registry, gate, a, cands[0]);
        GateObservationAtom(cands, a);
        forall b ensures GateObservation(cands, b).atom == b { GateObservationAtom(cands, b); }
      }
    } else {
      NobodyVouches(action, registry, gate, a);
      forall b ensures cands != [] ==> GateObservation(cands, b).atom == b {
        if cands != [] { GateObservationAtom(cands, b); }
      }
      assert a !in SatisfiedAtoms(gate, action, atoms);
    }
  }

  lemma NobodyVouches(action: ActionEvidence, registry: Registry, gate: Option<GateEvidence>, a: string)
    requires !(gate.Some? && gate.value.actionId == action.actionId && a in gate.value.satisfied)
    ensures !exists x :: Vouches(action, registry, gate, a, x)
  {
  }

  /** The gate's observation is that of the best artifact that vouches, the first of those. */
  lemma GateLends(action: ActionEvidence, artifacts: Registry, registry: Registry, gate: Option<GateEvidence>,
      a: string)
    requires exists x :: Vouches(action, registry, gate, a, x)
    ensures var cands := GateCandidates(gate, registry, action);
      && cands != []
      && var o := GateObservation(cands, a);
        && (exists x :: Vouches(action, registry, gate, a, x) && Lends(action, artifacts, registry, gate, a, x)
              && x.quality == o.quality && x.artifactId == o.artifactId)
        && (forall x :: Vouches(action, registry, gate, a, x) ==> x.quality <= o.quality)
        && (forall x :: Vouches(action, registry, gate, a, x) && x.quality == o.quality ==>
              StrLeq(o.artifactId, x.artifactId))
        && (o.conflict <==> exists x :: Vouches(action, registry, gate, a, x) && x.polarity == "conflict")
  {
    hide Vouches, GateCandidates, GateObservation, Speaks;
    var cands := GateCandidates(gate, registry, action);
    VouchersAre(action, registry, gate, a);
    assert cands != [];
    GateObservationIsBest(cands, a);
    var o := GateObservation(cands, a);
    var x :| x in cands && x.quality == o.quality && x.artifactId == o.artifactId;
    assert Lends(action, artifacts, registry, gate, a, x);
  }

  lemma VouchersAre(action: ActionEvidence, registry: Registry, gate: Option<GateEvidence>, a: string)
    requires exists x :: Vouches(action, registry, gate, a, x)
    ensures forall x :: x in GateCandidates(gate, registry, action) <==> Vouches(action, registry, gate, a, x)
  {
    hide GateCandidates;
    var v :| Vouches(action, registry, gate, a, v);
    assert gate.Some? && gate.value.actionId == action.actionId && a in gate.value.satisfied;
    hide Vouches;
    forall x ensures x in GateCandidates(gate, registry, action) <==> Vouches(action, registry, gate, a, x) {
      CandidatesVouch(action, registry, gate, a, x);
    }
  }

  /** Only what speaks or vouches, and everything that does, is in the observations. */
  ghost predicate Collects(action: ActionEvidence, artifacts: Registry, registry: Registry, gate: Option<GateEvidence>,
      a: string, obs: set<Observation>) {
    && (forall x :: Speaks(action, artifacts, a, x) ==> ObservationOf(a, x) in obs)
    && ((exists x :: Vouches(action, registry, gate, a, x)) ==>
          GateCandidates(gate, registry, action) != []
          && GateObservation(GateCandidates(gate, registry, action), a) in obs)
    && (forall o :: o in obs ==>
          || (exists x :: Speaks(action, artifacts, a, x) && o == ObservationOf(a, x))
          || ((exists x :: Vouches(action, registry, gate, a, x)) && GateCandidates(gate, registry, action) != []
              && o == GateObservation(GateCandidates(gate, registry, action), a)))
  }

  lemma AllCollected(action: ActionEvidence, artifacts: Registry, registry: Registry, gate: Option<GateEvidence>,
      a: string)
    requires a in ActionAtoms(action) - {""}
    ensures Collects(action, artifacts, registry, gate, a, About(AllObservations(action, artifacts, registry, gate), a))
  {
    hide ActionAtoms, Direct, FromGate, SatisfiedAtoms, GateCandidates, GateObservation, Speaks, Vouches;
    var all, atoms := AllObservations(action, artifacts, registry, gate), ActionAtoms(action) - {""};
    forall o: Observation ensures o in About(all, a) <==>
      || (o in Direct(artifacts.Keys, artifacts, action, atoms) && o.atom == a)
      || (o in FromGate(SatisfiedAtoms(gate, action, atoms), GateCandidates(gate, registry, action)) && o.atom == a) {}
    forall o: Observation ensures o in About(all, a) <==>
      || (exists x :: Speaks(action, artifacts, a, x) && o == ObservationOf(a, x))
      || ((exists x :: Vouches(action, registry, gate, a, x)) && GateCandidates(gate, registry, action) != []
          && o == GateObservation(GateCandidates(gate, registry, action), a))
    {
      DirectAbout(action, artifacts, a, o);
      GateAbout(action, registry, gate, a, o);
    }
    if exists x :: Vouches(action, registry, gate, a, x) { GateLends(action, artifacts, registry, gate, a); }
    hide AllObservations, About;
  }

  /** Observation o stands for artifact x: same quality, same identifier. */
  predicate StandsFor(o: Observation, x: EvidenceRecord) {
    o.quality == x.quality && o.artifactId == x.artifactId
  }

  ghost predicate HasLender(o: Observation, lenders: iset<EvidenceRecord>) {
    exists x :: x in lenders && StandsFor(o, x)
  }

  ghost predicate HasObservation(x: EvidenceRecord, obs: set<Observation>) {
    exists o :: o in obs && StandsFor(o, x)
  }

  /** Some observation is as good as the artifact, and in conflict if it is. */
  ghost predicate IsMatched(x: EvidenceRecord, obs: set<Observation>) {
    exists o :: o in obs && x.quality <= o.quality && (x.polarity == "conflict" ==> o.conflict)
  }

  /** The observations and the artifacts that back an atom account for each other: every
      observation stands for a lender, every lender has one, every backer one as good, and
      conflicts are kept both ways. */
  ghost predicate Accounts(obs: set<Observation>, backers: iset<EvidenceRecord>, lenders: iset<EvidenceRecord>) {
    && lenders <= backers
    && (forall o :: o in obs ==> HasLender(o, lenders) && (o.conflict ==> HasConflict(backers)))
    && (forall x :: x in lenders ==> HasObservation(x, obs))
    && (forall x :: x in backers ==> IsMatched(x, obs))
  }

  lemma ObservationAccounted(action: ActionEvidence, artifacts: Registry, registry: Registry,
      gate: Option<GateEvidence>, a: string, obs: set<Observation>, o: Observation)
    requires Collects(action, artifacts, registry, gate, a, obs) && o in obs
    ensures HasLender(o, LendersOf(action, artifacts, registry, gate, a))
    ensures o.conflict ==> HasConflict(BackersOf(action, artifacts, registry, gate, a))
  {
    hide GateCandidates, GateObservation, Speaks, Vouches;
    if exists x :: Speaks(action, artifacts, a, x) && o == ObservationOf(a, x) {
      var x :| Speaks(action, artifacts, a, x) && o == ObservationOf(a, x);
      assert x in LendersOf(action, artifacts, registry, gate, a) && StandsFor(o, x);
      assert x in BackersOf(action, artifacts, registry, gate, a);
    } else {
      GateLends(action, artifacts, registry, gate, a);
      var x :| Vouches(action, registry, gate, a, x) && Lends(action, artifacts, registry, gate, a, x)
        && StandsFor(o, x);
      assert x in LendersOf(action, artifacts, registry, gate, a);
      if o.conflict {
        var y :| Vouches(action, registry, gate, a, y) && y.polarity == "conflict";
        assert y in BackersOf(action, artifacts, registry, gate, a);
      }
    }
  }

  lemma BackerAccounted(action: ActionEvidence, artifacts: Registry, registry: Registry, gate: Option<GateEvidence>,
      a: string, obs: set<Observation>, x: EvidenceRecord)
    requires Collects(action, artifacts, registry, gate, a, obs) && Backs(action, artifacts, registry, gate, a, x)
    ensures IsMatched(x, obs)
    ensures Lends(action, artifacts, registry, gate, a, x) ==> HasObservation(x, obs)
  {
    hide GateCandidates, GateObservation, Speaks, Vouches;
    if Speaks(action, artifacts, a, x) {
      assert StandsFor(ObservationOf(a, x), x);
    } else {
      GateLends(action, artifacts, registry, gate, a);
      var o := GateObservation(GateCandidates(gate, registry, action), a);
      assert o in obs;
      if Lends(action, artifacts, registry, gate, a, x) { GateLenderIs(action, artifacts, registry, gate, a, x); }
    }
  }

  lemma GateLenderIs(action: ActionEvidence, artifacts: Registry, registry: Registry, gate: Option<GateEvidence>,
      a: string, x: EvidenceRecord)
    requires Lends(action, artifacts, registry, gate, a, x) && !Speaks(action, artifacts, a, x)
    ensures GateCandidates(gate, registry, action) != []
    ensures StandsFor(GateObservation(GateCandidates(gate, registry, action), a), x)
  {
    hide GateCandidates, GateObservation, Speaks, Vouches, StrLeq;
    assert Vouches(action, registry, gate, a, x);
    GateLends(action, artifacts, registry, gate, a);
    var o := GateObservation(GateCandidates(gate, registry, action), a);
    var y :| Vouches(action, registry, gate, a, y) && y.quality == o.quality && y.artifactId == o.artifactId;
    assert y.quality < x.quality || (y.quality == x.quality && StrLeq(x.artifactId, y.artifactId));
    StrLeqTotal(x.artifactId, y.artifactId);
  }

  lemma AllAccounted(action: ActionEvidence, artifacts: Registry, registry: Registry, gate: Option<GateEvidence>,
      a: string, obs: set<Observation>)
    requires Collects(action, artifacts, registry, gate, a, obs)
    ensures Accounts(obs, BackersOf(action, artifacts, registry, gate, a),
                     LendersOf(action, artifacts, registry, gate, a))
  {
    hide Collects, Backs, Lends, HasLender, HasConflict, HasObservation, IsMatched;
    var backers, lenders := BackersOf(action, artifacts, registry, gate, a),
      LendersOf(action, artifacts, registry, gate, a);
    forall o | o in obs ensures HasLender(o, lenders) && (o.conflict ==> HasConflict(backers)) {
      ObservationAccounted(action, artifacts, registry, gate, a, obs, o);
    }
    forall x | x in lenders ensures x in backers { LendersBack(action, artifacts, registry, gate, a, x); }
    forall x | x in backers ensures IsMatched(x, obs) && (x in lenders ==> HasObservation(x, obs)) {
      BackerAccounted(action, artifacts, registry, gate, a, obs, x);
    }
  }

  lemma LendersBack(action: ActionEvidence, artifacts: Registry, registry: Registry, gate: Option<GateEvidence>,
      a: string, x: EvidenceRecord)
    requires Lends(action, artifacts, registry, gate, a, x)
    ensures Backs(action, artifacts, registry, gate, a, x)
  {
  }

  lemma LenderOf(o: Observation, lenders: iset<EvidenceRecord>) returns (x: EvidenceRecord)
    requires HasLender(o, lenders)
    ensures x in lenders && x.quality == o.quality && x.artifactId == o.artifactId
  {
    x :| x in lenders && StandsFor(o, x);
  }

  lemma MatchOf(x: EvidenceRecord, obs: set<Observation>) returns (o: Observation)
    requires IsMatched(x, obs)
    ensures o in obs && x.quality <= o.quality && (x.polarity == "conflict" ==> o.conflict)
  {
    o :| o in obs && x.quality <= o.quality && (x.polarity == "conflict" ==> o.conflict);
  }

  lemma ObservationFor(x: EvidenceRecord, obs: set<Observation>) returns (o: Observation)
    requires HasObservation(x, obs)
    ensures o in obs && x.quality == o.quality && x.artifactId == o.artifactId
  {
    o :| o in obs && StandsFor(o, x);
  }

  lemma BitsAndQuality(obs: set<Observation>, backers: iset<EvidenceRecord>, lenders: iset<EvidenceRecord>, c: Cell)
    requires Accounts(obs, backers, lenders) && Summarizes(EMPTY_CELL, obs, c)
    requires forall o :: o in obs ==> 0 <= o.quality
    ensures c.present <==> exists x :: x in backers
    ensures c.conflict <==> HasConflict(backers)
    ensures forall x :: x in backers ==> x.quality <= c.quality
    ensures if c.present then exists x :: x in backers && x.quality == c.quality else c.quality == 0
  {
    hide Names, Least, HasLender, HasConflict, HasObservation, IsMatched;
    forall x | x in backers ensures c.present && x.quality <= c.quality && (x.polarity == "conflict" ==> c.conflict) {
      var o := MatchOf(x, obs);
    }
    if HasConflict(backers) { var x := ConflictOf(backers); }
    if c.present {
      var some :| some in obs;
      var best :| best in obs && best.quality == c.quality;
      var x := LenderOf(best, lenders);
      assert x in backers && x.quality == c.quality;
    }
  }

  lemma ConflictOf(backers: iset<EvidenceRecord>) returns (x: EvidenceRecord)
    requires HasConflict(backers)
    ensures x in backers && x.polarity == "conflict"
  {
    x :| x in backers && x.polarity == "conflict";
  }

  lemma RepresentativeIs(obs: set<Observation>, backers: iset<EvidenceRecord>, lenders: iset<EvidenceRecord>, c: Cell)
    requires Accounts(obs, backers, lenders) && Summarizes(EMPTY_CELL, obs, c)
    ensures c.representative != "" ==>
      exists x :: x in lenders && x.quality == c.quality && x.artifactId == c.representative
    ensures forall x :: x in lenders && x.quality == c.quality && x.artifactId != "" ==>
      c.representative != "" && StrLeq(c.representative, x.artifactId)
  {
    hide HasLender, HasConflict, HasObservation, IsMatched, StrLeq;
    var names := Names(EMPTY_CELL, obs, c.quality);
    RepresentativeOf(EMPTY_CELL, obs, c);
    hide Summarizes;
    if c.representative != "" {
      var o :| o in obs && o.quality == c.quality && o.artifactId == c.representative;
      var x := LenderOf(o, lenders);
    }
    forall x | x in lenders && x.quality == c.quality && x.artifactId != ""
      ensures c.representative != "" && StrLeq(c.representative, x.artifactId)
    {
      var o := ObservationFor(x, obs);
      assert x.artifactId in names;
    }
  }

  lemma AtomMeans(action: ActionEvidence, artifacts: Registry, registry: Registry, gate: Option<GateEvidence>,
      a: string, obs: set<Observation>, c: Cell)
    requires Collects(action, artifacts, registry, gate, a, obs) && Summarizes(EMPTY_CELL, obs, c)
    requires forall o :: o in obs ==> 0 <= o.quality
    ensures AtomIs(action, artifacts, registry, gate, a, c)
  {
    var backers, lenders := BackersOf(action, artifacts, registry, gate, a),
      LendersOf(action, artifacts, registry, gate, a);
    AllAccounted(action, artifacts, registry, gate, a, obs);
    BitsAndQuality(obs, backers, lenders, c);
    RepresentativeIs(obs, backers, lenders, c);
    hide Collects, Backs, Lends, Summarizes, Accounts, BackersOf, LendersOf, StrLeq, HasConflict;
  }

  /** The atoms of an action: its evidence requirements and required tests, none empty. */
  function Universe(action: ActionEvidence): set<string> {
    set a | a in action.evidence + action.requiredTests && a != ""
  }

  predicate InRange(x: EvidenceRecord) {
    0 <= x.quality <= SCORE_SCALE
  }

  ghost predicate IsBest(action: ActionEvidence, registry: Registry, gate: Option<GateEvidence>, a: string,
      x: EvidenceRecord) {
    Vouches(action, registry, gate, a, x) && forall y :: Vouches(action, registry, gate, a, y) ==>
      y.quality <= x.quality
  }

  ghost predicate SpeakersInRange(action: ActionEvidence, artifacts: Registry) {
    forall a, x :: a in Universe(action) && Speaks(action, artifacts, a, x) ==> InRange(x)
  }

  ghost predicate BestInRange(action: ActionEvidence, registry: Registry, gate: Option<GateEvidence>) {
    forall a, x :: a in Universe(action) && IsBest(action, registry, gate, a, x) ==> InRange(x)
  }

  ghost predicate PolaritiesKnown(action: ActionEvidence, artifacts: Registry) {
    forall key :: key in artifacts && Bound(artifacts[key], action) ==>
      artifacts[key].polarity in {"support", "counterexample", "conflict"}
  }

  /** What a projection has to meet: no more atoms than the cap; a known polarity for every
      bound artifact; and a score in range for every one that speaks about an atom, and for the
      best of those that vouch for one. */
  ghost predicate Acceptable(action: ActionEvidence, cap: int, artifacts: Registry, registry: Registry,
      gate: Option<GateEvidence>) {
    && |Universe(action)| <= cap && PolaritiesKnown(action, artifacts)
    && SpeakersInRange(action, artifacts) && BestInRange(action, registry, gate)
  }

  lemma PolaritiesExactlyWhen(action: ActionEvidence, artifacts: Registry, atoms: set<string>)
    ensures Accepted(artifacts.Keys, artifacts, action, atoms) <==>
      PolaritiesKnown(action, artifacts) && ScoresInRange(Direct(artifacts.Keys, artifacts, action, atoms))
  {
    hide Direct, ScoresInRange;
  }

  lemma DirectScores(action: ActionEvidence, artifacts: Registry)
    ensures ScoresInRange(Direct(artifacts.Keys, artifacts, action, ActionAtoms(action) - {""})) <==>
      SpeakersInRange(action, artifacts)
  {
    var atoms := ActionAtoms(action) - {""};
    var obs := Direct(artifacts.Keys, artifacts, action, atoms);
    assert atoms == Universe(action);
    hide ActionAtoms, Universe, Direct, Speaks;
    if ScoresInRange(obs) {
      forall a, x | a in Universe(action) && Speaks(action, artifacts, a, x) ensures InRange(x) {
        DirectAbout(action, artifacts, a, ObservationOf(a, x));
      }
    }
    if SpeakersInRange(action, artifacts) {
      forall o | o in obs ensures 0 <= o.quality <= SCORE_SCALE {
        DirectAtom(action, artifacts, atoms, o);
        DirectAbout(action, artifacts, o.atom, o);
        var x :| Speaks(action, artifacts, o.atom, x) && o == ObservationOf(o.atom, x);
      }
    }
  }

  lemma DirectAtom(action: ActionEvidence, artifacts: Registry, atoms: set<string>, o: Observation)
    requires o in Direct(artifacts.Keys, artifacts, action, atoms)
    ensures o.atom in atoms
  {
  }

  lemma GateScores(action: ActionEvidence, registry: Registry, gate: Option<GateEvidence>)
    ensures var atoms := ActionAtoms(action) - {""};
      ScoresInRange(FromGate(SatisfiedAtoms(gate, action, atoms), GateCandidates(gate, registry, action))) <==>
        BestInRange(action, registry, gate)
  {
    var atoms, cands := ActionAtoms(action) - {""}, GateCandidates(gate, registry, action);
    var obs := FromGate(SatisfiedAtoms(gate, action, atoms), cands);
    assert atoms == Universe(action);
    hide ActionAtoms, Universe, FromGate, SatisfiedAtoms, GateCandidates, GateObservation, Vouches;
    if ScoresInRange(obs) {
      forall a, x | a in Universe(action) && IsBest(action, registry, gate, a, x) ensures InRange(x) {
        BestIs(action, registry, gate, a);
        GateAbout(action, registry, gate, a, GateObservation(cands, a));
        GateObservationAtom(cands, a);
      }
    }
    if BestInRange(action, registry, gate) {
      forall o | o in obs ensures 0 <= o.quality <= SCORE_SCALE {
        GateAtom(gate, action, atoms, cands, o);
        GateAbout(action, registry, gate, o.atom, o);
        BestIs(action, registry, gate, o.atom);
        var x :| IsBest(action, registry, gate, o.atom, x) && x.quality == o.quality;
      }
    }
  }

  lemma GateAtom(gate: Option<GateEvidence>, action: ActionEvidence, atoms: set<string>, cands: seq<EvidenceRecord>,
      o: Observation)
    requires o in FromGate(SatisfiedAtoms(gate, action, atoms), cands)
    ensures o.atom in atoms
  {
  }

  lemma BestIs(action: ActionEvidence, registry: Registry, gate: Option<GateEvidence>, a: string)
    requires exists x :: Vouches(action, registry, gate, a, x)
    ensures var cands := GateCandidates(gate, registry, action);
      && cands != []
      && (exists x :: IsBest(action, registry, gate, a, x) && x.quality == GateObservation(cands, a).quality)
      && (forall x :: IsBest(action, registry, gate, a, x) ==> x.quality == GateObservation(cands, a).quality)
  {
    hide GateCandidates, GateObservation, Vouches;
    GateLends(action, map[], registry, gate, a);
    var o := GateObservation(GateCandidates(gate, registry, action), a);
    var x :| Vouches(action, registry, gate, a, x) && x.quality == o.quality;
    assert IsBest(action, registry, gate, a, x);
  }

  lemma AcceptableExactlyWhen(action: ActionEvidence, cap: int, artifacts: Registry, registry: Registry,
      gate: Option<GateEvidence>)
    ensures var atoms := ActionAtoms(action) - {""};
      Acceptable(action, cap, artifacts, registry, gate) <==>
        |atoms| <= cap && Accepted(artifacts.Keys, artifacts, action, atoms)
        && ScoresInRange(AllObservations(action, artifacts, registry, gate))
  {
    assert ActionAtoms(action) - {""} == Universe(action);
    AllScores(action, artifacts, registry, gate);
    DirectScores(action, artifacts);
    GateScores(action, registry, gate);
    PolaritiesExactlyWhen(action, artifacts, ActionAtoms(action) - {""});
    hide ActionAtoms, Universe, Direct, FromGate, SatisfiedAtoms, GateCandidates, ScoresInRange, AllObservations,
      PolaritiesKnown, SpeakersInRange, BestInRange, Accepted;
    DirectPart(action, artifacts, registry, gate);
  }

  lemma DirectPart(action: ActionEvidence, artifacts: Registry, registry: Registry, gate: Option<GateEvidence>)
    ensures ScoresInRange(AllObservations(action, artifacts, registry, gate)) ==>
      ScoresInRange(Direct(artifacts.Keys, artifacts, action, ActionAtoms(action) - {""}))
  {
    hide Direct, FromGate, SatisfiedAtoms, GateCandidates;
  }

  lemma AtomProjects(action: ActionEvidence, artifacts: Registry, registry: Registry, gate: Option<GateEvidence>,
      s: EvidenceState, a: string)
    requires JoinOf(EmptyState(ActionAtoms(action)), AllObservations(action, artifacts, registry, gate), s)
    requires ScoresInRange(AllObservations(action, artifacts, registry, gate)) && a in s.atoms
    ensures AtomIs(action, artifacts, registry, gate, a, CellOf(s, a))
  {
    AtomsAre(action, AllObservations(action, artifacts, registry, gate), s);
    EmptyIsCanonical(ActionAtoms(action));
    hide ActionAtoms, Canonical, AllObservations, EmptyState, Summarizes, AtomIs, Collects;
    EmptyCells(ActionAtoms(action), a);
    AllCollected(action, artifacts, registry, gate, a);
    var obs, c := About(AllObservations(action, artifacts, registry, gate), a), CellOf(s, a);
    hide JoinOf, CellOf;
    AtomMeans(action, artifacts, registry, gate, a, obs, c);
  }

  /** The join of all observations, seen as the artifacts behind them. */
  lemma JoinProjects(action: ActionEvidence, artifacts: Registry, registry: Registry, gate: Option<GateEvidence>,
      s: EvidenceState)
    requires JoinOf(EmptyState(ActionAtoms(action)), AllObservations(action, artifacts, registry, gate), s)
    requires ScoresInRange(AllObservations(action, artifacts, registry, gate))
    ensures Projects(action, artifacts, registry, gate, s)
  {
    AtomsAre(action, AllObservations(action, artifacts, registry, gate), s);
    AtomsProject(action, artifacts, registry, gate, s);
    hide ActionAtoms, AllObservations, EmptyState, EveryAtomIs, ScoresInRange, JoinOf, Canonical;
  }

  lemma AtomsProject(action: ActionEvidence, artifacts: Registry, registry: Registry, gate: Option<GateEvidence>,
      s: EvidenceState)
    requires JoinOf(EmptyState(ActionAtoms(action)), AllObservations(action, artifacts, registry, gate), s)
    requires ScoresInRange(AllObservations(action, artifacts, registry, gate)) && Aligned(s)
    ensures EveryAtomIs(action, artifacts, registry, gate, s)
  {
    hide ActionAtoms, AllObservations, EmptyState, AtomIs, CellOf, ScoresInRange, JoinOf;
    forall a | a in s.atoms ensures AtomIs(action, artifacts, registry, gate, a, CellOf(s, a)) {
      AtomProjects(action, artifacts, registry, gate, s, a);
    }
  }

  lemma AtomsAre(action: ActionEvidence, obs: set<Observation>, s: EvidenceState)
    requires JoinOf(EmptyState(ActionAtoms(action)), obs, s)
    ensures Canonical(s) && Aligned(s)
    ensures forall a :: a in s.atoms <==> a != "" && (a in action.evidence || a in action.requiredTests)
  {
    EmptyIsCanonical(ActionAtoms(action));
    assert forall a :: a in ActionAtoms(action) <==> a in action.evidence || a in action.requiredTests;
    hide ActionAtoms, EmptyState, Summarizes, CellOf, Sorted, ToSet;
  }
}
