/** `update_evidence` and `evidence_mass`: each update joins one artifact into the cell of its
    atom, so that a sequence of updates amounts to the set of artifacts it mentions. */
module EvidenceUpdates {
  import opened Results
  import opened Ordering
  import opened Masks
  import opened Evidence

  datatype Observation = Observation(atom: string, artifactId: string, quality: int, conflict: bool)

  const EMPTY_CELL := Cell(false, false, 0, "")

  /** `empty_evidence_state` over a set of atoms. */
  function EmptyState(atoms: set<string>): EvidenceState {
    var sorted := Sorted(atoms - {""});
    EvidenceState(sorted, 0, 0, seq(|sorted|, _ => 0), seq(|sorted|, _ => ""))
  }

  predicate Before(a: string, b: string) {
    StrLeq(a, b) && a != b
  }

  /** What `update_evidence` hands to the constructor. */
  function Updated(s: EvidenceState, o: Observation): (r: EvidenceState)
    requires Aligned(s) && o.atom in s.atoms
    ensures Aligned(r) && r.atoms == s.atoms
  {
    var i := IndexOf(s.atoms, o.atom);
    var better := o.quality > s.quality[i];
    var tie := o.quality == s.quality[i] && o.artifactId != ""
      && (s.representatives[i] == "" || Before(o.artifactId, s.representatives[i]));
    EvidenceState(s.atoms, SetBit(s.present, i), if o.conflict then SetBit(s.conflict, i) else s.conflict,
                  if better then s.quality[i := o.quality] else s.quality,
                  if better || tie then s.representatives[i := o.artifactId] else s.representatives)
  }

  /** `update_evidence` */
  function UpdateEvidence(s: EvidenceState, o: Observation): (r: Result<EvidenceState, EvidenceError>)
    requires Aligned(s)
    ensures r.Ok? ==> Aligned(r.value)
  {
    if o.atom !in s.atoms then Err(UnknownAtom)
    else if !(0 <= o.quality <= SCORE_SCALE) then Err(ScoreOutOfRange)
    else Construct(Updated(s, o))
  }

  function Fold(s: EvidenceState, obs: seq<Observation>): (r: Result<EvidenceState, EvidenceError>)
    requires Aligned(s)
    ensures r.Ok? ==> Aligned(r.value)
  {
    if obs == [] then Ok(s)
    else
      var before := Fold(s, obs[..|obs| - 1]);
      if before.Err? then before else UpdateEvidence(before.value, obs[|obs| - 1])
  }

  predicate Admissible(o: Observation, atoms: seq<string>) {
    o.atom in atoms && 0 <= o.quality <= SCORE_SCALE
  }

  // ----- one update is a join -----

  /** Present and conflict only turn on; the quality is the larger one; the representative is
      that of the larger quality, and on a tie the earlier non-empty one. */
  function Join(c: Cell, o: Observation): Cell {
    Cell(true, c.conflict || o.conflict,
         if o.quality > c.quality then o.quality else c.quality,
         if o.quality > c.quality then o.artifactId
         else if o.quality == c.quality && o.artifactId != ""
           && (c.representative == "" || Before(o.artifactId, c.representative)) then o.artifactId
         else c.representative)
  }

  lemma SetBitInside(m: nat, i: nat, n: nat)
    requires i < n && m < Pow2(n)
    ensures 0 <= SetBit(m, i) < Pow2(n)
  {
    hide Bit, Pow2;
    forall j: nat | n <= j ensures !Bit(SetBit(m, i), j) {
      SetBitSets(m, i, j);
      BelowPower(m, n, j);
    }
    NoBitsBelow(SetBit(m, i), n);
  }

  lemma EmptyIsCanonical(atoms: set<string>)
    ensures Canonical(EmptyState(atoms))
    ensures forall a :: a in EmptyState(atoms).atoms <==> a in atoms && a != ""
  {
    hide Pow2, Least;
    var sorted := Sorted(atoms - {""});
    assert ToSet(sorted) == atoms - {""} == set x | x in sorted;
    assert forall a :: a in sorted <==> a in ToSet(sorted);
  }

  lemma EmptyCells(atoms: set<string>, a: string)
    requires a in EmptyState(atoms).atoms
    ensures CellOf(EmptyState(atoms), a) == EMPTY_CELL
  {
    hide Sorted;
    BelowPower(0, 0, IndexOf(EmptyState(atoms).atoms, a));
  }

  lemma UpdatedIsCanonical(s: EvidenceState, o: Observation)
    requires Canonical(s) && Admissible(o, s.atoms)
    ensures Canonical(Updated(s, o))
  {
    hide Sorted, SetBit, Pow2;
    var i := IndexOf(s.atoms, o.atom);
    SetBitInside(s.present, i, |s.atoms|);
    SetBitInside(s.conflict, i, |s.atoms|);
  }

  lemma UpdatedCell(s: EvidenceState, o: Observation, a: string)
    requires Canonical(s) && Admissible(o, s.atoms) && a in s.atoms
    ensures CellOf(Updated(s, o), a) == if a == o.atom then Join(CellOf(s, a), o) else CellOf(s, a)
  {
    hide Sorted, SetBit, Pow2, Before;
    var i, j := IndexOf(s.atoms, o.atom), IndexOf(s.atoms, a);
    SetBitSets(s.present, i, j);
    SetBitSets(s.conflict, i, j);
  }

  /** An admissible update is accepted, keeps the universe and every other cell, and joins
      the artifact into the cell of its atom; an inadmissible one is refused. */
  lemma UpdateJoins(s: EvidenceState, o: Observation)
    requires Canonical(s)
    ensures UpdateEvidence(s, o).Ok? <==> Admissible(o, s.atoms)
    ensures UpdateEvidence(s, o).Ok? ==>
      var r := UpdateEvidence(s, o).value;
      && Canonical(r) && r.atoms == s.atoms
      && forall a :: a in s.atoms ==> CellOf(r, a) == if a == o.atom then Join(CellOf(s, a), o) else CellOf(s, a)
  {
    hide Updated, AtomsAccepted, Sorted, QualityInRange, Pow2, Construct, Join;
    if Admissible(o, s.atoms) {
      UpdatedIsCanonical(s, o);
      ConstructIdempotent(Updated(s, o));
      forall a | a in s.atoms
        ensures CellOf(Updated(s, o), a) == if a == o.atom then Join(CellOf(s, a), o) else CellOf(s, a)
      {
        UpdatedCell(s, o, a);
      }
    }
  }

  // ----- what a set of observations amounts to -----

  /** The non-empty identifiers among those that reach a quality. */
  ghost function Names(base: Cell, obs: set<Observation>, quality: int): set<string> {
    (set o | o in obs && o.quality == quality && o.artifactId != "" :: o.artifactId)
    + (if base.quality == quality && base.representative != "" then {base.representative} else {})
  }

  /** r is the base cell with all of the observations: or of the bits, the maximal quality,
      and the least non-empty identifier that reaches it. */
  ghost predicate Summarizes(base: Cell, obs: set<Observation>, r: Cell) {
    && (r.present <==> base.present || obs != {})
    && (r.conflict <==> base.conflict || exists o :: o in obs && o.conflict)
    && base.quality <= r.quality && (forall o :: o in obs ==> o.quality <= r.quality)
    && (r.quality == base.quality || exists o :: o in obs && o.quality == r.quality)
    && r.representative == (var names := Names(base, obs, r.quality); if names == {} then "" else Least(names))
  }

  lemma SummarizesNothing(base: Cell)
    ensures Summarizes(base, {}, base)
  {
    assert Names(base, {}, base.quality) == if base.representative != "" then {base.representative} else {};
  }

  lemma LeastIs(s: set<string>, x: string)
    requires x in s && forall y :: y in s ==> StrLeq(x, y)
    ensures Least(s) == x
  {
    StrLeqTotal(x, Least(s));
  }

  lemma JoinNames(base: Cell, obs: set<Observation>, c: Cell, o: Observation)
    requires Summarizes(base, obs, c)
    ensures Names(base, obs + {o}, Join(c, o).quality) ==
      (if o.quality > c.quality then {} else Names(base, obs, c.quality))
      + (if o.quality >= c.quality && o.artifactId != "" then {o.artifactId} else {})
  {
    hide Least;
  }

  lemma RepresentativeOf(base: Cell, obs: set<Observation>, c: Cell)
    requires Summarizes(base, obs, c)
    ensures Names(base, obs, c.quality) == {} ==> c.representative == ""
    ensures Names(base, obs, c.quality) != {} ==>
      c.representative == Least(Names(base, obs, c.quality)) && c.representative != ""
  {
  }

  lemma JoinRepresentative(base: Cell, obs: set<Observation>, c: Cell, o: Observation)
    requires Summarizes(base, obs, c)
    ensures var names := Names(base, obs + {o}, Join(c, o).quality);
      Join(c, o).representative == if names == {} then "" else Least(names)
  {
    JoinNames(base, obs, c, o);
    RepresentativeOf(base, obs, c);
    hide Names, Summarizes, StrLeq;
    var names := Names(base, obs + {o}, Join(c, o).quality);
    var x := Join(c, o).representative;
    if names != {} {
      StrLeqTotal(o.artifactId, o.artifactId);
      forall y | y in names ensures x in names && StrLeq(x, y) {
        StrLeqTotal(o.artifactId, c.representative);
        if StrLeq(o.artifactId, c.representative) && StrLeq(c.representative, y) {
          StrLeqTransitive(o.artifactId, c.representative, y);
        }
      }
      LeastIs(names, x);
    }
  }

  /** One more observation is one more join. */
  lemma JoinSummarizes(base: Cell, obs: set<Observation>, c: Cell, o: Observation)
    requires Summarizes(base, obs, c)
    ensures Summarizes(base, obs + {o}, Join(c, o))
  {
    JoinRepresentative(base, obs, c, o);
    hide Names, Least, Before;
    var r := Join(c, o);
    assert o in obs + {o};
    assert r.conflict <==> base.conflict || exists x :: x in obs + {o} && x.conflict;
    assert r.quality == base.quality || exists x :: x in obs + {o} && x.quality == r.quality;
  }

  /** The observations alone determine the cell. */
  lemma SummaryUnique(base: Cell, obs: set<Observation>, c: Cell, d: Cell)
    requires Summarizes(base, obs, c) && Summarizes(base, obs, d)
    ensures c == d
  {
    hide Names, Least;
    assert c.quality == d.quality;
  }

  function About(obs: set<Observation>, atom: string): set<Observation> {
    set o | o in obs && o.atom == atom
  }

  function SetOf(obs: seq<Observation>): set<Observation> {
    set o | o in obs
  }

  ghost predicate AllAdmissible(obs: seq<Observation>, atoms: seq<string>) {
    forall o :: o in obs ==> Admissible(o, atoms)
  }

  /** t is s with the observations joined into it. */
  ghost predicate JoinOf(s: EvidenceState, obs: set<Observation>, t: EvidenceState) {
    && Canonical(s) && Canonical(t) && t.atoms == s.atoms
    && forall a :: a in s.atoms ==> Summarizes(CellOf(s, a), About(obs, a), CellOf(t, a))
  }

  /** A sequence of updates is accepted exactly when every one is admissible, and then every
      cell is summarized by the observations about its atom. */
  lemma {:induction false} FoldJoins(s: EvidenceState, obs: seq<Observation>)
    requires Canonical(s)
    ensures Fold(s, obs).Ok? <==> AllAdmissible(obs, s.atoms)
    ensures Fold(s, obs).Ok? ==> JoinOf(s, SetOf(obs), Fold(s, obs).value)
  {
    hide AtomsAccepted, Sorted, QualityInRange, Pow2, UpdateEvidence, Summarizes, Join, Admissible;
    if obs == [] {
      forall a | a in s.atoms ensures Summarizes(CellOf(s, a), About(SetOf(obs), a), CellOf(s, a)) {
        assert About(SetOf(obs), a) == {};
        SummarizesNothing(CellOf(s, a));
      }
    } else {
      var init, last := obs[..|obs| - 1], obs[|obs| - 1];
      assert obs == init + [last];
      FoldJoins(s, init);
      if Fold(s, init).Ok? {
        var mid := Fold(s, init).value;
        UpdateJoins(mid, last);
        if Fold(s, obs).Ok? {
          var r := Fold(s, obs).value;
          forall a | a in s.atoms ensures Summarizes(CellOf(s, a), About(SetOf(obs), a), CellOf(r, a)) {
            if a == last.atom {
              assert About(SetOf(obs), a) == About(SetOf(init), a) + {last};
              JoinSummarizes(CellOf(s, a), About(SetOf(init), a), CellOf(mid, a), last);
            } else {
              assert About(SetOf(obs), a) == About(SetOf(init), a);
            }
          }
        }
      }
    }
  }

  lemma JoinUnique(s: EvidenceState, obs: set<Observation>, t: EvidenceState, u: EvidenceState)
    requires JoinOf(s, obs, t) && JoinOf(s, obs, u)
    ensures t == u
  {
    hide AtomsAccepted, Sorted, QualityInRange, Pow2, Summarizes;
    forall a | a in s.atoms ensures CellOf(t, a) == CellOf(u, a) {
      SummaryUnique(CellOf(s, a), About(obs, a), CellOf(t, a), CellOf(u, a));
    }
    CanonicalByCells(t, u);
  }

  /** Order and repetition do not matter: two sequences with the same observations are both
      accepted, with the same result, or both refused. */
  lemma OrderDoesNotMatter(s: EvidenceState, a: seq<Observation>, b: seq<Observation>)
    requires Canonical(s) && SetOf(a) == SetOf(b)
    ensures Fold(s, a).Ok? <==> Fold(s, b).Ok?
    ensures Fold(s, a).Ok? ==> Fold(s, a) == Fold(s, b)
  {
    hide AtomsAccepted, Sorted, QualityInRange, Pow2, JoinOf, Admissible;
    FoldJoins(s, a);
    FoldJoins(s, b);
    assert forall o :: (o in a <==> o in SetOf(a)) && (o in b <==> o in SetOf(b));
    if Fold(s, a).Ok? {
      JoinUnique(s, SetOf(a), Fold(s, a).value, Fold(s, b).value);
    }
  }

  // ----- mass -----

  function MassUpTo(s: EvidenceState, n: nat): int
    requires Aligned(s) && n <= |s.atoms|
  {
    if n == 0 then 0 else MassUpTo(s, n - 1) + (if Bit(s.present, n - 1) then s.quality[n - 1] else 0)
  }

  /** `evidence_mass` */
  function EvidenceMass(s: EvidenceState): int
    requires Aligned(s)
  {
    MassUpTo(s, |s.atoms|)
  }

  ghost function Weight(c: Cell): int {
    if c.present then c.quality else 0
  }

  lemma {:induction false} MassGain(s: EvidenceState, t: EvidenceState, a: string, n: nat)
    requires Canonical(s) && Canonical(t) && t.atoms == s.atoms && a in s.atoms && n <= |s.atoms|
    requires forall b :: b in s.atoms && b != a ==> CellOf(t, b) == CellOf(s, b)
    ensures MassUpTo(t, n) - MassUpTo(s, n) == if IndexOf(s.atoms, a) < n
      then Weight(CellOf(t, a)) - Weight(CellOf(s, a)) else 0
  {
    hide Bit, AtomsAccepted, Sorted, QualityInRange, Pow2;
    if n > 0 {
      MassGain(s, t, a, n - 1);
      CanonicalDistinct(s);
      IndexOfAt(s.atoms, n - 1);
      var b := s.atoms[n - 1];
      assert b != a ==> CellOf(t, b) == CellOf(s, b);
    }
  }

  lemma CanonicalDistinct(s: EvidenceState)
    requires Canonical(s)
    ensures Distinct(s.atoms) && Aligned(s)
  {
    AcceptedDistinct(s.atoms);
  }

  lemma {:induction false} NoMass(s: EvidenceState, n: nat)
    requires Aligned(s) && n <= |s.atoms| && s.present == 0
    ensures MassUpTo(s, n) == 0
  {
    if n > 0 {
      NoMass(s, n - 1);
      BelowPower(0, 0, n - 1);
    }
  }

  lemma EmptyHasNoMass(atoms: set<string>)
    ensures EvidenceMass(EmptyState(atoms)) == 0
  {
    hide Sorted;
    NoMass(EmptyState(atoms), |EmptyState(atoms).atoms|);
  }

  /** The mass never falls: one update raises it by exactly what the cell gains. */
  lemma MassNeverFalls(s: EvidenceState, o: Observation)
    requires Canonical(s) && UpdateEvidence(s, o).Ok?
    ensures var r := UpdateEvidence(s, o).value;
      && o.atom in s.atoms
      && EvidenceMass(r) - EvidenceMass(s) == Weight(Join(CellOf(s, o.atom), o)) - Weight(CellOf(s, o.atom)) >= 0
  {
    hide UpdateEvidence, MassUpTo;
    UpdateJoins(s, o);
    var r := UpdateEvidence(s, o).value;
    MassGain(s, r, o.atom, |s.atoms|);
    assert s.quality[IndexOf(s.atoms, o.atom)] >= 0;
  }
}
