/** The finite evidence state: its constructor, the update by one artifact, and what any
    sequence of updates amounts to. */
module Evidence {
  import opened Results
  import opened Ordering
  import opened Masks

  const SCORE_SCALE := 10000

  datatype EvidenceState = EvidenceState(atoms: seq<string>, present: int, conflict: int, quality: seq<int>,
      representatives: seq<string>)

  datatype EvidenceError =
    | ArraysMisaligned
    | AtomsInvalid
    | QualityOutOfRange
    | MaskNegative
    | MaskOutsideUniverse
    | UnknownAtom
    | ScoreOutOfRange
    | TooManyAtoms
    | InvalidPolarity

  function IndexOf(s: seq<string>, a: string): (i: nat)
    requires a in s
    ensures i < |s| && s[i] == a
  {
    if s[0] == a then 0 else 1 + IndexOf(s[1..], a)
  }

  function ToSet(s: seq<string>): set<string> {
    set a | a in s
  }

  // ----- the constructor -----

  predicate Aligned(s: EvidenceState) {
    |s.quality| == |s.atoms| && |s.representatives| == |s.atoms|
  }

  predicate AtomsAccepted(atoms: seq<string>) {
    "" !in atoms && |ToSet(atoms)| == |atoms|
  }

  predicate QualityInRange(quality: seq<int>) {
    forall i :: 0 <= i < |quality| ==> 0 <= quality[i] <= SCORE_SCALE
  }

  /** The position of every source atom in the sorted universe. */
  function Places(atoms: seq<string>): (r: seq<nat>)
    ensures |r| == |atoms|
  {
    seq(|atoms|, i requires 0 <= i < |atoms| => PlaceOf(atoms, i))
  }

  function PlaceOf(atoms: seq<string>, i: nat): nat
    requires i < |atoms|
  {
    assert atoms[i] in ToSet(atoms);
    IndexOf(Sorted(ToSet(atoms)), atoms[i])
  }

  /** The source position of the j-th atom of the sorted universe. */
  function SourceOf(atoms: seq<string>, j: nat): (i: nat)
    requires j < |Sorted(ToSet(atoms))|
    ensures i < |atoms| && atoms[i] == Sorted(ToSet(atoms))[j]
  {
    assert Sorted(ToSet(atoms))[j] in ToSet(Sorted(ToSet(atoms)));
    IndexOf(atoms, Sorted(ToSet(atoms))[j])
  }

  /** Atoms sorted, with the arrays and the bits of the masks moved along. */
  function Rearranged(s: EvidenceState): EvidenceState
    requires Aligned(s) && AtomsAccepted(s.atoms)
  {
    var sorted := Sorted(ToSet(s.atoms));
    EvidenceState(
      sorted,
      Gather(s.present, Places(s.atoms), |s.atoms|),
      Gather(s.conflict, Places(s.atoms), |s.atoms|),
      seq(|sorted|, j requires 0 <= j < |sorted| => s.quality[SourceOf(s.atoms, j)]),
      seq(|sorted|, j requires 0 <= j < |sorted| => s.representatives[SourceOf(s.atoms, j)]))
  }

  /** `FiniteEvidenceState.__post_init__`. The masks are checked after they were summed
      again, as the code does it. */
  function Construct(s: EvidenceState): (r: Result<EvidenceState, EvidenceError>)
    ensures r.Ok? ==> Aligned(r.value)
  {
    if !Aligned(s) then Err(ArraysMisaligned)
    else if !AtomsAccepted(s.atoms) then Err(AtomsInvalid)
    else
      var r := Rearranged(s);
      if !QualityInRange(r.quality) then Err(QualityOutOfRange)
      else if r.present < 0 || r.conflict < 0 then Err(MaskNegative)
      else if r.present >= Pow2(|r.atoms|) || r.conflict >= Pow2(|r.atoms|) then Err(MaskOutsideUniverse)
      else Ok(r)
  }

  // ----- the state as a cell for every atom -----

  datatype Cell = Cell(present: bool, conflict: bool, quality: int, representative: string)

  ghost function CellOf(s: EvidenceState, a: string): Cell
    requires Aligned(s) && a in s.atoms
  {
    var i := IndexOf(s.atoms, a);
    Cell(Bit(s.present, i), Bit(s.conflict, i), s.quality[i], s.representatives[i])
  }

  /** What the constructor returns. */
  ghost predicate Canonical(s: EvidenceState) {
    && Aligned(s) && AtomsAccepted(s.atoms) && s.atoms == Sorted(ToSet(s.atoms)) && QualityInRange(s.quality)
    && 0 <= s.present < Pow2(|s.atoms|) && 0 <= s.conflict < Pow2(|s.atoms|)
  }

  lemma {:induction false} IndexOfAt(s: seq<string>, i: nat)
    requires Distinct(s) && i < |s|
    ensures IndexOf(s, s[i]) == i
  {
    var k := IndexOf(s, s[i]);
    assert !(k < i) && !(i < k);
  }

  lemma AcceptedDistinct(atoms: seq<string>)
    ensures |ToSet(atoms)| == |atoms| <==> Distinct(atoms)
  {
    DistinctBySize(atoms);
    assert ToSet(atoms) == set x | x in atoms;
  }

  /** The places are a permutation. */
  lemma PlacesPermute(atoms: seq<string>)
    requires AtomsAccepted(atoms)
    ensures |Sorted(ToSet(atoms))| == |atoms|
    ensures forall a, b :: 0 <= a < b < |atoms| ==> Places(atoms)[a] != Places(atoms)[b]
    ensures forall i :: 0 <= i < |atoms| ==> Places(atoms)[i] < |atoms|
  {
    AcceptedDistinct(atoms);
    forall a, b | 0 <= a < b < |atoms| ensures Places(atoms)[a] != Places(atoms)[b] {
      assert atoms[a] != atoms[b];
    }
  }

  lemma GatherInside(mask: int, atoms: seq<string>)
    requires AtomsAccepted(atoms)
    ensures Gather(mask, Places(atoms), |atoms|) < Pow2(|atoms|)
  {
    hide Places;
    PlacesPermute(atoms);
    var sum := Gather(mask, Places(atoms), |atoms|);
    forall j: nat | |atoms| <= j ensures !Bit(sum, j) {
      GatherBits(mask, Places(atoms), |atoms|, j);
    }
    NoBitsBelow(sum, |atoms|);
  }

  /** The bit of an atom moves with it. */
  lemma BitMoves(mask: int, atoms: seq<string>, i: nat)
    requires AtomsAccepted(atoms) && i < |atoms|
    ensures Bit(Gather(mask, Places(atoms), |atoms|), PlaceOf(atoms, i)) <==> Bit(mask, i)
  {
    hide PlaceOf, Sorted;
    PlacesPermute(atoms);
    GatherBits(mask, Places(atoms), |atoms|, PlaceOf(atoms, i));
    assert Places(atoms)[i] == PlaceOf(atoms, i);
    forall k | 0 <= k < |atoms| && Places(atoms)[k] == Places(atoms)[i] ensures k == i {
      assert !(k < i) && !(i < k);
    }
  }

  /** Sorting the atoms keeps what is known about each of them: both bits, the quality and
      the representative. */
  lemma RearrangedKeepsCells(s: EvidenceState, a: string)
    requires Aligned(s) && AtomsAccepted(s.atoms) && a in s.atoms
    ensures Aligned(Rearranged(s)) && a in Rearranged(s).atoms
    ensures CellOf(Rearranged(s), a) == CellOf(s, a)
  {
    hide Sorted, Gather;
    AcceptedDistinct(s.atoms);
    PlacesPermute(s.atoms);
    var i := IndexOf(s.atoms, a);
    var j := PlaceOf(s.atoms, i);
    BitMoves(s.present, s.atoms, i);
    BitMoves(s.conflict, s.atoms, i);
    IndexOfAt(s.atoms, SourceOf(s.atoms, j));
  }

  /** The constructor rejects exactly misaligned arrays, bad universes and qualities out of
      range. The masks play no part: a negative mask, or one with bits outside the universe,
      is never rejected, since only the bits of the universe were summed. */
  lemma ConstructsExactlyWhen(s: EvidenceState)
    ensures Construct(s).Ok? <==> Aligned(s) && AtomsAccepted(s.atoms) && QualityInRange(s.quality)
    ensures Construct(s).Err? ==> Construct(s).error !in {MaskNegative, MaskOutsideUniverse}
    ensures Construct(s).Ok? ==> Construct(s).value == Rearranged(s)
  {
    if Aligned(s) && AtomsAccepted(s.atoms) {
      hide Sorted, Gather, Pow2;
      GatherInside(s.present, s.atoms);
      GatherInside(s.conflict, s.atoms);
      PlacesPermute(s.atoms);
      SameQualities(s);
    }
  }

  lemma SameQualities(s: EvidenceState)
    requires Aligned(s) && AtomsAccepted(s.atoms)
    ensures QualityInRange(Rearranged(s).quality) <==> QualityInRange(s.quality)
  {
    hide Sorted, Gather;
    AcceptedDistinct(s.atoms);
    PlacesPermute(s.atoms);
    var r := Rearranged(s);
    forall i | 0 <= i < |s.atoms| ensures r.quality[PlaceOf(s.atoms, i)] == s.quality[i] {
      IndexOfAt(s.atoms, i);
    }
  }

  /** What is constructed is canonical. */
  lemma ConstructedIsCanonical(s: EvidenceState)
    requires Construct(s).Ok?
    ensures Canonical(Construct(s).value)
    ensures ToSet(Construct(s).value.atoms) == ToSet(s.atoms)
  {
    hide Gather, Pow2;
    ConstructsExactlyWhen(s);
    var sorted := Sorted(ToSet(s.atoms));
    PlacesPermute(s.atoms);
    assert ToSet(sorted) == ToSet(s.atoms);
    assert "" !in sorted by { assert "" in sorted ==> "" in ToSet(sorted); }
  }

  /** Canonical states over the same atoms with the same cells are equal. */
  lemma CanonicalByCells(s: EvidenceState, t: EvidenceState)
    requires Canonical(s) && Canonical(t) && s.atoms == t.atoms
    requires forall a :: a in s.atoms ==> CellOf(s, a) == CellOf(t, a)
    ensures s == t
  {
    hide Sorted;
    AcceptedDistinct(s.atoms);
    forall i | 0 <= i < |s.atoms|
      ensures Bit(s.present, i) == Bit(t.present, i) && Bit(s.conflict, i) == Bit(t.conflict, i)
      ensures s.quality[i] == t.quality[i] && s.representatives[i] == t.representatives[i]
    {
      IndexOfAt(s.atoms, i);
      assert CellOf(s, s.atoms[i]) == CellOf(t, s.atoms[i]);
    }
    MasksEqual(s.present, t.present, |s.atoms|);
    MasksEqual(s.conflict, t.conflict, |s.atoms|);
  }

  lemma MasksEqual(a: nat, b: nat, n: nat)
    requires a < Pow2(n) && b < Pow2(n)
    requires forall i: nat :: i < n ==> (Bit(a, i) <==> Bit(b, i))
    ensures a == b
  {
    forall i: nat ensures Bit(a, i) <==> Bit(b, i) {
      if n <= i {
        BelowPower(a, n, i);
        BelowPower(b, n, i);
      }
    }
    BitsDetermine(a, b);
  }

  /** Constructing again changes nothing. */
  lemma ConstructIdempotent(s: EvidenceState)
    requires Canonical(s)
    ensures Construct(s) == Ok(s)
  {
    hide Sorted, Gather, Pow2;
    ConstructsExactlyWhen(s);
    ConstructedIsCanonical(s);
    forall a | a in s.atoms ensures CellOf(Rearranged(s), a) == CellOf(s, a) {
      RearrangedKeepsCells(s, a);
    }
    CanonicalByCells(Rearranged(s), s);
  }
}
