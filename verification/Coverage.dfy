/** Line coverage of a document: `_canonical_ranges`, `_uncovered_ranges`,
    `DocumentReadCoverage` and `merge_coverage`. */
module Coverage {
  import opened Results
  import opened Ordering

  type LineRange = (int, int)

  /** A line lies in one of the ranges. */
  ghost predicate Covers(ranges: seq<LineRange>, line: int) {
    exists k :: 0 <= k < |ranges| && ranges[k].0 <= line <= ranges[k].1
  }

  /** Non-empty ranges within 1..n, in order, with a gap between any two. */
  ghost predicate Canonical(ranges: seq<LineRange>, n: int) {
    && (forall k :: 0 <= k < |ranges| ==> 1 <= ranges[k].0 <= ranges[k].1 <= n)
    && forall i, j :: 0 <= i < j < |ranges| ==> ranges[i].1 + 1 < ranges[j].0
  }

  // ----- sorting pairs -----

  predicate PairLeq(a: LineRange, b: LineRange) {
    a.0 < b.0 || (a.0 == b.0 && a.1 <= b.1)
  }

  function InsertRange(x: LineRange, s: seq<LineRange>): seq<LineRange> {
    if s == [] then [x] else if PairLeq(x, s[0]) then [x] + s else [s[0]] + InsertRange(x, s[1..])
  }

  /** Python's `sorted` on a list of pairs. */
  function SortedRanges(s: seq<LineRange>): seq<LineRange> {
    if s == [] then [] else InsertRange(s[0], SortedRanges(s[1..]))
  }

  ghost predicate ByStart(s: seq<LineRange>) {
    forall i, j :: 0 <= i < j < |s| ==> s[i].0 <= s[j].0
  }

  lemma {:induction false} InsertRangeMembers(x: LineRange, s: seq<LineRange>, y: LineRange)
    ensures y in InsertRange(x, s) <==> y == x || y in s
  {
    if s != [] && !PairLeq(x, s[0]) {
      InsertRangeMembers(x, s[1..], y);
    }
  }

  lemma {:induction false} InsertRangeByStart(x: LineRange, s: seq<LineRange>)
    requires ByStart(s)
    ensures ByStart(InsertRange(x, s))
  {
    if s != [] && !PairLeq(x, s[0]) {
      InsertRangeByStart(x, s[1..]);
      var rest := InsertRange(x, s[1..]);
      forall j | 0 <= j < |rest| ensures s[0].0 <= rest[j].0 {
        InsertRangeMembers(x, s[1..], rest[j]);
        if rest[j] in s[1..] {
          var k :| 0 <= k < |s[1..]| && s[1..][k] == rest[j];
          assert s[k + 1] == rest[j];
        }
      }
    }
  }

  lemma {:induction false} SortedRangesSound(s: seq<LineRange>)
    ensures ByStart(SortedRanges(s))
    ensures forall x :: x in SortedRanges(s) <==> x in s
  {
    if s != [] {
      SortedRangesSound(s[1..]);
      InsertRangeByStart(s[0], SortedRanges(s[1..]));
      forall x ensures x in SortedRanges(s) <==> x in s { InsertRangeMembers(s[0], SortedRanges(s[1..]), x); }
    }
  }

  // ----- the two loops -----

  /** The generator inside `sorted`: ranges that touch 1..n, clipped to it. */
  function Bounded(ranges: seq<LineRange>, n: int): seq<LineRange> {
    if ranges == [] then []
    else
      var first, rest := ranges[0], Bounded(ranges[1..], n);
      if n > 0 && first.1 >= 1 && first.0 <= n
      then [(if first.0 < 1 then 1 else first.0, if first.1 < n then first.1 else n)] + rest
      else rest
  }

  lemma {:induction false} BoundedCovers(ranges: seq<LineRange>, n: int, line: int)
    ensures Covers(Bounded(ranges, n), line) <==> 1 <= line <= n && Covers(ranges, line)
  {
    if ranges != [] {
      BoundedCovers(ranges[1..], n, line);
      CoversSplit(ranges[..1], ranges[1..], line);
      assert ranges == ranges[..1] + ranges[1..];
      var bounded := Bounded(ranges[..1], n);
      assert ranges[..1][1..] == [] && Bounded(ranges[..1][1..], n) == [];
      assert Bounded(ranges, n) == bounded + Bounded(ranges[1..], n);
      CoversSplit(bounded, Bounded(ranges[1..], n), line);
      if |bounded| == 1 { CoversOne(bounded[0], line); }
      CoversOne(ranges[0], line);
      assert ranges[..1] == [ranges[0]];
    }
  }

  lemma CoversSplit(a: seq<LineRange>, b: seq<LineRange>, line: int)
    ensures Covers(a + b, line) <==> Covers(a, line) || Covers(b, line)
  {
    if Covers(a, line) {
      var k :| 0 <= k < |a| && a[k].0 <= line <= a[k].1;
      assert (a + b)[k] == a[k];
    } else if Covers(b, line) {
      var k :| 0 <= k < |b| && b[k].0 <= line <= b[k].1;
      assert (a + b)[|a| + k] == b[k];
    }
  }

  lemma CoversOne(r: LineRange, line: int)
    ensures Covers([r], line) <==> r.0 <= line <= r.1
  {
    assert [r][0] == r;
  }

  lemma {:induction false} BoundedInside(ranges: seq<LineRange>, n: int)
    ensures forall r :: r in Bounded(ranges, n) ==> 1 <= r.0 && r.1 <= n
  {
    if ranges != [] { BoundedInside(ranges[1..], n); }
  }

  lemma CoversMembers(a: seq<LineRange>, b: seq<LineRange>, line: int)
    requires forall x :: x in a <==> x in b
    ensures Covers(a, line) <==> Covers(b, line)
  {
    if Covers(a, line) {
      var k :| 0 <= k < |a| && a[k].0 <= line <= a[k].1;
      assert a[k] in b;
    }
    if Covers(b, line) {
      var k :| 0 <= k < |b| && b[k].0 <= line <= b[k].1;
      assert b[k] in a;
    }
  }

  /** Merging one more range, in order of the starts, into canonical ranges. */
  function MergeNext(merged: seq<LineRange>, r: LineRange): seq<LineRange> {
    if r.0 > r.1 then merged
    else if merged == [] || r.0 > merged[|merged| - 1].1 + 1 then merged + [r]
    else merged[|merged| - 1 := (merged[|merged| - 1].0, if r.1 > merged[|merged| - 1].1
      then r.1 else merged[|merged| - 1].1)]
  }

  lemma MergeNextSound(merged: seq<LineRange>, r: LineRange, n: int)
    requires Canonical(merged, n) && 1 <= r.0 && r.1 <= n
    requires merged != [] ==> merged[|merged| - 1].0 <= r.0
    ensures Canonical(MergeNext(merged, r), n)
    ensures MergeNext(merged, r) != [] ==> MergeNext(merged, r)[|MergeNext(merged, r)| - 1].0 <= r.0
  {
  }

  lemma MergeNextCovers(merged: seq<LineRange>, r: LineRange, line: int)
    requires merged != [] ==> merged[|merged| - 1].0 <= r.0 && merged[|merged| - 1].0 <= merged[|merged| - 1].1
    ensures Covers(MergeNext(merged, r), line) <==> Covers(merged, line) || r.0 <= line <= r.1
  {
    CoversOne(r, line);
    if merged != [] {
      var init, last := merged[..|merged| - 1], merged[|merged| - 1];
      assert merged == init + [last];
      CoversSplit(init, [last], line);
      CoversOne(last, line);
      if r.0 <= r.1 && r.0 <= last.1 + 1 {
        var longer := (last.0, if r.1 > last.1 then r.1 else last.1);
        assert MergeNext(merged, r) == init + [longer];
        CoversSplit(init, [longer], line);
        CoversOne(longer, line);
      } else {
        CoversSplit(merged, [r], line);
      }
    } else {
      assert merged + [r] == [r];
    }
  }

  /** `_canonical_ranges`: canonical, and covering exactly the lines of the ranges that lie
      within 1..n. */
  method CanonicalRanges(ranges: seq<LineRange>, n: int) returns (merged: seq<LineRange>)
    ensures Canonical(merged, n)
    ensures forall line :: Covers(merged, line) <==> 1 <= line <= n && Covers(ranges, line)
  {
    hide Covers, Bounded, SortedRanges;
    var bounded := SortedRanges(Bounded(ranges, n));
    SortedRangesSound(Bounded(ranges, n));
    BoundedInside(ranges, n);
    merged := [];
    for i := 0 to |bounded|
      invariant Canonical(merged, n)
      invariant merged != [] ==> i > 0 && merged[|merged| - 1].0 <= bounded[i - 1].0
      invariant forall line :: Covers(merged, line) <==> Covers(bounded[..i], line)
    {
      var start, end := bounded[i].0, bounded[i].1;
      assert bounded[i] in Bounded(ranges, n);
      MergeNextSound(merged, bounded[i], n);
      forall line ensures Covers(MergeNext(merged, bounded[i]), line) <==> Covers(bounded[..i + 1], line) {
        MergeNextCovers(merged, bounded[i], line);
        assert bounded[..i + 1] == bounded[..i] + [bounded[i]];
        CoversSplit(bounded[..i], [bounded[i]], line);
        CoversOne(bounded[i], line);
      }
      if start > end { continue; }
      if merged == [] || start > merged[|merged| - 1].1 + 1 {
        merged := merged + [(start, end)];
      } else {
        merged := merged[|merged| - 1 := (merged[|merged| - 1].0, if end > merged[|merged| - 1].1
          then end else merged[|merged| - 1].1)];
      }
    }
    forall line ensures Covers(merged, line) <==> 1 <= line <= n && Covers(ranges, line) {
      assert bounded[..|bounded|] == bounded;
      CoversMembers(bounded, Bounded(ranges, n), line);
      BoundedCovers(ranges, n, line);
    }
  }

  /** What the cursor has passed: the gaps so far are canonical, end before the cursor, and
      are exactly the lines before it that no range covers. */
  ghost predicate GapsBelow(uncovered: seq<LineRange>, covered: seq<LineRange>, cursor: int, n: int) {
    && 1 <= cursor <= n + 1
    && Canonical(uncovered, n)
    && (uncovered != [] ==> uncovered[|uncovered| - 1].1 + 1 < cursor)
    && (forall line :: Covers(covered, line) ==> line < cursor)
    && forall line :: Covers(uncovered, line) <==> 1 <= line < cursor && !Covers(covered, line)
  }

  lemma GapNext(uncovered: seq<LineRange>, covered: seq<LineRange>, cursor: int, r: LineRange, n: int)
    requires GapsBelow(uncovered, covered, cursor, n) && 1 <= r.0 <= r.1 <= n && cursor <= r.0
    requires covered != [] ==> cursor < r.0
    ensures GapsBelow(if cursor < r.0 then uncovered + [(cursor, r.0 - 1)] else uncovered, covered + [r], r.1 + 1, n)
  {
    hide Covers;
    var next := if cursor < r.0 then uncovered + [(cursor, r.0 - 1)] else uncovered;
    assert Canonical(next, n);
    forall line
      ensures Covers(next, line) <==> 1 <= line < r.1 + 1 && !Covers(covered + [r], line)
      ensures Covers(covered + [r], line) ==> line < r.1 + 1
    {
      CoversSplit(covered, [r], line);
      CoversOne(r, line);
      CoversSplit(uncovered, [(cursor, r.0 - 1)], line);
      CoversOne((cursor, r.0 - 1), line);
    }
    assert next != [] ==> next[|next| - 1].1 + 1 < r.1 + 1;
  }

  /** `_uncovered_ranges`: the exact complement within 1..n, itself canonical. */
  method UncoveredRanges(covered: seq<LineRange>, n: int) returns (uncovered: seq<LineRange>)
    requires Canonical(covered, n)
    ensures Canonical(uncovered, n)
    ensures forall line :: Covers(uncovered, line) <==> 1 <= line <= n && !Covers(covered, line)
  {
    hide GapsBelow;
    uncovered := [];
    if n <= 0 { return; }
    var cursor := 1;
    NoGapsYet(n);
    for i := 0 to |covered|
      invariant GapsBelow(uncovered, covered[..i], cursor, n)
      invariant i > 0 ==> cursor == covered[i - 1].1 + 1
      invariant i == 0 ==> cursor == 1
    {
      var start, end := covered[i].0, covered[i].1;
      assert covered[..i + 1] == covered[..i] + [covered[i]];
      GapNext(uncovered, covered[..i], cursor, covered[i], n);
      if cursor < start {
        uncovered := uncovered + [(cursor, start - 1)];
      }
      cursor := end + 1;
    }
    assert covered[..|covered|] == covered;
    LastGap(uncovered, covered, cursor, n);
    if cursor <= n {
      uncovered := uncovered + [(cursor, n)];
    }
  }

  lemma NoGapsYet(n: int)
    requires n > 0
    ensures GapsBelow([], [], 1, n)
  {
  }

  lemma LastGap(uncovered: seq<LineRange>, covered: seq<LineRange>, cursor: int, n: int)
    requires GapsBelow(uncovered, covered, cursor, n)
    ensures var last := if cursor <= n then uncovered + [(cursor, n)] else uncovered;
      Canonical(last, n) && forall line :: Covers(last, line) <==> 1 <= line <= n && !Covers(covered, line)
  {
    hide Covers;
    forall line ensures Covers(uncovered + [(cursor, n)], line) <==> Covers(uncovered, line) || cursor <= line <= n {
      CoversSplit(uncovered, [(cursor, n)], line);
      CoversOne((cursor, n), line);
    }
  }

  // ----- one line set, one tuple of ranges -----

  lemma FirstRange(a: seq<LineRange>, n: int)
    requires Canonical(a, n) && a != []
    ensures forall line :: a[0].0 <= line <= a[0].1 ==> Covers(a, line)
    ensures Covers(a, a[0].0) && !Covers(a, a[0].1 + 1)
    ensures forall line :: Covers(a, line) ==> a[0].0 <= line
  {
  }

  lemma TailCovers(a: seq<LineRange>, n: int, line: int)
    requires Canonical(a, n) && a != []
    ensures Covers(a[1..], line) <==> Covers(a, line) && line > a[0].1
  {
    assert a == [a[0]] + a[1..];
    CoversSplit([a[0]], a[1..], line);
    CoversOne(a[0], line);
  }

  /** Canonical ranges that cover the same lines are the same ranges. */
  lemma {:induction false} CanonicalUnique(a: seq<LineRange>, b: seq<LineRange>, n: int)
    requires Canonical(a, n) && Canonical(b, n)
    requires forall line :: Covers(a, line) <==> Covers(b, line)
    ensures a == b
  {
    if a != [] { FirstRange(a, n); }
    if b != [] { FirstRange(b, n); }
    assert a == [] <==> b == [];
    if a != [] {
      assert a[0] == b[0] by { hide Canonical, Covers; }
      forall line ensures Covers(a[1..], line) <==> Covers(b[1..], line) {
        TailCovers(a, n, line);
        TailCovers(b, n, line);
      }
      CanonicalUnique(a[1..], b[1..], n);
      assert a == [a[0]] + a[1..] && b == [b[0]] + b[1..];
    }
  }

  // ----- coverage of a document -----

  datatype DocumentReadCoverage<Digest> = DocumentReadCoverage(
    path: string, digest: Digest, lineCount: int, covered: seq<LineRange>, uncovered: seq<LineRange>,
    evidenceIds: seq<string>, complete: bool)

  function IdSet(ids: seq<string>): set<string> {
    set id | id in ids
  }

  /** What the constructor of a coverage establishes. */
  ghost predicate WellFormed<Digest(!new)>(c: DocumentReadCoverage<Digest>) {
    && Canonical(c.covered, c.lineCount) && Canonical(c.uncovered, c.lineCount)
    && (forall line :: Covers(c.uncovered, line) <==> 1 <= line <= c.lineCount && !Covers(c.covered, line))
    && c.evidenceIds == Sorted(IdSet(c.evidenceIds))
    && c.complete == (c.uncovered == [])
  }

  /** `DocumentReadCoverage.__post_init__` */
  method NewCoverage<Digest(!new)>(path: string, digest: Digest, n: int, ranges: seq<LineRange>, ids: seq<string>)
    returns (c: DocumentReadCoverage<Digest>)
    ensures WellFormed(c) && c.path == path && c.digest == digest && c.lineCount == n
    ensures forall line :: Covers(c.covered, line) <==> 1 <= line <= n && Covers(ranges, line)
    ensures IdSet(c.evidenceIds) == IdSet(ids)
  {
    hide Canonical, Covers;
    var covered := CanonicalRanges(ranges, n);
    var uncovered := UncoveredRanges(covered, n);
    var sorted := Sorted(IdSet(ids));
    assert IdSet(sorted) == IdSet(ids);
    c := DocumentReadCoverage(path, digest, n, covered, uncovered, sorted, uncovered == []);
  }

  /** Complete means every line. */
  lemma CompleteExactlyWhen<Digest(!new)>(c: DocumentReadCoverage<Digest>)
    requires WellFormed(c)
    ensures c.complete <==> forall line :: 1 <= line <= c.lineCount ==> Covers(c.covered, line)
  {
    if c.uncovered != [] {
      assert Covers(c.uncovered, c.uncovered[0].0);
    } else {
      assert forall line :: !Covers(c.uncovered, line);
    }
  }

  /** A coverage is determined by its document, the lines it covers and the reads it names:
      equal line sets give identical tuples. */
  lemma CoverageUnique<Digest(!new)>(c: DocumentReadCoverage<Digest>, d: DocumentReadCoverage<Digest>)
    requires WellFormed(c) && WellFormed(d)
    requires c.path == d.path && c.digest == d.digest && c.lineCount == d.lineCount
    requires forall line :: Covers(c.covered, line) <==> Covers(d.covered, line)
    requires IdSet(c.evidenceIds) == IdSet(d.evidenceIds)
    ensures c == d
  {
    hide Canonical, Covers;
    CanonicalUnique(c.covered, d.covered, c.lineCount);
    CanonicalUnique(c.uncovered, d.uncovered, c.lineCount);
  }

  /** Reading a saved coverage back constructs it again, with the same fields: the signature
      it was saved with is accepted. */
  method Reload<Digest(!new)>(saved: DocumentReadCoverage<Digest>) returns (c: DocumentReadCoverage<Digest>)
    requires WellFormed(saved)
    ensures c == saved
  {
    c := NewCoverage(saved.path, saved.digest, saved.lineCount, saved.covered, saved.evidenceIds);
    InsideOnly(saved.covered, saved.lineCount);
    CoverageUnique(c, saved);
  }

  lemma InsideOnly(ranges: seq<LineRange>, n: int)
    requires Canonical(ranges, n)
    ensures forall line :: Covers(ranges, line) ==> 1 <= line <= n
  {
  }

  /** c is what one more read makes of the prior coverage. */
  ghost predicate Merged<Digest(!new)>(prior: Option<DocumentReadCoverage<Digest>>, r: LineRange, id: string,
      c: DocumentReadCoverage<Digest>) {
    && WellFormed(c)
    && (forall line :: Covers(c.covered, line) <==>
          1 <= line <= c.lineCount && ((prior.Some? && Covers(prior.value.covered, line)) || r.0 <= line <= r.1))
    && IdSet(c.evidenceIds) == (if prior.Some? then IdSet(prior.value.evidenceIds) else {}) + {id}
  }

  /** `merge_coverage` */
  method MergeCoverage<Digest(!new)>(prior: Option<DocumentReadCoverage<Digest>>, path: string, digest: Digest, n: int,
      r: LineRange, id: string)
    returns (c: DocumentReadCoverage<Digest>)
    ensures Merged(prior, r, id, c) && c.path == path && c.digest == digest && c.lineCount == n
  {
    hide Covers, WellFormed;
    var ranges := (if prior.Some? then prior.value.covered else []) + [r];
    var ids := (if prior.Some? then prior.value.evidenceIds else []) + [id];
    c := NewCoverage(path, digest, n, ranges, ids);
    forall line
      ensures Covers(ranges, line) <==> (prior.Some? && Covers(prior.value.covered, line)) || r.0 <= line <= r.1
    {
      CoversSplit(if prior.Some? then prior.value.covered else [], [r], line);
      CoversOne(r, line);
      CoversNone(line);
    }
  }

  lemma CoversNone(line: int)
    ensures !Covers([], line)
  {
  }

  // ----- runs of reads -----

  /** A run of reads of one document: every coverage is made from the one before it. */
  ghost predicate IsReadRun<Digest(!new)>(path: string, digest: Digest, n: int, spans: seq<(LineRange, string)>,
      cs: seq<DocumentReadCoverage<Digest>>) {
    && |cs| == |spans|
    && forall i :: 0 <= i < |cs| ==>
         && cs[i].path == path && cs[i].digest == digest && cs[i].lineCount == n
         && Merged(if i == 0 then None else Some(cs[i - 1]), spans[i].0, spans[i].1, cs[i])
  }

  /** Some read of the first i returned the line. */
  ghost predicate ReadIn(spans: seq<(LineRange, string)>, i: nat, line: int) {
    exists k :: 0 <= k < i && k < |spans| && spans[k].0.0 <= line <= spans[k].0.1
  }

  /** Folding one read at a time is reading everything at once: the last coverage holds
      exactly the lines of 1..n that some read returned, and names every read. */
  lemma {:induction false} ReadRunCovers<Digest(!new)>(path: string, digest: Digest, n: int,
      spans: seq<(LineRange, string)>, cs: seq<DocumentReadCoverage<Digest>>, i: nat)
    requires IsReadRun(path, digest, n, spans, cs) && i < |cs|
    ensures forall line :: Covers(cs[i].covered, line) <==> 1 <= line <= n && ReadIn(spans, i + 1, line)
    ensures IdSet(cs[i].evidenceIds) == set k | 0 <= k <= i :: spans[k].1
    ensures WellFormed(cs[i])
  {
    hide WellFormed, Covers;
    var prior := if i == 0 then None else Some(cs[i - 1]);
    assert Merged(prior, spans[i].0, spans[i].1, cs[i]);
    if i > 0 { ReadRunCovers(path, digest, n, spans, cs, i - 1); }
    forall line ensures ReadIn(spans, i + 1, line) <==> ReadIn(spans, i, line) || spans[i].0.0 <= line <= spans[i].0.1 {
    }
  }

  /** Reading order and overlaps leave no trace: two runs that returned the same lines of the
      document, in reads of the same names, end in the same coverage. */
  lemma ReadOrderDoesNotMatter<Digest(!new)>(path: string, digest: Digest, n: int,
                                             a: seq<(LineRange, string)>, coveragesA: seq<DocumentReadCoverage<Digest>>,
                                             b: seq<(LineRange, string)>, coveragesB: seq<DocumentReadCoverage<Digest>>)
    requires IsReadRun(path, digest, n, a, coveragesA) && IsReadRun(path, digest, n, b, coveragesB) && a != []
      && b != []
    requires forall line :: 1 <= line <= n ==> (ReadIn(a, |a|, line) <==> ReadIn(b, |b|, line))
    requires (set k | 0 <= k < |a| :: a[k].1) == (set k | 0 <= k < |b| :: b[k].1)
    ensures coveragesA[|coveragesA| - 1] == coveragesB[|coveragesB| - 1]
  {
    hide WellFormed, Covers, Merged, ReadIn, IdSet;
    ReadRunCovers(path, digest, n, a, coveragesA, |a| - 1);
    ReadRunCovers(path, digest, n, b, coveragesB, |b| - 1);
    assert (set k | 0 <= k <= |a| - 1 :: a[k].1) == set k | 0 <= k < |a| :: a[k].1;
    assert (set k | 0 <= k <= |b| - 1 :: b[k].1) == set k | 0 <= k < |b| :: b[k].1;
    CoverageUnique(coveragesA[|coveragesA| - 1], coveragesB[|coveragesB| - 1]);
  }
}
