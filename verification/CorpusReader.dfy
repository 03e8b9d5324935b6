/** Reading the documents of a bound corpus and recording their summaries: `read_file`,
    `read_corpus_document` and `record_document_summary`, over a workspace that may change
    between the calls. A digest wraps the lines it was taken of. The snapshot of the workspace
    does not see ignored files; a manifest may list one, when it is the root it was built for. */
module CorpusReaders {
  import opened Results
  import opened Ordering
  import opened Coverage

  datatype Digest = Digest(lines: seq<string>)

  type Contents = map<string, seq<string>>

  datatype FileRecord = FileRecord(digest: Digest, lineCount: int)

  /** The identifier of a manifest is a digest of it, so a manifest is its own identifier. */
  datatype Manifest = Manifest(snapshot: Contents, files: map<string, FileRecord>)

  datatype Excerpt = Excerpt(start: int, end: int, lines: seq<string>)

  datatype Summary = Summary(manifest: Manifest, path: string, digest: Digest, text: string, evidenceIds: seq<string>)

  datatype CorpusError =
    | UnknownManifest
    | StaleManifest
    | NotInManifest
    | ContentChanged
    | IncompleteCoverage
    | StaleCoverage
    | EmptySummary

  /** A line that some read of a document gave back, with its text. */
  datatype Returned = Returned(manifest: Manifest, path: string, line: int, text: string)

  function Visible(contents: Contents, ignored: string -> bool): Contents {
    map path | path in contents && !ignored(path) :: contents[path]
  }

  function ManifestOf(contents: Contents, paths: set<string>, ignored: string -> bool): Manifest {
    Manifest(Visible(contents, ignored),
             map path | path in paths && path in contents :: FileRecord(Digest(contents[path]), |contents[path]|))
  }

  // ----- blanks -----

  /** The characters Python's `strip` removes. */
  predicate Blank(c: char) {
    var n := c as int;
    || 0x9 <= n <= 0xD || 0x1C <= n <= 0x20 || n == 0x85 || n == 0xA0 || n == 0x1680
    || 0x2000 <= n <= 0x200A || n == 0x2028 || n == 0x2029 || n == 0x202F || n == 0x205F || n == 0x3000
  }

  predicate AllBlank(s: string) {
    forall i :: 0 <= i < |s| ==> Blank(s[i])
  }

  function StripStart(s: string): string {
    if s != "" && Blank(s[0]) then StripStart(s[1..]) else s
  }

  function StripEnd(s: string): string {
    if s != "" && Blank(s[|s| - 1]) then StripEnd(s[..|s| - 1]) else s
  }

  /** `strip` */
  function Strip(s: string): string {
    StripEnd(StripStart(s))
  }

  lemma {:induction false} StripStartSound(s: string) returns (a: string)
    ensures s == a + StripStart(s) && AllBlank(a) && (StripStart(s) != "" ==> !Blank(StripStart(s)[0]))
  {
    a := "";
    if s != "" && Blank(s[0]) {
      var rest := StripStartSound(s[1..]);
      a := [s[0]] + rest;
    }
  }

  lemma {:induction false} StripEndSound(s: string) returns (b: string)
    ensures s == StripEnd(s) + b && AllBlank(b) && (StripEnd(s) != "" ==> !Blank(StripEnd(s)[|StripEnd(s)| - 1]))
  {
    b := "";
    if s != "" && Blank(s[|s| - 1]) {
      var rest := StripEndSound(s[..|s| - 1]);
      b := rest + [s[|s| - 1]];
    }
  }

  /** Only blanks go, at both ends, and all of them: nothing is left exactly of a blank text. */
  lemma StripSound(s: string) returns (a: string, b: string)
    ensures s == a + Strip(s) + b && AllBlank(a) && AllBlank(b)
    ensures Strip(s) != "" ==> !Blank(Strip(s)[0]) && !Blank(Strip(s)[|Strip(s)| - 1])
    ensures Strip(s) == "" <==> AllBlank(s)
  {
    hide StripStart, StripEnd, Blank;
    a := StripStartSound(s);
    b := StripEndSound(StripStart(s));
    var kept := Strip(s);
    assert s == a + (kept + b);
    if kept != "" {
      assert StripStart(s)[0] == kept[0];
      assert s[|a|] == kept[0];
    } else {
      assert StripStart(s) == b;
    }
  }

  // ----- reading -----

  /** `read_file` on an existing file: as many lines from `startLine` on as were asked for, but
      at least one and at most 2001 of them, and none past the last line. */
  function ReadFile(lines: seq<string>, startLine: int, endLine: int): (r: Excerpt)
    ensures r.start == Max(1, startLine) && r.end <= |lines| && |r.lines| <= 2001
    ensures r.start > |lines| ==> r.end == 0
    ensures r.start <= |lines| ==> r.start <= r.end <= Max(r.start, endLine) && r.end <= r.start + 2000
    ensures r.start <= |lines| ==> r.end == Max(r.start, endLine) || r.end == r.start + 2000 || r.end == |lines|
    ensures r.lines == if r.end < r.start then [] else lines[r.start - 1..r.end]
  {
    var start := Max(1, startLine);
    if |lines| == 0 || start > |lines| then Excerpt(start, 0, [])
    else
      var end := Max(start, Min(endLine, Min(start + 2000, |lines|)));
      Excerpt(start, end, lines[start - 1..end])
  }

  type Coverages = map<(Manifest, string), DocumentReadCoverage<Digest>>

  /** What the reads of one document gave back. */
  ghost function ReturnedOf(returned: set<Returned>, manifest: Manifest, path: string): set<Returned> {
    set r | r in returned && r.manifest == manifest && r.path == path
  }

  ghost predicate HasLine(returned: set<Returned>, line: int) {
    exists r :: r in returned && r.line == line
  }

  function CoverageOf(coverages: Coverages, manifest: Manifest, path: string): Option<DocumentReadCoverage<Digest>> {
    if (manifest, path) in coverages then Some(coverages[(manifest, path)]) else None
  }

  /** The saved coverage of a document holds exactly the lines given back by its reads, and
      those are the lines of the document as the manifest bound it. */
  ghost predicate Tracked(record: FileRecord, path: string, coverage: Option<DocumentReadCoverage<Digest>>,
      returned: set<Returned>) {
    && record.lineCount == |record.digest.lines|
    && (forall r :: r in returned ==> 1 <= r.line <= record.lineCount && record.digest.lines[r.line - 1] == r.text)
    && (coverage.None? ==> returned == {})
    && (coverage.Some? ==>
          && WellFormed(coverage.value)
          && coverage.value.path == path && coverage.value.digest == record.digest
             && coverage.value.lineCount == record.lineCount
          && forall line :: Covers(coverage.value.covered, line) <==> HasLine(returned, line))
  }

  /** A file that is not ignored is in the manifest as the snapshot shows it. */
  ghost predicate BoundBySnapshot(manifests: set<Manifest>, ignored: string -> bool) {
    forall m, p :: m in manifests && p in m.files && !ignored(p) ==>
      p in m.snapshot && m.files[p].digest == Digest(m.snapshot[p])
  }

  ghost predicate Tracking(manifests: set<Manifest>, coverages: Coverages, returned: set<Returned>) {
    && (forall m, p :: m in manifests && p in m.files ==>
          Tracked(m.files[p], p, CoverageOf(coverages, m, p), ReturnedOf(returned, m, p)))
    && (forall key :: key in coverages ==> key.0 in manifests && key.1 in key.0.files)
    && (forall r :: r in returned ==> r.manifest in manifests && r.path in r.manifest.files)
  }

  ghost function LinesOf(manifest: Manifest, path: string, e: Excerpt): set<Returned> {
    set k | 0 <= k < |e.lines| :: Returned(manifest, path, e.start + k, e.lines[k])
  }

  lemma TrackedNothing(record: FileRecord, path: string)
    requires record.lineCount == |record.digest.lines|
    ensures Tracked(record, path, None, {})
  {
  }

  /** A new manifest has no reads yet. */
  lemma TrackManifest(manifests: set<Manifest>, coverages: Coverages, returned: set<Returned>, contents: Contents,
      paths: set<string>, ignored: string -> bool)
    requires Tracking(manifests, coverages, returned)
    ensures Tracking(manifests + {ManifestOf(contents, paths, ignored)}, coverages, returned)
  {
    hide Tracked;
    var manifest := ManifestOf(contents, paths, ignored);
    forall p | p in manifest.files && manifest !in manifests
      ensures Tracked(manifest.files[p], p, CoverageOf(coverages, manifest, p), ReturnedOf(returned, manifest, p))
    {
      assert ReturnedOf(returned, manifest, p) == {};
      TrackedNothing(manifest.files[p], p);
    }
    hide ReturnedOf, CoverageOf;
  }

  lemma ReadFileLine(lines: seq<string>, startLine: int, endLine: int, k: int)
    requires 0 <= k < |ReadFile(lines, startLine, endLine).lines|
    ensures var e := ReadFile(lines, startLine, endLine);
      && 1 <= e.start + k <= |lines|
      && e.lines[k] == lines[e.start + k - 1]
  {
    hide ReadFile;
  }

  /** What a read gives back are lines of the document, one for each number it reports. */
  lemma LinesGiven(lines: seq<string>, manifest: Manifest, path: string, startLine: int, endLine: int)
    ensures var e := ReadFile(lines, startLine, endLine);
      && (forall r :: r in LinesOf(manifest, path, e) ==> 1 <= r.line <= |lines| && lines[r.line - 1] == r.text)
      && forall line :: HasLine(LinesOf(manifest, path, e), line) <==> e.start <= line <= e.end
  {
    hide ReadFile;
    var e := ReadFile(lines, startLine, endLine);
    assert |e.lines| == if e.end < e.start then 0 else e.end - e.start + 1;
    forall r | r in LinesOf(manifest, path, e) ensures 1 <= r.line <= |lines| && lines[r.line - 1] == r.text {
      ReadFileLine(lines, startLine, endLine, r.line - e.start);
    }
    forall line | e.start <= line <= e.end ensures HasLine(LinesOf(manifest, path, e), line) {
      assert Returned(manifest, path, e.start
        + (line - e.start), e.lines[line - e.start]) in LinesOf(manifest, path, e);
    }
  }

  lemma HasLineUnion(a: set<Returned>, b: set<Returned>)
    ensures forall line :: HasLine(a + b, line) <==> HasLine(a, line) || HasLine(b, line)
  {
  }

  /** One more read of a document keeps track of it. */
  lemma TrackRead(record: FileRecord, manifest: Manifest, path: string, prior: Option<DocumentReadCoverage<Digest>>,
      returned: set<Returned>,
                  startLine: int, endLine: int, id: string, c: DocumentReadCoverage<Digest>)
    requires Tracked(record, path, prior, returned)
    requires var e := ReadFile(record.digest.lines, startLine, endLine); Merged(prior, (e.start, e.end), id, c)
    requires c.path == path && c.digest == record.digest && c.lineCount == record.lineCount
    ensures Tracked(record, path, Some(c), returned
      + LinesOf(manifest, path, ReadFile(record.digest.lines, startLine, endLine)))
  {
    hide WellFormed, Covers, ReadFile, LinesOf, HasLine;
    var e := ReadFile(record.digest.lines, startLine, endLine);
    LinesGiven(record.digest.lines, manifest, path, startLine, endLine);
    HasLineUnion(returned, LinesOf(manifest, path, e));
    HasLineInside(returned, record.lineCount);
    HasLineInside(LinesOf(manifest, path, e), record.lineCount);
  }

  lemma HasLineInside(returned: set<Returned>, n: int)
    requires forall r :: r in returned ==> 1 <= r.line <= n
    ensures forall line :: HasLine(returned, line) ==> 1 <= line <= n
    ensures returned == {} ==> forall line :: !HasLine(returned, line)
  {
  }

  /** A read leaves every other document as it was. */
  lemma TrackOthers(manifests: set<Manifest>, coverages: Coverages, returned: set<Returned>, manifest: Manifest,
      path: string,
                    e: Excerpt, c: DocumentReadCoverage<Digest>)
    requires Tracking(manifests, coverages, returned) && manifest in manifests && path in manifest.files
    requires Tracked(manifest.files[path], path, Some(c), ReturnedOf(returned, manifest, path)
      + LinesOf(manifest, path, e))
    ensures Tracking(manifests, coverages[(manifest, path) := c], returned + LinesOf(manifest, path, e))
  {
    hide Tracked;
    var after := returned + LinesOf(manifest, path, e);
    forall m, p | m in manifests && p in m.files
      ensures Tracked(m.files[p], p, CoverageOf(coverages[(manifest, path) := c], m, p), ReturnedOf(after, m, p))
    {
      if m == manifest && p == path {
        assert ReturnedOf(after, m, p) == ReturnedOf(returned, m, p) + LinesOf(manifest, path, e);
      } else {
        assert ReturnedOf(after, m, p) == ReturnedOf(returned, m, p);
      }
    }
  }

  class CorpusReader {
    const ignored: string -> bool
    var contents: Contents
    var manifests: set<Manifest>
    var coverages: Coverages
    var summaries: seq<Summary>
    ghost var returned: set<Returned>

    ghost predicate Valid()
      reads this
    {
      Tracking(manifests, coverages, returned) && BoundBySnapshot(manifests, ignored)
    }

    constructor (initial: Contents, ignored: string -> bool)
      ensures Valid() && this.ignored == ignored && contents == initial && manifests == {} && coverages == map[]
        && summaries == [] && returned == {}
    {
      this.ignored := ignored;
      contents, manifests, coverages, summaries, returned := initial, {}, map[], [], {};
    }

    /** Anything may happen to the workspace. */
    method Edit(next: Contents)
      requires Valid()
      modifies this`contents
      ensures Valid() && contents == next
    {
      contents := next;
    }

    /** `build_corpus_manifest` */
    method BuildManifest(paths: set<string>) returns (manifest: Manifest)
      requires Valid()
      modifies this`manifests
      ensures Valid() && manifest == ManifestOf(contents, paths, ignored) && manifests == old(manifests) + {manifest}
    {
      hide Tracking;
      manifest := ManifestOf(contents, paths, ignored);
      TrackManifest(manifests, coverages, returned, contents, paths, ignored);
      manifests := manifests + {manifest};
    }

    /** The checks both calls start with. */
    function Refusal(manifest: Manifest, path: string): Option<CorpusError>
      reads this
    {
      if manifest !in manifests then Some(UnknownManifest)
      else if manifest.snapshot != Visible(contents, ignored) then Some(StaleManifest)
      else if path !in manifest.files then Some(NotInManifest)
      else None
    }

    /** `read_corpus_document`: what is read is what the manifest bound, and the coverage
        moves on by exactly the lines given back. Of a current manifest only an ignored file
        can have changed. */
    method ReadCorpusDocument(manifest: Manifest, path: string, startLine: int, endLine: int, evidenceId: string)
      returns (r: Result<Excerpt, CorpusError>)
      requires Valid()
      modifies this`coverages, this`returned
      ensures Valid()
      ensures r.Ok? <==>
        && manifest in manifests && manifest.snapshot == Visible(contents, ignored) && path in manifest.files
        && path in contents && Digest(contents[path]) == manifest.files[path].digest
      ensures r.Err? ==> coverages == old(coverages) && returned == old(returned)
      ensures r.Err? ==> r.error == if Refusal(manifest, path).Some?
        then Refusal(manifest, path).value else ContentChanged
      ensures r.Err? && r.error == ContentChanged ==> ignored(path)
      ensures r.Ok? ==> r.value == ReadFile(contents[path], startLine, endLine)
      ensures r.Ok? ==> returned == old(returned) + LinesOf(manifest, path, r.value)
      ensures r.Ok? ==>
        (manifest, path) in coverages && coverages == old(coverages)[(manifest, path) := coverages[(manifest, path)]]
      ensures r.Ok? ==>
        IdSet(coverages[(manifest, path)].evidenceIds) == {evidenceId} +
          (if (manifest, path) in old(coverages) then IdSet(old(coverages)[(manifest, path)].evidenceIds) else {})
    {
      hide Tracking, Tracked, Merged, ReadFile, LinesOf;
      var refused := Refusal(manifest, path);
      if refused.Some? { return Err(refused.value); }
      var record := manifest.files[path];
      if path !in contents || Digest(contents[path]) != record.digest { return Err(ContentChanged); }
      var result := ReadFile(contents[path], startLine, endLine);
      var prior := CoverageOf(coverages, manifest, path);
      var coverage := MergeCoverage(prior, path, record.digest, record.lineCount, (result.start, result.end),
          evidenceId);
      TrackedOne(manifests, coverages, returned, manifest, path);
      TrackRead(record, manifest, path, prior, ReturnedOf(returned, manifest, path), startLine, endLine, evidenceId,
          coverage);
      TrackOthers(manifests, coverages, returned, manifest, path, result, coverage);
      MergedNames(prior, (result.start, result.end), evidenceId, coverage);
      coverages := coverages[(manifest, path) := coverage];
      returned := returned + LinesOf(manifest, path, result);
      r := Ok(result);
    }

    /** `record_document_summary`: recorded exactly when the manifest still describes the
        workspace, the text is not blank, and reads have given back every line of the document
        (at least one read, if it has none). What is recorded has no surrounding blanks, and
        unless the file is ignored its content still is what was read. The check for coverage
        bound to stale content never refuses: a saved coverage always carries the digest of its
        manifest. */
    method RecordDocumentSummary(manifest: Manifest, path: string, text: string)
      returns (r: Result<Summary, CorpusError>)
      requires Valid()
      modifies this`summaries
      ensures Valid()
      ensures r.Ok? <==>
        && manifest in manifests && manifest.snapshot == Visible(contents, ignored) && path in manifest.files
        && !AllBlank(text) && (manifest, path) in coverages && AllReturned(manifest, path)
      ensures r.Err? ==> summaries == old(summaries) && r.error != StaleCoverage
      ensures r.Ok? ==> summaries == old(summaries) + [r.value]
      ensures r.Ok? && !ignored(path) ==> path in contents && r.value.digest == Digest(contents[path])
      ensures r.Ok? ==>
        r.value == Summary(manifest, path, manifest.files[path].digest, Strip(text),
          coverages[(manifest, path)].evidenceIds)
    {
      hide Tracking, Tracked;
      var refused := Refusal(manifest, path);
      if refused.Some? { return Err(refused.value); }
      var record := manifest.files[path];
      var coverage := CoverageOf(coverages, manifest, path);
      TrackedOne(manifests, coverages, returned, manifest, path);
      if coverage.Some? {
        CompleteMeansReturned(record, path, coverage.value, ReturnedOf(returned, manifest, path), manifest);
      }
      if coverage.None? || !coverage.value.complete { return Err(IncompleteCoverage); }
      if coverage.value.digest != record.digest { return Err(StaleCoverage); }
      ghost var before, after := StripSound(text);
      if Strip(text) == "" { return Err(EmptySummary); }
      r := Ok(Summary(manifest, path, record.digest, Strip(text), coverage.value.evidenceIds));
      summaries := summaries + [r.value];
    }

    /** Every line of the document, as the manifest bound it, was given back by some read. */
    ghost predicate AllReturned(manifest: Manifest, path: string)
      requires path in manifest.files
      reads this
    {
      forall k :: 0 <= k < |manifest.files[path].digest.lines| ==>
        Returned(manifest, path, k + 1, manifest.files[path].digest.lines[k]) in returned
    }
  }

  lemma MergedNames(prior: Option<DocumentReadCoverage<Digest>>, r: LineRange, id: string,
      c: DocumentReadCoverage<Digest>)
    requires Merged(prior, r, id, c)
    ensures IdSet(c.evidenceIds) == (if prior.Some? then IdSet(prior.value.evidenceIds) else {}) + {id}
  {
  }

  lemma TrackedOne(manifests: set<Manifest>, coverages: Coverages, returned: set<Returned>, manifest: Manifest,
      path: string)
    requires Tracking(manifests, coverages, returned) && manifest in manifests && path in manifest.files
    ensures Tracked(manifest.files[path], path, CoverageOf(coverages, manifest, path),
        ReturnedOf(returned, manifest, path))
  {
  }

  /** A coverage is complete exactly when every line was given back, with its text. */
  lemma CompleteMeansReturned(record: FileRecord, path: string, c: DocumentReadCoverage<Digest>,
      returned: set<Returned>, manifest: Manifest)
    requires Tracked(record, path, Some(c), returned) && forall r :: r in returned ==>
      r.manifest == manifest && r.path == path
    ensures c.digest == record.digest
    ensures c.complete <==> forall k :: 0 <= k < |record.digest.lines| ==>
      Returned(manifest, path, k + 1, record.digest.lines[k]) in returned
  {
    hide WellFormed, Covers;
    CompleteExactlyWhen(c);
    forall k | 0 <= k < |record.digest.lines|
      ensures HasLine(returned, k + 1) <==> Returned(manifest, path, k + 1, record.digest.lines[k]) in returned
    {
      if HasLine(returned, k + 1) {
        var r :| r in returned && r.line == k + 1;
        assert r == Returned(manifest, path, k + 1, record.digest.lines[k]);
      }
    }
    if c.complete {
      forall k | 0 <= k < |record.digest.lines|
        ensures Returned(manifest, path, k + 1, record.digest.lines[k]) in returned {
        assert Covers(c.covered, k + 1);
      }
    }
    if forall k :: 0 <= k < |record.digest.lines| ==>
      Returned(manifest, path, k + 1, record.digest.lines[k]) in returned {
      forall line | 1 <= line <= c.lineCount ensures Covers(c.covered, line) {
        assert Returned(manifest, path, (line - 1) + 1, record.digest.lines[line - 1]) in returned;
      }
    }
  }
}
