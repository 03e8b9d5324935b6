/** `recover_context_request`: four loops that shorten a request until it fits its budget.
    Each loop is a method proved equal to a function of ContextBudget; the ledger of
    reduction steps accounts for every item that left or changed. */
module ContextRecovery {
  import opened Results
  import opened Ordering
  import opened ContextBudget
  import opened ContextExchanges

  datatype Recovery = Recovery(items: seq<Item>, history: nat, report: Report)

  // ----- shorter requests are never estimated higher -----

  lemma {:induction false} TotalSuffix(text: TextModel, items: seq<Item>, k: nat)
    requires k <= |items|
    ensures Total(text, items[k..]) <= Total(text, items)
  {
    if k == 0 {
      assert items[0..] == items;
    } else {
      TotalSuffix(text, items[1..], k - 1);
      assert items[1..][k - 1..] == items[k..];
    }
  }

  lemma {:induction false} TotalWithout(text: TextModel, items: seq<Item>, i: nat)
    requires i < |items|
    ensures Total(text, Without(items, i)) == Total(text, items) - text.size(items[i])
  {
    if i == 0 {
      assert Without(items, 0) == items[1..];
    } else {
      TotalWithout(text, items[1..], i - 1);
      assert Without(items, i)[1..] == Without(items[1..], i - 1);
    }
  }

  lemma EstimateMonotone(a: nat, b: nat)
    requires a <= b
    ensures Estimate(a) <= Estimate(b)
  {
  }

  lemma SuffixEstimate(c: Context, items: seq<Item>, k: nat)
    requires k <= |items|
    ensures Estimated(c, items[k..]) <= Estimated(c, items)
  {
    hide Estimate;
    TotalSuffix(c.text, items, k);
    EstimateMonotone(RequestChars(c, items[k..]), RequestChars(c, items));
  }

  lemma ReplaceEstimate(c: Context, items: seq<Item>, i: nat, item: Item)
    requires i < |items| && c.text.size(item) <= c.text.size(items[i])
    ensures Estimated(c, items[i := item]) <= Estimated(c, items)
  {
    hide Estimate;
    TotalReplace(c.text, items, i, item);
    EstimateMonotone(RequestChars(c, items[i := item]), RequestChars(c, items));
  }

  lemma PairEstimate(c: Context, items: seq<Item>, p: (nat, nat))
    requires p.0 < |items| && p.1 < |items| && p.0 != p.1
    ensures Estimated(c, WithoutPair(items, p)) <= Estimated(c, items)
  {
    hide Estimate;
    var low, high := Min(p.0, p.1), Max(p.0, p.1);
    TotalWithout(c.text, items, high);
    TotalWithout(c.text, Without(items, high), low);
    EstimateMonotone(RequestChars(c, WithoutPair(items, p)), RequestChars(c, items));
  }

  // ----- a fitting request leaves room for the answer -----

  /** The estimate is the least number of tokens, at least one, at four characters a token. */
  lemma EstimateExactlyWhen(chars: nat, tokens: int)
    ensures Estimate(chars) <= tokens <==> tokens >= 1 && chars <= 4 * tokens
  {
  }

  /** A request fits exactly when its estimate is within the configured budget and, if the
      runtime context is known, within it together with the reserved output and the safety
      margin. */
  lemma FitsExactlyWhen(c: Context, items: seq<Item>)
    ensures Fits(c, items) <==>
      && Estimated(c, items) <= Max(0, c.configured)
      && (c.runtime > 0 ==> Estimated(c, items) + Max(0, c.reserved) + Max(0, c.margin) <= c.runtime)
  {
    EstimateExactlyWhen(RequestChars(c, items), Estimated(c, items));
  }

  // ----- the reports and steps are always accepted -----

  lemma Affected0(steps: seq<Step>, kind: Kind)
    requires forall s :: s in steps ==> s.affected >= 1
    ensures Affected(steps, kind) >= 0
  {
  }

  lemma ReportAccepted(c: Context, items: seq<Item>, history: nat, removed: nat, steps: seq<Step>)
    requires history <= |items| && forall s :: s in steps ==> s.affected >= 1
    ensures BuildReport(c, items, history, removed, steps) == Ok(ReportOf(c, items, history, removed, steps))
    ensures (ReportOf(c, items, history, removed, steps).verdict == Fit) <==> Fits(c, items)
  {
    hide Affected, CountKind, Estimated, Effective;
    Affected0(steps, CompactCompletedToolOutput);
  }

  // ----- the ledger -----

  function Originals(steps: seq<Step>): multiset<Item> {
    if steps == [] then multiset{}
    else Originals(steps[..|steps| - 1]) + multiset(steps[|steps| - 1].original)
  }

  function Replacements(steps: seq<Step>): multiset<Item> {
    if steps == [] then multiset{}
    else Replacements(steps[..|steps| - 1]) + multiset(steps[|steps| - 1].replacement)
  }

  /** The estimates of consecutive steps join up, from `before` to `after`, never rising. */
  ghost predicate Chained(steps: seq<Step>, before: int, after: int) {
    if steps == [] then before == after
    else
      var last := steps[|steps| - 1];
      Chained(steps[..|steps| - 1], before, last.tokensBefore) && last.tokensAfter <= last.tokensBefore
        && last.tokensAfter == after
  }

  /** What the steps say about the way from `input` to `items`: each step passed its checks,
      the estimates join up, and nothing left or appeared that no step records. */
  ghost predicate Ledger(c: Context, input: seq<Item>, removed: int, items: seq<Item>, steps: seq<Step>) {
    && (forall s :: s in steps ==> CheckStep(s) == Ok(s))
    && Chained(steps, Estimated(c, input), Estimated(c, items))
    && multiset(input) + Replacements(steps) == multiset(items) + Originals(steps)
    && Affected(steps, DropOldestUnpinnedTurn) == removed
    && Affected(steps, DropOldestEvidenceToolExchange) == 2 * CountKind(steps, DropOldestEvidenceToolExchange)
  }

  lemma EmptyLedger(c: Context, input: seq<Item>)
    ensures Ledger(c, input, 0, input, [])
  {
  }

  /** One more accepted step keeps the ledger. */
  lemma ExtendLedger(c: Context, input: seq<Item>, removed: int, items: seq<Item>, steps: seq<Step>, s: Step,
      after: seq<Item>)
    requires Ledger(c, input, removed, items, steps)
    requires CheckStep(s) == Ok(s)
    requires s.tokensBefore == Estimated(c, items) && s.tokensAfter == Estimated(c, after)
    requires multiset(items) + multiset(s.replacement) == multiset(after) + multiset(s.original)
    requires s.kind == DropOldestEvidenceToolExchange ==> s.affected == 2
    ensures Ledger(c, input, removed + (if s.kind == DropOldestUnpinnedTurn then s.affected else 0), after, steps + [s])
  {
    hide Estimated;
    assert (steps + [s])[..|steps|] == steps;
    calc {
      multiset(input) + Replacements(steps + [s]);
      (multiset(input) + Replacements(steps)) + multiset(s.replacement);
      Originals(steps) + (multiset(items) + multiset(s.replacement));
      multiset(after) + Originals(steps + [s]);
    }
  }

  /** Sizes in the ledger: items only leave in whole turns and whole exchanges. */
  lemma {:induction false} SizesOf(steps: seq<Step>)
    requires forall s :: s in steps ==> CheckStep(s) == Ok(s)
    ensures |Originals(steps)| == |Replacements(steps)| + Affected(steps, DropOldestUnpinnedTurn)
      + Affected(steps, DropOldestEvidenceToolExchange)
    ensures |Replacements(steps)| == Affected(steps, CompactCompletedToolOutput)
  {
    if steps != [] {
      SizesOf(steps[..|steps| - 1]);
      assert steps[|steps| - 1] in steps;
    }
  }

  /** Conservation of items: what came in is what went out, the history removed, and a call
      and an output for every exchange dropped. */
  lemma LedgerCounts(c: Context, input: seq<Item>, removed: int, items: seq<Item>, steps: seq<Step>)
    requires Ledger(c, input, removed, items, steps)
    ensures |input| == |items| + removed + 2 * CountKind(steps, DropOldestEvidenceToolExchange)
    ensures |Replacements(steps)| == Affected(steps, CompactCompletedToolOutput)
  {
    hide Estimated, CheckStep;
    SizesOf(steps);
    assert |multiset(input) + Replacements(steps)| == |multiset(items) + Originals(steps)|;
  }

  lemma LedgerAffected(c: Context, input: seq<Item>, removed: int, items: seq<Item>, steps: seq<Step>)
    requires Ledger(c, input, removed, items, steps)
    ensures forall s :: s in steps ==> s.affected >= 1
  {
  }

  lemma ReportEstimate(c: Context, items: seq<Item>, history: int, removed: int, steps: seq<Step>)
    ensures ReportOf(c, items, history, removed, steps).estimated == Estimated(c, items)
    ensures ReportOf(c, items, history, removed, steps).steps == steps
  {
  }

  /** Every step the loops build passes its own checks: the counts agree and the estimate
      has not risen. */
  lemma StepAccepted(c: Context, s: Step, items: seq<Item>, after: seq<Item>)
    requires s.affected == |s.original| >= 1
    requires |s.replacement| == if s.kind == CompactCompletedToolOutput then s.affected else 0
    requires s.tokensBefore == Estimated(c, items) && s.tokensAfter == Estimated(c, after)
    requires Estimated(c, after) <= Estimated(c, items)
    ensures CheckStep(s) == Ok(s)
  {
  }

  /** What every iteration does after changing the items: estimate the request again, record
      the step, and report. None of the checks on the way can raise. */
  method RecordStep(c: Context, ghost input: seq<Item>, ghost before: seq<Item>, ghost removedBefore: nat,
                    kind: Kind, original: seq<Item>, replacement: seq<Item>, tokensBefore: int,
                    items: seq<Item>, history: nat, removed: nat, steps: seq<Step>)
    returns (extended: seq<Step>, report: Report)
    requires Ledger(c, input, removedBefore, before, steps) && tokensBefore == Estimated(c, before)
    requires history <= |items| && |original| >= 1
    requires |replacement| == if kind == CompactCompletedToolOutput then |original| else 0
    requires kind == DropOldestEvidenceToolExchange ==> |original| == 2
    requires removed == removedBefore + (if kind == DropOldestUnpinnedTurn then |original| else 0)
    requires Estimated(c, items) <= Estimated(c, before)
    requires multiset(before) + multiset(replacement) == multiset(items) + multiset(original)
    ensures Ledger(c, input, removed, items, extended)
    ensures exists s: Step :: s.kind == kind && extended == steps + [s]
    ensures report == ReportOf(c, items, history, removed, extended)
    ensures report.estimated == Estimated(c, items) && (report.verdict == Fit <==> Fits(c, items))
  {
    hide Estimated, Ledger, BuildReport, ReportOf, Fits, CheckStep;
    LedgerAffected(c, input, removedBefore, before, steps);
    ReportAccepted(c, items, history, removed, steps);
    ReportEstimate(c, items, history, removed, steps);
    var provisional := BuildReport(c, items, history, removed, steps).value;
    var step := Step(kind, |original|, original, replacement, tokensBefore, provisional.estimated);
    StepAccepted(c, step, before, items);
    extended := steps + [CheckStep(step).value];
    ExtendLedger(c, input, removedBefore, before, steps, step, items);
    LedgerAffected(c, input, removed, items, extended);
    ReportAccepted(c, items, history, removed, extended);
    ReportEstimate(c, items, history, removed, extended);
    report := BuildReport(c, items, history, removed, extended).value;
  }

  // ----- loop one -----

  /** Whole oldest turns follow on: after an aligned prefix, the next turn gives the next
      aligned prefix, and there is none in between. */
  lemma {:induction false} NextTurn(history: seq<Item>, k: nat)
    requires TurnAligned(history, k) && k < |history|
    ensures TurnAligned(history, k + OldestTurnSize(history[k..]))
    ensures forall j :: k < j < k + OldestTurnSize(history[k..]) ==> !TurnAligned(history, j)
    decreases |history|
  {
    var t := OldestTurnSize(history);
    if k == 0 {
      assert history[0..] == history;
      assert TurnAligned(history[t..], 0);
    } else {
      assert history[t..][k - t..] == history[k..];
      NextTurn(history[t..], k - t);
      forall j | k < j < k + OldestTurnSize(history[k..]) ensures !TurnAligned(history, j) {
        assert !TurnAligned(history[t..], j - t);
      }
    }
  }

  /** A user item directly followed by an assistant item: the two make one turn. */
  predicate Pair(history: seq<Item>, i: int)
    requires 0 <= i < |history| - 1
  {
    RoleOf(history[i]) == "user" && RoleOf(history[i + 1]) == "assistant"
  }

  /** What whole turns are: a prefix of whole turns is exactly a prefix that does not part a
      user item from an assistant item right after it. */
  lemma {:induction false} TurnsNeverSplitPairs(history: seq<Item>, k: nat)
    ensures TurnAligned(history, k) <==> k <= |history| && !(0 < k < |history| && Pair(history, k - 1))
    decreases |history|
  {
    var t := OldestTurnSize(history);
    if k > 0 && history != [] && t <= k {
      TurnsNeverSplitPairs(history[t..], k - t);
    }
  }

  /** k items are whole oldest turns, and no shorter run of whole turns was enough. */
  ghost predicate TurnsSoFar(c: Context, input: seq<Item>, initial: nat, k: nat)
    requires initial <= |input|
  {
    && k <= initial
    && TurnAligned(input[..initial], k)
    && forall j: nat :: j < k && TurnAligned(input[..initial], j) ==> !Fits(c, input[j..])
  }

  /** `removed` items are the shortest prefix of whole turns whose removal makes the request
      fit, or the whole history if none does. */
  ghost predicate ShortestTurns(c: Context, input: seq<Item>, initial: nat, removed: nat)
    requires initial <= |input|
  {
    TurnsSoFar(c, input, initial, removed) && (removed == initial || Fits(c, input[removed..]))
  }

  lemma NoTurnsYet(c: Context, input: seq<Item>, initial: nat)
    requires initial <= |input|
    ensures TurnsSoFar(c, input, initial, 0) && input[0..] == input
  {
  }

  lemma OneMoreTurn(c: Context, input: seq<Item>, initial: nat, k: nat)
    requires initial <= |input| && k < initial && TurnsSoFar(c, input, initial, k) && !Fits(c, input[k..])
    ensures input[k..][..initial - k] == input[..initial][k..]
    ensures TurnsSoFar(c, input, initial, k + OldestTurnSize(input[..initial][k..]))
  {
    hide OldestTurnSize, TurnAligned, Fits;
    assert input[k..][..initial - k] == input[..initial][k..];
    NextTurn(input[..initial], k);
  }

  lemma DroppedPrefix(c: Context, input: seq<Item>, k: nat, n: nat)
    requires k + n <= |input|
    ensures input[k..][..n] == input[k..k + n] && input[k..][n..] == input[k + n..]
    ensures Estimated(c, input[k + n..]) <= Estimated(c, input[k..])
    ensures multiset(input[k..]) == multiset(input[k + n..]) + multiset(input[k..k + n])
  {
    hide Estimated;
    SuffixEstimate(c, input[k..], n);
    assert input[k..][n..] == input[k + n..];
    assert input[k..] == input[k..k + n] + input[k + n..];
  }

  /** Only history turns have been dropped. */
  predicate OnlyTurns(steps: seq<Step>) {
    forall s :: s in steps ==> s.kind == DropOldestUnpinnedTurn
  }

  method DropHistoryTurns(c: Context, input: seq<Item>, initial: nat)
    returns (items: seq<Item>, history: nat, steps: seq<Step>, report: Report)
    requires initial <= |input|
    ensures history <= initial && items == input[initial - history..]
    ensures ShortestTurns(c, input, initial, initial - history)
    ensures Ledger(c, input, initial - history, items, steps) && OnlyTurns(steps)
    ensures report == ReportOf(c, items, history, initial - history, steps)
    ensures report.estimated == Estimated(c, items) && (report.verdict == Fit <==> Fits(c, items))
  {
    hide Estimated, TurnsSoFar, Ledger, OldestTurnSize, BuildReport, ReportOf, Fits;
    items, history, steps := input, initial, [];
    EmptyLedger(c, input);
    NoTurnsYet(c, input, initial);
    ReportAccepted(c, items, history, 0, steps);
    ReportEstimate(c, items, history, 0, steps);
    report := BuildReport(c, items, history, 0, steps).value;
    while report.verdict != Fit && history > 0
      invariant history <= initial && items == input[initial - history..]
      invariant TurnsSoFar(c, input, initial, initial - history)
      invariant Ledger(c, input, initial - history, items, steps) && OnlyTurns(steps)
      invariant report == ReportOf(c, items, history, initial - history, steps)
      invariant report.estimated == Estimated(c, items) && (report.verdict == Fit <==> Fits(c, items))
    {
      ghost var k := initial - history;
      OneMoreTurn(c, input, initial, k);
      var turnSize := OldestTurnSize(items[..history]);
      DroppedPrefix(c, input, k, turnSize);
      var removed, tokensBefore := items[..turnSize], report.estimated;
      items := items[turnSize..];
      history := history - turnSize;
      steps, report := RecordStep(c, input, input[k..], k, DropOldestUnpinnedTurn, removed, [], tokensBefore,
                                  items, history, initial - history, steps);
    }
  }

  // ----- loops two and three -----

  /** The inner loop: the oldest active item that compacts, and its replacement. */
  method FindCompactable(text: TextModel, items: seq<Item>, from: nat, excerpt: nat, force: bool)
    returns (index: int, replacement: Option<Item>)
    requires from <= |items|
    ensures index == match FirstCompactable(text, items, from, excerpt, force) case None => -1 case Some(i) => i
    ensures replacement == if index < 0 then None else Compact(text, items[index], excerpt, force)
  {
    hide Compact;
    index, replacement := -1, None;
    for i := from to |items|
      invariant index == -1
      invariant FirstCompactable(text, items, from, excerpt, force) == FirstCompactable(text, items, i, excerpt, force)
    {
      replacement := Compact(text, items[i], excerpt, force);
      if replacement.Some? {
        index := i;
        return;
      }
    }
    replacement := None;
  }

  /** Replacing one item keeps the ledger's balance. */
  lemma ReplaceBalance(items: seq<Item>, i: nat, item: Item)
    requires i < |items|
    ensures multiset(items) + multiset([item]) == multiset(items[i := item]) + multiset([items[i]])
  {
    assert items == items[..i] + [items[i]] + items[i + 1..];
    assert items[i := item] == items[..i] + [item] + items[i + 1..];
  }

  /** One iteration on the functional side. */
  lemma CompactStep(c: Context, items: seq<Item>, from: nat, excerpt: nat, force: bool, i: nat)
    requires from <= |items| && !Fits(c, items) && FirstCompactable(c.text, items, from, excerpt, force) == Some(i)
    ensures var next := items[i := Compact(c.text, items[i], excerpt, force).value];
      && CompactUntilFit(c, items, from, excerpt, force) == CompactUntilFit(c, next, from, excerpt, force)
      && Total(c.text, next) < Total(c.text, items)
      && Estimated(c, next) <= Estimated(c, items)
      && multiset(items) + multiset([next[i]]) == multiset(next) + multiset([items[i]])
  {
    hide Fits, Estimated, Compact;
    var item := Compact(c.text, items[i], excerpt, force).value;
    CompactShorter(c.text, items[i], excerpt, force);
    TotalReplace(c.text, items, i, item);
    ReplaceEstimate(c, items, i, item);
    ReplaceBalance(items, i, item);
  }

  method CompactOutputs(c: Context, ghost input: seq<Item>, start: seq<Item>, history: nat, removed: nat,
                        started: seq<Step>, reported: Report, excerpt: nat, force: bool)
    returns (items: seq<Item>, steps: seq<Step>, report: Report)
    requires history <= |start| && Ledger(c, input, removed, start, started)
    requires reported == ReportOf(c, start, history, removed, started)
    requires reported.estimated == Estimated(c, start) && (reported.verdict == Fit <==> Fits(c, start))
    ensures Fits(c, start) ==> steps == started && items == start
    ensures items == CompactUntilFit(c, start, history, excerpt, force)
    ensures Ledger(c, input, removed, items, steps)
    ensures report == ReportOf(c, items, history, removed, steps)
    ensures report.estimated == Estimated(c, items) && (report.verdict == Fit <==> Fits(c, items))
  {
    hide Estimated, Ledger, Compact, ReportOf, Fits;
    items, steps, report := start, started, reported;
    while report.verdict != Fit
      invariant Fits(c, start) ==> steps == started && items == start
      invariant |items| == |start|
      invariant CompactUntilFit(c, items, history, excerpt, force) == CompactUntilFit(c, start, history, excerpt, force)
      invariant Ledger(c, input, removed, items, steps)
      invariant report == ReportOf(c, items, history, removed, steps)
      invariant report.estimated == Estimated(c, items) && (report.verdict == Fit <==> Fits(c, items))
      decreases Total(c.text, items)
    {
      var index, replacement := FindCompactable(c.text, items, history, excerpt, force);
      if index < 0 || replacement.None? { break; }
      CompactStep(c, items, history, excerpt, force, index);
      ghost var before := items;
      var original, tokensBefore := items[index], report.estimated;
      items := items[index := replacement.value];
      steps, report := RecordStep(c, input, before, removed, CompactCompletedToolOutput, [original],
          [replacement.value],
                                  tokensBefore, items, history, removed, steps);
    }
  }

  // ----- loop four -----

  lemma WithoutBalance(items: seq<Item>, i: nat)
    requires i < |items|
    ensures multiset(items) == multiset(Without(items, i)) + multiset([items[i]])
  {
    assert items == items[..i] + [items[i]] + items[i + 1..];
  }

  lemma PairBalance(items: seq<Item>, p: (nat, nat))
    requires p.0 < |items| && p.1 < |items| && p.0 != p.1
    ensures multiset(items) == multiset(WithoutPair(items, p)) + multiset([items[Min(p.0, p.1)], items[Max(p.0, p.1)]])
  {
    var low, high := Min(p.0, p.1), Max(p.0, p.1);
    WithoutBalance(items, high);
    WithoutBalance(Without(items, high), low);
    assert [items[low], items[high]] == [items[low]] + [items[high]];
  }

  lemma DropStep(c: Context, items: seq<Item>, from: nat, p: (nat, nat))
    requires !Fits(c, items) && OldestExchange(items, from, 0) == Some(p)
    ensures from <= p.0 < |items| && from <= p.1 < |items| && p.0 != p.1
    ensures DropUntilFit(c, items, from) == DropUntilFit(c, WithoutPair(items, p), from)
    ensures Estimated(c, WithoutPair(items, p)) <= Estimated(c, items)
    ensures multiset(items) == multiset(WithoutPair(items, p)) + multiset([items[Min(p.0, p.1)], items[Max(p.0, p.1)]])
  {
    hide Fits, Estimated, OldestExchange;
    ExchangeIndices(items, from, 0);
    PairEstimate(c, items, p);
    PairBalance(items, p);
  }

  method DropExchanges(c: Context, ghost input: seq<Item>, start: seq<Item>, history: nat, removed: nat,
                       started: seq<Step>, reported: Report)
    returns (items: seq<Item>, steps: seq<Step>, report: Report)
    requires history <= |start| && Ledger(c, input, removed, start, started)
    requires reported == ReportOf(c, start, history, removed, started)
    requires reported.estimated == Estimated(c, start) && (reported.verdict == Fit <==> Fits(c, start))
    ensures Fits(c, start) ==> steps == started && items == start
    ensures items == DropUntilFit(c, start, history) && history <= |items|
    ensures Ledger(c, input, removed, items, steps)
    ensures report == ReportOf(c, items, history, removed, steps)
    ensures report.estimated == Estimated(c, items) && (report.verdict == Fit <==> Fits(c, items))
  {
    hide Estimated, Ledger, OldestExchange, WithoutPair, ReportOf, Fits;
    items, steps, report := start, started, reported;
    while report.verdict != Fit
      invariant Fits(c, start) ==> steps == started && items == start
      invariant history <= |items|
      invariant DropUntilFit(c, items, history) == DropUntilFit(c, start, history)
      invariant Ledger(c, input, removed, items, steps)
      invariant report == ReportOf(c, items, history, removed, steps)
      invariant report.estimated == Estimated(c, items) && (report.verdict == Fit <==> Fits(c, items))
      decreases |items|
    {
      TwoTiersAreOne(items, history);
      var candidate := OldestExchange(items, history, 2);
      if candidate.None? {
        candidate := OldestExchange(items, history, 0);
      }
      if candidate.None? { break; }
      var p := candidate.value;
      DropStep(c, items, history, p);
      ghost var before := items;
      var tokensBefore := report.estimated;
      var dropped := [items[Min(p.0, p.1)], items[Max(p.0, p.1)]];
      items := WithoutPair(items, p);
      steps, report := RecordStep(c, input, before, removed, DropOldestEvidenceToolExchange, dropped, [],
                                  tokensBefore, items, history, removed, steps);
    }
  }

  // ----- the whole recovery -----

  /** Both compaction loops. */
  function Squeezed(c: Context, items: seq<Item>, history: nat): (r: seq<Item>)
    requires history <= |items|
    ensures |r| == |items|
  {
    CompactUntilFit(c, CompactUntilFit(c, items, history, MAX_TOOL_OUTPUT_EXCERPT_CHARS, false),
                    history, MINIMAL_TOOL_OUTPUT_EXCERPT_CHARS, true)
  }

  /** What a recovery is: the shortest run of whole history turns removed, then outputs
      compacted, then exchanges dropped, each only until the request fits, with a report that
      matches its ledger. */
  ghost predicate Recovered(c: Context, input: seq<Item>, initial: nat, r: Recovery) {
    && r.history <= initial <= |input|
    && ShortestTurns(c, input, initial, initial - r.history)
    && r.items == DropUntilFit(c, Squeezed(c, input[initial - r.history..], r.history), r.history)
    && r.history <= |r.items|
    && Ledger(c, input, initial - r.history, r.items, r.report.steps)
    && r.report == ReportOf(c, r.items, r.history, initial - r.history, r.report.steps)
    && (Fits(c, input[initial - r.history..]) ==> OnlyTurns(r.report.steps))
  }

  method RecoverContextRequest(c: Context, input: seq<Item>, historyCount: int)
    returns (r: Result<Recovery, CheckError>)
    ensures r.Ok? <==> 0 <= historyCount <= |input|
    ensures r.Err? ==> r.error == HistoryCountInvalid
    ensures r.Ok? ==> Recovered(c, input, historyCount, r.value)
  {
    hide Estimated, Ledger, ReportOf, Fits, ShortestTurns, CompactUntilFit, DropUntilFit, OnlyTurns;
    if !(0 <= historyCount <= |input|) {
      return Err(HistoryCountInvalid);
    }
    var items, history, steps, report := DropHistoryTurns(c, input, historyCount);
    var removed := historyCount - history;
    items, steps, report := CompactOutputs(c, input, items, history, removed, steps, report,
        MAX_TOOL_OUTPUT_EXCERPT_CHARS, false);
    items, steps, report := CompactOutputs(c, input, items, history, removed, steps, report,
        MINIMAL_TOOL_OUTPUT_EXCERPT_CHARS, true);
    items, steps, report := DropExchanges(c, input, items, history, removed, steps, report);
    ReportEstimate(c, items, history, removed, steps);
    r := Ok(Recovery(items, history, report));
  }

  lemma FittingIsLeft(c: Context, items: seq<Item>, history: nat)
    requires history <= |items| && Fits(c, items)
    ensures Squeezed(c, items, history) == items && DropUntilFit(c, items, history) == items
  {
    hide Fits;
  }

  lemma {:induction false} OnlyTurnsCounts(steps: seq<Step>)
    requires OnlyTurns(steps)
    ensures Affected(steps, CompactCompletedToolOutput) == 0 && CountKind(steps, DropOldestEvidenceToolExchange) == 0
  {
    if steps != [] {
      assert steps[|steps| - 1] in steps;
      OnlyTurnsCounts(steps[..|steps| - 1]);
    }
  }

  /** Greedy order: as long as some history is left, the request fits and nothing active has
      been touched. */
  lemma HistoryGoesFirst(c: Context, input: seq<Item>, initial: nat, r: Recovery)
    requires Recovered(c, input, initial, r) && r.history > 0
    ensures r.items == input[initial - r.history..] && Fits(c, r.items) && r.report.verdict == Fit
    ensures r.report.compacted == r.report.dropped == 0
  {
    hide TurnsSoFar, Estimated, Effective, Ledger, Squeezed, OnlyTurns;
    FittingIsLeft(c, input[initial - r.history..], r.history);
    OnlyTurnsCounts(r.report.steps);
  }

  lemma WithoutMembers(items: seq<Item>, i: nat, x: Item)
    requires i < |items| && x in Without(items, i)
    ensures x in items
  {
  }

  lemma {:induction false} DropMembers(c: Context, items: seq<Item>, from: nat, x: Item)
    requires x in DropUntilFit(c, items, from)
    ensures x in items
    decreases |items|
  {
    hide Fits, OldestExchange, Without;
    var p := OldestExchange(items, from, 0);
    if !Fits(c, items) && p.Some? {
      ExchangeIndices(items, from, 0);
      DropMembers(c, WithoutPair(items, p.value), from, x);
      var low, high := Min(p.value.0, p.value.1), Max(p.value.0, p.value.1);
      WithoutLength(items, high);
      WithoutMembers(Without(items, high), low, x);
      WithoutMembers(items, high, x);
    }
  }

  lemma WithoutLength(items: seq<Item>, i: nat)
    requires i < |items|
    ensures |Without(items, i)| == |items| - 1
  {
  }

  /** When the verdict is not FIT, everything the loops can give up is gone: no history, no
      output that still compacts, and no exchange that may be dropped. */
  lemma InsufficientMeansExhausted(c: Context, input: seq<Item>, initial: nat, r: Recovery)
    requires Recovered(c, input, initial, r) && r.report.verdict != Fit
    ensures r.history == 0 && !Fits(c, r.items)
    ensures forall x :: x in r.items ==> Compact(c.text, x, MINIMAL_TOOL_OUTPUT_EXCERPT_CHARS, true).None?
    ensures OldestExchange(r.items, 0, 0).None?
  {
    hide TurnsSoFar, Ledger, OldestExchange, Estimated, Effective, OnlyTurns, Compact, DropUntilFit, CompactUntilFit;
    var active := input[initial - r.history..];
    var squeezed := Squeezed(c, active, r.history);
    FittingStays(c, active, r.history);
    CompactUntilFitSound(c, CompactUntilFit(c, active, 0, MAX_TOOL_OUTPUT_EXCERPT_CHARS, false), 0,
        MINIMAL_TOOL_OUTPUT_EXCERPT_CHARS, true);
    forall x | x in r.items ensures Compact(c.text, x, MINIMAL_TOOL_OUTPUT_EXCERPT_CHARS, true).None? {
      DropMembers(c, squeezed, 0, x);
    }
    DropEnds(c, squeezed, 0);
  }

  /** A request that fits after either stage is not touched further. */
  lemma FittingStays(c: Context, items: seq<Item>, history: nat)
    requires history <= |items|
    ensures Fits(c, items) ==> DropUntilFit(c, Squeezed(c, items, history), history) == items
    ensures Fits(c, Squeezed(c, items, history)) ==>
      DropUntilFit(c, Squeezed(c, items, history), history) == Squeezed(c, items, history)
  {
    hide Fits;
    if Fits(c, items) { FittingIsLeft(c, items, history); }
  }

  lemma {:induction false} DropEnds(c: Context, items: seq<Item>, from: nat)
    ensures Fits(c, DropUntilFit(c, items, from)) || OldestExchange(DropUntilFit(c, items, from), from, 0).None?
    decreases |items|
  {
    hide Fits, OldestExchange, WithoutPair;
    var p := OldestExchange(items, from, 0);
    if !Fits(c, items) && p.Some? {
      ExchangeIndices(items, from, 0);
      DropEnds(c, WithoutPair(items, p.value), from);
    }
  }

  /** The figures of the report, and the estimate, which never ends above where it began. */
  lemma RecoveredCounts(c: Context, input: seq<Item>, initial: nat, r: Recovery)
    requires Recovered(c, input, initial, r)
    ensures r.report.removed + r.history == initial && r.report.historyCount == r.history
    ensures |input| == |r.items| + r.report.removed + 2 * r.report.dropped
    ensures r.report.estimated <= Estimated(c, input)
    ensures r.report.verdict == Fit <==> Fits(c, r.items)
    ensures r.report.estimated == Estimated(c, r.items) && r.report.activeCount == |r.items| - r.history
    ensures r.report.overage == Max(0, r.report.estimated - r.report.effective)
    ensures r.report.configured == Max(0, c.configured) && r.report.runtime == Max(0, c.runtime)
    ensures r.report.reserved == Max(0, c.reserved) && r.report.margin == Max(0, c.margin)
    ensures r.report.compacted == |Replacements(r.report.steps)|
  {
    hide TurnsSoFar, ShortestTurns, Squeezed, DropUntilFit, Estimated, Effective, OnlyTurns;
    LedgerCounts(c, input, initial - r.history, r.items, r.report.steps);
    ChainFalls(r.report.steps, Estimated(c, input), Estimated(c, r.items));
  }

  lemma {:induction false} ChainFalls(steps: seq<Step>, before: int, after: int)
    requires Chained(steps, before, after)
    ensures after <= before
  {
    if steps != [] {
      ChainFalls(steps[..|steps| - 1], before, steps[|steps| - 1].tokensBefore);
    }
  }

  lemma SqueezedSound(c: Context, items: seq<Item>, history: nat)
    requires history <= |items|
    ensures AllSameOrCompacted(c.text, items, Squeezed(c, items, history))
  {
    hide CompactUntilFit, SameOrCompacted;
    var low := CompactUntilFit(c, items, history, MAX_TOOL_OUTPUT_EXCERPT_CHARS, false);
    CompactUntilFitSound(c, items, history, MAX_TOOL_OUTPUT_EXCERPT_CHARS, false);
    CompactUntilFitSound(c, low, history, MINIMAL_TOOL_OUTPUT_EXCERPT_CHARS, true);
    var r := Squeezed(c, items, history);
    forall i | 0 <= i < |items| ensures SameOrCompacted(c.text, items[i], r[i]) {
      StillCompacted(c.text, items[i], low[i], r[i]);
    }
  }

  /** Items that are neither calls nor outputs come through in order and unaltered, except
      those of the history removed. */
  lemma PlainComesThrough(c: Context, input: seq<Item>, initial: nat, r: Recovery)
    requires Recovered(c, input, initial, r)
    ensures PlainOf(r.items) == PlainOf(input[initial - r.history..])
  {
    hide ShortestTurns, Squeezed, DropUntilFit, Estimated, Ledger, PlainOf, AllSameOrCompacted, ReportOf, Fits,
      OnlyTurns;
    var active := input[initial - r.history..];
    var squeezed := Squeezed(c, active, r.history);
    SqueezedSound(c, active, r.history);
    CompactionKeepsPlain(c.text, active, squeezed);
    DroppingKeepsPlain(c, squeezed, r.history);
  }

  /** The whole recovery with unique call identifiers: after the history, outputs are
      replaced by shorter projections in place, and then the oldest exchanges leave, as few
      as make the request fit. */
  lemma RecoveredExchanges(c: Context, input: seq<Item>, initial: nat, r: Recovery) returns (n: nat)
    requires Recovered(c, input, initial, r) && UniqueIds(input[initial - r.history..])
    ensures var squeezed := Squeezed(c, input[initial - r.history..], r.history);
      && AllSameOrCompacted(c.text, input[initial - r.history..], squeezed)
      && UniqueIds(squeezed)
      && FewestDropped(c, squeezed, n)
      && r.items == AfterDropping(squeezed, n)
  {
    hide TurnsSoFar, Squeezed, Estimated, Ledger, AllSameOrCompacted, ReportOf, Fits, OnlyTurns, UniqueIds,
      ExchangeIds;
    var active := input[initial - r.history..];
    var squeezed := Squeezed(c, active, r.history);
    SqueezedSound(c, active, r.history);
    CompactionKeepsUnique(c.text, active, squeezed);
    if r.history > 0 {
      FittingIsLeft(c, active, r.history);
      DropNone(squeezed);
      n := 0;
    } else {
      n := DropsOldestFewest(c, squeezed);
    }
  }
}
