/** Which outputs the two compaction loops shorten, how far and in what order, said of the items
    before and after them: oldest first, each as far as it goes before the next, no more than
    needed, and the short excerpts only once the long ones are used up. */
module ContextCompaction {
  import opened Results
  import opened Ordering
  import opened ContextBudget
  import opened ContextExchanges
  import opened ContextRecovery

  // ----- one compaction -----

  predicate WasCompacted(item: Item) {
    item.Output? && item.payload.Text? && item.payload.decoded.Fields? && item.payload.decoded.compacted
  }

  /** b is the projection of output a with this excerpt: its call and its evidence are those of
      a, and the markers too if a was a projection already; those of an original are gone. */
  ghost predicate IsProjection(text: TextModel, a: Item, b: Item, excerpt: nat) {
    && a.Output? && a.payload.Text? && b.Output? && b.payload.Text? && b.callId == a.callId && b.role == a.role
    && b.body == text.project(a, excerpt).body && b.payload.chars == text.project(a, excerpt).chars
    && WasCompacted(b)
    && b.payload.decoded.evidence == EvidenceIds(a.payload.decoded)
    && (b.payload.decoded.preserve <==> WasCompacted(a) && a.payload.decoded.preserve)
    && (b.payload.decoded.summary <==> WasCompacted(a) && a.payload.decoded.summary)
    && (b.payload.decoded.report <==> WasCompacted(a) && a.payload.decoded.report)
  }

  /** An item compacts to another exactly when that is its projection and shorter, and the item
      is a projection already, or longer than 1600 characters, or compaction is forced. */
  lemma CompactsExactlyWhen(text: TextModel, a: Item, b: Item, excerpt: nat, force: bool)
    ensures Compact(text, a, excerpt, force) == Some(b) <==>
      && IsProjection(text, a, b, excerpt) && text.size(b) < text.size(a)
      && (WasCompacted(a) || force || a.payload.chars > 1600)
  {
  }

  /** b comes from a by compactions with this excerpt, none or more. */
  ghost predicate Shortens(text: TextModel, a: Item, b: Item, excerpt: nat, force: bool)
    decreases text.size(a)
  {
    || b == a
    || (Compact(text, a, excerpt, force).Some?
        && Shortens(text, Compact(text, a, excerpt, force).value, b, excerpt, force))
  }

  /** Nothing is left to compact of the item. */
  predicate Settled(text: TextModel, item: Item, excerpt: nat, force: bool) {
    Compact(text, item, excerpt, force).None?
  }

  lemma ShortensOnly(text: TextModel, a: Item, b: Item, excerpt: nat, force: bool)
    requires Settled(text, a, excerpt, force) && Shortens(text, a, b, excerpt, force)
    ensures b == a
  {
  }

  lemma ShortensNext(text: TextModel, a: Item, b: Item, excerpt: nat, force: bool)
    requires Compact(text, a, excerpt, force).Some?
    requires Shortens(text, Compact(text, a, excerpt, force).value, b, excerpt, force)
    ensures Shortens(text, a, b, excerpt, force)
  {
  }

  // ----- one loop -----

  /** Active items before position n are shortened as far as they go, those after it are as
      they were, and the one at n may be shortened. */
  ghost predicate UpTo(text: TextModel, items: seq<Item>, from: nat, excerpt: nat, force: bool, n: nat, r: seq<Item>) {
    && |r| == |items| && from <= n <= |items|
    && (forall k :: 0 <= k < from ==> r[k] == items[k])
    && (forall k :: from <= k < n ==> Settled(text, r[k], excerpt, force))
    && (forall k :: from <= k <= n && k < |items| ==> Shortens(text, items[k], r[k], excerpt, force))
    && (forall k :: n < k < |items| ==> r[k] == items[k])
  }

  /** Without its last compaction, which was that of item k, the request did not fit. */
  ghost predicate LastNeeded(c: Context, items: seq<Item>, excerpt: nat, force: bool, r: seq<Item>, k: nat,
      before: Item) {
    && k < |r| == |items|
    && Shortens(c.text, items[k], before, excerpt, force) && Compact(c.text, before, excerpt, force) == Some(r[k])
    && !Fits(c, r[k := before])
    && forall j :: k < j < |r| ==> r[j] == items[j]
  }

  ghost predicate AnyNeeded(c: Context, items: seq<Item>, excerpt: nat, force: bool, r: seq<Item>) {
    exists k, before :: LastNeeded(c, items, excerpt, force, r, k, before)
  }

  /** Oldest first, and no more than needed: the loop stops at a request that fits or when all
      active items are settled, and its last compaction, if any, was needed. */
  ghost predicate OldestFirst(c: Context, items: seq<Item>, from: nat, excerpt: nat, force: bool, r: seq<Item>) {
    && (exists n :: UpTo(c.text, items, from, excerpt, force, n, r) && (Fits(c, r) || n == |items|))
    && (r == items || AnyNeeded(c, items, excerpt, force, r))
    && (Fits(c, items) ==> r == items)
  }

  lemma {:induction false} LoopIsOldestFirst(c: Context, items: seq<Item>, from: nat, excerpt: nat, force: bool)
    requires from <= |items|
    ensures OldestFirst(c, items, from, excerpt, force, CompactUntilFit(c, items, from, excerpt, force))
    decreases Total(c.text, items)
  {
    hide Fits, Compact, Shortens, UpTo, AnyNeeded;
    var i := FirstCompactable(c.text, items, from, excerpt, force);
    var r := CompactUntilFit(c, items, from, excerpt, force);
    if Fits(c, items) {
      StandsStill(c.text, items, from, excerpt, force, from);
    } else if i.None? {
      StandsStill(c.text, items, from, excerpt, force, |items|);
    } else {
      var item := Compact(c.text, items[i.value], excerpt, force).value;
      CompactShorter(c.text, items[i.value], excerpt, force);
      TotalReplace(c.text, items, i.value, item);
      var next := items[i.value := item];
      LoopIsOldestFirst(c, next, from, excerpt, force);
      var n :| UpTo(c.text, next, from, excerpt, force, n, r) && (Fits(c, r) || n == |items|);
      OneMoreCompaction(c.text, items, from, excerpt, force, i.value, n, r);
      OneMoreNeeded(c, items, from, excerpt, force, i.value, r);
    }
  }

  lemma StandsStill(text: TextModel, items: seq<Item>, from: nat, excerpt: nat, force: bool, n: nat)
    requires from <= n <= |items| && forall k :: from <= k < n ==> Compact(text, items[k], excerpt, force).None?
    ensures UpTo(text, items, from, excerpt, force, n, items)
  {
  }

  lemma OneMoreCompaction(text: TextModel, items: seq<Item>, from: nat, excerpt: nat, force: bool, i: nat, n: nat,
      r: seq<Item>)
    requires from <= i < |items| && Compact(text, items[i], excerpt, force).Some?
    requires forall k :: from <= k < i ==> Compact(text, items[k], excerpt, force).None?
    requires UpTo(text, items[i := Compact(text, items[i], excerpt, force).value], from, excerpt, force, n, r)
    ensures UpTo(text, items, from, excerpt, force, if n < i then i else n, r)
  {
    hide Compact, Shortens;
    var next := items[i := Compact(text, items[i], excerpt, force).value];
    forall k | from <= k < i && k <= n ensures r[k] == items[k] {
      ShortensOnly(text, next[k], r[k], excerpt, force);
    }
    forall k | from <= k <= i ensures Shortens(text, items[k], r[k], excerpt, force) {
      if k == i {
        ShortensItself(text, next[i], excerpt, force);
        ShortensNext(text, items[i], r[i], excerpt, force);
      } else {
        ShortensItself(text, items[k], excerpt, force);
      }
    }
  }

  lemma ShortensItself(text: TextModel, a: Item, excerpt: nat, force: bool)
    ensures Shortens(text, a, a, excerpt, force)
  {
  }

  lemma OneMoreNeeded(c: Context, items: seq<Item>, from: nat, excerpt: nat, force: bool, i: nat, r: seq<Item>)
    requires from <= i < |items| && Compact(c.text, items[i], excerpt, force).Some? && !Fits(c, items)
    requires forall k :: from <= k < i ==> Compact(c.text, items[k], excerpt, force).None?
    requires var next := items[i := Compact(c.text, items[i], excerpt, force).value];
      && (r == next || AnyNeeded(c, next, excerpt, force, r))
      && (exists n :: UpTo(c.text, next, from, excerpt, force, n, r))
    ensures AnyNeeded(c, items, excerpt, force, r)
  {
    hide Compact, Shortens, Fits, UpTo;
    var next := items[i := Compact(c.text, items[i], excerpt, force).value];
    if r == next {
      ShortensItself(c.text, items[i], excerpt, force);
      assert r[i := items[i]] == items;
      assert LastNeeded(c, items, excerpt, force, r, i, items[i]);
    } else {
      var k, before :| LastNeeded(c, next, excerpt, force, r, k, before);
      var n :| UpTo(c.text, next, from, excerpt, force, n, r);
      NotBefore(c, items, from, excerpt, force, i, n, r, k, before);
      if k == i { ShortensNext(c.text, items[i], before, excerpt, force); }
      assert LastNeeded(c, items, excerpt, force, r, k, before);
    }
  }

  /** Nothing before the first item that compacts is compacted. */
  lemma NotBefore(c: Context, items: seq<Item>, from: nat, excerpt: nat, force: bool, i: nat, n: nat, r: seq<Item>,
      k: nat, before: Item)
    requires from <= i < |items| && Compact(c.text, items[i], excerpt, force).Some?
    requires forall j :: from <= j < i ==> Compact(c.text, items[j], excerpt, force).None?
    requires var next := items[i := Compact(c.text, items[i], excerpt, force).value];
      UpTo(c.text, next, from, excerpt, force, n, r) && LastNeeded(c, next, excerpt, force, r, k, before)
    ensures i <= k
  {
    hide Compact, Shortens, Fits;
    if k < i {
      if k < from {
        ShorterThan(c.text, items[k], before, excerpt, force);
        CompactShorter(c.text, before, excerpt, force);
      } else {
        ShortensOnly(c.text, items[k], before, excerpt, force);
      }
    }
  }

  lemma {:induction false} ShorterThan(text: TextModel, a: Item, b: Item, excerpt: nat, force: bool)
    requires Shortens(text, a, b, excerpt, force)
    ensures text.size(b) <= text.size(a)
    decreases text.size(a)
  {
    if b != a {
      CompactShorter(text, a, excerpt, force);
      ShorterThan(text, Compact(text, a, excerpt, force).value, b, excerpt, force);
    }
  }

  // ----- the whole recovery -----

  /** What compaction leaves of the active items: first outputs longer than 1600 characters and
      repeated projections, to excerpts of 1000 characters; then, of what is left, any output,
      to excerpts of 160. */
  ghost predicate TwoStages(c: Context, active: seq<Item>, from: nat, mid: seq<Item>, last: seq<Item>) {
    OldestFirst(c, active, from, 1000, false, mid) && OldestFirst(c, mid, from, 160, true, last)
  }

  /** Every recovery compacts in these two stages, and then only drops exchanges. */
  lemma RecoveredCompaction(c: Context, input: seq<Item>, initial: nat, r: Recovery)
      returns (mid: seq<Item>, last: seq<Item>)
    requires Recovered(c, input, initial, r)
    ensures TwoStages(c, input[initial - r.history..], r.history, mid, last)
    ensures r.items == DropUntilFit(c, last, r.history)
  {
    hide OldestFirst, CompactUntilFit, DropUntilFit, ShortestTurns, Ledger, ReportOf, Fits, OnlyTurns;
    var active := input[initial - r.history..];
    mid := CompactUntilFit(c, active, r.history, MAX_TOOL_OUTPUT_EXCERPT_CHARS, false);
    last := CompactUntilFit(c, mid, r.history, MINIMAL_TOOL_OUTPUT_EXCERPT_CHARS, true);
    LoopIsOldestFirst(c, active, r.history, MAX_TOOL_OUTPUT_EXCERPT_CHARS, false);
    LoopIsOldestFirst(c, mid, r.history, MINIMAL_TOOL_OUTPUT_EXCERPT_CHARS, true);
  }

  /** An output of at most 1600 characters that is no projection. */
  predicate IsShort(item: Item) {
    item.Output? && item.payload.Text? && item.payload.chars <= 1600 && !WasCompacted(item)
  }

  /** An output is cut to 160 characters only if the request does not fit although no active
      output compacts any more to 1000; and one that is no projection and within 1600
      characters is left alone until then. */
  lemma ShortExcerptsAreLast(c: Context, active: seq<Item>, from: nat, mid: seq<Item>, last: seq<Item>)
    requires TwoStages(c, active, from, mid, last)
    ensures |mid| == |last| == |active|
    ensures last != mid ==>
      !Fits(c, mid) && forall k :: from <= k < |mid| ==> Settled(c.text, mid[k], 1000, false)
    ensures forall k :: 0 <= k < |active| && IsShort(active[k]) ==> mid[k] == active[k]
  {
    hide Fits, Compact, Shortens, AnyNeeded;
    var n :| UpTo(c.text, active, from, 1000, false, n, mid) && (Fits(c, mid) || n == |active|);
    var m :| UpTo(c.text, mid, from, 160, true, m, last);
    forall k | 0 <= k < |active| && IsShort(active[k]) ensures mid[k] == active[k] {
      ShortIsSettled(c.text, active[k]);
      if from <= k <= n { ShortensOnly(c.text, active[k], mid[k], 1000, false); }
    }
  }

  lemma ShortIsSettled(text: TextModel, item: Item)
    requires IsShort(item)
    ensures Settled(text, item, 1000, false)
  {
  }

  /** An item that a stage changed is its projection with the excerpt of that stage, if
      projecting a projection again gains nothing, and otherwise comes from that projection. */
  lemma ChangedIsProjected(text: TextModel, a: Item, b: Item, excerpt: nat, force: bool) returns (first: Item)
    requires Shortens(text, a, b, excerpt, force) && b != a
    ensures IsProjection(text, a, first, excerpt) && text.size(first) < text.size(a)
    ensures WasCompacted(a) || force || a.payload.chars > 1600
    ensures Shortens(text, first, b, excerpt, force)
    ensures Settled(text, first, excerpt, force) ==> b == first
  {
    first := Compact(text, a, excerpt, force).value;
    CompactsExactlyWhen(text, a, first, excerpt, force);
    hide Compact, IsProjection;
    if Settled(text, first, excerpt, force) { ShortensOnly(text, first, b, excerpt, force); }
  }

  // ----- what the last loop may not drop -----

  /** An output that names no call, is not an object, carries a marker, or has no evidence. */
  predicate Protected(item: Item) {
    item.Output? &&
      (|| item.callId == "" || item.payload.NotText? || item.payload.decoded.Opaque?
       || item.payload.decoded.preserve || item.payload.decoded.summary || item.payload.decoded.report
       || item.payload.decoded.evidence == {})
  }

  function ProtectedOf(items: seq<Item>): seq<Item> {
    if items == [] then []
    else if Protected(items[0]) then [items[0]] + ProtectedOf(items[1..]) else ProtectedOf(items[1..])
  }

  lemma {:induction false} ProtectedWithout(items: seq<Item>, i: nat)
    requires i < |items| && !Protected(items[i])
    ensures ProtectedOf(Without(items, i)) == ProtectedOf(items)
  {
    hide Protected;
    if i == 0 {
      assert Without(items, 0) == items[1..];
    } else {
      ProtectedWithout(items[1..], i - 1);
      assert Without(items, i)[1..] == Without(items[1..], i - 1);
    }
  }

  lemma DroppedAreNotProtected(items: seq<Item>, p: (nat, nat))
    requires p.0 < |items| && p.1 < |items| && p.0 != p.1 && items[p.0].Call? && Droppable(items[p.1])
    ensures ProtectedOf(WithoutPair(items, p)) == ProtectedOf(items)
  {
    var low, high := Min(p.0, p.1), Max(p.0, p.1);
    ProtectedWithout(items, high);
    ProtectedWithout(Without(items, high), low);
  }

  /** The last loop leaves every protected output, in order, whatever the identifiers. */
  lemma {:induction false} DroppingKeepsProtected(c: Context, items: seq<Item>, from: nat)
    ensures ProtectedOf(DropUntilFit(c, items, from)) == ProtectedOf(items)
    decreases |items|
  {
    hide Fits, ProtectedOf, OldestExchange, WithoutPair, Droppable;
    var p := OldestExchange(items, from, 0);
    if !Fits(c, items) && p.Some? {
      ExchangeIndices(items, from, 0);
      DroppedAreNotProtected(items, p.value);
      DroppingKeepsProtected(c, WithoutPair(items, p.value), from);
    }
  }

  /** Item j is an output with the identifier of call i. */
  predicate Answers(items: seq<Item>, i: int, j: int) {
    && 0 <= i < |items| && 0 <= j < |items|
    && items[i].Call? && items[j].Output? && items[i].callId == items[j].callId
  }

  /** Nothing can be dropped exactly when every output with the identifier of a call is
      protected. */
  lemma NothingToDropExactlyWhen(items: seq<Item>)
    ensures OldestExchange(items, 0, 0).None? <==>
      forall i, j :: Answers(items, i, j) ==> Protected(items[j])
  {
    if OldestExchange(items, 0, 0).Some? {
      ExchangeIndices(items, 0, 0);
      var p := OldestExchange(items, 0, 0).value;
      assert Answers(items, p.0, p.1);
    } else {
      forall i, j | Answers(items, i, j) ensures Protected(items[j]) {
        if !Protected(items[j]) { CallIsCandidate(items, 0, OutputIndex(items, 0), i); }
      }
    }
  }

  lemma {:induction false} CallIsCandidate(items: seq<Item>, from: nat, outputs: map<string, nat>, i: nat)
    requires from <= i < |items| && items[i].Call? && items[i].callId in outputs
    ensures Candidates(items, from, outputs) != []
  {
    if i < |items| - 1 {
      assert items[..|items| - 1][i] == items[i];
      CallIsCandidate(items[..|items| - 1], from, outputs, i);
    }
  }
}
