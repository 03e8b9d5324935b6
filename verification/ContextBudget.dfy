/** Context-budget recovery as functions: how a request is measured, how an item is
    compacted, which exchange is the oldest one that may go, and what each of the four
    reduction loops of `recover_context_request` leaves.

    The text of an item is opaque. A `TextModel` gives its serialized length and the text a
    projection of it would have; nothing is assumed about either. */
module ContextBudget {
  import opened Results
  import opened Ordering

  const MAX_COMPACTED_TOOL_OUTPUT_CHARS: nat := 1600
  const MAX_TOOL_OUTPUT_EXCERPT_CHARS: nat := 1000
  const MINIMAL_TOOL_OUTPUT_EXCERPT_CHARS: nat := 160

  /** What the code looks at in a decoded tool output. Opaque covers text that is not JSON
      and JSON that is not an object. */
  datatype Decoded = Opaque | Fields(compacted: bool, evidence: set<string>, preserve: bool, summary: bool,
      report: bool)

  datatype Payload = NotText | Text(chars: nat, decoded: Decoded)

  datatype Item =
    | Plain(role: string, body: string)
    | Call(callId: string, role: string, body: string)
    | Output(callId: string, role: string, payload: Payload, body: string)

  datatype Projected = Projected(body: string, chars: nat)

  /** `size` is the length of an item's JSON; `project` the output text of its projection
      with the given excerpt length. */
  datatype TextModel = TextModel(size: Item -> nat, project: (Item, nat) -> Projected)

  /** `overhead` is the length of the request without its input items: the instructions,
      the tools and the enclosing object and list. */
  datatype Context = Context(text: TextModel, overhead: nat, configured: int, runtime: int, reserved: int, margin: int)

  // ----- measuring -----

  function Total(text: TextModel, items: seq<Item>): nat {
    if items == [] then 0 else text.size(items[0]) + Total(text, items[1..])
  }

  /** The length of the request: list items are joined by two characters. */
  function RequestChars(c: Context, items: seq<Item>): nat {
    c.overhead + Total(c.text, items) + (if items == [] then 0 else 2 * (|items| - 1))
  }

  /** `estimate_tokens`: a quarter of the length, rounded up, and at least one. */
  function Estimate(chars: nat): nat {
    Max(1, (chars + 3) / 4)
  }

  function Estimated(c: Context, items: seq<Item>): nat {
    Estimate(RequestChars(c, items))
  }

  /** `effective_input_budget` */
  function Effective(c: Context): nat {
    var configured := Max(0, c.configured);
    var runtime := Max(0, c.runtime);
    if runtime == 0 then configured
    else Min(configured, Max(0, runtime - Max(0, c.reserved) - Max(0, c.margin)))
  }

  predicate Fits(c: Context, items: seq<Item>) {
    Estimated(c, items) <= Effective(c)
  }

  // ----- reduction steps and reports, with the checks of their constructors -----

  datatype Kind = DropOldestUnpinnedTurn | CompactCompletedToolOutput | DropOldestEvidenceToolExchange

  /** Items stand for their signatures. */
  datatype Step = Step(kind: Kind, affected: int, original: seq<Item>, replacement: seq<Item>, tokensBefore: int,
      tokensAfter: int)

  datatype Verdict = Fit | InsufficientContextBudget

  datatype Report = Report(
    verdict: Verdict,
    configured: int,
    effective: int,
    runtime: int,
    reserved: int,
    margin: int,
    estimated: int,
    overage: int,
    historyCount: int,
    activeCount: int,
    removed: int,
    compacted: int,
    dropped: int,
    steps: seq<Step>)

  datatype CheckError =
    | HistoryCountInvalid
    | NothingAffected
    | SignatureCountMismatch
    | DroppedHasReplacement
    | ReplacementCountMismatch
    | TokenCountsInvalid
    | NegativeField
    | OverageMismatch
    | VerdictMismatch

  /** `ContextReductionStep.__post_init__` */
  function CheckStep(s: Step): Result<Step, CheckError> {
    if s.affected < 1 then Err(NothingAffected)
    else if s.affected != |s.original| then Err(SignatureCountMismatch)
    else if s.kind != CompactCompletedToolOutput && s.replacement != [] then Err(DroppedHasReplacement)
    else if s.kind == CompactCompletedToolOutput && s.affected != |s.replacement| then Err(ReplacementCountMismatch)
    else if s.tokensBefore < 0 || s.tokensAfter < 0 || s.tokensAfter > s.tokensBefore then Err(TokenCountsInvalid)
    else Ok(s)
  }

  /** `ContextBudgetReport.__post_init__` */
  function CheckReport(r: Report): Result<Report, CheckError> {
    if r.configured < 0 || r.effective < 0 || r.runtime < 0 || r.reserved < 0 || r.margin < 0 || r.estimated < 0
       || r.overage < 0 || r.historyCount < 0 || r.activeCount < 0 || r.removed < 0 || r.compacted < 0 || r.dropped < 0
    then Err(NegativeField)
    else if r.overage != Max(0, r.estimated - r.effective) then Err(OverageMismatch)
    else if r.verdict != (if Max(0, r.estimated - r.effective) == 0 then Fit else InsufficientContextBudget)
      then Err(VerdictMismatch)
    else Ok(r)
  }

  function Affected(steps: seq<Step>, kind: Kind): int {
    if steps == [] then 0
    else
      Affected(steps[..|steps| - 1], kind)
      + (if steps[|steps| - 1].kind == kind then steps[|steps| - 1].affected else 0)
  }

  function CountKind(steps: seq<Step>, kind: Kind): nat {
    if steps == [] then 0
    else CountKind(steps[..|steps| - 1], kind) + (if steps[|steps| - 1].kind == kind then 1 else 0)
  }

  function ReportOf(c: Context, items: seq<Item>, history: int, removed: int, steps: seq<Step>): Report {
    var overage := Max(0, Estimated(c, items) - Effective(c));
    Report(if overage == 0 then Fit else InsufficientContextBudget,
           Max(0, c.configured), Effective(c), Max(0, c.runtime), Max(0, c.reserved), Max(0, c.margin),
           Estimated(c, items), overage, history, |items| - history, Max(0, removed),
           Affected(steps, CompactCompletedToolOutput), CountKind(steps, DropOldestEvidenceToolExchange), steps)
  }

  /** `_build_report` */
  function BuildReport(c: Context, items: seq<Item>, history: int, removed: int,
      steps: seq<Step>): Result<Report, CheckError> {
    CheckReport(ReportOf(c, items, history, removed, steps))
  }

  // ----- loop one: history -----

  function RoleOf(item: Item): string { item.role }

  /** `_oldest_history_turn_size` */
  function OldestTurnSize(history: seq<Item>): (n: nat)
    ensures n <= |history|
    ensures history != [] ==> 1 <= n
  {
    if history == [] then 0
    else if RoleOf(history[0]) != "user" || |history| == 1 then 1
    else if RoleOf(history[1]) == "assistant" then 2 else 1
  }

  /** A prefix of k items is made of whole oldest turns. */
  ghost predicate TurnAligned(history: seq<Item>, k: nat)
    decreases |history|
  {
    k == 0 || (history != [] && OldestTurnSize(history) <= k
      && TurnAligned(history[OldestTurnSize(history)..], k - OldestTurnSize(history)))
  }

  // ----- loops two and three: compaction -----

  function EvidenceIds(d: Decoded): set<string> {
    if d.Fields? then d.evidence else {}
  }

  /** The projection that would replace an output, keeping its call and its evidence. A first
      projection drops the markers of the original, a repeated one keeps what it finds. */
  function ProjectionOf(text: TextModel, item: Item, excerpt: nat): Item
    requires item.Output? && item.payload.Text?
  {
    var p, d := text.project(item, excerpt), item.payload.decoded;
    var fields := if d.Fields? && d.compacted then d else Fields(true, EvidenceIds(d), false, false, false);
    Output(item.callId, item.role, Text(p.chars, fields), p.body)
  }

  /** `_compact_tool_output_item` */
  function Compact(text: TextModel, item: Item, excerpt: nat, force: bool): Option<Item> {
    if !item.Output? || item.payload.NotText? then None
    else
      var d := item.payload.decoded;
      if !(d.Fields? && d.compacted) && !force && item.payload.chars <= MAX_COMPACTED_TOOL_OUTPUT_CHARS then None
      else
        var projection := ProjectionOf(text, item, excerpt);
        if text.size(projection) >= text.size(item) then None else Some(projection)
  }

  /** The first index from `from` on whose item compacts. */
  function FirstCompactable(text: TextModel, items: seq<Item>, from: nat, excerpt: nat, force: bool): (r: Option<nat>)
    requires from <= |items|
    ensures r.Some? ==> from <= r.value < |items| && Compact(text, items[r.value], excerpt, force).Some?
    ensures r.Some? ==> forall k :: from <= k < r.value ==> Compact(text, items[k], excerpt, force).None?
    ensures r.None? ==> forall k :: from <= k < |items| ==> Compact(text, items[k], excerpt, force).None?
    decreases |items| - from
  {
    if from == |items| then None
    else if Compact(text, items[from], excerpt, force).Some? then Some(from)
    else FirstCompactable(text, items, from + 1, excerpt, force)
  }

  lemma {:induction false} TotalReplace(text: TextModel, items: seq<Item>, i: nat, item: Item)
    requires i < |items|
    ensures Total(text, items[i := item]) == Total(text, items) - text.size(items[i]) + text.size(item)
  {
    if i == 0 {
      assert items[0 := item][1..] == items[1..];
    } else {
      assert items[i := item][1..] == items[1..][i - 1 := item];
      TotalReplace(text, items[1..], i - 1, item);
    }
  }

  /** Compacting the oldest compactable output, again and again, until the request fits or
      none compacts: what each compaction loop computes. It ends because every compaction
      shortens the request. */
  function CompactUntilFit(c: Context, items: seq<Item>, from: nat, excerpt: nat, force: bool): (r: seq<Item>)
    requires from <= |items|
    ensures |r| == |items|
    decreases Total(c.text, items)
  {
    var i := FirstCompactable(c.text, items, from, excerpt, force);
    if Fits(c, items) || i.None? then items
    else
      var item := Compact(c.text, items[i.value], excerpt, force).value;
      TotalReplace(c.text, items, i.value, item);
      CompactUntilFit(c, items[i.value := item], from, excerpt, force)
  }

  /** b is a, or a shorter projection of it with the same call and the same evidence. */
  ghost predicate SameOrCompacted(text: TextModel, a: Item, b: Item) {
    || b == a
    || (&& a.Output? && b.Output? && a.payload.Text? && b.payload.Text?
        && b.callId == a.callId && b.role == a.role
        && EvidenceIds(b.payload.decoded) == EvidenceIds(a.payload.decoded)
        && text.size(b) < text.size(a))
  }

  ghost predicate AllSameOrCompacted(text: TextModel, a: seq<Item>, b: seq<Item>) {
    |a| == |b| && forall i :: 0 <= i < |a| ==> SameOrCompacted(text, a[i], b[i])
  }

  lemma CompactKeeps(text: TextModel, item: Item, excerpt: nat, force: bool)
    requires Compact(text, item, excerpt, force).Some?
    ensures SameOrCompacted(text, item, Compact(text, item, excerpt, force).value)
  {
  }

  /** The compaction loops keep every item but outputs, and of an output its call and its
      evidence; they stop only at a request that fits or with nothing left to compact. */
  lemma {:induction false} CompactUntilFitSound(c: Context, items: seq<Item>, from: nat, excerpt: nat, force: bool)
    requires from <= |items|
    ensures var r := CompactUntilFit(c, items, from, excerpt, force);
      && AllSameOrCompacted(c.text, items, r)
      && (forall k :: 0 <= k < from ==> r[k] == items[k])
      && (Fits(c, r) || forall k :: from <= k < |r| ==> Compact(c.text, r[k], excerpt, force).None?)
    decreases Total(c.text, items)
  {
    hide Fits, Compact, SameOrCompacted;
    var i := FirstCompactable(c.text, items, from, excerpt, force);
    if Fits(c, items) || i.None? {
      forall k | 0 <= k < |items| ensures SameOrCompacted(c.text, items[k], items[k]) { Itself(c.text, items[k]); }
    } else {
      var item := Compact(c.text, items[i.value], excerpt, force).value;
      CompactKeeps(c.text, items[i.value], excerpt, force);
      CompactShorter(c.text, items[i.value], excerpt, force);
      TotalReplace(c.text, items, i.value, item);
      var next := items[i.value := item];
      CompactUntilFitSound(c, next, from, excerpt, force);
      var r := CompactUntilFit(c, next, from, excerpt, force);
      forall k | 0 <= k < |items| ensures SameOrCompacted(c.text, items[k], r[k]) {
        if k == i.value { StillCompacted(c.text, items[k], next[k], r[k]); } else { assert next[k] == items[k]; }
      }
    }
  }

  lemma Itself(text: TextModel, a: Item)
    ensures SameOrCompacted(text, a, a)
  {
  }

  lemma CompactShorter(text: TextModel, item: Item, excerpt: nat, force: bool)
    requires Compact(text, item, excerpt, force).Some?
    ensures text.size(Compact(text, item, excerpt, force).value) < text.size(item)
  {
  }

  lemma StillCompacted(text: TextModel, a: Item, b: Item, d: Item)
    requires SameOrCompacted(text, a, b) && SameOrCompacted(text, b, d)
    ensures SameOrCompacted(text, a, d)
  {
  }

  // ----- loop four: exchanges -----

  /** An output the fourth loop may drop: it names a call, its text is an object with
      evidence, and it is not marked or of a kind to be preserved. */
  predicate Droppable(item: Item) {
    && item.Output? && item.callId != "" && item.payload.Text? && item.payload.decoded.Fields?
    && !item.payload.decoded.preserve && !item.payload.decoded.summary && !item.payload.decoded.report
    && item.payload.decoded.evidence != {}
  }

  /** The dictionary from call identifiers to the index of their last droppable output. */
  function OutputIndex(items: seq<Item>, from: nat): (m: map<string, nat>)
    ensures forall id :: id in m ==> from <= m[id] < |items| && Droppable(items[m[id]]) && items[m[id]].callId == id
    ensures forall k :: from <= k < |items| && Droppable(items[k]) ==> items[k].callId in m && k <= m[items[k].callId]
  {
    if |items| <= from then map[]
    else
      var before, last := OutputIndex(items[..|items| - 1], from), items[|items| - 1];
      if Droppable(last) then before[last.callId := |items| - 1] else before
  }

  /** The pairs (call, output) in the order of the calls. */
  function Candidates(items: seq<Item>, from: nat, outputs: map<string, nat>): (r: seq<(nat, nat)>)
    ensures forall k :: 0 <= k < |r| ==>
      from <= r[k].0 < |items| && items[r[k].0].Call? && items[r[k].0].callId in outputs
      && r[k].1 == outputs[items[r[k].0].callId]
  {
    if |items| <= from then []
    else
      var before, last := Candidates(items[..|items| - 1], from, outputs), items[|items| - 1];
      if last.Call? && last.callId in outputs then before + [(|items| - 1, outputs[last.callId])] else before
  }

  /** `_oldest_evidence_tool_exchange` */
  function OldestExchange(items: seq<Item>, from: nat, retain: nat): Option<(nat, nat)> {
    var candidates := Candidates(items, from, OutputIndex(items, from));
    if |candidates| <= retain then None else Some(candidates[0])
  }

  function Without(items: seq<Item>, i: nat): seq<Item>
    requires i < |items|
  {
    items[..i] + items[i + 1..]
  }

  /** Deleting a call and its output, the later index first. */
  function WithoutPair(items: seq<Item>, p: (nat, nat)): (r: seq<Item>)
    requires p.0 < |items| && p.1 < |items| && p.0 != p.1
    ensures |r| == |items| - 2
  {
    if p.0 < p.1 then Without(Without(items, p.1), p.0) else Without(Without(items, p.0), p.1)
  }

  /** A call and a droppable output are different items. */
  lemma ExchangeIndices(items: seq<Item>, from: nat, retain: nat)
    requires OldestExchange(items, from, retain).Some?
    ensures var p := OldestExchange(items, from, retain).value;
      && from <= p.0 < |items| && from <= p.1 < |items| && p.0 != p.1
      && items[p.0].Call? && Droppable(items[p.1]) && items[p.0].callId == items[p.1].callId
  {
  }

  /** Dropping the oldest droppable exchange, again and again, until the request fits or
      none is left. */
  function DropUntilFit(c: Context, items: seq<Item>, from: nat): seq<Item>
    decreases |items|
  {
    var p := OldestExchange(items, from, 0);
    if Fits(c, items) || p.None? then items
    else
      ExchangeIndices(items, from, 0);
      DropUntilFit(c, WithoutPair(items, p.value), from)
  }

  /** Keeping the two newest while more than two are left, and then none, drops the same
      exchange as never keeping any. */
  lemma TwoTiersAreOne(items: seq<Item>, from: nat)
    ensures OldestExchange(items, from, 0) ==
      if OldestExchange(items, from, 2).Some? then OldestExchange(items, from, 2) else OldestExchange(items, from, 0)
  {
  }
}
