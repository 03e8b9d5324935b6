/** The progress and cycle controller as functions on values: what one assessment decides and
    what the controller remembers of it, with bounded and with unbounded memory. */
module LoopControl {
  import opened Results

  type Atom = string
  type Signature = string

  /** The system projection an assessment compares; its signature is a digest, compared only
      for equality. */
  datatype Projection = Projection(
    evidence: set<Atom>,
    active: set<Atom>,
    collisions: set<Atom>,
    control: set<Atom>,
    hypothesisDefinitions: set<Atom>,
    hypothesisEvidence: set<Atom>,
    uncertainty: int,
    signature: Signature)

  const SCORE_SCALE := 10000
  const MIN_GOAL_PROGRESS := 100
  const MIN_RISK_PROGRESS := 100
  const MIN_BOUNDARY_PROGRESS := 100
  const MIN_INFORMATION_GAIN := 100

  datatype Reason = NovelEvidence | GoalImprovement | RiskReduction | BoundaryResolution | DiscriminatingExperiment
    | TerminalReason
    | HypothesisBookkeeping | BoundedControlProgress

  datatype Metrics = Metrics(
    evidenceGain: int,
    uncertaintyReduction: int,
    goalImprovement: int,
    riskReduction: int,
    boundaryReduction: int,
    informationGain: int,
    novelEvidence: bool,
    novelExperiment: bool,
    terminal: bool)

  datatype Certificate = Certificate(metrics: Metrics, hypothesisResolution: int, accepted: bool, reasons: set<Reason>)

  datatype ScoreError = ScoreOutOfRange

  predicate Unsigned(v: int) { 0 <= v <= SCORE_SCALE }

  predicate Signed(v: int) { -SCORE_SCALE <= v <= SCORE_SCALE }

  function BaseReasons(m: Metrics): set<Reason> {
    (if m.novelEvidence && m.evidenceGain > 0 then {NovelEvidence} else {})
    + (if m.goalImprovement >= MIN_GOAL_PROGRESS then {GoalImprovement} else {})
    + (if m.riskReduction >= MIN_RISK_PROGRESS then {RiskReduction} else {})
    + (if m.boundaryReduction >= MIN_BOUNDARY_PROGRESS then {BoundaryResolution} else {})
    + (if m.novelExperiment && m.informationGain >= MIN_INFORMATION_GAIN then {DiscriminatingExperiment} else {})
    + (if m.terminal then {TerminalReason} else {})
  }

  /** `certify_progress`: accepted exactly when some reason is found. */
  function CertifyProgress(m: Metrics): Result<Certificate, ScoreError> {
    if !Unsigned(m.evidenceGain) || !Signed(m.uncertaintyReduction) || !Signed(m.goalImprovement)
      || !Signed(m.riskReduction)
       || !Signed(m.boundaryReduction) || !Unsigned(m.informationGain)
    then Err(ScoreOutOfRange)
    else Ok(Certificate(m, 0, BaseReasons(m) != {}, BaseReasons(m)))
  }

  datatype TerminalState = Continue | SolutionOrModelFinal | CycleStop

  datatype CycleKind = NoCycle | ControlOnlyBudgetExhausted | NoVerifiedProgress | VerifiedStateCycle
    | SemanticPeriodicCycle | ComputeBudgetExhausted

  datatype Assessment = Assessment(
    certificate: Certificate,
    allowed: bool,
    terminalState: TerminalState,
    cycleKind: CycleKind,
    period: nat,
    step: Signature,
    before: Signature,
    after: Signature,
    newEvidence: nat,
    newCollisions: nat,
    newControl: nat,
    newDefinitions: nat,
    newLinks: nat,
    controlOnly: bool,
    streak: nat)

  /** The fields of `LoopProgressController`. */
  datatype Memory = Memory(window: nat, maxPeriod: nat, maxControlOnly: nat, streak: nat, steps: seq<Signature>,
      states: seq<Signature>, assessments: seq<Assessment>) {
    ghost predicate Valid() {
      && 4 <= window <= 64 && 1 <= maxPeriod <= window / 2 && maxControlOnly <= 16
      && |steps| == |states| == |assessments|
    }

    /** The three lists are equally long and no longer than the window. */
    ghost predicate Bounded() {
      Valid() && |steps| <= window
    }
  }

  function Clamp(v: int, low: int, high: int): int {
    if (if v < high then v else high) > low then (if v < high then v else high) else low
  }

  /** The constructor's clamping of its arguments. */
  function Initial(window: int, maxPeriod: int, maxControlOnly: int, streak: int): (m: Memory)
    ensures m.Bounded()
  {
    var w := Clamp(window, 4, 64);
    Memory(w, Clamp(maxPeriod, 1, w / 2), Clamp(maxControlOnly, 0, 16), if streak < 0 then 0 else streak, [], [], [])
  }

  /** `s[-n:]` for positive n */
  function Last<T>(s: seq<T>, n: nat): (r: seq<T>)
    ensures |r| == if |s| <= n then |s| else n
  {
    if |s| <= n then s else s[|s| - n..]
  }

  // ----- what one assessment measures -----

  datatype Change = Change(evidence: nat, collisions: nat, control: nat, definitions: nat, links: nat, boundary: int) {
    predicate Epistemic() { evidence > 0 || collisions > 0 || boundary >= 100 }
    predicate ControlOnly() { (control > 0 || definitions > 0 || links > 0) && !Epistemic() }
    function Gain(): int { if evidence * 1000 + collisions * 500 < SCORE_SCALE
      then evidence * 1000 + collisions * 500 else SCORE_SCALE }
    function HypothesisResolution(): int { if links * 1000 < SCORE_SCALE then links * 1000 else SCORE_SCALE }
  }

  function ChangeOf(before: Projection, after: Projection): Change {
    Change(|(after.evidence - before.evidence) + (after.active - before.active)|,
           |after.collisions - before.collisions|,
           |after.control - before.control|,
           |after.hypothesisDefinitions - before.hypothesisDefinitions|,
           |after.hypothesisEvidence - before.hypothesisEvidence|,
           before.uncertainty - after.uncertainty)
  }

  function MetricsOf(d: Change, terminal: bool): Metrics {
    Metrics(d.Gain(), 0, 0, 0, d.boundary, 0, d.evidence > 0 || d.collisions > 0, false, terminal)
  }

  function NextStreak(streak: nat, d: Change, terminal: bool): nat {
    if terminal then 0 else if d.ControlOnly() then streak + 1 else if d.Epistemic() then 0 else streak
  }

  function FinalCertificate(base: Certificate, d: Change, streak: nat, maxControlOnly: nat): Certificate {
    var within := d.ControlOnly() && streak <= maxControlOnly;
    var over := d.ControlOnly() && streak > maxControlOnly;
    Certificate(base.metrics, d.HypothesisResolution(), !over && (base.accepted || within),
                base.reasons + (if d.HypothesisResolution() > 0 then {HypothesisBookkeeping} else {})
                  + (if within then {BoundedControlProgress} else {}))
  }

  // ----- period detection -----

  function CountOf(a: Assessment): nat { a.newEvidence + a.newCollisions }

  function TotalCount(s: seq<Assessment>): nat {
    if s == [] then 0 else CountOf(s[0]) + TotalCount(s[1..])
  }

  /** The last p steps equal the p steps before them. */
  predicate Repeats(steps: seq<Signature>, p: nat)
    requires p > 0
  {
    |steps| >= 2 * p && steps[|steps| - p..] == steps[|steps| - 2 * p..|steps| - p]
  }

  /** The test the loop makes of candidate period p: `steps` ends with the step being
      assessed, `past` holds the assessments of the ones before, `count` is its own count. */
  predicate DetectsAt(steps: seq<Signature>, past: seq<Assessment>, count: nat, p: nat)
    requires p > 0
  {
    Repeats(steps, p) && count + TotalCount(Last(past, 2 * p - 1)) == 0
  }

  /** The least detected period from p up, or zero. */
  function PeriodFrom(steps: seq<Signature>, past: seq<Assessment>, count: nat, p: nat, maxPeriod: nat): nat
    requires p > 0
    decreases maxPeriod + 1 - p
  {
    if p > maxPeriod then 0
    else if DetectsAt(steps, past, count, p) then p
    else PeriodFrom(steps, past, count, p + 1, maxPeriod)
  }

  // ----- one assessment -----

  /** The verdict, given the remembered states, steps and assessments. */
  function Decide(m: Memory, d: Change, before: Projection, after: Projection, step: Signature, terminal: bool,
      streak: nat, certificate: Certificate): Assessment {
    var over := d.ControlOnly() && streak > m.maxControlOnly;
    var period := PeriodFrom(m.steps + [step], m.assessments, d.evidence + d.collisions, 1, m.maxPeriod);
    var revisits := after.signature in Last(m.states, m.window) && after.signature != before.signature;
    var kind := if terminal then NoCycle
                else if over then ControlOnlyBudgetExhausted
                else if !certificate.accepted then NoVerifiedProgress
                else if revisits then VerifiedStateCycle
                else if period > 0 then SemanticPeriodicCycle
                else NoCycle;
    Assessment(certificate, kind == NoCycle,
               if terminal then SolutionOrModelFinal else if kind == NoCycle then Continue else CycleStop,
               kind, if kind == SemanticPeriodicCycle then period else 0,
               step, before.signature, after.signature,
               d.evidence, d.collisions, d.control, d.definitions, d.links, d.ControlOnly(), streak)
  }

  datatype Judged = Judged(memory: Memory, assessment: Assessment)

  /** `assess` with memory that forgets nothing. */
  function AssessFull(m: Memory, before: Projection, after: Projection, step: Signature,
      terminal: bool): Result<Judged, ScoreError> {
    var d := ChangeOf(before, after);
    match CertifyProgress(MetricsOf(d, terminal))
    case Err(e) => Err(e)
    case Ok(base) =>
      var streak := NextStreak(m.streak, d, terminal);
      var a := Decide(m, d, before, after, step, terminal, streak, FinalCertificate(base, d, streak, m.maxControlOnly));
      Ok(Judged(m.(streak := streak, steps := m.steps + [step], states := m.states
        + [after.signature], assessments := m.assessments + [a]), a))
  }

  function Trim(m: Memory): Memory {
    m.(steps := Last(m.steps, m.window), states := Last(m.states, m.window),
        assessments := Last(m.assessments, m.window))
  }

  /** `assess` as the controller runs it: the same, and then only the window is kept. */
  function Assess(m: Memory, before: Projection, after: Projection, step: Signature,
      terminal: bool): Result<Judged, ScoreError> {
    match AssessFull(m, before, after, step, terminal)
    case Err(e) => Err(e)
    case Ok(j) => Ok(Judged(Trim(j.memory), j.assessment))
  }

  function Stopped(a: Assessment): Assessment {
    a.(allowed := false, terminalState := CycleStop, cycleKind := ComputeBudgetExhausted, period := 0)
  }

  function ReplaceLast(j: Judged): Judged
  {
    var stopped := Stopped(j.assessment);
    if j.memory.assessments == [] then Judged(j.memory, stopped)
    else Judged(j.memory.(assessments := j.memory.assessments[|j.memory.assessments| - 1 := stopped]), stopped)
  }

  function ExhaustFull(m: Memory, p: Projection, step: Signature): Result<Judged, ScoreError> {
    match AssessFull(m, p, p, step, false)
    case Err(e) => Err(e)
    case Ok(j) => Ok(ReplaceLast(j))
  }

  /** `exhaust_budget` */
  function Exhaust(m: Memory, p: Projection, step: Signature): Result<Judged, ScoreError> {
    match Assess(m, p, p, step, false)
    case Err(e) => Err(e)
    case Ok(j) => Ok(ReplaceLast(j))
  }

  // ===== bounded memory loses nothing =====

  /** The bounded controller holds the last `window` entries of everything. */
  ghost predicate Remembers(bounded: Memory, full: Memory) {
    && bounded.Bounded() && full.Valid()
    && bounded == Trim(full)
  }

  lemma {:induction false} TotalCountAppend(a: seq<Assessment>, b: seq<Assessment>)
    ensures TotalCount(a + b) == TotalCount(a) + TotalCount(b)
  {
    if a == [] {
      assert a + b == b;
    } else {
      assert (a + b)[1..] == a[1..] + b;
      TotalCountAppend(a[1..], b);
    }
  }

  lemma RepeatsInSuffix(steps: seq<Signature>, p: nat)
    requires 0 < p && 2 * p <= |steps|
    ensures Repeats(steps, p) <==> Last(steps, 2 * p)[p..] == Last(steps, 2 * p)[..p]
  {
    var t, n := Last(steps, 2 * p), |steps|;
    assert t == steps[n - 2 * p..];
    assert t[p..] == steps[n - p..];
    assert t[..p] == steps[n - 2 * p..n - p];
  }

  lemma LastOfWindow<T>(s: seq<T>, x: T, n: nat, window: nat)
    requires n <= window
    ensures Last(Last(s, window) + [x], n) == Last(s + [x], n)
    ensures Last(Last(s, window), n) == Last(s, n)
  {
  }

  /** What the loop tests of period p depends on the last 2p steps only. */
  lemma DetectsInWindow(steps: seq<Signature>, past: seq<Assessment>, step: Signature, count: nat, p: nat, window: nat)
    requires p > 0 && 2 * p <= window && |steps| == |past|
    ensures DetectsAt(Last(steps, window) + [step], Last(past, window), count, p) ==
      DetectsAt(steps + [step], past, count, p)
  {
    hide Last, Repeats, TotalCount;
    var w, f := Last(steps, window) + [step], steps + [step];
    assert |w| >= 2 * p <==> |f| >= 2 * p;
    LastOfWindow(steps, step, 2 * p, window);
    if past != [] {
      LastOfWindow(past, past[0], 2 * p - 1, window);
    } else {
      assert Last(past, window) == past;
    }
    if |f| >= 2 * p {
      RepeatsInSuffix(w, p);
      RepeatsInSuffix(f, p);
    } else {
      ShortNeverRepeats(w, p);
      ShortNeverRepeats(f, p);
    }
  }

  lemma ShortNeverRepeats(steps: seq<Signature>, p: nat)
    requires 0 < p && |steps| < 2 * p
    ensures !Repeats(steps, p)
  {
  }

  lemma {:induction false} PeriodInWindow(steps: seq<Signature>, past: seq<Assessment>, step: Signature, count: nat,
      p: nat, maxPeriod: nat, window: nat)
    requires p > 0 && 2 * maxPeriod <= window && |steps| == |past|
    ensures PeriodFrom(Last(steps, window) + [step], Last(past, window), count, p, maxPeriod) ==
      PeriodFrom(steps + [step], past, count, p, maxPeriod)
    decreases maxPeriod + 1 - p
  {
    if p <= maxPeriod {
      DetectsInWindow(steps, past, step, count, p, window);
      PeriodInWindow(steps, past, step, count, p + 1, maxPeriod, window);
    }
  }

  lemma LastOfAppended<T>(s: seq<T>, x: T, n: nat)
    requires n > 0
    ensures Last(Last(s, n) + [x], n) == Last(s + [x], n)
    ensures Last(Last(s, n), n) == Last(s, n)
  {
  }

  /** One call: the bounded controller answers as the unbounded one and goes on remembering. */
  lemma AssessRefines(bounded: Memory, full: Memory, before: Projection, after: Projection, step: Signature,
      terminal: bool)
    requires Remembers(bounded, full)
    ensures match (Assess(bounded, before, after, step, terminal), AssessFull(full, before, after, step, terminal))
      case (Ok(b), Ok(f)) => b.assessment == f.assessment && Remembers(b.memory, f.memory) && |b.memory.steps| > 0
      case (Err(b), Err(f)) => b == f
      case _ => false
  {
    hide PeriodFrom, CertifyProgress, FinalCertificate, Last, ChangeOf, MetricsOf;
    var d := ChangeOf(before, after);
    PeriodInWindow(full.steps, full.assessments, step, d.evidence + d.collisions, 1, full.maxPeriod, full.window);
    LastOfAppended(full.steps, step, full.window);
    LastOfAppended(full.states, after.signature, full.window);
    if AssessFull(full, before, after, step, terminal).Ok? {
      LastOfAppended(full.assessments, AssessFull(full, before, after, step, terminal).value.assessment, full.window);
    }
  }

  lemma ExhaustRefines(bounded: Memory, full: Memory, p: Projection, step: Signature)
    requires Remembers(bounded, full)
    ensures Exhaust(bounded, p, step).Ok? && ExhaustFull(full, p, step).Ok?
    ensures var b, f := Exhaust(bounded, p, step).value, ExhaustFull(full, p, step).value;
      b.assessment == f.assessment && Remembers(b.memory, f.memory)
  {
    hide Decide, FinalCertificate;
    AssessRefines(bounded, full, p, p, step, false);
    var b, f := Assess(bounded, p, p, step, false).value, AssessFull(full, p, p, step, false).value;
    var stopped := Stopped(b.assessment);
    LastOfReplaced(f.memory.assessments, stopped, f.memory.window);
  }

  lemma LastOfReplaced<T>(s: seq<T>, x: T, n: nat)
    requires s != [] && n > 0
    ensures Last(s[|s| - 1 := x], n) == Last(s, n)[|Last(s, n)| - 1 := x]
  {
  }

  datatype Input = AssessInput(before: Projection, after: Projection, step: Signature,
      terminal: bool) | ExhaustInput(projection: Projection, step: Signature)

  /** The verdicts over a run of inputs; an input that raises changes nothing. */
  function Verdicts(m: Memory, inputs: seq<Input>, full: bool): seq<Result<Assessment, ScoreError>>
    decreases |inputs|
  {
    if inputs == [] then []
    else
      var r := match inputs[0]
        case AssessInput(before, after, step, terminal) => if full
          then AssessFull(m, before, after, step, terminal) else Assess(m, before, after, step, terminal)
        case ExhaustInput(p, step) => if full then ExhaustFull(m, p, step) else Exhaust(m, p, step);
      match r
      case Err(e) => [Err(e)] + Verdicts(m, inputs[1..], full)
      case Ok(j) => [Ok(j.assessment)] + Verdicts(j.memory, inputs[1..], full)
  }

  /** Bounded memory loses nothing: on every run of calls the windowed controller gives the
      very assessments of one that keeps the whole history. */
  lemma {:induction false} BoundedRefinesFull(bounded: Memory, full: Memory, inputs: seq<Input>)
    requires Remembers(bounded, full)
    ensures Verdicts(bounded, inputs, false) == Verdicts(full, inputs, true)
    decreases |inputs|
  {
    hide Assess, AssessFull, Exhaust, ExhaustFull, Trim;
    if inputs != [] {
      match inputs[0]
      case AssessInput(before, after, step, terminal) =>
        AssessRefines(bounded, full, before, after, step, terminal);
        match AssessFull(full, before, after, step, terminal) {
          case Err(_) => BoundedRefinesFull(bounded, full, inputs[1..]);
          case Ok(f) => BoundedRefinesFull(Assess(bounded, before, after, step, terminal).value.memory, f.memory,
              inputs[1..]);
        }
      case ExhaustInput(p, step) =>
        ExhaustRefines(bounded, full, p, step);
        BoundedRefinesFull(Exhaust(bounded, p, step).value.memory, ExhaustFull(full, p, step).value.memory,
            inputs[1..]);
    }
  }

  /** The whole run from a new controller. */
  lemma BoundedRefinesFullFromStart(window: int, maxPeriod: int, maxControlOnly: int, streak: int, inputs: seq<Input>)
    ensures var m := Initial(window, maxPeriod, maxControlOnly, streak); Verdicts(m, inputs, false) == Verdicts(m,
        inputs, true)
  {
    var m := Initial(window, maxPeriod, maxControlOnly, streak);
    BoundedRefinesFull(m, m, inputs);
  }

  // ----- what a detected period means -----

  /** p is a silent period of the history: each of the last p steps equals the one p before
      it, and none of the last 2p steps brought new evidence or collisions. */
  ghost predicate SilentPeriod(steps: seq<Signature>, counts: seq<nat>, p: nat) {
    && 0 < p && 2 * p <= |steps| == |counts|
    && (forall k :: |steps| - p <= k < |steps| ==> steps[k] == steps[k - p])
    && (forall k :: |steps| - 2 * p <= k < |steps| ==> counts[k] == 0)
  }

  function Counts(past: seq<Assessment>): (r: seq<nat>)
    ensures |r| == |past| && forall k :: 0 <= k < |past| ==> r[k] == CountOf(past[k])
  {
    seq(|past|, k requires 0 <= k < |past| => CountOf(past[k]))
  }

  lemma {:induction false} TotalZero(s: seq<Assessment>)
    ensures TotalCount(s) == 0 <==> forall k :: 0 <= k < |s| ==> CountOf(s[k]) == 0
  {
    if s != [] {
      TotalZero(s[1..]);
      assert forall k :: 1 <= k < |s| ==> s[k] == s[1..][k - 1];
    }
  }

  lemma RepeatsElementwise(steps: seq<Signature>, p: nat)
    requires 0 < p && 2 * p <= |steps|
    ensures Repeats(steps, p) <==> forall k :: |steps| - p <= k < |steps| ==> steps[k] == steps[k - p]
  {
    var n := |steps|;
    var a, b := steps[n - p..], steps[n - 2 * p..n - p];
    if Repeats(steps, p) {
      forall k | n - p <= k < n ensures steps[k] == steps[k - p] {
        assert a[k - (n - p)] == b[k - (n - p)];
      }
    }
  }

  lemma RecentSilent(past: seq<Assessment>, size: nat)
    requires size <= |past|
    ensures TotalCount(Last(past, size)) == 0 <==> forall k :: |past| - size <= k < |past| ==> CountOf(past[k]) == 0
  {
    var recent := Last(past, size);
    TotalZero(recent);
    assert recent == past[|past| - size..];
    if TotalCount(recent) == 0 {
      forall k | |past| - size <= k < |past| ensures CountOf(past[k]) == 0 {
        assert past[k] == recent[k - (|past| - size)];
      }
    }
  }

  lemma DetectsIsSilent(steps: seq<Signature>, past: seq<Assessment>, count: nat, p: nat)
    requires p > 0 && |steps| == |past| + 1
    ensures DetectsAt(steps, past, count, p) <==> SilentPeriod(steps, Counts(past) + [count], p)
  {
    hide Last, Repeats, TotalCount;
    var n, counts := |steps|, Counts(past) + [count];
    if n >= 2 * p {
      RepeatsElementwise(steps, p);
      RecentSilent(past, 2 * p - 1);
      assert forall k :: 0 <= k < |past| ==> counts[k] == CountOf(past[k]);
      assert counts[n - 1] == count;
    } else {
      ShortNeverRepeats(steps, p);
    }
  }

  /** The period reported is the least silent period of the whole history up to the allowed
      maximum, and it is zero exactly when there is none. */
  lemma {:induction false} PeriodIsLeastSilent(steps: seq<Signature>, past: seq<Assessment>, count: nat, from: nat,
      maxPeriod: nat)
    requires from > 0 && |steps| == |past| + 1
    ensures var p, counts := PeriodFrom(steps, past, count, from, maxPeriod), Counts(past) + [count];
      && (p > 0 ==> from <= p <= maxPeriod && SilentPeriod(steps, counts, p))
      && (forall q :: from <= q <= maxPeriod && SilentPeriod(steps, counts, q) ==> 0 < p <= q)
    decreases maxPeriod + 1 - from
  {
    hide DetectsAt, SilentPeriod;
    if from <= maxPeriod {
      DetectsIsSilent(steps, past, count, from);
      if !DetectsAt(steps, past, count, from) {
        PeriodIsLeastSilent(steps, past, count, from + 1, maxPeriod);
      }
    }
  }

  // ===== the length of a run =====

  /** What is still to be learned: atoms of the finite universes not yet seen, and steps of
      100 basis points of boundary uncertainty. */
  datatype Universe = Universe(evidence: set<Atom>, active: set<Atom>, collisions: set<Atom>)

  ghost predicate Within(p: Projection, u: Universe) {
    p.evidence <= u.evidence && p.active <= u.active && p.collisions <= u.collisions && 0 <= p.uncertainty
  }

  ghost function Potential(p: Projection, u: Universe): nat
    requires Within(p, u)
  {
    |u.evidence - p.evidence| + |u.active - p.active| + |u.collisions - p.collisions| + p.uncertainty / 100
  }

  /** Nothing known is lost and boundary uncertainty does not rise. */
  ghost predicate Grows(a: Projection, b: Projection) {
    a.evidence <= b.evidence && a.active <= b.active && a.collisions <= b.collisions && b.uncertainty <= a.uncertainty
  }

  datatype Transition = Transition(before: Projection, after: Projection, step: Signature)

  /** A run of assessments all of which were allowed and none terminal; between two of them
      the system may learn more, but loses nothing. */
  ghost predicate AllowedRun(m: Memory, run: seq<Transition>, u: Universe)
    decreases |run|
  {
    run == [] ||
    (&& Within(run[0].before, u) && Within(run[0].after, u) && Grows(run[0].before, run[0].after)
     && (|run| > 1 ==> Grows(run[0].after, run[1].before))
     && var r := Assess(m, run[0].before, run[0].after, run[0].step, false);
       r.Ok? && r.value.assessment.allowed && AllowedRun(r.value.memory, run[1..], u))
  }

  lemma SmallerRest(universe: set<Atom>, a: set<Atom>, b: set<Atom>)
    requires a <= b <= universe
    ensures |universe - b| <= |universe - a|
    ensures b != a ==> |universe - b| < |universe - a|
  {
    var x, y := universe - a, universe - b;
    assert x == y + (b - a);
    assert |x| == |y| + |b - a|;
    if b != a {
      assert b - a != {};
    }
  }

  /** Learning shrinks the potential, and an epistemic step shrinks it strictly. */
  lemma PotentialFalls(a: Projection, b: Projection, u: Universe)
    requires Within(a, u) && Within(b, u) && Grows(a, b)
    ensures Potential(b, u) <= Potential(a, u)
    ensures ChangeOf(a, b).Epistemic() ==> Potential(b, u) < Potential(a, u)
  {
    SmallerRest(u.evidence, a.evidence, b.evidence);
    SmallerRest(u.active, a.active, b.active);
    SmallerRest(u.collisions, a.collisions, b.collisions);
    if ChangeOf(a, b).evidence > 0 {
      assert (b.evidence - a.evidence) + (b.active - a.active) != {};
    }
    if ChangeOf(a, b).collisions > 0 {
      assert b.collisions - a.collisions != {};
    }
  }

  /** The certificate of a nonterminal step is accepted exactly when something was learned,
      or when the step is control-only and its budget not yet spent. */
  lemma AcceptedExactlyWhen(d: Change, streak: nat, budget: nat)
    requires CertifyProgress(MetricsOf(d, false)).Ok?
    ensures var next := NextStreak(streak, d, false);
      FinalCertificate(CertifyProgress(MetricsOf(d, false)).value, d, next, budget).accepted <==>
        d.Epistemic() || (d.ControlOnly() && streak < budget)
  {
    var reasons := BaseReasons(MetricsOf(d, false));
    if d.evidence > 0 || d.collisions > 0 { assert NovelEvidence in reasons; }
    if d.boundary >= 100 { assert BoundaryResolution in reasons; }
    if !d.Epistemic() { assert reasons == {}; }
  }

  ghost predicate NoneDetected(steps: seq<Signature>, past: seq<Assessment>, count: nat, from: nat, maxPeriod: nat)
    requires from > 0
  {
    forall p: nat :: from <= p <= maxPeriod ==> !DetectsAt(steps, past, count, p)
  }

  lemma {:induction false} NoPeriodExactlyWhen(steps: seq<Signature>, past: seq<Assessment>, count: nat, from: nat,
      maxPeriod: nat)
    requires from > 0
    ensures PeriodFrom(steps, past, count, from, maxPeriod) == 0 <==> NoneDetected(steps, past, count, from, maxPeriod)
    decreases maxPeriod + 1 - from
  {
    hide DetectsAt;
    if from <= maxPeriod && !DetectsAt(steps, past, count, from) {
      NoPeriodExactlyWhen(steps, past, count, from + 1, maxPeriod);
    }
  }

  /** Exactly which nonterminal steps are allowed: those that learned something or are
      control-only within their budget, and neither return to a remembered state nor complete
      a silent period. */
  lemma AllowedExactlyWhen(m: Memory, before: Projection, after: Projection, step: Signature)
    requires Assess(m, before, after, step, false).Ok?
    ensures var d := ChangeOf(before, after);
      Assess(m, before, after, step, false).value.assessment.allowed <==>
        && (d.Epistemic() || (d.ControlOnly() && m.streak < m.maxControlOnly))
        && (after.signature == before.signature || after.signature !in Last(m.states, m.window))
        && NoneDetected(m.steps + [step], m.assessments, d.evidence + d.collisions, 1, m.maxPeriod)
  {
    hide PeriodFrom, Last, NoneDetected, ChangeOf, CertifyProgress, FinalCertificate, MetricsOf;
    var d := ChangeOf(before, after);
    AcceptedExactlyWhen(d, m.streak, m.maxControlOnly);
    NoPeriodExactlyWhen(m.steps + [step], m.assessments, d.evidence + d.collisions, 1, m.maxPeriod);
  }

  /** An allowed nonterminal step either learned something, which resets the streak, or is
      control-only inside its budget. */
  lemma AllowedMeansProgress(m: Memory, before: Projection, after: Projection, step: Signature)
    requires Assess(m, before, after, step, false).Ok? && Assess(m, before, after, step, false).value.assessment.allowed
    ensures var n, d := Assess(m, before, after, step, false).value.memory, ChangeOf(before, after);
      && n.maxControlOnly == m.maxControlOnly
      && (if d.Epistemic() then n.streak == 0 else d.ControlOnly() && n.streak == m.streak + 1 <= m.maxControlOnly)
  {
    hide PeriodFrom, Last, ChangeOf, CertifyProgress, FinalCertificate, MetricsOf, Decide;
    AllowedExactlyWhen(m, before, after, step);
  }

  lemma {:induction false} RunBound(m: Memory, run: seq<Transition>, u: Universe)
    requires run != [] && AllowedRun(m, run, u)
    ensures var k, left := m.maxControlOnly, Potential(run[0].before, u);
      |run| <= left * (k + 1) + (if m.streak < k then k - m.streak else 0)
    decreases |run|
  {
    hide Assess, ChangeOf, Within, Grows, Potential;
    var r := Assess(m, run[0].before, run[0].after, run[0].step, false).value;
    AllowedMeansProgress(m, run[0].before, run[0].after, run[0].step);
    PotentialFalls(run[0].before, run[0].after, u);
    var k, left, after := m.maxControlOnly, Potential(run[0].before, u), Potential(run[0].after, u);
    if |run| > 1 {
      RunBound(r.memory, run[1..], u);
      GrowsPotential(run, u, r.memory);
      var next := Potential(run[1].before, u);
      if ChangeOf(run[0].before, run[0].after).Epistemic() {
        ScaleDown(next, left, k);
      } else {
        ScaleUp(next, left, k);
      }
    } else if ChangeOf(run[0].before, run[0].after).Epistemic() {
      ScaleDown(after, left, k);
    } else {
      ScaleUp(0, left, k);
    }
  }

  lemma GrowsPotential(run: seq<Transition>, u: Universe, m: Memory)
    requires |run| > 1 && Within(run[0].after, u) && Grows(run[0].after, run[1].before) && AllowedRun(m, run[1..], u)
    ensures Within(run[1].before, u) && Potential(run[1].before, u) <= Potential(run[0].after, u)
  {
    PotentialFalls(run[0].after, run[1].before, u);
  }

  lemma ScaleDown(a: nat, b: nat, k: nat)
    requires a < b
    ensures a * (k + 1) + k + 1 <= b * (k + 1)
  {
    ScaleUp(a + 1, b, k);
    assert (a + 1) * (k + 1) == a * (k + 1) + k + 1;
  }

  lemma ScaleUp(a: nat, b: nat, k: nat)
    requires a <= b
    ensures a * (k + 1) <= b * (k + 1)
  {
    assert b * (k + 1) == a * (k + 1) + (b - a) * (k + 1);
  }

  /** The run bound: with finite universes of N, A and M atoms and boundary uncertainty
      starting at U, at most E + (E + 1) * max_control_only_progress consecutive nonterminal
      assessments are allowed, where E = N + A + M + U / 100. */
  lemma RunLengthBound(m: Memory, run: seq<Transition>, u: Universe)
    requires AllowedRun(m, run, u)
    requires run != [] ==> run[0].before.uncertainty >= 0
    ensures var start := if run == [] then 0 else run[0].before.uncertainty;
      var e := |u.evidence| + |u.active| + |u.collisions| + start / 100;
      |run| <= e + (e + 1) * m.maxControlOnly
  {
    hide Assess, Grows;
    if run != [] {
      RunBound(m, run, u);
      var p, k := run[0].before, m.maxControlOnly;
      var e := |u.evidence| + |u.active| + |u.collisions| + p.uncertainty / 100;
      PotentialAtMost(p, u);
      ScaleUp(Potential(p, u), e, k);
      Rearrange(e, k);
    }
  }

  lemma PotentialAtMost(p: Projection, u: Universe)
    requires Within(p, u)
    ensures Potential(p, u) <= |u.evidence| + |u.active| + |u.collisions| + p.uncertainty / 100
  {
    SmallerRest(u.evidence, {}, p.evidence);
    SmallerRest(u.active, {}, p.active);
    SmallerRest(u.collisions, {}, p.collisions);
    assert u.evidence - {} == u.evidence && u.active - {} == u.active && u.collisions - {} == u.collisions;
  }

  lemma Rearrange(e: nat, k: nat)
    ensures e * (k + 1) + k == e + (e + 1) * k
  {
  }
}
