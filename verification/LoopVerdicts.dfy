/** Which verdict an assessment gives, said of the two projections it compares and of the whole
    history of the controller: one account for every branch of `assess`, terminal steps and
    the reported period included, against which the branch chain of `LoopControl` is held. */
module LoopVerdicts {
  import opened Results
  import opened LoopControl

  /** Some evidence, active evidence or collision is new, or boundary uncertainty fell by at
      least 100 basis points. */
  ghost predicate Learned(before: Projection, after: Projection) {
    || (exists e :: e in after.evidence && e !in before.evidence)
    || (exists e :: e in after.active && e !in before.active)
    || (exists e :: e in after.collisions && e !in before.collisions)
    || before.uncertainty - after.uncertainty >= 100
  }

  /** Some control or hypothesis atom is new, and nothing was learned. */
  ghost predicate OnlyMoved(before: Projection, after: Projection) {
    && !Learned(before, after)
    && (|| (exists e :: e in after.control && e !in before.control)
        || (exists e :: e in after.hypothesisDefinitions && e !in before.hypothesisDefinitions)
        || (exists e :: e in after.hypothesisEvidence && e !in before.hypothesisEvidence))
  }

  ghost function StreakAfter(streak: nat, before: Projection, after: Projection, terminal: bool): nat {
    if terminal || Learned(before, after) then 0 else if OnlyMoved(before, after) then streak + 1 else streak
  }

  /** The step is control-only and there were as many of them in a row as are allowed. */
  ghost predicate OverBudget(m: Memory, before: Projection, after: Projection) {
    OnlyMoved(before, after) && m.streak >= m.maxControlOnly
  }

  /** The system is back in one of the last `window` states, and was elsewhere just before. */
  ghost predicate Revisits(m: Memory, before: Projection, after: Projection) {
    && after.signature != before.signature
    && exists k :: 0 <= k < |m.states| && |m.states| - m.window <= k && m.states[k] == after.signature
  }

  /** p is a silent period of the history and the step that is being assessed. */
  ghost predicate Silent(m: Memory, before: Projection, after: Projection, step: Signature, p: nat) {
    1 <= p <= m.maxPeriod
    && SilentPeriod(m.steps + [step], Counts(m.assessments) + [NewFacts(before, after)], p)
  }

  function NewFacts(before: Projection, after: Projection): nat {
    |(after.evidence - before.evidence) + (after.active - before.active)| + |after.collisions - before.collisions|
  }

  ghost predicate AnySilent(m: Memory, before: Projection, after: Projection, step: Signature) {
    exists p :: Silent(m, before, after, step, p)
  }

  /** Each kind of stop has its own condition, and the first that holds is reported. */
  ghost predicate KindIs(m: Memory, before: Projection, after: Projection, step: Signature, kind: CycleKind) {
    var over, progress := OverBudget(m, before, after), Learned(before, after) || OnlyMoved(before, after);
    var revisits, silent := Revisits(m, before, after), AnySilent(m, before, after, step);
    && (kind == ControlOnlyBudgetExhausted <==> over)
    && (kind == NoVerifiedProgress <==> !progress)
    && (kind == VerifiedStateCycle <==> progress && !over && revisits)
    && (kind == SemanticPeriodicCycle <==> progress && !over && !revisits && silent)
    && (kind == NoCycle <==> progress && !over && !revisits && !silent)
  }

  /** The period of a periodic cycle is the least silent one; no other verdict has one. */
  ghost predicate PeriodIs(m: Memory, before: Projection, after: Projection, step: Signature, kind: CycleKind,
      period: nat) {
    if kind == SemanticPeriodicCycle then
      Silent(m, before, after, step, period)
      && forall q :: Silent(m, before, after, step, q) ==> period <= q
    else period == 0
  }

  /** What an assessment says it measured. */
  ghost predicate Measures(a: Assessment, before: Projection, after: Projection, step: Signature) {
    && a.step == step && a.before == before.signature && a.after == after.signature
    && a.newEvidence == |(after.evidence - before.evidence) + (after.active - before.active)|
    && a.newCollisions == |after.collisions - before.collisions|
    && a.newControl == |after.control - before.control|
    && a.newDefinitions == |after.hypothesisDefinitions - before.hypothesisDefinitions|
    && a.newLinks == |after.hypothesisEvidence - before.hypothesisEvidence|
    && a.controlOnly == OnlyMoved(before, after)
  }

  /** What the certificate certifies: it is accepted for a terminal step, for one that learned
      something and for a control-only one within its budget, and gives the reasons. */
  ghost predicate Certifies(a: Certificate, m: Memory, before: Projection, after: Projection, terminal: bool) {
    var facts, links := NewFacts(before, after), |after.hypothesisEvidence - before.hypothesisEvidence|;
    var within := OnlyMoved(before, after) && (terminal || m.streak < m.maxControlOnly);
    && (a.accepted <==> terminal || Learned(before, after) || within)
    && (NovelEvidence in a.reasons <==> facts > 0)
    && (BoundaryResolution in a.reasons <==> before.uncertainty - after.uncertainty >= 100)
    && (TerminalReason in a.reasons <==> terminal)
    && (HypothesisBookkeeping in a.reasons <==> links > 0)
    && (BoundedControlProgress in a.reasons <==> within)
    && a.reasons <= {NovelEvidence, BoundaryResolution, TerminalReason, HypothesisBookkeeping, BoundedControlProgress}
    && a.metrics.boundaryReduction == before.uncertainty - after.uncertainty
    && a.metrics.evidenceGain == AtMostScale(1000 * |(after.evidence - before.evidence)
       + (after.active - before.active)|
                                             + 500 * |after.collisions - before.collisions|)
    && a.hypothesisResolution == AtMostScale(1000 * links)
  }

  function AtMostScale(v: nat): nat {
    if v < SCORE_SCALE then v else SCORE_SCALE
  }

  // ----- the measurements -----

  lemma SomeNew(a: set<Atom>, b: set<Atom>)
    ensures |a - b| > 0 <==> exists e :: e in a && e !in b
  {
    if exists e :: e in a && e !in b {
      var e :| e in a && e !in b;
      assert e in a - b;
    } else {
      assert a - b == {};
    }
  }

  lemma SomeNewOfTwo(a: set<Atom>, b: set<Atom>, c: set<Atom>, d: set<Atom>)
    ensures |(a - b) + (c - d)| > 0 <==> (exists e :: e in a && e !in b) || (exists e :: e in c && e !in d)
  {
    SomeNew(a, b);
    SomeNew(c, d);
    var both := (a - b) + (c - d);
    if both != {} {
      var e :| e in both;
    } else {
      assert forall e :: e in a - b ==> e in both;
      assert forall e :: e in c - d ==> e in both;
      assert a - b == {} && c - d == {};
    }
  }

  lemma ChangeMeans(before: Projection, after: Projection)
    ensures var d := ChangeOf(before, after);
      && (d.Epistemic() <==> Learned(before, after))
      && (d.ControlOnly() <==> OnlyMoved(before, after))
      && d.evidence + d.collisions == NewFacts(before, after)
  {
    SomeNewOfTwo(after.evidence, before.evidence, after.active, before.active);
    SomeNew(after.collisions, before.collisions);
    SomeNew(after.control, before.control);
    SomeNew(after.hypothesisDefinitions, before.hypothesisDefinitions);
    SomeNew(after.hypothesisEvidence, before.hypothesisEvidence);
  }

  lemma StreakMeans(streak: nat, before: Projection, after: Projection, terminal: bool)
    ensures NextStreak(streak, ChangeOf(before, after), terminal) == StreakAfter(streak, before, after, terminal)
  {
    hide ChangeOf, Learned, OnlyMoved;
    ChangeMeans(before, after);
    hide Change.ControlOnly, Change.Epistemic;
    BothNever(before, after);
  }

  lemma BothNever(before: Projection, after: Projection)
    ensures !(Learned(before, after) && OnlyMoved(before, after))
  {
  }

  lemma CertificateMeans(m: Memory, before: Projection, after: Projection, terminal: bool)
    requires CertifyProgress(MetricsOf(ChangeOf(before, after), terminal)).Ok?
    ensures var d := ChangeOf(before, after);
      Certifies(FinalCertificate(CertifyProgress(MetricsOf(d, terminal)).value, d, NextStreak(m.streak, d, terminal),
          m.maxControlOnly), m, before, after, terminal)
  {
    var d := ChangeOf(before, after);
    ChangeMeans(before, after);
    BothNever(before, after);
    assert d.links == |after.hypothesisEvidence - before.hypothesisEvidence|
      && d.boundary == before.uncertainty - after.uncertainty
      && d.evidence == |(after.evidence - before.evidence) + (after.active - before.active)|
      && d.collisions == |after.collisions - before.collisions|;
    hide Learned, OnlyMoved, ChangeOf;
    CertificateParts(d, m.streak, m.maxControlOnly, terminal);
    hide FinalCertificate, CertifyProgress, MetricsOf, NextStreak, Change.Epistemic, Change.ControlOnly, NewFacts;
  }

  lemma CertificateParts(d: Change, streak: nat, budget: nat, terminal: bool)
    requires CertifyProgress(MetricsOf(d, terminal)).Ok?
    ensures var within := d.ControlOnly() && (terminal || streak < budget);
      var a := FinalCertificate(CertifyProgress(MetricsOf(d, terminal)).value, d, NextStreak(streak, d, terminal),
          budget);
      && (a.accepted <==> terminal || d.Epistemic() || within)
      && (NovelEvidence in a.reasons <==> d.evidence + d.collisions > 0)
      && (BoundaryResolution in a.reasons <==> d.boundary >= 100)
      && (TerminalReason in a.reasons <==> terminal)
      && (HypothesisBookkeeping in a.reasons <==> d.links > 0)
      && (BoundedControlProgress in a.reasons <==> within)
      && a.reasons <= {NovelEvidence, BoundaryResolution, TerminalReason, HypothesisBookkeeping, BoundedControlProgress}
      && a.metrics.boundaryReduction == d.boundary
      && a.metrics.evidenceGain == AtMostScale(1000 * d.evidence + 500 * d.collisions)
      && a.hypothesisResolution == AtMostScale(1000 * d.links)
  {
    ReasonsMean(MetricsOf(d, terminal));
    hide BaseReasons;
  }

  lemma ReasonsMean(m: Metrics)
    requires m.goalImprovement == m.riskReduction == m.informationGain == 0
    ensures var rs := BaseReasons(m);
      && (NovelEvidence in rs <==> m.novelEvidence && m.evidenceGain > 0)
      && (BoundaryResolution in rs <==> m.boundaryReduction >= 100)
      && (TerminalReason in rs <==> m.terminal)
      && rs <= {NovelEvidence, BoundaryResolution, TerminalReason}
      && (rs != {} <==> NovelEvidence in rs || BoundaryResolution in rs || TerminalReason in rs)
  {
  }

  lemma CertifiesWhenInRange(before: Projection, after: Projection, terminal: bool)
    ensures CertifyProgress(MetricsOf(ChangeOf(before, after), terminal)).Ok? <==>
      -SCORE_SCALE <= before.uncertainty - after.uncertainty <= SCORE_SCALE
  {
    hide BaseReasons;
  }

  // ----- the verdict -----

  lemma PeriodMeans(m: Memory, before: Projection, after: Projection, step: Signature)
    requires m.Valid()
    ensures var p := PeriodFrom(m.steps + [step], m.assessments, NewFacts(before, after), 1, m.maxPeriod);
      && (p > 0 <==> AnySilent(m, before, after, step))
      && (p > 0 ==> Silent(m, before, after, step, p))
      && (p > 0 ==> forall q :: Silent(m, before, after, step, q) ==> p <= q)
  {
    hide SilentPeriod, PeriodFrom, Counts, NewFacts;
    PeriodIsLeastSilent(m.steps + [step], m.assessments, NewFacts(before, after), 1, m.maxPeriod);
    var p := PeriodFrom(m.steps + [step], m.assessments, NewFacts(before, after), 1, m.maxPeriod);
    assert p > 0 ==> Silent(m, before, after, step, p);
  }

  lemma RevisitsMeans(m: Memory, before: Projection, after: Projection)
    requires m.Valid()
    ensures Revisits(m, before, after) <==>
      after.signature in Last(m.states, m.window) && after.signature != before.signature
  {
    var last, n := Last(m.states, m.window), |m.states|;
    assert forall k :: n - |last| <= k < n ==> m.states[k] == last[k - (n - |last|)];
    assert forall k :: 0 <= k < |last| ==> last[k] == m.states[n - |last| + k];
  }

  lemma OverMeans(m: Memory, before: Projection, after: Projection)
    ensures OverBudget(m, before, after) <==>
      OnlyMoved(before, after) && StreakAfter(m.streak, before, after, false) > m.maxControlOnly
  {
    hide Learned;
  }

  /** The verdict on a step, terminal or not, over the full history. */
  ghost predicate Decided(m: Memory, before: Projection, after: Projection, step: Signature, terminal: bool,
      a: Assessment) {
    && Measures(a, before, after, step) && Certifies(a.certificate, m, before, after, terminal)
    && a.streak == StreakAfter(m.streak, before, after, terminal)
    && (a.allowed <==> a.cycleKind == NoCycle)
    && (a.terminalState == CycleStop <==> !a.allowed)
    && (a.terminalState == SolutionOrModelFinal <==> terminal)
    && (terminal ==> a.allowed && a.period == 0)
    && (!terminal ==> KindIs(m, before, after, step, a.cycleKind))
    && (!terminal ==> PeriodIs(m, before, after, step, a.cycleKind, a.period))
  }

  lemma DecideMeans(m: Memory, before: Projection, after: Projection, step: Signature, terminal: bool, streak: nat,
      certificate: Certificate)
    requires m.Valid() && streak == StreakAfter(m.streak, before, after, terminal)
    requires Certifies(certificate, m, before, after, terminal)
    ensures Decided(m, before, after, step, terminal,
        Decide(m, ChangeOf(before, after), before, after, step, terminal, streak, certificate))
  {
    var d := ChangeOf(before, after);
    var a := Decide(m, d, before, after, step, terminal, streak, certificate);
    DecideMeasures(m, before, after, step, terminal, streak, certificate);
    ChangeMeans(before, after);
    AcceptedMeans(certificate, m, before, after, terminal);
    hide ChangeOf, Measures, Certifies;
    PeriodMeans(m, before, after, step);
    RevisitsMeans(m, before, after);
    OverMeans(m, before, after);
    BothNever(before, after);
    hide PeriodFrom, Last, StreakAfter, Learned, OnlyMoved, OverBudget, Revisits, AnySilent, Silent, NewFacts;
  }

  lemma DecideMeasures(m: Memory, before: Projection, after: Projection, step: Signature, terminal: bool, streak: nat,
      certificate: Certificate)
    ensures Measures(Decide(m, ChangeOf(before, after), before, after, step, terminal, streak, certificate), before,
        after, step)
  {
    ChangeMeans(before, after);
    hide PeriodFrom, Last, Learned, OnlyMoved, NewFacts;
  }

  lemma AcceptedMeans(certificate: Certificate, m: Memory, before: Projection, after: Projection, terminal: bool)
    requires Certifies(certificate, m, before, after, terminal)
    ensures certificate.accepted <==>
      terminal || Learned(before, after) || (OnlyMoved(before, after) && !OverBudget(m, before, after))
  {
    hide Learned, OnlyMoved;
  }

  lemma FullDecides(m: Memory, before: Projection, after: Projection, step: Signature, terminal: bool)
    requires m.Valid()
    ensures var r := AssessFull(m, before, after, step, terminal);
      && (r.Ok? <==> -SCORE_SCALE <= before.uncertainty - after.uncertainty <= SCORE_SCALE)
      && (r.Ok? ==>
            && Decided(m, before, after, step, terminal, r.value.assessment)
            && r.value.memory == m.(streak := r.value.assessment.streak, steps := m.steps + [step],
                                    states := m.states + [after.signature],
                                    assessments := m.assessments + [r.value.assessment]))
  {
    var d := ChangeOf(before, after);
    CertifiesWhenInRange(before, after, terminal);
    StreakMeans(m.streak, before, after, terminal);
    if AssessFull(m, before, after, step, terminal).Ok? {
      CertificateMeans(m, before, after, terminal);
      var streak := NextStreak(m.streak, d, terminal);
      var certificate := FinalCertificate(CertifyProgress(MetricsOf(d, terminal)).value, d, streak, m.maxControlOnly);
      DecideMeans(m, before, after, step, terminal, streak, certificate);
      assert Decide(m, d, before, after, step, terminal, streak, certificate).streak == streak;
    }
    hide CertifyProgress, FinalCertificate, MetricsOf, NextStreak, StreakAfter, ChangeOf, Decide, Decided, Certifies;
  }

  /** One assessment of the windowed controller, said of the whole history. It raises exactly
      when boundary uncertainty moved by more than the whole scale. A terminal step is allowed,
      is no cycle, and ends every streak. Of any other step exactly one of five things is
      said: it exceeds the budget of control-only steps, it brings no progress, it returns to
      a remembered state, it completes a silent period, of which the least is reported, or it
      is allowed. */
  lemma AssessDecides(bounded: Memory, full: Memory, before: Projection, after: Projection, step: Signature,
      terminal: bool)
    requires Remembers(bounded, full)
    ensures var r := Assess(bounded, before, after, step, terminal);
      && (r.Ok? <==> -SCORE_SCALE <= before.uncertainty - after.uncertainty <= SCORE_SCALE)
      && (r.Ok? ==>
            && Decided(full, before, after, step, terminal, r.value.assessment)
            && Remembers(r.value.memory, full.(streak := r.value.assessment.streak, steps := full.steps + [step],
                                               states := full.states + [after.signature],
                                               assessments := full.assessments + [r.value.assessment])))
  {
    hide Assess, AssessFull, Decided, Trim;
    AssessRefines(bounded, full, before, after, step, terminal);
    FullDecides(full, before, after, step, terminal);
  }

  /** Exhausting the budget is a step that changes nothing, stopped whatever its verdict. */
  lemma ExhaustDecides(bounded: Memory, full: Memory, p: Projection, step: Signature)
    requires Remembers(bounded, full)
    ensures var r := Exhaust(bounded, p, step);
      && r.Ok?
      && var a := r.value.assessment;
        && Measures(a, p, p, step) && Certifies(a.certificate, full, p, p, false) && a.streak == full.streak
        && !a.allowed && a.terminalState == CycleStop && a.cycleKind == ComputeBudgetExhausted && a.period == 0
        && Remembers(r.value.memory, full.(steps := full.steps + [step], states := full.states + [p.signature],
                                           assessments := full.assessments + [a]))
  {
    hide Assess, AssessFull, KindIs, PeriodIs, Trim, Certifies, Measures;
    ExhaustRefines(bounded, full, p, step);
    FullDecides(full, p, p, step, false);
    NothingLearned(p);
    var j := AssessFull(full, p, p, step, false).value;
    StoppedMeasures(j.assessment, full, p, step);
    assert (full.assessments + [j.assessment])[|full.assessments| := Stopped(j.assessment)] ==
      full.assessments + [Stopped(j.assessment)];
  }

  lemma NothingLearned(p: Projection)
    ensures !Learned(p, p) && !OnlyMoved(p, p)
  {
  }

  lemma StoppedMeasures(a: Assessment, m: Memory, p: Projection, step: Signature)
    requires Measures(a, p, p, step)
    ensures Measures(Stopped(a), p, p, step)
  {
  }

  /** The nearest number to v from low to high. */
  ghost predicate Nearest(v: int, low: int, high: int, r: int) {
    low <= r <= high && (v < low ==> r == low) && (v > high ==> r == high) && (low <= v <= high ==> r == v)
  }

  /** A new controller takes each argument if it is in range and else the nearest that is: a
      window of 4 to 64, a period of up to half of it, up to 16 control-only steps. */
  lemma InitialIs(window: int, maxPeriod: int, maxControlOnly: int, streak: int)
    ensures var m := Initial(window, maxPeriod, maxControlOnly, streak);
      && Nearest(window, 4, 64, m.window) && Nearest(maxPeriod, 1, m.window / 2, m.maxPeriod)
      && Nearest(maxControlOnly, 0, 16, m.maxControlOnly) && m.streak == (if streak < 0 then 0 else streak)
      && m.steps == [] && m.states == [] && m.assessments == []
  {
  }
}
