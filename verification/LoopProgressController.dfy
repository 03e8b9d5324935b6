/** `LoopProgressController` as an object: `assess` updates the streak and the three windowed
    lists, `exhaust_budget` overwrites the last assessment. Both are proved equal to the
    functions of `LoopControl`. */
module LoopProgressControllers {
  import opened Results
  import opened LoopControl

  class LoopProgressController {
    const window: nat
    const maxPeriod: nat
    const maxControlOnly: nat
    var controlOnlyStreak: nat
    var steps: seq<Signature>
    var states: seq<Signature>
    var assessments: seq<Assessment>

    function View(): Memory
      reads this
    {
      Memory(window, maxPeriod, maxControlOnly, controlOnlyStreak, steps, states, assessments)
    }

    /** The lists are equally long and never exceed the window. */
    ghost predicate Valid()
      reads this
    {
      View().Bounded()
    }

    constructor (window: int, maxPeriod: int, maxControlOnly: int, initialStreak: int)
      ensures Valid() && View() == Initial(window, maxPeriod, maxControlOnly, initialStreak)
    {
      var m := Initial(window, maxPeriod, maxControlOnly, initialStreak);
      this.window, this.maxPeriod, this.maxControlOnly, controlOnlyStreak :=
        m.window, m.maxPeriod, m.maxControlOnly, m.streak;
      steps, states, assessments := [], [], [];
    }

    /** The loop over candidate periods: it stops at the first detected one. */
    method DetectPeriod(step: Signature, count: nat) returns (period: nat)
      requires Valid()
      ensures period == PeriodFrom(steps + [step], assessments, count, 1, maxPeriod)
    {
      hide Last, DetectsAt;
      assert Last(steps, window) == steps && Last(assessments, window) == assessments by {
        AllKept(steps, window);
        AllKept(assessments, window);
      }
      var candidateSteps := Last(steps, window) + [step];
      var candidateAssessments := Last(assessments, window);
      var p := 1;
      while p <= maxPeriod
        invariant 1 <= p <= maxPeriod + 1
        invariant PeriodFrom(candidateSteps, candidateAssessments, count, p, maxPeriod) ==
          PeriodFrom(candidateSteps, candidateAssessments, count, 1, maxPeriod)
      {
        var detected := Detects(candidateSteps, candidateAssessments, count, p);
        if detected {
          return p;
        }
        p := p + 1;
      }
      period := 0;
    }

    /** The body of that loop for one candidate period. */
    method Detects(candidateSteps: seq<Signature>, candidateAssessments: seq<Assessment>, count: nat, p: nat)
        returns (detected: bool)
      requires p > 0
      ensures detected == DetectsAt(candidateSteps, candidateAssessments, count, p)
    {
      hide Last, TotalCount;
      var n := |candidateSteps|;
      if n < 2 * p || candidateSteps[n - p..] != candidateSteps[n - 2 * p..n - p] {
        return false;
      }
      var comparison := SumCounts(Last(candidateAssessments, 2 * p - 1));
      detected := count + comparison == 0;
    }

    method SumCounts(comparison: seq<Assessment>) returns (total: nat)
      ensures total == TotalCount(comparison)
    {
      total := 0;
      for i := 0 to |comparison|
        invariant total == TotalCount(comparison[..i])
      {
        assert comparison[..i + 1] == comparison[..i] + [comparison[i]];
        TotalCountAppend(comparison[..i], [comparison[i]]);
        assert TotalCount([comparison[i]]) == CountOf(comparison[i]);
        total := total + comparison[i].newEvidence + comparison[i].newCollisions;
      }
      assert comparison[..|comparison|] == comparison;
    }

    method AssessTransition(before: Projection, after: Projection, step: Signature, terminal: bool)
        returns (r: Result<Assessment, ScoreError>)
      requires Valid()
      modifies this
      ensures Valid()
      ensures match Assess(old(View()), before, after, step, terminal)
        case Ok(j) => r == Ok(j.assessment) && View() == j.memory && |assessments| > 0
        case Err(e) => r == Err(e) && View() == old(View())
    {
      hide PeriodFrom, ChangeOf, MetricsOf, CertifyProgress, FinalCertificate, Decide, Last, NextStreak;
      var d := ChangeOf(before, after);
      var base := CertifyProgress(MetricsOf(d, terminal));
      if base.Err? {
        return Err(base.error);
      }
      UpdateStreak(d, terminal);
      var certificate := FinalCertificate(base.value, d, controlOnlyStreak, maxControlOnly);
      var a := Judge(d, before, after, step, terminal, certificate);
      Remember(step, after.signature, a);
      r := Ok(a);
    }

    method UpdateStreak(d: Change, terminal: bool)
      modifies this`controlOnlyStreak
      ensures controlOnlyStreak == NextStreak(old(controlOnlyStreak), d, terminal)
    {
      if terminal {
        controlOnlyStreak := 0;
      } else if d.ControlOnly() {
        controlOnlyStreak := controlOnlyStreak + 1;
      } else if d.Epistemic() {
        controlOnlyStreak := 0;
      }
    }

    /** The chain of verdicts: the first that applies decides. */
    method Judge(d: Change, before: Projection, after: Projection, step: Signature, terminal: bool,
        certificate: Certificate) returns (a: Assessment)
      requires Valid()
      ensures forall streak: nat ::
        a == Decide(View().(streak := streak), d, before, after, step, terminal, controlOnlyStreak, certificate)
    {
      hide PeriodFrom;
      var kind, period := NoCycle, 0;
      if terminal {
      } else if d.ControlOnly() && controlOnlyStreak > maxControlOnly {
        kind := ControlOnlyBudgetExhausted;
      } else if !certificate.accepted {
        kind := NoVerifiedProgress;
      } else if after.signature in Last(states, window) && after.signature != before.signature {
        kind := VerifiedStateCycle;
      } else {
        period := DetectPeriod(step, d.evidence + d.collisions);
        if period > 0 {
          kind := SemanticPeriodicCycle;
        }
      }
      a := Assessment(certificate, kind == NoCycle,
                      if terminal then SolutionOrModelFinal else if kind == NoCycle then Continue else CycleStop,
                      kind, period, step, before.signature, after.signature,
                      d.evidence, d.collisions, d.control, d.definitions, d.links, d.ControlOnly(), controlOnlyStreak);
    }

    /** Appends to the three lists and keeps the window. */
    method Remember(step: Signature, state: Signature, a: Assessment)
      requires Valid()
      modifies this`steps, this`states, this`assessments
      ensures Valid() && |assessments| > 0
      ensures View() == Trim(old(View()).(steps := old(steps) + [step], states := old(states)
        + [state], assessments := old(assessments) + [a]))
    {
      steps := steps + [step];
      states := states + [state];
      assessments := assessments + [a];
      steps := Last(steps, window);
      states := Last(states, window);
      assessments := Last(assessments, window);
    }

    /** Never raises: a projection compared with itself changes nothing. */
    method ExhaustBudget(projection: Projection, step: Signature) returns (stopped: Assessment)
      requires Valid()
      modifies this
      ensures Valid()
      ensures Exhaust(old(View()), projection, step) == Ok(Judged(View(), stopped))
      ensures !stopped.allowed && stopped.cycleKind == ComputeBudgetExhausted
    {
      hide Assess;
      NothingChangesScores(View(), projection, step);
      var r := AssessTransition(projection, projection, step, false);
      stopped := Stopped(r.value);
      assessments := assessments[|assessments| - 1 := stopped];
    }
  }

  lemma AllKept<T>(s: seq<T>, n: nat)
    requires |s| <= n
    ensures Last(s, n) == s
  {
  }

  lemma NothingChangesScores(m: Memory, p: Projection, step: Signature)
    ensures Assess(m, p, p, step, false).Ok?
  {
    hide Decide, FinalCertificate;
    assert ChangeOf(p, p) == Change(0, 0, 0, 0, 0, 0) by {
      assert (p.evidence - p.evidence) + (p.active - p.active) == {};
      assert p.collisions - p.collisions == {} && p.control - p.control == {};
    }
  }
}
