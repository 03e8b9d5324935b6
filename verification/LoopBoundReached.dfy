/** The run bound of the progress controller is reached: for every controller and every number
    of evidence atoms there is a run of allowed nonterminal assessments of exactly that
    length. It spends the whole control-only budget before it takes in the next atom. */
module LoopBoundReached {
  import opened LoopControl

  /** The n-th of a sequence of different names. */
  function Name(n: nat): string {
    seq(n, _ => 'a')
  }

  function Names(n: nat): set<string> {
    set i | 0 <= i < n :: Name(i)
  }

  /** What the system knows with e evidence and c control atoms. */
  function Known(e: nat, c: nat): Projection {
    Projection(Names(e), {}, {}, Names(c), {}, {}, 0, Name(e + c))
  }

  /** The run from e evidence and c control atoms on, the last `streak` steps having been
      control-only, until `atoms` evidence atoms are known and the budget is spent. */
  function LongRun(budget: nat, atoms: nat, e: nat, c: nat, streak: nat): seq<Transition>
    decreases atoms - e, budget - streak
  {
    if streak < budget then
      [Transition(Known(e, c), Known(e, c + 1), Name(e + c))] + LongRun(budget, atoms, e, c + 1, streak + 1)
    else if e < atoms then
      [Transition(Known(e, c), Known(e + 1, c), Name(e + c))] + LongRun(budget, atoms, e + 1, c, 0)
    else []
  }

  lemma {:induction false} LongRunLength(budget: nat, atoms: nat, e: nat, c: nat, streak: nat)
    requires e <= atoms && streak <= budget
    ensures |LongRun(budget, atoms, e, c, streak)| == (atoms - e) * (budget + 1) + (budget - streak)
    decreases atoms - e, budget - streak
  {
    if streak < budget {
      LongRunLength(budget, atoms, e, c + 1, streak + 1);
    } else if e < atoms {
      LongRunLength(budget, atoms, e + 1, c, 0);
      assert (atoms - e) * (budget + 1) == (atoms - (e + 1)) * (budget + 1) + (budget + 1);
    }
  }

  // ----- names -----

  lemma NameLength(n: nat)
    ensures |Name(n)| == n
  {
  }

  lemma NewName(n: nat, i: nat)
    requires i < n
    ensures Name(i) != Name(n)
  {
    NameLength(i);
    NameLength(n);
  }

  lemma OneMoreName(n: nat)
    ensures Names(n + 1) == Names(n) + {Name(n)} && Name(n) !in Names(n)
  {
    forall i: nat | i < n ensures Name(i) != Name(n) { NewName(n, i); }
  }

  lemma {:induction false} NamesSize(n: nat)
    ensures |Names(n)| == n
  {
    if n == 0 {
      assert Names(0) == {};
    } else {
      NamesSize(n - 1);
      OneMoreName(n - 1);
    }
  }

  lemma NamesInside(a: nat, b: nat)
    requires a <= b
    ensures Names(a) <= Names(b)
  {
  }

  // ----- one step -----

  lemma ControlStep(e: nat, c: nat)
    ensures ChangeOf(Known(e, c), Known(e, c + 1)) == Change(0, 0, 1, 0, 0, 0)
  {
    OneMoreName(c);
    hide Names;
    assert Names(c + 1) - Names(c) == {Name(c)};
    assert (Names(e) - Names(e)) + ({} - {}) == {};
  }

  lemma EvidenceStep(e: nat, c: nat)
    ensures ChangeOf(Known(e, c), Known(e + 1, c)) == Change(1, 0, 0, 0, 0, 0)
  {
    OneMoreName(e);
    hide Names;
    assert (Names(e + 1) - Names(e)) + ({} - {}) == {Name(e)};
    assert Names(c) - Names(c) == {};
  }

  /** A step never made before ends no period. */
  lemma NewStepNeverRepeats(steps: seq<Signature>, step: Signature, p: nat)
    requires step !in steps && p > 0
    ensures !Repeats(steps + [step], p)
  {
    var s := steps + [step];
    assert |s| >= 2 * p ==> s[|s| - p..][p - 1] == step && s[|s| - 2 * p..|s| - p][p - 1] == steps[|s| - p - 1];
  }

  lemma {:induction false} NoPeriod(steps: seq<Signature>, past: seq<Assessment>, step: Signature, count: nat,
      p: nat, maxPeriod: nat)
    requires step !in steps && p > 0
    ensures PeriodFrom(steps + [step], past, count, p, maxPeriod) == 0
    decreases maxPeriod + 1 - p
  {
    if p <= maxPeriod {
      NewStepNeverRepeats(steps, step, p);
      NoPeriod(steps, past, step, count, p + 1, maxPeriod);
    }
  }

  /** All that is remembered came before step t. */
  ghost predicate OnlyBefore(m: Memory, t: nat) {
    && (forall x :: x in m.steps ==> exists i: nat :: i < t && x == Name(i))
    && forall x :: x in m.states ==> exists i: nat :: i < t + 1 && x == Name(i)
  }

  lemma OnlyBeforeIsOld(m: Memory, t: nat)
    requires OnlyBefore(m, t)
    ensures Name(t) !in m.steps && Name(t + 1) !in m.states
  {
    forall i: nat | i < t ensures Name(i) != Name(t) { NewName(t, i); }
    forall i: nat | i < t + 1 ensures Name(i) != Name(t + 1) { NewName(t + 1, i); }
  }

  lemma LastMembers<T>(s: seq<T>, x: T, n: nat)
    requires x in Last(s, n)
    ensures x in s
  {
  }

  lemma OnlyBeforeNext(m: Memory, t: nat, n: Memory)
    requires OnlyBefore(m, t)
    requires n.steps == Last(m.steps + [Name(t)], m.window) && n.states == Last(m.states + [Name(t + 1)], m.window)
    ensures OnlyBefore(n, t + 1)
  {
    hide Last, Name;
    forall x | x in n.steps ensures exists i: nat :: i < t + 1 && x == Name(i) {
      LastMembers(m.steps + [Name(t)], x, m.window);
      if x in m.steps {
        var i: nat :| i < t && x == Name(i);
      }
    }
    forall x | x in n.states ensures exists i: nat :: i < t + 2 && x == Name(i) {
      LastMembers(m.states + [Name(t + 1)], x, m.window);
      if x in m.states {
        var i: nat :| i < t + 1 && x == Name(i);
      }
    }
  }

  /** A change of one control atom within the budget, or of one evidence atom. */
  predicate Advances(d: Change, streak: nat, budget: nat) {
    d == Change(1, 0, 0, 0, 0, 0) || (d == Change(0, 0, 1, 0, 0, 0) && streak < budget)
  }

  lemma AdvanceCertified(d: Change, streak: nat, budget: nat)
    requires Advances(d, streak, budget)
    ensures CertifyProgress(MetricsOf(d, false)).Ok?
    ensures NextStreak(streak, d, false) == (if d.evidence == 1 then 0 else streak + 1)
    ensures FinalCertificate(CertifyProgress(MetricsOf(d, false)).value, d, NextStreak(streak, d, false),
        budget).accepted
    ensures !(d.ControlOnly() && NextStreak(streak, d, false) > budget)
  {
    assert d.evidence == 1 ==> NovelEvidence in BaseReasons(MetricsOf(d, false));
  }

  /** An accepted step is allowed when neither it nor the state it leads to was seen before. */
  lemma NewStepNoCycle(m: Memory, d: Change, before: Projection, after: Projection, step: Signature, streak: nat,
      cert: Certificate)
    requires step !in m.steps && after.signature !in m.states
    requires cert.accepted && !(d.ControlOnly() && streak > m.maxControlOnly)
    ensures Decide(m, d, before, after, step, false, streak, cert).allowed
  {
    NoPeriod(m.steps, m.assessments, step, d.evidence + d.collisions, 1, m.maxPeriod);
    if after.signature in Last(m.states, m.window) { LastMembers(m.states, after.signature, m.window); }
    hide PeriodFrom, Last;
  }

  lemma NewStepAllowed(m: Memory, before: Projection, after: Projection, step: Signature)
    requires step !in m.steps && after.signature !in m.states
    requires Advances(ChangeOf(before, after), m.streak, m.maxControlOnly)
    ensures var r := Assess(m, before, after, step, false);
      && r.Ok? && r.value.assessment.allowed
      && r.value.memory.maxControlOnly == m.maxControlOnly
      && r.value.memory.streak == (if ChangeOf(before, after).evidence == 1 then 0 else m.streak + 1)
      && r.value.memory.steps == Last(m.steps + [step], m.window)
      && r.value.memory.states == Last(m.states + [after.signature], m.window)
  {
    hide ChangeOf, PeriodFrom, Last, Decide, FinalCertificate, CertifyProgress, NextStreak, MetricsOf, Advances;
    var d := ChangeOf(before, after);
    AdvanceCertified(d, m.streak, m.maxControlOnly);
    var streak := NextStreak(m.streak, d, false);
    var cert := FinalCertificate(CertifyProgress(MetricsOf(d, false)).value, d, streak, m.maxControlOnly);
    NewStepNoCycle(m, d, before, after, step, streak, cert);
  }

  lemma KnownGrows(e: nat, c: nat, f: nat, d: nat, u: Universe)
    requires e <= f && u == Universe(Names(f), {}, {})
    ensures Within(Known(e, c), u)
    ensures e < f ==> Grows(Known(e, c), Known(e + 1, c))
    ensures Grows(Known(e, c), Known(e, d))
  {
    NamesInside(e, f);
    NamesInside(e, e + 1);
  }

  lemma {:induction false} LongRunAllowed(m: Memory, atoms: nat, e: nat, c: nat)
    requires e <= atoms && m.streak <= m.maxControlOnly && OnlyBefore(m, e + c)
    ensures AllowedRun(m, LongRun(m.maxControlOnly, atoms, e, c, m.streak), Universe(Names(atoms), {}, {}))
    decreases atoms - e, m.maxControlOnly - m.streak
  {
    hide Assess, ChangeOf, Within, Grows, Names, Name, OnlyBefore, Last;
    var u := Universe(Names(atoms), {}, {});
    var run := LongRun(m.maxControlOnly, atoms, e, c, m.streak);
    if run != [] {
      var f, d := if m.streak < m.maxControlOnly then e else e + 1, if m.streak < m.maxControlOnly then c + 1 else c;
      ControlStep(e, c);
      EvidenceStep(e, c);
      OnlyBeforeIsOld(m, e + c);
      KnownGrows(e, c, atoms, c + 1, u);
      KnownGrows(f, d, atoms, d, u);
      NewStepAllowed(m, Known(e, c), Known(f, d), Name(e + c));
      var n := Assess(m, Known(e, c), Known(f, d), Name(e + c), false).value.memory;
      OnlyBeforeNext(m, e + c, n);
      LongRunAllowed(n, atoms, f, d);
      StartsAt(m.maxControlOnly, atoms, f, d, n.streak);
      assert run[1..] == LongRun(m.maxControlOnly, atoms, f, d, n.streak);
    }
  }

  lemma StartsAt(budget: nat, atoms: nat, e: nat, c: nat, streak: nat)
    ensures var run := LongRun(budget, atoms, e, c, streak); run != [] ==> run[0].before == Known(e, c)
  {
  }

  /** The bound cannot be improved: for every new controller and every number of atoms there
      is a universe of that size and an allowed run exactly as long as the bound. */
  lemma BoundIsReached(window: int, maxPeriod: int, maxControlOnly: int, atoms: nat)
      returns (run: seq<Transition>, u: Universe)
    ensures var m := Initial(window, maxPeriod, maxControlOnly, 0);
      && AllowedRun(m, run, u)
      && (run != [] ==> run[0].before.uncertainty == 0)
      && |u.evidence| + |u.active| + |u.collisions| == atoms
      && |run| == atoms + (atoms + 1) * m.maxControlOnly
  {
    var m := Initial(window, maxPeriod, maxControlOnly, 0);
    assert OnlyBefore(m, 0) && m.streak == 0;
    hide AllowedRun, LongRun, Names, Name, Initial;
    u := Universe(Names(atoms), {}, {});
    run := LongRun(m.maxControlOnly, atoms, 0, 0, 0);
    NamesSize(atoms);
    LongRunAllowed(m, atoms, 0, 0);
    LongRunLength(m.maxControlOnly, atoms, 0, 0, 0);
    StartsAt(m.maxControlOnly, atoms, 0, 0, 0);
    Rearrange(atoms, m.maxControlOnly);
  }
}
