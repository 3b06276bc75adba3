/** Whole lives of a plan: any sequence of revalidations and cancellations. */
module CleanupRuns {
  import opened Basics
  import opened MailModel
  import opened Protection
  import opened PolicyResult
  import opened CleanupScope
  import opened CleanupLedger
  import opened CleanupSteps

  datatype Step =
    | RevalidateStep(c: Composition, revalidate: RevalidateCommand, now: Instant)
    | CancelStep(cancel: CancelCommand, now: Instant)
  {
    ghost predicate Sound() {
      RevalidateStep? ==> c.Coherent()
    }
  }

  ghost function Attempt(p: Plan, s: Step): Result<Plan, PlanError>
    requires p.events != [] && s.Sound()
  {
    match s
    case RevalidateStep(c, cmd, now) => Revalidate(c, p, cmd, now)
    case CancelStep(cmd, now) => Cancel(p, cmd, now)
  }

  /** The plan after a step: an error leaves it as it was. */
  ghost function After(p: Plan, s: Step): (q: Plan)
    requires p.events != [] && s.Sound()
    ensures q.events != []
  {
    match Attempt(p, s)
    case Ok(q) => if q.events != [] then q else p
    case Err(_) => p
  }

  ghost predicate AllSound(steps: seq<Step>) {
    forall s <- steps :: s.Sound()
  }

  ghost function Run(p: Plan, steps: seq<Step>): (q: Plan)
    requires p.events != [] && AllSound(steps)
    ensures q.events != []
  {
    if steps == [] then p else After(Run(p, steps[..|steps| - 1]), steps[|steps| - 1])
  }

  /** The clock never goes back, from an instant on. */
  ghost predicate Clocked(from: Instant, steps: seq<Step>) {
    && (forall s <- steps :: from <= s.now)
    && (forall i, j :: 0 <= i < j < |steps| ==> steps[i].now <= steps[j].now)
  }

  /** The compositions whose revalidation was accepted along a run. */
  ghost function AppliedIn(p: Plan, steps: seq<Step>): set<Composition>
    requires p.events != [] && AllSound(steps)
  {
    if steps == [] then {}
    else
      var before, s := steps[..|steps| - 1], steps[|steps| - 1];
      AppliedIn(p, before) + if s.RevalidateStep? && Attempt(Run(p, before), s).Ok? then {s.c} else {}
  }

  lemma HasEvents(p: Plan)
    requires ValidPlan(p)
    ensures p.events != []
  {
  }

  // ------------------------------------------------------------ one step

  /** One step at an instant no earlier than the last event keeps every check and is never refused by the ledger. */
  lemma StepKeepsLedger(p: Plan, s: Step)
    requires ValidPlan(p) && s.Sound() && p.Last().at <= s.now
    ensures ValidPlan(After(p, s)) && p.Last().at <= After(p, s).Last().at <= s.now
    ensures Attempt(p, s) != Err(LedgerRejected)
    ensures After(p, s).selection == p.selection && After(p, s).members == p.members
    ensures p.events <= After(p, s).events && p.removals <= After(p, s).removals
    ensures After(p, s).Eligible() ==
      if s.RevalidateStep? && Attempt(p, s).Ok? then p.Eligible() * Clean(s.c, p.selection) else p.Eligible()
  {
    hide ValidPlan, Clean, SizesBounded, SendersKnown, StructureCurrent, Universe;
    hide RevalidatedPlan, CancellationEvent;
    HasEvents(p);
    match s
    case RevalidateStep(c, cmd, now) =>
      if RevalidationRefused(c, p, cmd, now) == None {
        RevalidationKeepsClean(c, p, cmd, now);
      }
    case CancelStep(cmd, now) =>
      if CancellationRefused(p, cmd, now) == None {
        CancellationKeepsLedger(p, cmd, now);
      }
  }

  /** A terminal plan refuses every step. */
  lemma TerminalIsFinal(p: Plan, s: Step)
    requires p.events != [] && s.Sound() && Terminal(p.Last().state)
    ensures Attempt(p, s) == Err(InvalidTransition)
    ensures After(p, s) == p
  {
    hide ValidPlan, Clean, SizesBounded, SendersKnown, StructureCurrent, RevalidatedPlan, CancellationEvent;
  }

  // ------------------------------------------------------------ whole runs

  lemma ClockedPrefix(from: Instant, steps: seq<Step>, n: nat)
    requires Clocked(from, steps) && n <= |steps|
    ensures Clocked(from, steps[..n])
  {
  }

  /** Under a clock that never goes back, every run keeps every check of the ledger. */
  lemma {:induction false} RunKeepsLedger(p: Plan, steps: seq<Step>)
    requires ValidPlan(p) && AllSound(steps) && Clocked(p.Last().at, steps)
    ensures ValidPlan(Run(p, steps))
    ensures Run(p, steps).Last().at <= if steps == [] then p.Last().at else steps[|steps| - 1].now
    ensures Run(p, steps).selection == p.selection && Run(p, steps).members == p.members
    ensures p.events <= Run(p, steps).events && p.removals <= Run(p, steps).removals
  {
    hide ValidPlan, After;
    HasEvents(p);
    if steps != [] {
      var n := |steps| - 1;
      ClockedPrefix(p.Last().at, steps, n);
      RunKeepsLedger(p, steps[..n]);
      assert n > 0 ==> steps[n - 1].now <= steps[n].now;
      StepKeepsLedger(Run(p, steps[..n]), steps[n]);
    }
  }

  /** No step of such a run is ever refused by the checks of the ledger. */
  lemma NoStepRejected(p: Plan, steps: seq<Step>, i: nat)
    requires ValidPlan(p) && AllSound(steps) && Clocked(p.Last().at, steps) && i < |steps|
    ensures Attempt(Run(p, steps[..i]), steps[i]) != Err(LedgerRejected)
  {
    hide ValidPlan, Attempt;
    HasEvents(p);
    ClockedPrefix(p.Last().at, steps, i);
    RunKeepsLedger(p, steps[..i]);
    assert i > 0 ==> steps[i - 1].now <= steps[i].now;
    StepKeepsLedger(Run(p, steps[..i]), steps[i]);
  }

  /** Each selected message is eligible still, or was removed by exactly one event. */
  lemma RunConserves(p: Plan, steps: seq<Step>)
    requires ValidPlan(p) && AllSound(steps) && Clocked(p.Last().at, steps)
    ensures var q := Run(p, steps);
      && CountSelected(p.members) == |q.Eligible()| + SumRemoved(q.events)
      && SelectedBytes(p) == EligibleBytes(q) + RemovedBytes(q)
  {
    RunKeepsLedger(p, steps);
    var q := Run(p, steps);
    SelectionConserved(q);
    EligibleCounted(q);
    AggregateNeverTooLarge(q);
  }

  /** The messages that every composition of a set is clean of reasons for. */
  ghost function Kept(among: set<MessageId>, applied: set<Composition>, sel: Selection): set<MessageId>
  {
    set m | m in among && forall c <- applied :: c.Coherent() && m in Clean(c, sel)
  }

  lemma KeptStep(among: set<MessageId>, applied: set<Composition>, c: Composition, sel: Selection)
    requires c.Coherent()
    ensures Kept(among, applied + {c}, sel) == Kept(among, applied, sel) * Clean(c, sel)
  {
    hide Clean, ValidClassification, ValidOutcome;
  }

  lemma {:induction false} AppliedCoherent(p: Plan, steps: seq<Step>)
    requires p.events != [] && AllSound(steps)
    ensures forall c <- AppliedIn(p, steps) :: c.Coherent()
  {
    hide Attempt, Run;
    if steps != [] {
      AppliedCoherent(p, steps[..|steps| - 1]);
      assert steps[|steps| - 1].Sound();
    }
  }

  /**
   The closed form: what is left after a run is what every applied composition is
   clean of, whatever their number and order.
   */
  lemma {:induction false} ClosedForm(p: Plan, steps: seq<Step>)
    requires ValidPlan(p) && AllSound(steps) && Clocked(p.Last().at, steps)
    ensures forall c <- AppliedIn(p, steps) :: c.Coherent()
    ensures Run(p, steps).Eligible() == Kept(p.Eligible(), AppliedIn(p, steps), p.selection)
  {
    hide ValidPlan, After, Attempt, Clean, Clocked, AppliedIn;
    HasEvents(p);
    AppliedCoherent(p, steps);
    if steps == [] {
      assert AppliedIn(p, steps) == {} by { NothingApplied(p); }
    } else {
      var n := |steps| - 1;
      var before, s := Run(p, steps[..n]), steps[n];
      ClockedPrefix(p.Last().at, steps, n);
      RunKeepsLedger(p, steps[..n]);
      InTime(p, steps, n);
      StepKeepsLedger(before, s);
      ClosedForm(p, steps[..n]);
      AppliedStep(p, steps);
      if s.RevalidateStep? && Attempt(before, s).Ok? {
        assert AppliedIn(p, steps) == AppliedIn(p, steps[..n]) + {s.c};
        KeptStep(p.Eligible(), AppliedIn(p, steps[..n]), s.c, p.selection);
      }
    }
  }

  lemma NothingApplied(p: Plan)
    requires p.events != []
    ensures AppliedIn(p, []) == {}
  {
  }

  lemma InTime(p: Plan, steps: seq<Step>, n: nat)
    requires ValidPlan(p) && AllSound(steps) && Clocked(p.Last().at, steps) && n < |steps|
    ensures Run(p, steps[..n]).Last().at <= steps[n].now
  {
    hide ValidPlan, Run;
    HasEvents(p);
    ClockedPrefix(p.Last().at, steps, n);
    RunKeepsLedger(p, steps[..n]);
    assert n > 0 ==> steps[n - 1].now <= steps[n].now;
  }

  lemma AppliedStep(p: Plan, steps: seq<Step>)
    requires p.events != [] && AllSound(steps) && steps != []
    ensures var s, before := steps[|steps| - 1], steps[..|steps| - 1];
      AppliedIn(p, steps) == AppliedIn(p, before) + if s.RevalidateStep? && Attempt(Run(p, before), s).Ok? then {s.c} else {}
  {
    hide Attempt, Run;
  }

  /** Two runs that applied the same compositions, in any order and any number of times, leave the same messages. */
  lemma OrderDoesNotMatter(p: Plan, left: seq<Step>, right: seq<Step>)
    requires ValidPlan(p) && AllSound(left) && AllSound(right)
    requires Clocked(p.Last().at, left) && Clocked(p.Last().at, right)
    requires AppliedIn(p, left) == AppliedIn(p, right)
    ensures Run(p, left).Eligible() == Run(p, right).Eligible()
  {
    hide ValidPlan, Clean, AppliedIn, Run;
    HasEvents(p);
    ClosedForm(p, left);
    ClosedForm(p, right);
  }

  /** A composition that was applied already, or that selected the members, removes nothing more. */
  lemma RepeatingRemovesNothing(p: Plan, steps: seq<Step>, s: Step)
    requires ValidPlan(p) && AllSound(steps) && Clocked(p.Last().at, steps) && s.Sound() && s.RevalidateStep?
    requires Run(p, steps).Last().at <= s.now && Attempt(Run(p, steps), s).Ok?
    requires s.c in AppliedIn(p, steps) || p.Selected() <= Clean(s.c, p.selection)
    ensures After(Run(p, steps), s).Eligible() == Run(p, steps).Eligible()
    ensures After(Run(p, steps), s).Removed() == Run(p, steps).Removed()
  {
    hide ValidPlan, Clean, AppliedIn, Run, After, Attempt;
    HasEvents(p);
    RunKeepsLedger(p, steps);
    ClosedForm(p, steps);
    var q := Run(p, steps);
    StepKeepsLedger(q, s);
    EligibleCounted(q);
    EligibleCounted(After(q, s));
    assert q.Selected() == p.Selected() == After(q, s).Selected();
    assert q.Eligible() <= Clean(s.c, p.selection);
    forall m ensures m in After(q, s).Removed() <==> m in q.Removed() {
      assert m in q.Selected() && m !in q.Removed() <==> m in q.Eligible();
      assert m in After(q, s).Selected() && m !in After(q, s).Removed() <==> m in After(q, s).Eligible();
    }
  }

  /** When nothing of the selection is clean any more, the plan ends invalidated unless it was cancelled. */
  lemma EmptiedMeansInvalidated(p: Plan, steps: seq<Step>)
    requires ValidPlan(p) && AllSound(steps) && Clocked(p.Last().at, steps)
    ensures Run(p, steps).Eligible() == {} ==> Run(p, steps).Last().state == Invalidated
  {
    RunKeepsLedger(p, steps);
    var q := Run(p, steps);
    EligibleCounted(q);
    assert EventValid(q.events[|q.events| - 1]);
  }
}
