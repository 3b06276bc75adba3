/** A concrete plan that a command with an earlier clock cannot change. */
module CleanupExamples {
  import opened Basics
  import opened MailModel
  import opened PolicyModel
  import opened CleanupScope
  import opened CleanupLedger
  import opened CleanupSteps

  const FLOW: FlowSelector := FlowSelector(IsolatedFlow(IsolatedSource(1), 1, Promotional), Automatic(IsolatedSource(1)))

  const ONLY_MEMBER: Member := Member(1, 1, 50, 10, FLOW.source, FLOW, true, {})

  /** A plan of one selected message, created at 100. */
  function SmallPlan(): Plan {
    Plan(Selection([SourceTarget(FLOW.source)], None, None, AnyRead, {}, 0), Revisions(1, 1), 100, 100 + VALIDITY, [ONLY_MEMBER],
         [Sample(true, 0, ONLY_MEMBER)], [Event(1, CreatedEvent, 100, Frozen, Some(Revisions(1, 1)), 0, 1)], [])
  }

  lemma SmallSamplesAreValid()
    ensures SamplesValid(SmallPlan().samples, SmallPlan().members)
  {
    var ss := SmallPlan().samples;
    assert ss[1..] == [];
    assert OfKind(ss, true) == ss && OfKind(ss, false) == [];
  }

  lemma SmallPlanIsValid()
    ensures ValidPlan(SmallPlan())
  {
    hide SamplesValid, SelectedBytes, ExcludedBytes, EligibleBytes;
    var p := SmallPlan();
    SmallSamplesAreValid();
    assert p.members[1..] == [];
    assert CountSelected(p.members) == 1;
    AggregateNeverTooLarge(p);
  }

  /** At 99 the cancellation of that plan passes its own checks, and the constructor refuses its result; at 100 it is accepted. */
  lemma ClockWentBack()
    ensures CancellationRefused(SmallPlan(), CancelCommand(1), 99) == None
    ensures Cancel(SmallPlan(), CancelCommand(1), 99) == Err(LedgerRejected)
    ensures Cancel(SmallPlan(), CancelCommand(1), 100).Ok?
  {
    hide ValidPlan;
    SmallPlanIsValid();
    CancellationKeepsLedger(SmallPlan(), CancelCommand(1), 99);
    CancellationKeepsLedger(SmallPlan(), CancelCommand(1), 100);
  }
}
