/** The whole application of the active policies, run in any order. */
module PolicyRun {
  import opened Basics
  import opened MailModel
  import opened PolicyModel
  import opened StructuralPolicy
  import opened StructuralSafety
  import opened EffectiveFlows
  import opened PolicyBindings
  import opened Corrections
  import opened CorrectionSteps
  import opened Protection
  import opened PolicyApplication
  import opened ProtectionTheorems
  import opened BindingReach
  import opened PolicyEngine
  import opened ProtectionBook

  /** Separates the structural decisions from the others, keeping their order. */
  method SplitOrder(ps: Policies, order: seq<DecisionId>) returns (structural: seq<DecisionId>, plain: seq<DecisionId>)
    requires Visits(order, ps.Keys)
    ensures Visits(structural, StructuralIds(ps)) && Visits(plain, PlainIds(ps))
  {
    structural, plain := [], [];
    for i := 0 to |order|
      invariant Distinct(structural) && Distinct(plain)
      invariant forall d :: d in structural <==> d in order[..i] && d in ps && ps[d].command.Structural()
      invariant forall d :: d in plain <==> d in order[..i] && d in ps && !ps[d].command.Structural()
    {
      var d := order[i];
      assert d in Elements(order);
      NotBefore(order, i);
      if ps[d].command.Structural() {
        structural := structural + [d];
      } else {
        plain := plain + [d];
      }
    }
    assert order[..|order|] == order;
    forall d ensures d in order <==> d in ps {
      assert d in order <==> d in Elements(order);
    }
    forall d ensures d in Elements(structural) <==> d in StructuralIds(ps) {
    }
    forall d ensures d in Elements(plain) <==> d in PlainIds(ps) {
    }
  }

  /** What the program computes from a snapshot and its active policies, whatever their order. */
  method ApplyLocalPolicies(snap: Snapshot, policies: Policies, order: seq<DecisionId>)
    returns (ok: bool, view: EffectiveView, book: Book)
    requires Accepted(snap, policies) && Visits(order, policies.Keys)
    ensures ok && fresh(view) && fresh(book)
    ensures view.bindings == AllBindings(snap, policies)
    ensures view.sources == Decide(snap, policies).sources && view.flows == Decide(snap, policies).flows
    ensures view.toSource == Decide(snap, policies).view.toSource && view.toFlow == Decide(snap, policies).view.toFlow
    ensures book.entries.Keys == snap.records.Keys
    ensures forall m <- book.entries ::
      && book.entries[m].automatic == AutomaticOn(snap, m)
      && book.entries[m].effective == ReasonsOn(snap, policies, m)
      && (book.entries[m].review <==> MustReview(snap, policies, m))
  {
    hide ValidClassification, ValidPolicies, AllBindings, ViewFor, Decide, Baseline, EffectiveSources, StructuralBindings,
      RawStructural, MarkStructural, RawPlain, CorrectedSources, CorrectedFlows, ProtectedBy, UnsettledOn, Faithful, Placed,
      BaseReasons, Linked, ReachKnown;
    var structural, plain := SplitOrder(policies, order);
    view := new EffectiveView(snap, policies);
    book := new Book(snap);
    BindingKeys(snap, policies);
    BindingsJoin(snap, policies);
    PlainKeys(snap, policies);
    RawThenMarked(snap, policies);
    view.BindStructural(structural);
    view.MarkStructuralConflicts(structural);
    ghost var steps;
    ok, steps := view.ApplyStructural(structural);
    if !ok { return; }
    ok := view.Rebuild();
    if !ok { return; }
    view.BindPlain(plain);
    view.MarkCorrectionConflicts(plain);
    ok := view.ApplyPlain(plain);
    if !ok { return; }
    view.MarkUnsettled(order);
    DecideParts(snap, policies);
    EverythingReached(snap, policies);
    FlowsPlaced(snap, policies);
    book.Fill(policies, view.bindings, view.sources, view.flows, view.toSource, view.toFlow, view.marks, Decide(snap, policies));
    forall m | m in book.entries
      ensures book.entries[m].automatic == AutomaticOn(snap, m)
      ensures book.entries[m].effective == ReasonsOn(snap, policies, m)
      ensures book.entries[m].review <==> MustReview(snap, policies, m)
    {
      FaithfulMeans(snap, policies, m, book.entries[m]);
    }
  }

  lemma RawThenMarked(snap: Snapshot, ps: Policies)
    requires Accepted(snap, ps)
    ensures RawStructural(snap, ps).Keys == StructuralIds(ps)
    ensures StructuralBindings(snap, ps) == MarkStructural(ps, RawStructural(snap, ps))
  {
    hide ValidClassification, ValidPolicies, StructuralBinding;
    var raw := RawStructural(snap, ps);
    assert raw.Keys == StructuralIds(ps);
  }

  lemma EverythingReached(snap: Snapshot, ps: Policies)
    requires Accepted(snap, ps)
    ensures ReachKnown(snap, AllBindings(snap, ps))
  {
    hide ValidClassification, ValidPolicies, AllBindings;
    forall d | d in AllBindings(snap, ps) ensures AllBindings(snap, ps)[d].candidate.messages <= snap.records.Keys {
      BindingsReach(snap, ps, d);
    }
  }

  /** Corrections move no message, so each message is in the flow it is mapped to. */
  lemma FlowsPlaced(snap: Snapshot, ps: Policies)
    requires Accepted(snap, ps)
    ensures Placed(snap, Decide(snap, ps).flows, Decide(snap, ps).view.toFlow)
  {
    hide ValidClassification, ValidPolicies, AllBindings, ViewFor, Decide, Placed, CorrectedFlows, DecidedFor;
    DecideParts(snap, ps);
    ViewPlaced(snap, ps);
    StillPlaced(snap, ps, AllBindings(snap, ps), ViewFor(snap, ps).flows, ViewFor(snap, ps).toFlow);
  }

  lemma StillPlaced(snap: Snapshot, ps: Policies, b: map<DecisionId, Binding>, flows: FlowTable, toFlow: map<MessageId, FlowSelector>)
    requires Placed(snap, flows, toFlow)
    ensures Placed(snap, CorrectedFlows(ps, b, PlainIds(ps), flows), toFlow)
  {
    hide WritersIn, FlowNameBy, FlowIntentBy;
  }

  lemma ViewPlaced(snap: Snapshot, ps: Policies)
    requires Accepted(snap, ps)
    ensures Placed(snap, ViewFor(snap, ps).flows, ViewFor(snap, ps).toFlow)
  {
    hide ValidClassification, ValidPolicies, EffectiveSources, FlowsOf, SplitsRecords, FlowSelectorFor;
    SourcesSplit(snap, ps);
    ViewReach(snap, ps);
    assert ViewFor(snap, ps) == ViewOf(snap, EffectiveSources(snap, ps));
    forall fs | fs in FlowsOf(snap, EffectiveSources(snap, ps))
      ensures FlowsOf(snap, EffectiveSources(snap, ps))[fs].messages <= snap.records.Keys
    {
      assert fs in ViewFor(snap, ps).flows;
    }
    TablePlaced(snap, EffectiveSources(snap, ps));
  }

  lemma TablePlaced(snap: Snapshot, table: SourceTable)
    requires snap.Valid() && SplitsRecords(snap, table)
    requires forall fs <- FlowsOf(snap, table) :: FlowsOf(snap, table)[fs].messages <= snap.records.Keys
    ensures Placed(snap, FlowsOf(snap, table), FlowMap(snap, table))
  {
    hide ValidClassification, FlowsOf, SplitsRecords, FlowSelectorFor;
    var flows, toFlow := FlowsOf(snap, table), FlowMap(snap, table);
    forall m | m in snap.records
      ensures toFlow[m] in flows
      ensures forall fs :: fs in flows && m in flows[fs].messages <==> fs == toFlow[m]
    {
      FlowsSplitMessages(snap, table, m);
    }
  }

  lemma FaithfulMeans(snap: Snapshot, ps: Policies, m: MessageId, e: Entry)
    requires Accepted(snap, ps) && m in snap.records && Faithful(snap, ps, Decide(snap, ps), m, e)
    ensures e.automatic == AutomaticOn(snap, m)
    ensures e.effective == ReasonsOn(snap, ps, m)
    ensures e.review <==> MustReview(snap, ps, m)
  {
    hide ValidClassification, ValidPolicies, Decide, DecidedFor, ReviewRequired, DecisionsOn, ReasonsBefore;
  }
}
