/** What the policy engine reports, and why none of the checks of the report can fail. */
module PolicyResult {
  import opened Basics
  import opened MailModel
  import opened PolicyModel
  import opened StructuralPolicy
  import opened StructuralSafety
  import opened EffectiveFlows
  import opened PolicyBindings
  import opened Corrections
  import opened Protection
  import opened PolicyApplication
  import opened ProtectionTheorems
  import opened BindingReach
  import opened ProtectionBook
  import opened PolicyRun

  /** The protection shown on a message, or joined over the members of a flow or a source. */
  datatype Shown = Shown(
    automatic: Category,
    effective: Category,
    shielded: bool,
    review: bool,
    hardExcluded: bool,
    reasons: set<Reason>,
    decisions: set<DecisionId>)

  datatype MessageOutcome = MessageOutcome(
    source: SourceSelector,
    flow: FlowSelector,
    rubro: Rubro,
    intent: Intent,
    subscription: Subscription,
    confidence: Confidence,
    shown: Shown)

  datatype FlowOutcome = FlowOutcome(source: SourceSelector, state: FlowState, messages: set<MessageId>, shown: Shown)

  datatype SourceOutcome = SourceOutcome(state: SourceState, messages: set<MessageId>, flows: set<FlowSelector>, shown: Shown)

  datatype Outcome = Outcome(
    messages: map<MessageId, MessageOutcome>,
    flows: map<FlowSelector, FlowOutcome>,
    sources: map<SourceSelector, SourceOutcome>,
    bindings: map<DecisionId, Binding>)

  // ---------------------------------------------------------------- checks

  /** The check of a protection projection. */
  predicate ShownValid(s: Shown) {
    && s.automatic.Rank() <= s.effective.Rank()
    && (s.hardExcluded ==> s.shielded)
    && (s.shielded <==> s.reasons != {})
  }

  /** Every message and flow refers to known objects, and they agree. */
  ghost predicate LinksKnown(o: Outcome) {
    && (forall m <- o.messages :: o.messages[m].source in o.sources && o.messages[m].flow in o.flows)
    && (forall m <- o.messages :: o.messages[m].flow in o.flows ==> o.flows[o.messages[m].flow].source == o.messages[m].source)
    && (forall fs <- o.flows :: o.flows[fs].source in o.sources)
  }

  ghost predicate FlowReportValid(o: Outcome, fs: FlowSelector)
    requires fs in o.flows
  {
    && o.flows[fs].messages == (set m | m in o.messages && o.messages[m].flow == fs)
    && o.flows[fs].messages != {}
    && o.flows[fs].state.automaticConfidence.Rank() <= o.flows[fs].state.effectiveConfidence.Rank()
    && ShownValid(o.flows[fs].shown)
  }

  ghost predicate SourceReportValid(o: Outcome, k: SourceSelector)
    requires k in o.sources
  {
    && o.sources[k].messages == (set m | m in o.messages && o.messages[m].source == k)
    && o.sources[k].flows == (set fs | fs in o.flows && o.flows[fs].source == k)
    && o.sources[k].messages != {} && o.sources[k].flows != {}
    && |o.sources[k].state.automatic| == |k.Descriptors()|
    && ShownValid(o.sources[k].shown)
  }

  /** Every check of the result constructors that does not concern formats. */
  ghost predicate ValidOutcome(o: Outcome) {
    && LinksKnown(o)
    && (forall m <- o.messages :: ShownValid(o.messages[m].shown))
    && (forall fs <- o.flows :: FlowReportValid(o, fs))
    && (forall k <- o.sources :: SourceReportValid(o, k))
  }

  // ----------------------------------------------------------- aggregation

  /** The strongest of some categories. */
  function Strongest(categories: set<Category>): (c: Category)
    ensures forall x <- categories :: x.Rank() <= c.Rank()
    ensures categories != {} ==> c in categories
  {
    if Critical in categories then Critical
    else if Documentary in categories then Documentary
    else if ChosenByUser in categories then ChosenByUser
    else if ReviewNeeded in categories then ReviewNeeded
    else
      assert categories != {} ==> Ordinary in categories by {
        if categories != {} { var x := SomeMember(categories); assert x.Ordinary?; }
      }
      Ordinary
  }

  /** Joins the protections of the members of a flow or a source. */
  function Joined(shown: map<MessageId, Shown>): Shown {
    var reasons := set m, r | m in shown && r in shown[m].reasons :: r;
    Shown(Strongest(set m | m in shown :: shown[m].automatic),
          CategoryOf(reasons),
          exists m <- shown :: shown[m].shielded,
          exists m <- shown :: shown[m].review,
          exists m <- shown :: shown[m].hardExcluded,
          reasons,
          set m, d | m in shown && d in shown[m].decisions :: d)
  }

  /** A member's protection agrees with its reasons. */
  ghost predicate Consistent(s: Shown) {
    && ShownValid(s)
    && s.effective == CategoryOf(s.reasons)
    && s.hardExcluded == HardExcluded(s.reasons)
    && (s.review ==> s.reasons != {})
  }

  /**
   Joining protects at least as much as any member: the joined category is no
   weaker than a member's automatic or effective one, and the flags are those of some member.
   */
  lemma JoinedDominates(shown: map<MessageId, Shown>, m: MessageId)
    requires m in shown && forall n <- shown :: Consistent(shown[n])
    ensures Consistent(Joined(shown))
    ensures shown[m].automatic.Rank() <= Joined(shown).automatic.Rank()
    ensures shown[m].effective.Rank() <= Joined(shown).effective.Rank()
    ensures shown[m].shielded ==> Joined(shown).shielded
    ensures shown[m].review ==> Joined(shown).review
    ensures shown[m].hardExcluded ==> Joined(shown).hardExcluded
  {
    hide CategoryOf;
    var all := Joined(shown);
    forall n | n in shown
      ensures shown[n].reasons <= all.reasons
      ensures shown[n].effective.Rank() <= all.effective.Rank()
    {
      CategoryMonotone(shown[n].reasons, all.reasons);
    }
    var categories := set n | n in shown :: shown[n].automatic;
    assert shown[m].automatic in categories;
    var top :| top in shown && shown[top].automatic == all.automatic;
    assert shown[top].automatic.Rank() <= shown[top].effective.Rank() <= all.effective.Rank();
    assert all.hardExcluded == HardExcluded(all.reasons) by {
      if HardExcluded(all.reasons) {
        var r :| r in all.reasons && r in {IsSent, IsDraft, IsTrash};
        var n :| n in shown && r in shown[n].reasons;
        assert shown[n].hardExcluded;
      }
    }
    assert all.shielded <==> all.reasons != {} by {
      if all.reasons != {} {
        var r := SomeMember(all.reasons);
        var n :| n in shown && r in shown[n].reasons;
        assert shown[n].shielded;
      }
      if all.shielded {
        var n :| n in shown && shown[n].shielded;
        assert shown[n].reasons <= all.reasons;
        var r := SomeMember(shown[n].reasons);
        assert r in all.reasons;
      }
    }
  }

  // -------------------------------------------------------------- building

  ghost function ShownOn(snap: Snapshot, ps: Policies, m: MessageId): Shown
    requires Accepted(snap, ps) && m in snap.records
  {
    var reasons := ReasonsOn(snap, ps, m);
    Shown(CategoryOf(AutomaticOn(snap, m)), CategoryOf(reasons), reasons != {}, MustReview(snap, ps, m),
          HardExcluded(reasons), reasons, DecisionsOn(snap, ps, Decide(snap, ps), m))
  }

  ghost function MessageOutcomeOf(snap: Snapshot, ps: Policies, d: Decided, m: MessageId): MessageOutcome
    requires Accepted(snap, ps) && DecidedFor(snap, d) && m in snap.records
  {
    var message := snap.classified.messages[m];
    MessageOutcome(d.view.toSource[m], d.view.toFlow[m], SourceStateOf(snap, d, m).effectiveRubro,
                   FlowStateOf(snap, d, m).effectiveIntent, message.subscription, message.confidence, ShownOn(snap, ps, m))
  }

  ghost function ShownAmong(snap: Snapshot, ps: Policies, members: set<MessageId>): map<MessageId, Shown>
    requires Accepted(snap, ps)
  {
    map m | m in members && m in snap.records :: ShownOn(snap, ps, m)
  }

  ghost function InFlow(snap: Snapshot, d: Decided, fs: FlowSelector): set<MessageId>
    requires DecidedFor(snap, d)
  {
    set m | m in snap.records && d.view.toFlow[m] == fs
  }

  ghost function InSource(snap: Snapshot, d: Decided, k: SourceSelector): set<MessageId>
    requires DecidedFor(snap, d)
  {
    set m | m in snap.records && d.view.toSource[m] == k
  }

  ghost function FlowOutcomeOf(snap: Snapshot, ps: Policies, d: Decided, fs: FlowSelector): FlowOutcome
    requires Accepted(snap, ps) && DecidedFor(snap, d) && fs in d.flows
  {
    var members := InFlow(snap, d, fs);
    FlowOutcome(fs.source, d.flows[fs], members, Joined(ShownAmong(snap, ps, members)))
  }

  ghost function SourceOutcomeOf(snap: Snapshot, ps: Policies, d: Decided, k: SourceSelector): SourceOutcome
    requires Accepted(snap, ps) && DecidedFor(snap, d) && k in d.sources
  {
    var members := InSource(snap, d, k);
    SourceOutcome(d.sources[k], members, (set fs | fs in d.flows && fs.source == k), Joined(ShownAmong(snap, ps, members)))
  }

  /** The report of an application. */
  ghost function OutcomeOf(snap: Snapshot, ps: Policies): Outcome
    requires Accepted(snap, ps)
  {
    hide ValidClassification, ValidPolicies, Decide;
    var d := Decide(snap, ps);
    Outcome(map m | m in snap.records :: MessageOutcomeOf(snap, ps, d, m),
            map fs | fs in d.flows :: FlowOutcomeOf(snap, ps, d, fs),
            map k | k in d.sources :: SourceOutcomeOf(snap, ps, d, k),
            d.bindings)
  }

  // -------------------------------------------------------------- validity

  lemma ShownConsistent(snap: Snapshot, ps: Policies, m: MessageId)
    requires Accepted(snap, ps) && m in snap.records
    ensures Consistent(ShownOn(snap, ps, m))
  {
    hide ValidClassification, ValidPolicies, Decide, DecidedFor, CategoryOf, HardExcluded, ReasonsOn, AutomaticOn, MustReview,
      DecisionsOn;
    AutomaticSurvives(snap, ps, m);
    if MustReview(snap, ps, m) || HardExcluded(ReasonsOn(snap, ps, m)) {
      ReviewHasReason(snap, ps, m);
    }
  }

  lemma JoinedConsistent(snap: Snapshot, ps: Policies, members: set<MessageId>)
    requires Accepted(snap, ps) && members != {} && members <= snap.records.Keys
    ensures Consistent(Joined(ShownAmong(snap, ps, members)))
  {
    hide ValidClassification, ValidPolicies, ShownOn, Consistent, Joined;
    var shown := ShownAmong(snap, ps, members);
    forall n | n in shown ensures Consistent(shown[n]) {
      ShownConsistent(snap, ps, n);
    }
    var m := SomeMember(members);
    JoinedDominates(shown, m);
  }

  /** As many sources as descriptors, since descriptors are unique. */
  lemma {:induction false} AsManySources(snap: Snapshot, descriptors: set<SourceDescriptor>)
    requires snap.Valid() && forall x <- descriptors :: Automatic(x) in BaselineKeys(snap)
    ensures |AutomaticIds(snap, Merged(descriptors))| == |descriptors|
    decreases |descriptors|
  {
    if descriptors == {} {
      assert AutomaticIds(snap, Merged(descriptors)) == {};
    } else {
      var x := SomeMember(descriptors);
      var s :| s in snap.classified.sources && snap.classified.sources[s].descriptor == x;
      AsManySources(snap, descriptors - {x});
      assert AutomaticIds(snap, Merged(descriptors)) == AutomaticIds(snap, Merged(descriptors - {x})) + {s};
    }
  }

  lemma SelectorSources(snap: Snapshot, ps: Policies, k: SourceSelector)
    requires Accepted(snap, ps) && k in EffectiveSources(snap, ps)
    ensures |EffectiveSources(snap, ps)[k].automatic| == |k.Descriptors()|
  {
    hide ValidClassification, ValidPolicies, Applying, GroupsResolve;
    SurvivorsApplicable(snap, ps);
    forall x | x in k.Descriptors() ensures Automatic(x) in BaselineKeys(snap) {
      DescriptorsPresent(snap, ps, Applying(snap, ps), k, x);
    }
    AsManySources(snap, k.Descriptors());
    assert AutomaticIds(snap, k) == AutomaticIds(snap, Merged(k.Descriptors()));
  }

  lemma DescriptorsPresent(snap: Snapshot, ps: Policies, applied: set<DecisionId>, k: SourceSelector, x: SourceDescriptor)
    requires snap.Valid() && Applicable(snap, ps, applied) && k in TableKeys(snap, ps, applied) && x in k.Descriptors()
    ensures Automatic(x) in BaselineKeys(snap)
  {
    hide ValidClassification, GroupsResolve;
    if k !in BaselineKeys(snap) {
      var d :| d in applied && d in ps && k in Products(ps[d].command);
      ProductDescriptors(ps[d].command, k);
    }
  }

  /** Where the decided view puts each message, as flows, sources and maps agree on it. */
  lemma DecidedPlaces(snap: Snapshot, ps: Policies)
    requires Accepted(snap, ps)
    ensures var d := Decide(snap, ps);
      && d.view.toSource.Keys == d.view.toFlow.Keys == snap.records.Keys
      && (forall m <- snap.records :: d.view.toFlow[m] in d.flows && d.view.toSource[m] in d.sources
                                      && d.view.toFlow[m].source == d.view.toSource[m])
      && (forall fs <- d.flows :: fs.source in d.sources && InFlow(snap, d, fs) != {}
                                  && d.flows[fs].automaticConfidence.Rank() <= d.flows[fs].effectiveConfidence.Rank())
      && (forall k <- d.sources :: |d.sources[k].automatic| == |k.Descriptors()|)
  {
    hide ValidClassification, ValidPolicies, AllBindings, ViewFor, Decide, CorrectedFlow, CorrectedSource, EffectiveSources,
      MakeFlow, Placed, SplitsRecords, FlowsOf, FlowSelectorFor, MessageSource;
    DecideParts(snap, ps);
    BindingsJoin(snap, ps);
    var d := Decide(snap, ps);
    forall fs | fs in d.flows
      ensures InFlow(snap, d, fs) != {}
      ensures d.flows[fs].automaticConfidence.Rank() <= d.flows[fs].effectiveConfidence.Rank()
    {
      FlowInhabited(snap, ps, fs);
    }
    forall k | k in d.sources ensures |d.sources[k].automatic| == |k.Descriptors()| {
      SourcesSplit(snap, ps);
      assert ViewFor(snap, ps).sources == EffectiveSources(snap, ps) by { ViewSources(snap, ps); }
      SelectorSources(snap, ps, k);
      CorrectedKeepsIds(ps, AllBindings(snap, ps), PlainIds(ps), k, EffectiveSources(snap, ps)[k]);
    }
  }

  lemma ViewSources(snap: Snapshot, ps: Policies)
    requires Accepted(snap, ps)
    ensures ViewFor(snap, ps).sources == EffectiveSources(snap, ps)
    ensures ViewFor(snap, ps).flows == FlowsOf(snap, EffectiveSources(snap, ps))
  {
    hide ValidClassification, ValidPolicies, EffectiveSources, FlowsOf;
  }

  lemma CorrectedKeepsIds(ps: Policies, b: map<DecisionId, Binding>, done: set<DecisionId>, k: SourceSelector, st: SourceState)
    ensures CorrectedSource(ps, b, done, k, st).automatic == st.automatic
  {
  }

  lemma FlowInhabited(snap: Snapshot, ps: Policies, fs: FlowSelector)
    requires Accepted(snap, ps) && fs in Decide(snap, ps).flows
    ensures DecidedFor(snap, Decide(snap, ps)) && InFlow(snap, Decide(snap, ps), fs) != {}
    ensures Decide(snap, ps).flows[fs].automaticConfidence == Decide(snap, ps).flows[fs].effectiveConfidence
  {
    hide ValidClassification, ValidPolicies, AllBindings, Decide, EffectiveSources, SplitsRecords, WritersIn, FlowNameBy, FlowIntentBy,
      ViewFor, FlowWith;
    DecideParts(snap, ps);
    FlowsPlaced(snap, ps);
    ViewSources(snap, ps);
    FlowConfidenceConservative(snap, EffectiveSources(snap, ps), fs);
    var m := SomeMember(Decide(snap, ps).flows[fs].messages);
    assert m in InFlow(snap, Decide(snap, ps), fs);
  }

  /** The report, entry by entry. */
  lemma OutcomeEntries(snap: Snapshot, ps: Policies)
    requires Accepted(snap, ps)
    ensures var o, d := OutcomeOf(snap, ps), Decide(snap, ps);
      && DecidedFor(snap, d)
      && o.messages.Keys == snap.records.Keys && o.flows.Keys == d.flows.Keys && o.sources.Keys == d.sources.Keys
      && (forall m <- snap.records :: o.messages[m] == MessageOutcomeOf(snap, ps, d, m))
      && (forall fs <- d.flows :: o.flows[fs] == FlowOutcomeOf(snap, ps, d, fs))
      && (forall k <- d.sources :: o.sources[k] == SourceOutcomeOf(snap, ps, d, k))
  {
    hide ValidClassification, ValidPolicies, Decide, DecidedFor, MessageOutcomeOf, FlowOutcomeOf, SourceOutcomeOf;
  }

  lemma MessagesReported(snap: Snapshot, ps: Policies)
    requires Accepted(snap, ps)
    ensures LinksKnown(OutcomeOf(snap, ps))
    ensures forall m <- OutcomeOf(snap, ps).messages :: ShownValid(OutcomeOf(snap, ps).messages[m].shown)
  {
    hide ValidClassification, ValidPolicies, Decide, ShownOn, Joined, ShownAmong, DecidedFor, SourceStateOf, FlowStateOf, ShownValid,
      OutcomeOf, InFlow, InSource;
    OutcomeEntries(snap, ps);
    DecidedPlaces(snap, ps);
    var o := OutcomeOf(snap, ps);
    forall m | m in o.messages ensures ShownValid(o.messages[m].shown) {
      ShownConsistent(snap, ps, m);
    }
  }

  lemma FlowReported(snap: Snapshot, ps: Policies, fs: FlowSelector)
    requires Accepted(snap, ps) && fs in OutcomeOf(snap, ps).flows
    ensures FlowReportValid(OutcomeOf(snap, ps), fs)
  {
    hide ValidClassification, ValidPolicies, Decide, ShownOn, Joined, ShownAmong, DecidedFor, SourceStateOf, FlowStateOf, ShownValid,
      OutcomeOf, SourceOutcomeOf, InSource;
    OutcomeEntries(snap, ps);
    DecidedPlaces(snap, ps);
    JoinedConsistent(snap, ps, InFlow(snap, Decide(snap, ps), fs));
    var o := OutcomeOf(snap, ps);
    forall m ensures m in o.flows[fs].messages <==> m in o.messages && o.messages[m].flow == fs {
    }
  }

  lemma SourceReported(snap: Snapshot, ps: Policies, k: SourceSelector)
    requires Accepted(snap, ps) && k in OutcomeOf(snap, ps).sources
    ensures SourceReportValid(OutcomeOf(snap, ps), k)
  {
    hide ValidClassification, ValidPolicies, Decide, ShownOn, Joined, ShownAmong, DecidedFor, SourceStateOf, FlowStateOf, ShownValid,
      OutcomeOf, InFlow;
    OutcomeEntries(snap, ps);
    DecidedPlaces(snap, ps);
    SourceInhabited(snap, ps, k);
    JoinedConsistent(snap, ps, InSource(snap, Decide(snap, ps), k));
    var o := OutcomeOf(snap, ps);
    forall m ensures m in o.sources[k].messages <==> m in o.messages && o.messages[m].source == k {
    }
    forall fs ensures fs in o.sources[k].flows <==> fs in o.flows && o.flows[fs].source == k {
    }
  }

  /** None of the checks of the result constructors can fail. */
  lemma OutcomeIsValid(snap: Snapshot, ps: Policies)
    requires Accepted(snap, ps)
    ensures ValidOutcome(OutcomeOf(snap, ps))
  {
    hide ValidClassification, ValidPolicies, OutcomeOf, FlowReportValid, SourceReportValid, LinksKnown, ShownValid;
    MessagesReported(snap, ps);
    forall fs | fs in OutcomeOf(snap, ps).flows ensures FlowReportValid(OutcomeOf(snap, ps), fs) {
      FlowReported(snap, ps, fs);
    }
    forall k | k in OutcomeOf(snap, ps).sources ensures SourceReportValid(OutcomeOf(snap, ps), k) {
      SourceReported(snap, ps, k);
    }
  }

  lemma SourceInhabited(snap: Snapshot, ps: Policies, k: SourceSelector)
    requires Accepted(snap, ps) && k in Decide(snap, ps).sources
    ensures DecidedFor(snap, Decide(snap, ps)) && InSource(snap, Decide(snap, ps), k) != {}
    ensures exists fs <- Decide(snap, ps).flows :: fs.source == k
  {
    hide ValidClassification, ValidPolicies, AllBindings, Decide, EffectiveSources, FlowsOf, CorrectedSource, CorrectedFlow,
      ViewFor, DecidedFor;
    DecideParts(snap, ps);
    DecidedPlaces(snap, ps);
    ViewSources(snap, ps);
    assert k in EffectiveSources(snap, ps);
    var m := HeldBy(snap, ps, k);
    var d := Decide(snap, ps);
    assert m in InSource(snap, d, k);
    assert d.view.toFlow[m].source == k;
  }

  lemma HeldBy(snap: Snapshot, ps: Policies, k: SourceSelector) returns (m: MessageId)
    requires Accepted(snap, ps) && k in EffectiveSources(snap, ps)
    ensures m in snap.records && m in ViewFor(snap, ps).toSource && ViewFor(snap, ps).toSource[m] == k
  {
    hide ValidClassification, ValidPolicies, EffectiveSources, FlowsOf, ViewFor;
    SourcesSplit(snap, ps);
    m := SomeMember(EffectiveSources(snap, ps)[k].messages);
    MappedToHolder(snap, ps, k, m);
  }

  lemma MappedToHolder(snap: Snapshot, ps: Policies, k: SourceSelector, m: MessageId)
    requires Accepted(snap, ps) && k in EffectiveSources(snap, ps) && m in EffectiveSources(snap, ps)[k].messages
    ensures m in snap.records && m in ViewFor(snap, ps).toSource && ViewFor(snap, ps).toSource[m] == k
  {
    hide ValidClassification, ValidPolicies, EffectiveSources, FlowsOf;
    SourcesSplit(snap, ps);
  }
}
