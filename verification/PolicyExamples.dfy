/** A concrete mailbox in which an accepted merge takes what an active protection targets. */
module PolicyExamples {
  import opened Basics
  import opened MailModel
  import opened PolicyModel
  import opened StructuralPolicy
  import opened StructuralSafety
  import opened StructuralFold
  import opened EffectiveFlows
  import opened PolicyBindings
  import opened Corrections
  import opened PolicyApplication
  import opened ProtectionTheorems
  import opened PolicyPrepare
  import opened PreparePrediction
  import opened StructuralPrediction
  import opened PrepareAgain
  import opened StructuralEffects
  import opened AnchorStatus

  function Sender(i: int): SourceDescriptor {
    Senders({i})
  }

  function SenderId(i: int): SourceId {
    SenderAnchored(i)
  }

  function SenderFlow(i: int): FlowId {
    FlowId(SenderId(i), BySender(i, Promotional))
  }

  function SenderMessage(i: int): ClassifiedMessage {
    ClassifiedMessage(SenderId(i), SenderFlow(i), Media, Promotional, UnknownSubscription, High)
  }

  function SenderSource(i: int): ClassifiedSource {
    ClassifiedSource(Sender(i), "source", {i}, {SenderFlow(i)}, Media, High)
  }

  function SenderFlowOf(i: int): ClassifiedFlow {
    ClassifiedFlow(SenderId(i), SenderIntent(Sender(i), i, Promotional), "flow", {i}, Promotional, UnknownSubscription, High)
  }

  /** Two messages, 1 and 2, each with a sender, source and flow of its own. */
  function TwoSenders(): Snapshot {
    Snapshot(
      map[1 := Record(1, 1, Some(1), {Inbox}, 10), 2 := Record(2, 2, Some(2), {Inbox}, 10)],
      Classification(
        map[1 := SenderMessage(1), 2 := SenderMessage(2)],
        map[SenderId(1) := SenderSource(1), SenderId(2) := SenderSource(2)],
        map[SenderFlow(1) := SenderFlowOf(1), SenderFlow(2) := SenderFlowOf(2)]))
  }

  /** What the classification consists of. */
  ghost predicate Parts(c: Classification) {
    && (forall m :: m in c.messages <==> m == 1 || m == 2)
    && (forall m <- c.messages :: c.messages[m] == SenderMessage(m))
    && (forall s :: s in c.sources <==> s == SenderId(1) || s == SenderId(2))
    && (forall s <- c.sources :: s.SenderAnchored? && s == SenderId(s.first) && c.sources[s] == SenderSource(s.first))
    && (forall f :: f in c.flows <==> f == SenderFlow(1) || f == SenderFlow(2))
    && (forall f <- c.flows :: f.source.SenderAnchored? && f == SenderFlow(f.source.first) && c.flows[f] == SenderFlowOf(f.source.first))
  }

  lemma KnownParts()
    ensures Parts(TwoSenders().classified)
  {
  }

  lemma PartsReferences(c: Classification)
    requires Parts(c)
    ensures ReferencesKnown(c)
  {
  }

  lemma PartsDescriptors(c: Classification)
    requires Parts(c)
    ensures DescriptorsUnique(c)
  {
    forall i: int, j: int | Sender(i) == Sender(j) ensures i == j {
      assert i in Sender(j).addresses;
    }
  }

  lemma PartsFlows(c: Classification, f: FlowId)
    requires Parts(c) && f in c.flows
    ensures c.flows[f].source in c.sources && FlowComplete(c, f)
  {
    var i := f.source.first;
    assert i == 1 || i == 2;
    assert forall m :: m in c.messages && c.messages[m].flow == f <==> m == i;
    assert c.flows[f].messages == (set m | m in c.messages && c.messages[m].flow == f);
    assert f.source.first in c.flows[f].messages;
  }

  lemma PartsSources(c: Classification, s: SourceId)
    requires Parts(c) && s in c.sources
    ensures SourceComplete(c, s)
  {
    var i := s.first;
    assert i == 1 || i == 2;
    assert forall m :: m in c.messages && c.messages[m].source == s <==> m == i;
    assert forall f :: f in c.flows && c.flows[f].source == s <==> f == SenderFlow(i);
    assert c.sources[s].messages == (set m | m in c.messages && c.messages[m].source == s);
    assert c.sources[s].flows == (set f | f in c.flows && c.flows[f].source == s);
    assert s.first in c.sources[s].messages && s.first in c.sources[s].descriptor.addresses;
  }

  lemma TwoSendersValid()
    ensures TwoSenders().Valid()
  {
    hide Parts, FlowComplete, SourceComplete, ReferencesKnown, DescriptorsUnique;
    var c := TwoSenders().classified;
    KnownParts();
    PartsReferences(c);
    PartsDescriptors(c);
    forall f | f in c.flows ensures c.flows[f].source in c.sources && FlowComplete(c, f) { PartsFlows(c, f); }
    forall s | s in c.sources ensures SourceComplete(c, s) { PartsSources(c, s); }
  }

  const FIRST: SourceSelector := Automatic(Sender(1))

  /** The user protects the first source. */
  function Protecting(): Policies {
    map[5 := Policy(ProtectTarget(OnSource(FIRST)), [Anchor(Target(OnSource(FIRST)), Some(SourceKey(FIRST)), {SenderId(1)}, {SenderFlow(1)}, {})])]
  }

  /** Then both sources are merged. */
  function Merging(): Command {
    MergeSources([Sender(1), Sender(2)])
  }

  lemma SourcesAre(i: int)
    requires i == 1 || i == 2
    ensures TwoSenders().Valid() && Automatic(Sender(i)) in BaselineKeys(TwoSenders())
    ensures i in MessagesOf(TwoSenders(), Automatic(Sender(i)))
  {
    hide ValidClassification;
    TwoSendersValid();
    assert SenderId(i) in TwoSenders().classified.sources;
    assert DescriptorOf(TwoSenders().classified, i) == Sender(i);
  }

  lemma NothingApplied(snap: Snapshot, ps: Policies)
    requires Accepted(snap, ps) && StructuralIds(ps) == {}
    ensures EffectiveSources(snap, ps) == Baseline(snap)
  {
    hide ValidClassification, ValidPolicies, StateOf, BaselineKeys, StructuralBindings;
    BindingKeys(snap, ps);
    assert Applying(snap, ps) == {};
    NoStep(snap, ps);
  }

  lemma NoStep(snap: Snapshot, ps: Policies)
    requires snap.Valid()
    ensures TableOf(snap, ps, {}) == Baseline(snap)
  {
    hide ValidClassification, StateOf;
    BaselineIsAutomaticKeys(snap);
    assert TableKeys(snap, ps, {}) == BaselineKeys(snap);
    assert forall k <- BaselineKeys(snap) :: Deciders(ps, {}, k) == {};
  }

  lemma ProtectingAccepted()
    ensures Accepted(TwoSenders(), Protecting())
    ensures StructuralIds(Protecting()) == {}
    ensures EffectiveSources(TwoSenders(), Protecting()) == Baseline(TwoSenders())
  {
    hide ValidClassification;
    TwoSendersValid();
    NothingApplied(TwoSenders(), Protecting());
  }

  lemma MergingObserved()
    ensures Accepted(TwoSenders(), Protecting())
    ensures Observe(TwoSenders(), Decide(TwoSenders(), Protecting()), Merging()).Ok?
  {
    hide ValidClassification, ValidPolicies, Decide, DecidedFor, AllBindings, EffectiveSources, ObserveMerge, BaselineKeys;
    var snap, ps, c := TwoSenders(), Protecting(), Merging();
    ProtectingAccepted();
    DecidedIdentity(snap, ps);
    SourcesAre(1);
    SourcesAre(2);
    MergeObserved(snap, Decide(snap, ps).sources, c.participants);
  }

  lemma MergeObserved(snap: Snapshot, table: SourceTable, ds: seq<SourceDescriptor>)
    requires forall x <- ds :: Automatic(x) in table
    ensures ObserveMerge(snap, table, ds).Ok?
  {
  }

  lemma MergingValid()
    ensures Merging().Valid()
  {
    assert 1 in Sender(1).addresses && 1 !in Sender(2).addresses;
  }

  lemma NobodyMerged(snap: Snapshot, targets: set<EffectiveId>, bindings: map<DecisionId, Binding>)
    requires Protecting().Keys <= bindings.Keys
    ensures !OccupiedBy(Protecting(), bindings, Merging(), targets)
  {
  }

  lemma MergingAccepted()
    ensures Prepare(TwoSenders(), Protecting(), Merging(), {}).Ok?
  {
    hide ValidClassification, ValidPolicies, Decide, DecidedFor, AllBindings, Prepare, Observe, OccupiedBy, TwoSenders, Protecting, Merging;
    var snap, ps, c := TwoSenders(), Protecting(), Merging();
    MergingObserved();
    MergingValid();
    assert Remaining(ps, {}) == ps;
    var observed := Observe(snap, Decide(snap, ps), c).value;
    PrepareSettles(snap, ps, c, {}, observed);
    NobodyMerged(snap, observed.targets, AllBindings(snap, ps));
  }

  /** The policies once the merge is active, as decision `d`. */
  ghost function MergedAs(d: DecisionId): Policies {
    MergingAccepted();
    Protecting()[d := Policy(Merging(), Prepare(TwoSenders(), Protecting(), Merging(), {}).value)]
  }

  ghost function AfterMerging(): Policies {
    MergedAs(6)
  }

  lemma ExactAtFirst(snap: Snapshot, anchor: Anchor)
    requires snap == TwoSenders() && snap.Valid() && anchor == Protecting()[5].anchors[0]
    ensures var b := ResolveSource(snap, anchor, FIRST, Baseline(snap)); b.status == Exact && 1 in b.candidate.messages
  {
    hide ValidClassification, TwoSenders, MessagesOf, AutomaticIds, FlowIdsOf, BaselineKeys;
    SourcesAre(1);
    FirstIs();
    assert Baseline(snap)[FIRST] == StateOf(snap, FIRST, {});
  }

  lemma ProtectionWasExact()
    ensures Accepted(TwoSenders(), Protecting()) && 5 in PlainIds(Protecting())
    ensures RawIn(TwoSenders(), Protecting(), 5).status == Exact
    ensures 1 in RawIn(TwoSenders(), Protecting(), 5).candidate.messages
  {
    hide ValidClassification, ValidPolicies, EffectiveSources, RawIn, TwoSenders, ResolveSource, Baseline;
    ProtectingAccepted();
    ExactAtFirst(TwoSenders(), Protecting()[5].anchors[0]);
    RawOnSource(TwoSenders(), Protecting(), 5, FIRST);
  }

  lemma FirstIs()
    ensures TwoSenders().Valid()
    ensures MessagesOf(TwoSenders(), FIRST) == {1} && AutomaticIds(TwoSenders(), FIRST) == {SenderId(1)}
    ensures FlowIdsOf(TwoSenders().classified, {1}) == {SenderFlow(1)}
  {
    hide ValidClassification;
    TwoSendersValid();
    var c := TwoSenders().classified;
    assert Sender(1) != Sender(2) by { assert 1 in Sender(1).addresses && 1 !in Sender(2).addresses; }
    assert DescriptorOf(c, 1) == Sender(1) && DescriptorOf(c, 2) == Sender(2);
    assert forall m :: m in MessagesOf(TwoSenders(), FIRST) <==> m == 1;
    assert forall s :: s in AutomaticIds(TwoSenders(), FIRST) <==> s == SenderId(1);
  }

  /**
   The merge is accepted although it takes the source that is protected: the
   binding of the protection, exact before, does not apply any more.
   */
  lemma MergeTakesProtected()
    ensures Prepare(TwoSenders(), Protecting(), Merging(), {}).Ok?
    ensures StatusOf(TwoSenders(), Protecting(), 5) == Some(Exact)
    ensures StatusOf(TwoSenders(), AfterMerging(), 6) == Some(Exact)
    ensures StatusOf(TwoSenders(), AfterMerging(), 5).Some? && !StatusOf(TwoSenders(), AfterMerging(), 5).value.Applies()
    ensures BindingIn(TwoSenders(), AfterMerging(), 5) != BindingIn(TwoSenders(), Protecting(), 5)
  {
    hide ValidClassification, ValidPolicies, AllBindings, Prepare, EffectiveSources, RawIn, ResolveSource, TwoSenders, Replaced, Contested;
    var snap, rs, qs := TwoSenders(), Protecting(), AfterMerging();
    MergingAccepted();
    assert Remaining(rs, {}) == rs;
    PreparePredictsApply(snap, rs, Merging(), {}, 6, qs);
    ProtectionWasExact();
    PlainBindingIs(snap, rs, 5);
    PlainBindingIs(snap, qs, 5);
    ProtectionUncontested(snap, rs);
    FirstGone(snap, rs, qs);
    RawOnSource(snap, qs, 5, FIRST);
    AppliesOnlyWhenPresent(snap, rs[5].anchors[0], FIRST, EffectiveSources(snap, qs));
  }

  lemma ProtectionUncontested(snap: Snapshot, rs: Policies)
    requires Accepted(snap, rs) && 5 in PlainIds(rs) && rs[5].command.ProtectTarget?
    ensures !Contested(snap, rs, 5)
  {
    hide ValidClassification, ValidPolicies, RawIn;
  }

  lemma FirstGone(snap: Snapshot, rs: Policies, qs: Policies)
    requires Accepted(snap, rs) && Accepted(snap, qs) && 6 !in rs && 6 in qs && qs == rs[6 := qs[6]]
    requires qs[6].command == Merging() && StatusOf(snap, qs, 6) == Some(Exact)
    ensures FIRST !in EffectiveSources(snap, qs)
  {
    hide ValidClassification, ValidPolicies, EffectiveSources, StatusOf, MessagesOf, AutomaticIds;
    ViewReplaced(snap, rs, qs, 6);
    assert Sender(1) in StructuralDescriptors(Merging());
    assert FIRST in ConsumedKeys(Merging());
    ConsumedAreAutomatic(Merging(), FIRST);
  }
}
