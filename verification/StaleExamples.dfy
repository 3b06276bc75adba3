/** A correction prepared on a merged source, once the merge was replaced by its repetition. */
module StaleExamples {
  import opened Basics
  import opened MailModel
  import opened PolicyModel
  import opened StructuralPolicy
  import opened StructuralSafety
  import opened StructuralFold
  import opened EffectiveFlows
  import opened PolicyBindings
  import opened Corrections
  import opened PolicyApplication
  import opened ProtectionTheorems
  import opened PolicyPrepare
  import opened PreparePrediction
  import opened StructuralPrediction
  import opened PrepareAgain
  import opened StructuralEffects
  import opened CorrectedValues
  import opened AnchorStatus
  import opened PolicyExamples

  const BOTH: SourceSelector := Merged({Sender(1), Sender(2)})

  /** The merged source is named, by a decision prepared when the decisions `seen` had created it. */
  function Naming(seen: set<DecisionId>): Policy {
    Policy(SetSourceDisplayName(BOTH, "x"),
           [Anchor(Target(OnSource(BOTH)), Some(SourceKey(BOTH)), {SenderId(1), SenderId(2)}, {SenderFlow(1), SenderFlow(2)}, seen)])
  }

  lemma MergedApplies(d: DecisionId)
    requires d != 5
    ensures Accepted(TwoSenders(), Protecting()) && Accepted(TwoSenders(), MergedAs(d))
    ensures StatusOf(TwoSenders(), MergedAs(d), d) == Some(Exact)
    ensures Applying(TwoSenders(), MergedAs(d)) == {d}
    ensures BOTH in EffectiveSources(TwoSenders(), MergedAs(d))
  {
    hide ValidClassification, ValidPolicies, AllBindings, Prepare, EffectiveSources, TwoSenders, StatusOf, MessagesOf, AutomaticIds, Applying;
    var snap, rs, qs := TwoSenders(), Protecting(), MergedAs(d);
    MergingAccepted();
    assert Remaining(rs, {}) == rs;
    ProtectingAccepted();
    PreparePredictsApply(snap, rs, Merging(), {}, d, qs);
    SurvivorsGrow(snap, rs, qs, d);
    ViewReplaced(snap, rs, qs, d);
    assert Elements(Merging().participants) == {Sender(1), Sender(2)};
    assert BOTH in Products(Merging());
  }

  /** The same sources with a correction beside the merge. */
  lemma NamingChangesNothing(d: DecisionId, seen: set<DecisionId>)
    requires d != 5 && d != 8
    ensures Accepted(TwoSenders(), MergedAs(d)) && Accepted(TwoSenders(), MergedAs(d)[8 := Naming(seen)])
    ensures EffectiveSources(TwoSenders(), MergedAs(d)[8 := Naming(seen)]) == EffectiveSources(TwoSenders(), MergedAs(d))
    ensures Creators(TwoSenders(), MergedAs(d)[8 := Naming(seen)], BOTH) == {d}
    ensures BOTH in EffectiveSources(TwoSenders(), MergedAs(d)[8 := Naming(seen)])
  {
    hide ValidClassification, AllBindings, EffectiveSources, TwoSenders, StatusOf, StructuralBindings, MergedAs;
    MergedApplies(d);
    MergedParts(d);
    var snap, rs, qs := TwoSenders(), MergedAs(d), MergedAs(d)[8 := Naming(seen)];
    assert ValidPolicy(Naming(seen));
    assert StructuralIds(qs) == StructuralIds(rs);
    ViewDependsOnStructure(snap, rs, qs);
    assert Applying(snap, qs) == Applying(snap, rs);
    assert Elements(Merging().participants) == {Sender(1), Sender(2)};
  }

  lemma MergedParts(d: DecisionId)
    requires d != 5
    ensures d in MergedAs(d) && MergedAs(d)[d].command == Merging()
    ensures MergedAs(d).Keys == {5, d} && MergedAs(d)[5] == Protecting()[5]
  {
    hide Prepare;
  }

  lemma OnlyNaming(d: DecisionId, seen: set<DecisionId>)
    requires d != 5 && d != 8 && Accepted(TwoSenders(), MergedAs(d)[8 := Naming(seen)])
    ensures 8 in PlainIds(MergedAs(d)[8 := Naming(seen)])
    ensures !Contested(TwoSenders(), MergedAs(d)[8 := Naming(seen)], 8)
  {
    hide ValidClassification, ValidPolicies, TwoSenders, RawIn, MergedAs;
    MergedParts(d);
  }

  lemma BothAre()
    ensures TwoSenders().Valid()
    ensures forall m :: m in MessagesOf(TwoSenders(), BOTH) <==> m == 1 || m == 2
    ensures TwoSenders().classified.messages == map[1 := SenderMessage(1), 2 := SenderMessage(2)]
  {
    hide ValidClassification;
    TwoSendersValid();
    var c := TwoSenders().classified;
    assert DescriptorOf(c, 1) == Sender(1) && DescriptorOf(c, 2) == Sender(2);
  }

  /**
   The correction is exact while the merge it observed is the one that applies.
   Once another decision makes the same merge, the selector, the identifier, the
   sources and the flows all agree, and still it needs a review and names nothing.
   */
  lemma StaleStructureNeedsReview(d: DecisionId, seen: DecisionId)
    requires d != 5 && d != 8
    ensures StatusOf(TwoSenders(), MergedAs(d)[8 := Naming({seen})], 8) == Some(if seen == d then Exact else NeedsReview)
  {
    hide ValidClassification, ValidPolicies, AllBindings, EffectiveSources, TwoSenders, MergedAs, RawIn, Creators, Contested;
    var snap, qs := TwoSenders(), MergedAs(d)[8 := Naming({seen})];
    NamingChangesNothing(d, {seen});
    OnlyNaming(d, {seen});
    PlainBindingIs(snap, qs, 8);
    SourceAnchorStatus(snap, qs, 8, BOTH);
    EffectiveIdsComplete(snap, qs, BOTH);
    ObservedBoth(EffectiveSources(snap, qs)[BOTH].messages, seen);
  }

  lemma ObservedBoth(ms: set<MessageId>, seen: DecisionId)
    requires TwoSenders().Valid() && ms == MessagesOf(TwoSenders(), BOTH)
    ensures ObservedAll(TwoSenders(), Naming({seen}).anchors[0], ms)
  {
    BothAre();
    hide ValidClassification, MessagesOf;
    var c := TwoSenders().classified;
    assert 1 in ms && 2 in ms && c.messages[1].source == SenderId(1) && c.messages[2].source == SenderId(2);
    assert c.messages[1].flow == SenderFlow(1) && c.messages[2].flow == SenderFlow(2);
  }

  /** Decision 6 may be replaced by its repetition, decision 9: the correction that observed 6 was exact, and then needs a review. */
  lemma ReplacedMergeLeavesNameBehind()
    ensures Prepare(TwoSenders(), MergedAs(6), Merging(), {6}) == Prepare(TwoSenders(), Protecting(), Merging(), {})
    ensures Prepare(TwoSenders(), Protecting(), Merging(), {}).Ok?
    ensures StatusOf(TwoSenders(), MergedAs(6)[8 := Naming({6})], 8) == Some(Exact)
    ensures StatusOf(TwoSenders(), MergedAs(9)[8 := Naming({6})], 8) == Some(NeedsReview)
  {
    hide ValidClassification, ValidPolicies, Prepare, StatusOf, TwoSenders;
    MergingAccepted();
    assert Remaining(Protecting(), {}) == Protecting();
    PreparedAgain(TwoSenders(), Protecting(), Merging(), {}, 6, MergedAs(6));
    StaleStructureNeedsReview(6, 6);
    StaleStructureNeedsReview(9, 6);
  }
}
