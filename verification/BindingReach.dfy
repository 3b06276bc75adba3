/** Bindings only reach messages of the snapshot. */
module BindingReach {
  import opened Basics
  import opened MailModel
  import opened PolicyModel
  import opened StructuralPolicy
  import opened StructuralSafety
  import opened EffectiveFlows
  import opened PolicyBindings
  import opened PolicyApplication
  import opened ProtectionTheorems
  import opened CorrectionSteps

  lemma SourceReach(snap: Snapshot, anchor: Anchor, sel: SourceSelector, table: SourceTable)
    requires forall k <- table :: table[k].messages <= snap.records.Keys
    ensures ResolveSource(snap, anchor, sel, table).candidate.messages <= snap.records.Keys
  {
    hide ExactStatus, SelectorsShareAnchor;
  }

  lemma BaselineReach(snap: Snapshot)
    requires snap.Valid()
    ensures forall k <- Baseline(snap) :: Baseline(snap)[k].messages <= snap.records.Keys
  {
    hide ValidClassification;
  }

  lemma MergeReach(snap: Snapshot, p: Policy)
    requires snap.Valid() && ValidPolicy(p) && p.command.MergeSources?
    ensures MergeBinding(snap, p, Baseline(snap)).candidate.messages <= snap.records.Keys
  {
    hide ValidClassification, Baseline, ResolveSource, CombinedStatus;
    BaselineReach(snap);
    forall i | 0 <= i < |p.anchors|
      ensures p.anchors[i].selector.Target? && p.anchors[i].selector.target.OnSource?
      ensures ResolveParticipant(snap, p.anchors[i], Baseline(snap)).candidate.messages <= snap.records.Keys
    {
      assert p.anchors[i].selector == AnchorSelectors(p.command)[i];
      SourceReach(snap, p.anchors[i], p.anchors[i].selector.target.source, Baseline(snap));
    }
  }

  lemma PartitionReach(snap: Snapshot, p: Policy)
    requires snap.Valid() && ValidPolicy(p) && p.command.PartitionSource?
    ensures PartitionBinding(snap, p, Baseline(snap)).candidate.messages <= snap.records.Keys
  {
    hide ValidClassification, Baseline, ResolveSource, CombinedStatus, GroupsResolve, MemberStatus, FallbackOnly;
    BaselineReach(snap);
    SourceReach(snap, p.anchors[0], Automatic(p.command.target), Baseline(snap));
  }

  lemma FlowReach(snap: Snapshot, anchor: Anchor, fs: FlowSelector, view: View)
    requires Linked(view) && forall f <- view.flows :: view.flows[f].messages <= snap.records.Keys
    ensures ResolveFlow(anchor, fs, view).candidate.messages <= snap.records.Keys
  {
    hide ExactStatus, ShareFlowAnchor, ShareSourceAnchor;
  }

  lemma ViewReach(snap: Snapshot, ps: Policies)
    requires Accepted(snap, ps)
    ensures forall k <- ViewFor(snap, ps).sources :: ViewFor(snap, ps).sources[k].messages <= snap.records.Keys
    ensures forall fs <- ViewFor(snap, ps).flows :: ViewFor(snap, ps).flows[fs].messages <= snap.records.Keys
  {
    hide ValidClassification, ValidPolicy, EffectiveSources, FlowWith;
    SourcesSplit(snap, ps);
  }

  lemma TargetReach(snap: Snapshot, anchor: Anchor, target: TargetSelector, view: View)
    requires snap.Valid() && Ready(snap, view)
    requires forall k <- view.sources :: view.sources[k].messages <= snap.records.Keys
    requires forall f <- view.flows :: view.flows[f].messages <= snap.records.Keys
    ensures ResolveTarget(snap, anchor, target, view).candidate.messages <= snap.records.Keys
  {
    hide ValidClassification, ResolveSource, ResolveFlow, Linked;
    if target.OnSource? {
      SourceReach(snap, anchor, target.source, view.sources);
    } else if target.OnFlow? {
      FlowReach(snap, anchor, target.flow, view);
    }
  }

  /** No binding, whatever its status, reaches a message outside the snapshot. */
  lemma BindingsReach(snap: Snapshot, ps: Policies, d: DecisionId)
    requires Accepted(snap, ps) && d in AllBindings(snap, ps)
    ensures AllBindings(snap, ps)[d].candidate.messages <= snap.records.Keys
  {
    hide ValidClassification, ValidPolicies, AllBindings, StructuralBinding, ViewFor, ResolveTarget;
    BindingKeys(snap, ps);
    assert ValidPolicy(ps[d]) by { assert ValidPolicies(ps); StillValid(ps, d); }
    if d in StructuralIds(ps) {
      StructuralReach(snap, ps[d]);
      assert RawStructural(snap, ps)[d] == StructuralBinding(snap, ps[d], Baseline(snap));
    } else {
      PlainBindingKeys(snap, ps);
      ViewReach(snap, ps);
      assert d in PlainIds(ps);
      TargetReach(snap, ps[d].anchors[0], ps[d].command.Target(), ViewFor(snap, ps));
    }
  }

  lemma StillValid(ps: Policies, d: DecisionId)
    requires ValidPolicies(ps) && d in ps
    ensures ValidPolicy(ps[d])
  {
  }

  lemma StructuralReach(snap: Snapshot, p: Policy)
    requires snap.Valid() && ValidPolicy(p) && p.command.Structural()
    ensures StructuralBinding(snap, p, Baseline(snap)).candidate.messages <= snap.records.Keys
  {
    hide ValidClassification, MergeBinding, PartitionBinding;
    if p.command.MergeSources? {
      MergeReach(snap, p);
    } else {
      PartitionReach(snap, p);
    }
  }
}
