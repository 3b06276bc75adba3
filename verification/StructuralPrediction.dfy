/** A prepared merge or partition binds exactly once it is active. */
module StructuralPrediction {
  import opened Basics
  import opened MailModel
  import opened PolicyModel
  import opened StructuralPolicy
  import opened StructuralSafety
  import opened EffectiveFlows
  import opened PolicyBindings
  import opened PolicyApplication
  import opened ProtectionTheorems
  import opened PolicyPrepare
  import opened PreparePrediction

  // --------------------------------------------------- untouched automatic sources

  /** An automatic source still in the view is as it was before any structural policy. */
  lemma AutomaticUntouched(snap: Snapshot, ps: Policies, x: SourceDescriptor)
    requires Accepted(snap, ps) && Automatic(x) in EffectiveSources(snap, ps)
    ensures Automatic(x) in Baseline(snap)
    ensures EffectiveSources(snap, ps)[Automatic(x)] == Baseline(snap)[Automatic(x)]
  {
    hide ValidClassification, ValidPolicies, Applying, StateOf, BaselineKeys;
    var applied := Applying(snap, ps);
    assert Deciders(ps, applied, Automatic(x)) == {} by {
      forall d | d in applied && d in ps ensures Automatic(x) !in Products(ps[d].command) {
        if Automatic(x) in Products(ps[d].command) { ProductDescriptors(ps[d].command, Automatic(x)); }
      }
    }
    assert Automatic(x) in BaselineKeys(snap);
  }

  lemma BaselineEntry(snap: Snapshot, x: SourceDescriptor)
    requires snap.Valid() && Automatic(x) in Baseline(snap)
    ensures var st := Baseline(snap)[Automatic(x)];
      && st.messages == MessagesOf(snap, Automatic(x)) && st.messages != {}
      && st.automatic == SourceIdsOf(snap.classified, st.messages) && st.structural == {}
  {
    hide ValidClassification, MessagesOf, AutomaticIds, SourceIdsOf, BaselineKeys;
    DescriptorHasMessage(snap, x);
    SourceIdsComplete(snap, Automatic(x));
  }

  /** Distinct automatic sources share no message. */
  lemma BaselineUnique(snap: Snapshot, x: SourceDescriptor, l: SourceSelector, m: MessageId)
    requires snap.Valid() && Automatic(x) in Baseline(snap) && l in Baseline(snap)
    requires m in Baseline(snap)[Automatic(x)].messages && m in Baseline(snap)[l].messages
    ensures l == Automatic(x)
  {
    hide ValidClassification;
  }

  /** The anchor of an untouched automatic source resolves exactly among the automatic sources. */
  lemma ParticipantExact(snap: Snapshot, ps: Policies, x: SourceDescriptor, st: SourceState)
    requires Accepted(snap, ps) && Automatic(x) in EffectiveSources(snap, ps)
    requires st.messages == EffectiveSources(snap, ps)[Automatic(x)].messages
      && st.structural == EffectiveSources(snap, ps)[Automatic(x)].structural
    ensures Automatic(x) in Baseline(snap)
    ensures ResolveSource(snap, SourceAnchorOf(snap, Automatic(x), st), Automatic(x), Baseline(snap))
         == Binding(Exact, SourceCandidate(snap, Automatic(x), Baseline(snap)[Automatic(x)]))
  {
    hide ValidClassification, ValidPolicies, EffectiveSources, Baseline, SourceIdsOf, FlowIdsOf;
    AutomaticUntouched(snap, ps, x);
    BaselineEntry(snap, x);
  }

  // ------------------------------------------ sharing a message is being occupied

  lemma StructuralTouches(snap: Snapshot, p: Policy, x: SourceDescriptor, m: MessageId)
    requires snap.Valid() && ValidPolicy(p) && p.command.Structural()
    requires Automatic(x) in Baseline(snap) && m in Baseline(snap)[Automatic(x)].messages
    requires m in StructuralBinding(snap, p, Baseline(snap)).candidate.messages
    ensures SourceKey(Automatic(x)) in StructuralBinding(snap, p, Baseline(snap)).candidate.effective
  {
    hide ValidClassification, ResolveSource, Baseline, GroupsResolve, FallbackOnly;
    var table := Baseline(snap);
    forall l | l in table && m in table[l].messages ensures l == Automatic(x) {
      BaselineUnique(snap, x, l, m);
    }
    if p.command.MergeSources? {
      var parts := seq(|p.anchors|, i requires 0 <= i < |p.anchors| => ResolveParticipant(snap, p.anchors[i], table));
      var b :| b in parts && m in b.candidate.messages;
      var i :| 0 <= i < |parts| && parts[i] == b;
      assert p.anchors[i].selector == AnchorSelectors(p.command)[i];
      SourceBindingTouches(snap, p.anchors[i], p.anchors[i].selector.target.source, table, Automatic(x), m);
    } else {
      SourceBindingTouches(snap, p.anchors[0], Automatic(p.command.target), table, Automatic(x), m);
    }
  }

  // ------------------------------------------------------- the binding is exact

  lemma MergeExact(snap: Snapshot, rs: Policies, c: Command, observed: Observed)
    requires Accepted(snap, rs) && c.MergeSources? && c.Valid()
    requires ObserveMerge(snap, Decide(snap, rs).sources, c.participants) == Ok(observed)
    ensures ValidPolicy(Policy(c, observed.anchors))
    ensures MergeBinding(snap, Policy(c, observed.anchors), Baseline(snap)).status == Exact
    ensures forall x <- c.participants :: Automatic(x) in Baseline(snap)
    ensures MergeBinding(snap, Policy(c, observed.anchors), Baseline(snap)).candidate.messages
      == set x, m | x in c.participants && Automatic(x) in Baseline(snap) && m in Baseline(snap)[Automatic(x)].messages :: m
    ensures observed.targets == set x | x in c.participants :: SourceKey(Automatic(x))
  {
    hide ValidClassification, ValidPolicies, EffectiveSources, Baseline, Decide, ResolveSource;
    DecidedIdentity(snap, rs);
    var p := Policy(c, observed.anchors);
    var ds, table := c.participants, Baseline(snap);
    forall i | 0 <= i < |ds|
      ensures Automatic(ds[i]) in table
      ensures ResolveParticipant(snap, p.anchors[i], table)
        == Binding(Exact, SourceCandidate(snap, Automatic(ds[i]), table[Automatic(ds[i])]))
    {
      assert ds[i] in ds;
      ParticipantExact(snap, rs, ds[i], Decide(snap, rs).sources[Automatic(ds[i])]);
    }
    MergeBindingExact(snap, p, table);
  }

  /** A merge whose participants all resolve exactly binds exactly, to their union. */
  lemma MergeBindingExact(snap: Snapshot, p: Policy, table: SourceTable)
    requires ValidPolicy(p) && p.command.MergeSources?
    requires forall x <- p.command.participants :: Automatic(x) in table
    requires forall i :: 0 <= i < |p.anchors| ==>
      && p.anchors[i].selector.Target? && p.anchors[i].selector.target.OnSource?
      && ResolveParticipant(snap, p.anchors[i], table)
         == Binding(Exact, SourceCandidate(snap, Automatic(p.command.participants[i]), table[Automatic(p.command.participants[i])]))
    ensures MergeBinding(snap, p, table).status == Exact
    ensures MergeBinding(snap, p, table).candidate.messages
      == set x, m | x in p.command.participants && Automatic(x) in table && m in table[Automatic(x)].messages :: m
  {
    hide ResolveSource;
    var ds := p.command.participants;
    var parts := seq(|p.anchors|, i requires 0 <= i < |p.anchors| => ResolveParticipant(snap, p.anchors[i], table));
    CombinedApplies(seq(|parts|, i requires 0 <= i < |parts| => parts[i].status));
    var union := UnionCandidates(set b | b in parts :: b.candidate);
    forall m | m in union.messages ensures exists x :: x in ds && m in table[Automatic(x)].messages {
      var b :| b in parts && m in b.candidate.messages;
      var i :| 0 <= i < |parts| && parts[i] == b;
      assert ds[i] in ds;
    }
    forall x, m | x in ds && m in table[Automatic(x)].messages ensures m in union.messages {
      var i :| 0 <= i < |ds| && ds[i] == x;
      assert parts[i] in parts && m in parts[i].candidate.messages;
    }
  }

  /** Inside its group an anchor matches what it matches in the whole source. */
  lemma AnchorWithinGroup(snap: Snapshot, group: seq<PartitionAnchor>, a: PartitionAnchor, allowed: set<MessageId>)
    requires snap.Valid() && a in group
    ensures AnchorMessages(snap, a, GroupMessages(snap, group, allowed)) == AnchorMessages(snap, a, allowed)
  {
    hide ValidClassification, Matches;
  }

  lemma {:induction false} GroupAnchorsAt(snap: Snapshot, group: seq<PartitionAnchor>, ms: set<MessageId>, i: nat)
    requires snap.Valid() && i < |group|
    ensures |GroupAnchors(snap, group, ms)| == |group|
    ensures GroupAnchors(snap, group, ms)[i] == MemberAnchorOf(snap, group[i], AnchorMessages(snap, group[i], ms))
  {
    hide ValidClassification, AnchorMessages, MemberAnchorOf;
    if |group| == 1 {
      assert group[1..] == [];
    } else {
      GroupAnchorsAt(snap, group[1..], ms, if i == 0 then 0 else i - 1);
    }
  }

  /** The member anchors follow the flattened groups and observe what each anchor matches. */
  lemma {:induction false} AllAnchorsAt(snap: Snapshot, groups: seq<seq<PartitionAnchor>>, allowed: set<MessageId>)
    requires snap.Valid()
    ensures |AllGroupAnchors(snap, groups, allowed)| == |Flatten(groups)|
    ensures forall i :: 0 <= i < |Flatten(groups)| ==>
      AllGroupAnchors(snap, groups, allowed)[i]
        == MemberAnchorOf(snap, Flatten(groups)[i], AnchorMessages(snap, Flatten(groups)[i], allowed))
    ensures forall a <- Flatten(groups) :: exists g <- groups :: a in g
  {
    hide ValidClassification, AnchorMessages, MemberAnchorOf, GroupMessages;
    if groups != [] {
      var g := groups[0];
      AllAnchorsAt(snap, groups[1..], allowed);
      assert groups == [g] + groups[1..];
      if g != [] { GroupAnchorsAt(snap, g, GroupMessages(snap, g, allowed), 0); }
      forall i | 0 <= i < |g|
        ensures GroupAnchors(snap, g, GroupMessages(snap, g, allowed))[i]
             == MemberAnchorOf(snap, g[i], AnchorMessages(snap, g[i], allowed))
      {
        GroupAnchorsAt(snap, g, GroupMessages(snap, g, allowed), i);
        AnchorWithinGroup(snap, g, g[i], allowed);
      }
    }
  }

  lemma PartitionExact(snap: Snapshot, rs: Policies, c: Command, observed: Observed)
    requires Accepted(snap, rs) && c.PartitionSource? && c.Valid()
    requires ObservePartition(snap, Decide(snap, rs).sources, c.target, c.groups) == Ok(observed)
    ensures ValidPolicy(Policy(c, observed.anchors))
    ensures PartitionBinding(snap, Policy(c, observed.anchors), Baseline(snap)).status == Exact
    ensures Automatic(c.target) in Baseline(snap)
    ensures PartitionBinding(snap, Policy(c, observed.anchors), Baseline(snap)).candidate.messages
      == Baseline(snap)[Automatic(c.target)].messages
    ensures observed.targets == {SourceKey(Automatic(c.target))}
  {
    hide ValidClassification, ValidPolicies, EffectiveSources, Baseline, Decide, ResolveSource, GroupsResolve, AnchorMessages,
      FallbackOnly, GroupMessages, DecidedFor;
    DecidedIdentity(snap, rs);
    var p, table := Policy(c, observed.anchors), Baseline(snap);
    var st := Decide(snap, rs).sources[Automatic(c.target)];
    AutomaticUntouched(snap, rs, c.target);
    ParticipantExact(snap, rs, c.target, st);
    var allowed := st.messages;
    assert allowed == table[Automatic(c.target)].messages;
    PreparedPartition(snap, c, st, p);
    PartitionBindingExact(snap, p, table, allowed);
  }

  /** The prepared anchors of a partition fit its command, and its members are exact. */
  lemma PreparedPartition(snap: Snapshot, c: Command, st: SourceState, p: Policy)
    requires snap.Valid() && c.PartitionSource? && c.Valid() && p.command == c
    requires p.anchors == [SourceAnchorOf(snap, Automatic(c.target), st)] + AllGroupAnchors(snap, c.groups, st.messages)
    requires forall g <- c.groups, b <- g :: AnchorMessages(snap, b, GroupMessages(snap, g, st.messages)) != {}
    ensures ValidPolicy(p)
    ensures forall i :: 1 <= i < |p.anchors| ==> MemberStatus(snap, p.anchors[i], st.messages) == Exact
  {
    hide ValidClassification, AnchorMessages, GroupMessages, MemberStatus, AllGroupAnchors, Flatten;
    MembersExact(snap, c.groups, st.messages);
    var anchors := AllGroupAnchors(snap, c.groups, st.messages);
    assert forall i :: 1 <= i < |p.anchors| ==> p.anchors[i] == anchors[i - 1];
  }

  /** A partition whose target and members resolve exactly binds exactly. */
  lemma PartitionBindingExact(snap: Snapshot, p: Policy, table: SourceTable, allowed: set<MessageId>)
    requires snap.Valid() && ValidPolicy(p) && p.command.PartitionSource?
    requires Automatic(p.command.target) in table && table[Automatic(p.command.target)].messages == allowed
    requires ResolveSource(snap, p.anchors[0], Automatic(p.command.target), table).status == Exact
    requires forall g <- p.command.groups, a <- g :: FallbackOnly(snap, a)
    requires GroupsResolve(snap, p.command.groups, allowed)
    requires forall i :: 1 <= i < |p.anchors| ==> p.anchors[i].selector.GroupMember? && MemberStatus(snap, p.anchors[i], allowed) == Exact
    ensures PartitionBinding(snap, p, table).status == Exact
    ensures PartitionBinding(snap, p, table).candidate == ResolveSource(snap, p.anchors[0], Automatic(p.command.target), table).candidate
  {
    hide ValidClassification, FallbackOnly, GroupsResolve, MemberStatus, ResolveSource, CombinedStatus;
    var n := |p.anchors|;
    var statuses := [Exact] + seq(n - 1, i requires 0 <= i < n - 1 => MemberStatus(snap, p.anchors[i + 1], allowed));
    forall i | 0 <= i < |statuses| ensures statuses[i] == Exact {
    }
    CombinedApplies(statuses);
  }

  /** Each member anchor of an accepted partition resolves exactly. */
  lemma MembersExact(snap: Snapshot, groups: seq<seq<PartitionAnchor>>, allowed: set<MessageId>)
    requires snap.Valid()
    requires forall g <- groups, b <- g :: AnchorMessages(snap, b, GroupMessages(snap, g, allowed)) != {}
    ensures var anchors := AllGroupAnchors(snap, groups, allowed);
      && |anchors| == |Flatten(groups)|
      && (forall i :: 0 <= i < |anchors| ==>
            && anchors[i].selector == GroupMember(Flatten(groups)[i])
            && MemberStatus(snap, anchors[i], allowed) == Exact)
  {
    hide ValidClassification, AnchorMessages, GroupMessages, MemberStatus;
    AllAnchorsAt(snap, groups, allowed);
    var members, anchors := Flatten(groups), AllGroupAnchors(snap, groups, allowed);
    forall i | 0 <= i < |anchors|
      ensures anchors[i].selector == GroupMember(members[i]) && MemberStatus(snap, anchors[i], allowed) == Exact
    {
      assert members[i] in members;
      MemberExact(snap, groups, allowed, members[i]);
    }
  }

  lemma MemberExact(snap: Snapshot, groups: seq<seq<PartitionAnchor>>, allowed: set<MessageId>, a: PartitionAnchor)
    requires snap.Valid() && exists g <- groups :: a in g
    requires forall g <- groups, b <- g :: AnchorMessages(snap, b, GroupMessages(snap, g, allowed)) != {}
    ensures MemberStatus(snap, MemberAnchorOf(snap, a, AnchorMessages(snap, a, allowed)), allowed) == Exact
  {
    hide ValidClassification, AnchorMessages, GroupMessages;
    var g :| g in groups && a in g;
    AnchorWithinGroup(snap, g, a, allowed);
  }

  // ------------------------------------------------------ nobody stands in the way

  /** Adding a structural policy leaves the raw bindings of the others. */
  lemma StructuralRawFrame(snap: Snapshot, rs: Policies, qs: Policies, d: DecisionId)
    requires Accepted(snap, rs) && Accepted(snap, qs)
    requires d in qs && d !in rs && qs == rs[d := qs[d]] && qs[d].command.Structural()
    ensures RawStructural(snap, qs).Keys == RawStructural(snap, rs).Keys + {d}
    ensures RawStructural(snap, rs).Keys == StructuralIds(rs)
    ensures RawStructural(snap, qs)[d] == StructuralBinding(snap, qs[d], Baseline(snap))
    ensures forall e <- RawStructural(snap, rs) ::
      e in rs && RawStructural(snap, qs)[e] == RawStructural(snap, rs)[e]
      && RawStructural(snap, rs)[e] == StructuralBinding(snap, rs[e], Baseline(snap)) && qs[e] == rs[e]
  {
    hide ValidClassification, StructuralBinding, Baseline, ValidPolicy;
    assert StructuralIds(qs) == StructuralIds(rs) + {d};
  }

  /** The automatic sources a structural command needs. */
  ghost predicate TargetsPresent(snap: Snapshot, c: Command, binding: Binding, targets: set<EffectiveId>)
    requires snap.Valid()
  {
    && (forall x <- StructuralDescriptors(c) :: Automatic(x) in Baseline(snap) && SourceKey(Automatic(x)) in targets)
    && (forall m <- binding.candidate.messages ::
          exists x <- StructuralDescriptors(c) :: Automatic(x) in Baseline(snap) && m in Baseline(snap)[Automatic(x)].messages)
  }

  /** A structural policy nobody occupies overlaps with no other structural policy. */
  lemma StructuralUnmarked(snap: Snapshot, rs: Policies, qs: Policies, d: DecisionId, targets: set<EffectiveId>)
    requires Accepted(snap, rs) && Accepted(snap, qs)
    requires d in qs && d !in rs && qs == rs[d := qs[d]] && qs[d].command.Structural()
    requires TargetsPresent(snap, qs[d].command, StructuralBinding(snap, qs[d], Baseline(snap)), targets)
    requires forall e <- StructuralIds(rs) ::
      && !HistoricalOverlap(qs[d].command, rs[e].command)
      && StructuralBinding(snap, rs[e], Baseline(snap)).candidate.effective !! targets
    ensures StructuralBindings(snap, qs)[d] == StructuralBinding(snap, qs[d], Baseline(snap))
  {
    hide ValidClassification, StructuralBinding, Baseline, ValidPolicy, HistoricalOverlap, RawStructural;
    StructuralRawFrame(snap, rs, qs, d);
    var raw := RawStructural(snap, qs);
    forall e | e in raw && e != d ensures !StructuralOverlap(qs, raw, d, e) {
      if !(raw[d].candidate.messages !! raw[e].candidate.messages) {
        var m := SomeCommon(raw[d].candidate.messages, raw[e].candidate.messages);
        var x :| x in StructuralDescriptors(qs[d].command) && Automatic(x) in Baseline(snap) && m in Baseline(snap)[Automatic(x)].messages;
        StructuralTouches(snap, rs[e], x, m);
      }
    }
  }

  lemma ObservedIsExact(snap: Snapshot, rs: Policies, c: Command, observed: Observed)
    requires Accepted(snap, rs) && c.Structural() && c.Valid()
    requires Observe(snap, Decide(snap, rs), c) == Ok(observed)
    ensures ValidPolicy(Policy(c, observed.anchors))
    ensures StructuralBinding(snap, Policy(c, observed.anchors), Baseline(snap)).status == Exact
    ensures TargetsPresent(snap, c, StructuralBinding(snap, Policy(c, observed.anchors), Baseline(snap)), observed.targets)
  {
    hide ValidClassification, Decide, DecidedFor, ObserveMerge, ObservePartition, MergeBinding, PartitionBinding, Baseline, ValidPolicies;
    if c.MergeSources? {
      MergeExact(snap, rs, c, observed);
    } else {
      PartitionExact(snap, rs, c, observed);
    }
  }

  lemma StructuralCandidate(snap: Snapshot, ps: Policies, e: DecisionId)
    requires Accepted(snap, ps) && e in StructuralIds(ps)
    ensures e in AllBindings(snap, ps)
    ensures AllBindings(snap, ps)[e].candidate == StructuralBinding(snap, ps[e], Baseline(snap)).candidate
  {
    hide ValidClassification, StructuralBinding, Baseline, AllBindings, ValidPolicy;
    BindingKeys(snap, ps);
  }

  /** A structural command that was accepted binds exactly once it is active. */
  lemma StructuralPrediction(snap: Snapshot, rs: Policies, qs: Policies, c: Command, d: DecisionId, observed: Observed)
    requires Accepted(snap, rs) && c.Structural() && c.Valid() && d !in rs
    requires Observe(snap, Decide(snap, rs), c) == Ok(observed)
    requires rs.Keys <= AllBindings(snap, rs).Keys && !OccupiedBy(rs, AllBindings(snap, rs), c, observed.targets)
    requires qs == rs[d := Policy(c, observed.anchors)]
    ensures Accepted(snap, qs) && StatusOf(snap, qs, d) == Some(Exact)
  {
    hide ValidClassification, Decide, AllBindings, DecidedFor, ObserveMerge, ObservePartition, StructuralBinding, Baseline,
      ValidPolicy, HistoricalOverlap, RawStructural, StructuralBindings, EffectiveSources, ViewFor, PlainBindings;
    ObservedIsExact(snap, rs, c, observed);
    assert Accepted(snap, qs);
    forall e | e in StructuralIds(rs)
      ensures StructuralBinding(snap, rs[e], Baseline(snap)).candidate.effective !! observed.targets
    {
      StructuralCandidate(snap, rs, e);
    }
    StructuralUnmarked(snap, rs, qs, d, observed.targets);
    BindingKeys(snap, qs);
  }

  lemma PrepareUnfolds(snap: Snapshot, ps: Policies, c: Command, supersedes: set<DecisionId>) returns (observed: Observed)
    requires Prepare(snap, ps, c, supersedes).Ok?
    ensures Accepted(snap, Remaining(ps, supersedes)) && c.Valid()
    ensures Observe(snap, Decide(snap, Remaining(ps, supersedes)), c) == Ok(observed)
    ensures Prepare(snap, ps, c, supersedes) == Ok(observed.anchors)
    ensures Remaining(ps, supersedes).Keys <= AllBindings(snap, Remaining(ps, supersedes)).Keys
    ensures !OccupiedBy(Remaining(ps, supersedes), AllBindings(snap, Remaining(ps, supersedes)), c, observed.targets)
  {
    hide ValidClassification, ValidPolicy, Decide, AllBindings, DecidedFor, Observe, OccupiedBy, Remaining;
    RemainingValid(ps, supersedes);
    var rs := Remaining(ps, supersedes);
    BindingKeys(snap, rs);
    DecideUnfolds(snap, rs);
    observed := Observe(snap, Decide(snap, rs), c).value;
  }

  /**
   Preparing predicts applying: a decision that is accepted against the
   remaining policies binds once it is active. It binds exactly, or is rebound
   when it targets a flow inside a merged source; it is never in conflict, in
   need of review, ambiguous or orphaned.
   */
  lemma PreparePredictsApply(snap: Snapshot, ps: Policies, c: Command, supersedes: set<DecisionId>, d: DecisionId, qs: Policies)
    requires Prepare(snap, ps, c, supersedes).Ok? && d !in ps
    requires qs == Remaining(ps, supersedes)[d := Policy(c, Prepare(snap, ps, c, supersedes).value)]
    ensures Accepted(snap, qs)
    ensures StatusOf(snap, qs, d) == Some(ExpectedStatus(c))
  {
    hide ValidClassification, ValidPolicies, Decide, AllBindings, DecidedFor, Prepare, OccupiedBy, StatusOf;
    var observed := PrepareUnfolds(snap, ps, c, supersedes);
    var rs := Remaining(ps, supersedes);
    if c.Structural() {
      StructuralPrediction(snap, rs, qs, c, d, observed);
    } else {
      TargetedPrediction(snap, rs, qs, c, d, observed);
    }
  }
}
