/** What an accepted decision does to the decisions around it, and to its own repetition. */
module PrepareAgain {
  import opened Basics
  import opened MailModel
  import opened PolicyModel
  import opened StructuralPolicy
  import opened StructuralSafety
  import opened EffectiveFlows
  import opened PolicyBindings
  import opened Corrections
  import opened PolicyApplication
  import opened ProtectionTheorems
  import opened PolicyPrepare
  import opened PreparePrediction
  import opened StructuralPrediction
  import opened CorrectionSteps

  // ------------------------------------------------- the others are undisturbed

  /** A policy that is not marked marks nobody. */
  lemma StructuralMarksStay(rs: Policies, qs: Policies, raw: map<DecisionId, Binding>, more: map<DecisionId, Binding>, d: DecisionId)
    requires d in qs && d !in rs && qs == rs[d := qs[d]]
    requires raw.Keys <= rs.Keys && more.Keys == raw.Keys + {d} && forall e <- raw :: more[e] == raw[e]
    requires !InStructuralConflict(qs, more, d)
    ensures forall e <- raw :: MarkStructural(qs, more)[e] == MarkStructural(rs, raw)[e]
  {
    hide HistoricalOverlap;
    forall e | e in raw ensures InStructuralConflict(qs, more, e) == InStructuralConflict(rs, raw, e) {
      assert !StructuralOverlap(qs, more, d, e);
      OverlapSymmetric(qs, more, d, e);
      forall f | f in raw ensures StructuralOverlap(qs, more, e, f) == StructuralOverlap(rs, raw, e, f) {
      }
    }
  }

  lemma CorrectionMarksStay(rs: Policies, qs: Policies, raw: map<DecisionId, Binding>, more: map<DecisionId, Binding>, d: DecisionId)
    requires d in qs && d !in rs && qs == rs[d := qs[d]]
    requires raw.Keys <= rs.Keys && more.Keys == raw.Keys + {d} && forall e <- raw :: more[e] == raw[e]
    requires !InCorrectionConflict(qs, more, d)
    ensures forall e <- raw :: MarkCorrections(qs, more)[e] == MarkCorrections(rs, raw)[e]
  {
    forall e | e in raw ensures InCorrectionConflict(qs, more, e) == InCorrectionConflict(rs, raw, e) {
      assert !CorrectionOverlap(qs, more, d, e);
      forall f | f in raw ensures CorrectionOverlap(qs, more, e, f) == CorrectionOverlap(rs, raw, e, f) {
      }
    }
  }

  /** An accepted structural decision leaves the binding of every other structural decision. */
  lemma StructuralOthersStay(snap: Snapshot, rs: Policies, qs: Policies, d: DecisionId)
    requires Accepted(snap, rs) && Accepted(snap, qs)
    requires d in qs && d !in rs && qs == rs[d := qs[d]] && qs[d].command.Structural()
    requires StatusOf(snap, qs, d) == Some(Exact)
    ensures forall e <- StructuralIds(rs) ::
      e in AllBindings(snap, rs) && e in AllBindings(snap, qs) && AllBindings(snap, qs)[e] == AllBindings(snap, rs)[e]
  {
    hide ValidClassification, ValidPolicy, AllBindings, StructuralBinding, RawStructural, InStructuralConflict;
    BindingKeys(snap, rs);
    BindingKeys(snap, qs);
    StructuralRawFrame(snap, rs, qs, d);
    StructuralMarksStay(rs, qs, RawStructural(snap, rs), RawStructural(snap, qs), d);
  }

  /** An accepted correction or protection leaves the binding of every other decision. */
  lemma PlainOthersStay(snap: Snapshot, rs: Policies, qs: Policies, d: DecisionId)
    requires Accepted(snap, rs) && Accepted(snap, qs)
    requires d in qs && d !in rs && qs == rs[d := qs[d]] && !qs[d].command.Structural()
    requires StatusOf(snap, qs, d).Some? && StatusOf(snap, qs, d) != Some(Conflict)
    ensures forall e <- rs ::
      e in AllBindings(snap, rs) && e in AllBindings(snap, qs) && AllBindings(snap, qs)[e] == AllBindings(snap, rs)[e]
  {
    hide ValidClassification, ValidPolicy, AllBindings, StructuralBindings, EffectiveSources, ViewFor, RawPlain, InCorrectionConflict;
    assert StructuralIds(qs) == StructuralIds(rs);
    ViewDependsOnStructure(snap, rs, qs);
    BindingsJoin(snap, rs);
    BindingsJoin(snap, qs);
    var view := ViewFor(snap, rs);
    RawFrame(snap, rs, qs, d, view);
    PlainBindingKeys(snap, rs);
    PlainBindingKeys(snap, qs);
    CorrectionMarksStay(rs, qs, RawPlain(snap, rs, view), RawPlain(snap, qs, view), d);
  }

  /**
   An accepted decision disturbs nobody of its kind: once it is active, every
   other structural decision, and every decision at all unless it is structural
   itself, is bound as it was without it. `StructuralMarks` has the other case.
   */
  lemma AcceptedDisturbsNobody(snap: Snapshot, ps: Policies, c: Command, supersedes: set<DecisionId>, d: DecisionId,
                               qs: Policies, e: DecisionId)
    requires Prepare(snap, ps, c, supersedes).Ok? && d !in ps
    requires qs == Remaining(ps, supersedes)[d := Policy(c, Prepare(snap, ps, c, supersedes).value)]
    requires e in Remaining(ps, supersedes) && (c.Structural() ==> ps[e].command.Structural())
    ensures BindingIn(snap, qs, e) == BindingIn(snap, Remaining(ps, supersedes), e)
    ensures BindingIn(snap, qs, e).Some?
  {
    hide ValidClassification, ValidPolicies, AllBindings, Prepare, OccupiedBy;
    var rs := Remaining(ps, supersedes);
    var observed := PrepareUnfolds(snap, ps, c, supersedes);
    PreparePredictsApply(snap, ps, c, supersedes, d, qs);
    if c.Structural() {
      StructuralOthersStay(snap, rs, qs, d);
    } else {
      PlainOthersStay(snap, rs, qs, d);
    }
  }

  /** The binding of a decision when the active policies are applied. */
  ghost function BindingIn(snap: Snapshot, ps: Policies, e: DecisionId): Option<Binding> {
    if Accepted(snap, ps) && e in AllBindings(snap, ps) then Some(AllBindings(snap, ps)[e]) else None
  }

  // -------------------------------------------------------------- repetition

  /** A command may replace itself. */
  lemma ReplacesItself(snap: Snapshot, rs: Policies, c: Command, observed: Observed)
    requires Accepted(snap, rs) && c.Valid()
    requires Observe(snap, Decide(snap, rs), c) == Ok(observed)
    ensures SupersedesCompatible(c, c)
    ensures c.Structural() ==> HistoricalOverlap(c, c)
  {
    hide ValidClassification, Decide, DecidedFor, ObserveMerge, ObservePartition, StructuralBinding;
    if c.Structural() {
      ObservedIsExact(snap, rs, c, observed);
      var x := if c.MergeSources? then c.participants[0] else c.target;
      assert x in StructuralDescriptors(c);
      assert Automatic(x) in Baseline(snap);
      SharesWithItself(snap, x);
    }
  }

  /** The automatic sources of an applying structural decision have left the view. */
  lemma TargetsGone(snap: Snapshot, qs: Policies, d: DecisionId)
    requires Accepted(snap, qs) && d in qs && qs[d].command.PartitionSource?
    requires StatusOf(snap, qs, d) == Some(Exact)
    ensures Automatic(qs[d].command.target) !in EffectiveSources(snap, qs)
  {
    hide ValidClassification, ValidPolicy, AllBindings, StructuralBindings;
    BindingKeys(snap, qs);
    var t := qs[d].command.target;
    assert d in StructuralIds(qs);
    assert d in Applying(snap, qs);
    assert t in StructuralDescriptors(qs[d].command);
    assert t in Consumed(qs, Applying(snap, qs));
  }

  /** A structural command whose twin is active is refused as a conflict. */
  lemma StructuralRepeat(snap: Snapshot, qs: Policies, c: Command, d: DecisionId)
    requires Accepted(snap, qs) && c.Valid() && c.Structural() && d in qs && qs[d].command == c
    requires HistoricalOverlap(c, c) && StatusOf(snap, qs, d) == Some(Exact)
    ensures Prepare(snap, qs, c, {}) == Err(PolicyConflict)
  {
    hide ValidClassification, ValidPolicies, Decide, DecidedFor, AllBindings, EffectiveSources, ObserveMerge, ObservePartition, HistoricalOverlap;
    assert Remaining(qs, {}) == qs;
    BindingKeys(snap, qs);
    DecidedIdentity(snap, qs);
    if c.PartitionSource? {
      TargetsGone(snap, qs, d);
      PartitionTargetMissing(snap, Decide(snap, qs).sources, c);
    } else {
      MergeObservation(snap, Decide(snap, qs).sources, c);
    }
  }

  lemma PartitionTargetMissing(snap: Snapshot, table: SourceTable, c: Command)
    requires snap.Valid() && c.PartitionSource? && Automatic(c.target) !in table
    ensures ObservePartition(snap, table, c.target, c.groups) == Err(TargetNotFound)
  {
    hide ValidClassification;
  }

  lemma MergeObservation(snap: Snapshot, table: SourceTable, c: Command)
    requires c.MergeSources?
    ensures var o := ObserveMerge(snap, table, c.participants); o.Ok? || o == Err(TargetNotFound)
  {
  }

  /** A bound target is named by its binding. */
  lemma TargetNamed(snap: Snapshot, anchor: Anchor, target: TargetSelector, view: View)
    requires snap.Valid() && Ready(snap, view)
    requires target.OnSource? ==> target.source in view.sources
    requires target.OnFlow? ==> target.flow in view.flows
    ensures target.OnSource? || target.OnFlow? ==>
      ResolveTarget(snap, anchor, target, view).candidate.effective == TargetKeys(target)
  {
    hide ValidClassification, ExactStatus;
  }

  lemma IsolatedPresent(view: View, target: TargetSelector)
    requires TargetIsolated(view, target)
    ensures target.OnSource? ==> target.source in view.sources
    ensures target.OnFlow? ==> target.flow in view.flows
  {
  }

  /** A target is observed in the same way whatever corrections and protections are active. */
  lemma SameObservation(snap: Snapshot, rs: Policies, qs: Policies, target: TargetSelector)
    requires Accepted(snap, rs) && Accepted(snap, qs) && SameStructural(rs, qs)
    ensures ObserveTarget(snap, Decide(snap, qs), target) == ObserveTarget(snap, Decide(snap, rs), target)
  {
    hide ValidClassification, ValidPolicies, Decide, EffectiveSources, FlowsOf, AllBindings, ViewFor, DirectMessages;
    ViewDependsOnStructure(snap, rs, qs);
    DecidedIdentity(snap, rs);
    DecidedIdentity(snap, qs);
    DecideParts(snap, rs);
    DecideParts(snap, qs);
  }

  /** What decides about a command once its target was observed. */
  lemma PrepareSettles(snap: Snapshot, ps: Policies, c: Command, supersedes: set<DecisionId>, observed: Observed)
    requires Accepted(snap, ps) && Accepted(snap, Remaining(ps, supersedes)) && c.Valid()
    requires forall e <- supersedes :: e in ps && SupersedesCompatible(c, ps[e].command)
    requires Observe(snap, Decide(snap, Remaining(ps, supersedes)), c) == Ok(observed)
    ensures Remaining(ps, supersedes).Keys <= AllBindings(snap, Remaining(ps, supersedes)).Keys
    ensures Prepare(snap, ps, c, supersedes) ==
      if OccupiedBy(Remaining(ps, supersedes), AllBindings(snap, Remaining(ps, supersedes)), c, observed.targets)
      then Err(PolicyConflict) else Ok(observed.anchors)
  {
    hide ValidClassification, ValidPolicies, AllBindings, OccupiedBy, Decide, DecidedFor, Observe, Remaining, SupersedesCompatible;
    BindingKeys(snap, Remaining(ps, supersedes));
    DecideParts(snap, Remaining(ps, supersedes));
  }

  /** A prepared correction, once active, occupies its target. */
  lemma CorrectionOccupies(snap: Snapshot, rs: Policies, qs: Policies, c: Command, d: DecisionId, observed: Observed)
    requires Accepted(snap, rs) && Accepted(snap, qs) && !c.Structural() && !c.ProtectTarget?
    requires d in qs && qs[d] == Policy(c, observed.anchors) && SameStructural(rs, qs)
    requires ObserveTarget(snap, Decide(snap, rs), c.Target()) == Ok(observed)
    ensures qs.Keys <= AllBindings(snap, qs).Keys && OccupiedBy(qs, AllBindings(snap, qs), c, observed.targets)
  {
    hide ValidClassification, ValidPolicies, Decide, DecidedFor, AllBindings, EffectiveSources, ObserveTarget, ViewFor, Ready,
      ResolveTarget, RawPlain, TargetIsolated, ValidPolicy;
    BindingKeys(snap, qs);
    TargetResolves(snap, rs, c, observed);
    ViewDependsOnStructure(snap, rs, qs);
    var view := ViewFor(snap, qs);
    assert d in PlainIds(qs);
    NewRaw(snap, qs, d, view);
    RawCandidate(snap, qs, d);
    IsolatedPresent(view, c.Target());
    TargetNamed(snap, observed.anchors[0], c.Target(), view);
    assert AllBindings(snap, qs)[d].candidate.effective == TargetKeys(c.Target());
  }

  /** A correction whose twin is active is refused; a protection is accepted once more. */
  lemma TargetedRepeat(snap: Snapshot, rs: Policies, qs: Policies, c: Command, d: DecisionId, observed: Observed)
    requires Accepted(snap, rs) && Accepted(snap, qs) && c.Valid() && !c.Structural()
    requires d !in rs && qs == rs[d := Policy(c, observed.anchors)]
    requires ObserveTarget(snap, Decide(snap, rs), c.Target()) == Ok(observed)
    ensures Prepare(snap, qs, c, {}) == if c.ProtectTarget? then Ok(observed.anchors) else Err(PolicyConflict)
  {
    hide ValidClassification, ValidPolicies, Decide, DecidedFor, AllBindings, ObserveTarget, Prepare;
    assert Remaining(qs, {}) == qs;
    assert StructuralIds(qs) == StructuralIds(rs);
    SameObservation(snap, rs, qs, c.Target());
    PrepareSettles(snap, qs, c, {}, observed);
    if !c.ProtectTarget? {
      CorrectionOccupies(snap, rs, qs, c, d, observed);
    }
  }

  /**
   Preparing again what is already active. Structural decisions and corrections
   are refused as conflicts with themselves; protections are accepted once more
   with the same anchors. Replacing a decision by its own repetition is always
   accepted, with the same anchors.
   */
  lemma PreparedAgain(snap: Snapshot, ps: Policies, c: Command, supersedes: set<DecisionId>, d: DecisionId, qs: Policies)
    requires Prepare(snap, ps, c, supersedes).Ok? && d !in ps
    requires qs == Remaining(ps, supersedes)[d := Policy(c, Prepare(snap, ps, c, supersedes).value)]
    ensures Prepare(snap, qs, c, {}) == if c.ProtectTarget? then Prepare(snap, ps, c, supersedes) else Err(PolicyConflict)
    ensures Prepare(snap, qs, c, {d}) == Prepare(snap, ps, c, supersedes)
  {
    hide ValidClassification, ValidPolicies, AllBindings, Prepare, OccupiedBy, Decide, DecidedFor, StatusOf;
    var rs := Remaining(ps, supersedes);
    var observed := PrepareUnfolds(snap, ps, c, supersedes);
    PreparePredictsApply(snap, ps, c, supersedes, d, qs);
    ReplacesItself(snap, rs, c, observed);
    if c.Structural() {
      StructuralRepeat(snap, qs, c, d);
    } else {
      TargetedRepeat(snap, rs, qs, c, d, observed);
    }
    assert Remaining(qs, {d}) == rs;
    PrepareSettles(snap, qs, c, {d}, observed);
  }
}
