/** What the protection of a policy view guarantees. */
module ProtectionTheorems {
  import opened Basics
  import opened MailModel
  import opened PolicyModel
  import opened StructuralPolicy
  import opened StructuralSafety
  import opened EffectiveFlows
  import opened PolicyBindings
  import opened Corrections
  import opened Protection
  import opened PolicyApplication

  // ------------------------------------------------------ frame of the view

  ghost predicate SameStructural(ps: Policies, qs: Policies) {
    && StructuralIds(ps) == StructuralIds(qs)
    && forall d <- StructuralIds(ps) :: ps[d] == qs[d]
  }

  /** The effective view depends only on the structural policies. */
  lemma ViewDependsOnStructure(snap: Snapshot, ps: Policies, qs: Policies)
    requires snap.Valid() && ValidPolicies(ps) && ValidPolicies(qs) && SameStructural(ps, qs)
    ensures StructuralBindings(snap, ps) == StructuralBindings(snap, qs)
    ensures EffectiveSources(snap, ps) == EffectiveSources(snap, qs)
    ensures ViewFor(snap, ps) == ViewFor(snap, qs)
  {
    hide ValidClassification, StructuralBinding;
    BindingsDependOnStructure(snap, ps, qs);
    var applied := Applying(snap, ps);
    assert applied == Applying(snap, qs);
    assert applied <= StructuralIds(ps);
    KeysDependOnStructure(snap, ps, qs, applied);
  }

  lemma BindingsDependOnStructure(snap: Snapshot, ps: Policies, qs: Policies)
    requires snap.Valid() && ValidPolicies(ps) && ValidPolicies(qs) && SameStructural(ps, qs)
    ensures RawStructural(snap, ps) == RawStructural(snap, qs)
    ensures StructuralBindings(snap, ps) == StructuralBindings(snap, qs)
    ensures Applying(snap, ps) == Applying(snap, qs)
  {
    hide ValidClassification, StructuralBinding;
    var left, right := RawStructural(snap, ps), RawStructural(snap, qs);
    assert left.Keys == StructuralIds(ps) && right.Keys == StructuralIds(qs);
    forall d | d in StructuralIds(ps) ensures left[d] == right[d] {
      assert ps[d] == qs[d];
    }
    assert left == right;
    forall d | d in left ensures InStructuralConflict(ps, left, d) <==> InStructuralConflict(qs, left, d) {
    }
  }

  lemma KeysDependOnStructure(snap: Snapshot, ps: Policies, qs: Policies, applied: set<DecisionId>)
    requires snap.Valid() && forall d <- applied :: d in ps && d in qs && ps[d] == qs[d]
    ensures TableOf(snap, ps, applied) == TableOf(snap, qs, applied)
  {
    hide ValidClassification, StateOf;
    assert Consumed(ps, applied) == Consumed(qs, applied);
    forall k ensures Deciders(ps, applied, k) == Deciders(qs, applied, k) {
      assert forall d :: d in Deciders(ps, applied, k) <==> d in Deciders(qs, applied, k);
    }
    assert TableKeys(snap, ps, applied) == TableKeys(snap, qs, applied);
  }

  /** Adding a policy that corrects nothing leaves every other binding as it was. */
  lemma PlainBindingsFrame(snap: Snapshot, ps: Policies, d: DecisionId, p: Policy, view: View)
    requires snap.Valid() && ValidPolicies(ps) && ValidPolicies(ps[d := p]) && Ready(snap, view)
    requires d !in ps && !p.command.Structural() && CorrectionField(p.command) == None
    ensures PlainBindings(snap, ps[d := p], view).Keys == PlainBindings(snap, ps, view).Keys + {d}
    ensures forall e <- PlainBindings(snap, ps, view) ::
      PlainBindings(snap, ps[d := p], view)[e] == PlainBindings(snap, ps, view)[e]
  {
    hide ValidClassification, ResolveTarget;
    var qs := ps[d := p];
    var raw, more := RawPlain(snap, ps, view), RawPlain(snap, qs, view);
    assert PlainIds(qs) == PlainIds(ps) + {d};
    forall e | e in raw
      ensures more[e] == raw[e]
      ensures InCorrectionConflict(qs, more, e) <==> InCorrectionConflict(ps, raw, e)
    {
      if InCorrectionConflict(ps, raw, e) {
        var f :| f in raw && f != e && CorrectionOverlap(ps, raw, e, f);
        assert CorrectionOverlap(qs, more, e, f);
      }
      if InCorrectionConflict(qs, more, e) {
        var f :| f in more && f != e && CorrectionOverlap(qs, more, e, f);
        assert CorrectionOverlap(ps, raw, e, f);
      }
    }
  }

  lemma BindingsFrame(snap: Snapshot, ps: Policies, d: DecisionId, p: Policy)
    requires snap.Valid() && ValidPolicies(ps) && ValidPolicies(ps[d := p])
    requires d !in ps && !p.command.Structural() && CorrectionField(p.command) == None
    ensures ViewFor(snap, ps[d := p]) == ViewFor(snap, ps)
    ensures AllBindings(snap, ps[d := p]).Keys == ps.Keys + {d}
    ensures forall e <- ps :: AllBindings(snap, ps[d := p])[e] == AllBindings(snap, ps)[e]
  {
    hide ValidClassification, PlainBindings, StructuralBindings, ViewFor, AllBindings, EffectiveSources, ValidPolicy, Ready, ResolveTarget;
    var qs := ps[d := p];
    assert StructuralIds(qs) == StructuralIds(ps);
    ViewDependsOnStructure(snap, ps, qs);
    ViewIsReady(snap, ps);
    PlainBindingsFrame(snap, ps, d, p, ViewFor(snap, ps));
    BindingsJoin(snap, ps);
    BindingsJoin(snap, qs);
  }

  lemma BindingsJoin(snap: Snapshot, ps: Policies)
    requires snap.Valid() && ValidPolicies(ps)
    ensures Ready(snap, ViewFor(snap, ps))
    ensures AllBindings(snap, ps) == StructuralBindings(snap, ps) + PlainBindings(snap, ps, ViewFor(snap, ps))
    ensures AllBindings(snap, ps).Keys == ps.Keys
  {
    hide ValidClassification, StructuralBindings, ValidPolicy;
    ViewIsReady(snap, ps);
    BindingKeys(snap, ps);
  }

  lemma ViewIsReady(snap: Snapshot, ps: Policies)
    requires snap.Valid() && ValidPolicies(ps)
    ensures Ready(snap, ViewFor(snap, ps))
  {
    hide ValidClassification;
    SourcesSplit(snap, ps);
    ViewLinked(snap, EffectiveSources(snap, ps));
  }

  // --------------------------------------- adding a protection never weakens

  lemma WritersFrame(ps: Policies, d: DecisionId, p: Policy, b: map<DecisionId, Binding>, c: map<DecisionId, Binding>,
                     field: Field, target: TargetSelector)
    requires d !in ps && CorrectionField(p.command) == None && b.Keys == ps.Keys && c.Keys == ps.Keys + {d}
    requires forall e <- ps :: c[e] == b[e]
    ensures Writers(ps[d := p], c, field, target) == Writers(ps, b, field, target)
  {
    var qs := ps[d := p];
    forall e ensures e in Writers(qs, c, field, target) <==> e in Writers(ps, b, field, target) {
      if e != d && e in ps { assert qs[e] == ps[e]; }
    }
  }

  lemma WritersInFrame(ps: Policies, d: DecisionId, p: Policy, b: map<DecisionId, Binding>, c: map<DecisionId, Binding>,
                       field: Field, target: TargetSelector)
    requires d !in ps && CorrectionField(p.command) == None && !p.command.Structural()
    requires b.Keys == ps.Keys && c.Keys == ps.Keys + {d} && forall e <- ps :: c[e] == b[e]
    ensures WritersIn(ps[d := p], c, PlainIds(ps[d := p]), field, target) == WritersIn(ps, b, PlainIds(ps), field, target)
    ensures d !in WritersIn(ps, b, PlainIds(ps), field, target)
    ensures WritersIn(ps, b, PlainIds(ps), field, target) <= ps.Keys
  {
    WritersFrame(ps, d, p, b, c, field, target);
  }

  lemma CorrectedSourceFrame(ps: Policies, d: DecisionId, p: Policy, b: map<DecisionId, Binding>,
                             c: map<DecisionId, Binding>, k: SourceSelector, st: SourceState)
    requires d !in ps && CorrectionField(p.command) == None && !p.command.Structural()
    requires b.Keys == ps.Keys && c.Keys == ps.Keys + {d} && forall e <- ps :: c[e] == b[e]
    ensures CorrectedSource(ps[d := p], c, PlainIds(ps[d := p]), k, st) == CorrectedSource(ps, b, PlainIds(ps), k, st)
  {
    WritersInFrame(ps, d, p, b, c, SourceName, OnSource(k));
    WritersInFrame(ps, d, p, b, c, SourceRubro, OnSource(k));
    hide WritersIn, PlainIds;
  }

  lemma CorrectedFlowFrame(ps: Policies, d: DecisionId, p: Policy, b: map<DecisionId, Binding>,
                           c: map<DecisionId, Binding>, fs: FlowSelector, st: FlowState)
    requires d !in ps && CorrectionField(p.command) == None && !p.command.Structural()
    requires b.Keys == ps.Keys && c.Keys == ps.Keys + {d} && forall e <- ps :: c[e] == b[e]
    ensures CorrectedFlow(ps[d := p], c, PlainIds(ps[d := p]), fs, st) == CorrectedFlow(ps, b, PlainIds(ps), fs, st)
  {
    WritersInFrame(ps, d, p, b, c, FlowName, OnFlow(fs));
    WritersInFrame(ps, d, p, b, c, FlowIntention, OnFlow(fs));
    hide WritersIn, PlainIds;
  }

  /** Deciding with one more protection keeps the view and its corrections. */
  lemma DecideFrame(snap: Snapshot, ps: Policies, d: DecisionId, p: Policy)
    requires snap.Valid() && ValidPolicies(ps) && ValidPolicies(ps[d := p]) && d !in ps && p.command.ProtectTarget?
    ensures var before, after := Decide(snap, ps), Decide(snap, ps[d := p]);
      && after.view == before.view && after.sources == before.sources && after.flows == before.flows
      && before.bindings.Keys == ps.Keys && after.bindings.Keys == ps.Keys + {d}
      && forall e <- ps :: after.bindings[e] == before.bindings[e]
  {
    hide ValidClassification, ValidPolicies, ViewFor, AllBindings, CorrectedSources, CorrectedFlows, EffectiveSources, Decide;
    BindingsFrame(snap, ps, d, p);
    BindingsJoin(snap, ps);
    var view := ViewFor(snap, ps);
    CorrectionsFrame(ps, d, p, AllBindings(snap, ps), AllBindings(snap, ps[d := p]), view.sources, view.flows);
    DecideParts(snap, ps);
    DecideParts(snap, ps[d := p]);
  }

  /** A decision, part by part. */
  lemma DecideParts(snap: Snapshot, ps: Policies)
    requires snap.Valid() && ValidPolicies(ps)
    ensures var d, b, view := Decide(snap, ps), AllBindings(snap, ps), ViewFor(snap, ps);
      && d.view == view && d.bindings == b
      && d.sources == CorrectedSources(ps, b, PlainIds(ps), view.sources)
      && d.flows == CorrectedFlows(ps, b, PlainIds(ps), view.flows)
  {
    hide ValidClassification, ValidPolicies, AllBindings, ViewFor, CorrectedSources, CorrectedFlows, EffectiveSources, DecidedFor;
  }

  /** Corrections are unmoved by a policy that corrects nothing. */
  lemma CorrectionsFrame(ps: Policies, d: DecisionId, p: Policy, b: map<DecisionId, Binding>, c: map<DecisionId, Binding>,
                         table: SourceTable, flows: FlowTable)
    requires d !in ps && CorrectionField(p.command) == None && !p.command.Structural()
    requires b.Keys == ps.Keys && c.Keys == ps.Keys + {d} && forall e <- ps :: c[e] == b[e]
    ensures CorrectedSources(ps[d := p], c, PlainIds(ps[d := p]), table) == CorrectedSources(ps, b, PlainIds(ps), table)
    ensures CorrectedFlows(ps[d := p], c, PlainIds(ps[d := p]), flows) == CorrectedFlows(ps, b, PlainIds(ps), flows)
  {
    hide CorrectedSource, CorrectedFlow, PlainIds;
    forall k | k in table
      ensures CorrectedSource(ps[d := p], c, PlainIds(ps[d := p]), k, table[k]) == CorrectedSource(ps, b, PlainIds(ps), k, table[k])
    {
      CorrectedSourceFrame(ps, d, p, b, c, k, table[k]);
    }
    forall fs | fs in flows
      ensures CorrectedFlow(ps[d := p], c, PlainIds(ps[d := p]), fs, flows[fs]) == CorrectedFlow(ps, b, PlainIds(ps), fs, flows[fs])
    {
      CorrectedFlowFrame(ps, d, p, b, c, fs, flows[fs]);
    }
  }

  /** The reasons a new protection leaves before the last pass include the earlier ones. */
  lemma ReasonsGrow(snap: Snapshot, ps: Policies, d: DecisionId, p: Policy, m: MessageId)
    requires snap.Valid() && ValidPolicies(ps) && ValidPolicies(ps[d := p]) && d !in ps && p.command.ProtectTarget?
    requires m in snap.records
    ensures Gathered(snap, ps)[m] <= Gathered(snap, ps[d := p])[m]
  {
    hide ValidClassification, ValidPolicies, Decide, DecidedFor, AutomaticProtection, PolicyReasons;
    DecideFrame(snap, ps, d, p);
    PolicyReasonsGrow(ps, d, p, Decide(snap, ps).bindings, Decide(snap, ps[d := p]).bindings,
                      FlowStateOf(snap, Decide(snap, ps), m), m);
  }

  lemma PolicyReasonsGrow(ps: Policies, d: DecisionId, p: Policy, b: map<DecisionId, Binding>, c: map<DecisionId, Binding>,
                          flow: FlowState, m: MessageId)
    requires d !in ps && b.Keys == ps.Keys && c.Keys == ps.Keys + {d} && forall e <- ps :: c[e] == b[e]
    ensures PolicyReasons(ps, b, flow, m) <= PolicyReasons(ps[d := p], c, flow, m)
  {
    var qs := ps[d := p];
    forall e | e in ProtectedBy(ps, b, m) ensures e in ProtectedBy(qs, c, m) { assert qs[e] == ps[e]; }
    forall e | e in UnsettledOn(b, m) ensures e in UnsettledOn(c, m) { assert c[e] == b[e]; }
    if LabelProtected(ps, b, m) {
      var e :| e in b && e in ps && b[e].status.Applies() && ps[e].command.ProtectTarget?
               && ps[e].command.protect.OnLabel? && m in b[e].candidate.messages;
      assert qs[e] == ps[e] && c[e] == b[e];
      assert LabelProtected(qs, c, m);
    }
    assert ProtectedBy(ps, b, m) <= ProtectedBy(qs, c, m);
    assert UnsettledOn(b, m) <= UnsettledOn(c, m);
  }

  /**
   Adding a protection never unprotects a message, never lifts a hard exclusion
   and never lowers a protection category.
   */
  lemma AddingProtectionNeverWeakens(snap: Snapshot, ps: Policies, d: DecisionId, p: Policy, m: MessageId)
    requires snap.Valid() && ValidPolicies(ps) && ValidPolicies(ps[d := p]) && d !in ps && p.command.ProtectTarget?
    ensures ReasonsOn(snap, ps, m) != {} ==> ReasonsOn(snap, ps[d := p], m) != {}
    ensures HardExcluded(ReasonsOn(snap, ps, m)) ==> HardExcluded(ReasonsOn(snap, ps[d := p], m))
    ensures CategoryOf(ReasonsOn(snap, ps, m)).Rank() <= CategoryOf(ReasonsOn(snap, ps[d := p], m)).Rank()
  {
    hide ValidClassification, ValidPolicies, Gathered, Spread, CategoryOf, HardExcluded;
    if m in snap.records {
      var fewer, more := Gathered(snap, ps), Gathered(snap, ps[d := p]);
      forall n | n in fewer ensures fewer[n] <= more[n] {
        ReasonsGrow(snap, ps, d, p, n);
      }
      SpreadMonotone(snap, fewer, more, m);
    }
  }

  // ----------------------------------------------------- conversation closure

  /** Whole conversations: a message is protected exactly when some message of its thread had a reason. */
  lemma ConversationClosed(snap: Snapshot, ps: Policies, m: MessageId)
    requires m in snap.records
    ensures ReasonsOn(snap, ps, m) != {} <==>
      exists n <- snap.records :: snap.records[n].thread == snap.records[m].thread && Gathered(snap, ps)[n] != {}
    ensures forall n <- snap.records :: snap.records[n].thread == snap.records[m].thread ==>
      (ReasonsOn(snap, ps, n) != {} <==> ReasonsOn(snap, ps, m) != {})
    ensures Spread(snap, Protected(snap, ps)) == Protected(snap, ps)
  {
    hide Gathered, Spread;
    SpreadCloses(snap, Gathered(snap, ps), m);
    forall n | n in snap.records && snap.records[n].thread == snap.records[m].thread
      ensures ReasonsOn(snap, ps, n) != {} <==> ReasonsOn(snap, ps, m) != {}
    {
      SpreadUniform(snap, Gathered(snap, ps), m, n);
    }
    SpreadIdempotent(snap, Gathered(snap, ps));
  }

  ghost function AutomaticOn(snap: Snapshot, m: MessageId): set<Reason> {
    if snap.Valid() && m in snap.records then AutomaticProtection(snap)[m] else {}
  }

  /** Policies only add: the automatic reasons and category survive in the effective ones. */
  lemma AutomaticSurvives(snap: Snapshot, ps: Policies, m: MessageId)
    requires Accepted(snap, ps)
    ensures AutomaticOn(snap, m) <= ReasonsOn(snap, ps, m)
    ensures CategoryOf(AutomaticOn(snap, m)).Rank() <= CategoryOf(ReasonsOn(snap, ps, m)).Rank()
  {
    hide ValidClassification, ValidPolicies, Decide, DecidedFor, CategoryOf, PolicyReasons, Mixed, BaseReasons;
    if m in snap.records {
      assert AutomaticProtection(snap)[m] <= Gathered(snap, ps)[m];
    }
    CategoryMonotone(AutomaticOn(snap, m), ReasonsOn(snap, ps, m));
  }

  // ------------------------------------------------- review implies a reason

  lemma SourceDecisionsApply(ps: Policies, b: map<DecisionId, Binding>, done: set<DecisionId>, k: SourceSelector,
                             st: SourceState, e: DecisionId)
    requires e in CorrectedSource(ps, b, done, k, st).decisions
    ensures e in st.decisions || (e in b && b[e].status.Applies())
  {
  }

  lemma FlowDecisionsApply(ps: Policies, b: map<DecisionId, Binding>, done: set<DecisionId>, fs: FlowSelector,
                           st: FlowState, e: DecisionId)
    requires e in CorrectedFlow(ps, b, done, fs, st).decisions
    ensures e in st.decisions || (e in b && b[e].status.Applies())
  {
  }

  lemma StructuralDecisionsApply(snap: Snapshot, ps: Policies, k: SourceSelector, e: DecisionId)
    requires Accepted(snap, ps) && k in EffectiveSources(snap, ps) && e in EffectiveSources(snap, ps)[k].decisions
    ensures e in AllBindings(snap, ps) && AllBindings(snap, ps)[e].status.Applies()
  {
    hide ValidClassification, ValidPolicy, StructuralBinding, AllBindings;
    BindingKeys(snap, ps);
    assert e in Applying(snap, ps);
  }

  lemma FlowDecisionsInherited(snap: Snapshot, table: SourceTable, fs: FlowSelector)
    requires snap.Valid() && fs in FlowsOf(snap, table)
    ensures fs.source in table && FlowsOf(snap, table)[fs].decisions == table[fs.source].decisions
  {
    hide ValidClassification;
  }

  lemma DecideUnfolds(snap: Snapshot, ps: Policies)
    requires Accepted(snap, ps)
    ensures var d := Decide(snap, ps);
      && d.bindings == AllBindings(snap, ps) && d.view.sources == EffectiveSources(snap, ps)
      && d.view.flows == FlowsOf(snap, EffectiveSources(snap, ps))
      && d.sources == CorrectedSources(ps, d.bindings, PlainIds(ps), d.view.sources)
      && d.flows == CorrectedFlows(ps, d.bindings, PlainIds(ps), d.view.flows)
  {
    hide ValidClassification, ValidPolicy, AllBindings, CorrectedSource, CorrectedFlow, FlowsOf;
  }

  /** The decisions recorded on the effective source and flow of a message. */
  ghost function RecordedOn(snap: Snapshot, ps: Policies, m: MessageId): set<DecisionId> {
    if Accepted(snap, ps) && m in snap.records then
      SourceStateOf(snap, Decide(snap, ps), m).decisions + FlowStateOf(snap, Decide(snap, ps), m).decisions
    else {}
  }

  /** Only applying decisions are recorded on the effective source and flow of a message. */
  lemma RecordedDecisionsApply(snap: Snapshot, ps: Policies, m: MessageId, e: DecisionId)
    requires Accepted(snap, ps) && m in snap.records && e in RecordedOn(snap, ps, m)
    ensures e in AllBindings(snap, ps) && AllBindings(snap, ps)[e].status.Applies()
  {
    hide ValidClassification, ValidPolicy, Decide, AllBindings, CorrectedSource, CorrectedFlow, FlowsOf, EffectiveSources;
    DecideUnfolds(snap, ps);
    var d := Decide(snap, ps);
    var k, fs := d.view.toSource[m], d.view.toFlow[m];
    if e in SourceStateOf(snap, d, m).decisions {
      SourceDecisionsApply(ps, d.bindings, PlainIds(ps), k, d.view.sources[k], e);
      if e in d.view.sources[k].decisions {
        StructuralDecisionsApply(snap, ps, k, e);
      }
    } else {
      FlowDecisionsApply(ps, d.bindings, PlainIds(ps), fs, d.view.flows[fs], e);
      FlowDecisionsInherited(snap, EffectiveSources(snap, ps), fs);
      if e in d.view.flows[fs].decisions {
        StructuralDecisionsApply(snap, ps, fs.source, e);
      }
    }
  }

  /** Whether a message must be reviewed, under the active policies. */
  ghost predicate MustReview(snap: Snapshot, ps: Policies, m: MessageId) {
    Accepted(snap, ps) && m in snap.records && ReviewRequired(snap, ps, Decide(snap, ps), m)
  }

  lemma AutomaticallyReviewed(snap: Snapshot, m: MessageId)
    requires snap.Valid() && m in snap.records
    requires Mixed(snap, BaseReasons(snap), snap.records[m].thread)
      || snap.classified.messages[m].confidence == Low || snap.classified.messages[m].confidence == Contradictory
    ensures AutomaticOn(snap, m) != {}
  {
    hide ValidClassification, Mixed;
    if Mixed(snap, BaseReasons(snap), snap.records[m].thread) {
      assert MixedConversation in AutomaticOn(snap, m);
    } else {
      assert BaseReasons(snap)[m] <= AutomaticOn(snap, m);
      assert LowConfidence in BaseReasons(snap)[m] || Contradiction in BaseReasons(snap)[m];
    }
  }

  lemma UnsettledGathered(snap: Snapshot, ps: Policies, m: MessageId)
    requires Accepted(snap, ps) && m in snap.records && UnsettledOn(AllBindings(snap, ps), m) != {}
    ensures PolicyReview in ReasonsOn(snap, ps, m)
  {
    hide ValidClassification, ValidPolicies, Decide, AllBindings, DecidedFor, AutomaticProtection, Mixed, UnsettledOn;
    DecideUnfolds(snap, ps);
    assert PolicyReview in Gathered(snap, ps)[m];
  }

  lemma UnappliedIsUnsettled(snap: Snapshot, ps: Policies, m: MessageId)
    requires Accepted(snap, ps) && m in snap.records && ShowsUnapplied(snap, ps, Decide(snap, ps), m)
    ensures UnsettledOn(AllBindings(snap, ps), m) != {}
  {
    hide ValidClassification, ValidPolicies, Decide, AllBindings, DecidedFor, SourceStateOf, FlowStateOf;
    DecideUnfolds(snap, ps);
    var d := Decide(snap, ps);
    var e :| e in DecisionsOn(snap, ps, d, m) && e in ps && e in d.bindings && !d.bindings[e].status.Applies();
    if e !in UnsettledOn(d.bindings, m) {
      RecordedDecisionsApply(snap, ps, m, e);
    }
  }

  /** A required review or a hard exclusion always comes with a reason, so plans can explain it. */
  lemma ReviewHasReason(snap: Snapshot, ps: Policies, m: MessageId)
    requires MustReview(snap, ps, m) || HardExcluded(ReasonsOn(snap, ps, m))
    ensures ReasonsOn(snap, ps, m) != {}
  {
    hide ValidClassification, ValidPolicies, Decide, AllBindings, DecidedFor, Mixed, UnsettledOn, Gathered, BaseReasons,
      ReasonsBefore, ReasonsOn, ShowsUnapplied, AutomaticOn;
    if MustReview(snap, ps, m) {
      var d := Decide(snap, ps);
      DecideUnfolds(snap, ps);
      if UnsettledOn(d.bindings, m) != {} {
        UnsettledGathered(snap, ps, m);
      } else if Mixed(snap, ReasonsBefore(snap, ps, d), snap.records[m].thread) {
        MixedGathered(snap, ps, m);
      } else if ShowsUnapplied(snap, ps, d, m) {
        UnappliedIsUnsettled(snap, ps, m);
      } else {
        AutomaticallyReviewed(snap, m);
        AutomaticSurvives(snap, ps, m);
      }
    }
  }

  lemma MixedGathered(snap: Snapshot, ps: Policies, m: MessageId)
    requires Accepted(snap, ps) && m in snap.records
    requires Mixed(snap, ReasonsBefore(snap, ps, Decide(snap, ps)), snap.records[m].thread)
    ensures MixedConversation in ReasonsOn(snap, ps, m)
  {
    hide ValidClassification, ValidPolicies, Decide, DecidedFor, Mixed, ReasonsBefore;
  }
}
