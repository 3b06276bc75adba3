/** A prepared decision binds: preparing predicts what applying does. */
module PreparePrediction {
  import opened Basics
  import opened MailModel
  import opened PolicyModel
  import opened StructuralPolicy
  import opened StructuralSafety
  import opened EffectiveFlows
  import opened PolicyBindings
  import opened Corrections
  import opened PolicyApplication
  import opened ProtectionTheorems
  import opened PolicyPrepare

  // ----------------------------------------------- what a selector is made of

  /** The messages of an effective source come from all of its automatic sources, and from no other. */
  lemma SourceIdsComplete(snap: Snapshot, k: SourceSelector)
    requires snap.Valid() && MessagesOf(snap, k) != {}
    ensures SourceIdsOf(snap.classified, MessagesOf(snap, k)) == AutomaticIds(snap, k)
  {
    var c := snap.classified;
    forall s | s in AutomaticIds(snap, k) ensures s in SourceIdsOf(c, MessagesOf(snap, k)) {
      if k.PartitionGroup? {
        var m :| m in MessagesOf(snap, k);
        assert c.sources[c.messages[m].source].descriptor == k.source;
        assert c.messages[m].source == s;
      } else {
        var m := SomeMember(c.sources[s].messages);
        assert c.messages[m].source == s;
        assert m in MessagesOf(snap, k);
      }
    }
  }

  /** In every effective source the observed identifiers are the recorded ones. */
  lemma EffectiveIdsComplete(snap: Snapshot, ps: Policies, k: SourceSelector)
    requires Accepted(snap, ps) && k in EffectiveSources(snap, ps)
    ensures var st := EffectiveSources(snap, ps)[k];
      && st.automatic == SourceIdsOf(snap.classified, st.messages)
      && st.messages == MessagesOf(snap, k)
      && st.automatic == AutomaticIds(snap, k)
  {
    hide ValidClassification, ValidPolicies, Applying, MessagesOf, AutomaticIds, SourceIdsOf, SplitsRecords;
    SourcesSplit(snap, ps);
    SourceIdsComplete(snap, k);
  }

  lemma CorrectionsKeepIdentity(ps: Policies, b: map<DecisionId, Binding>, done: set<DecisionId>, table: SourceTable,
                                flows: FlowTable)
    ensures forall k <- table ::
      var st := CorrectedSources(ps, b, done, table)[k];
      st.messages == table[k].messages && st.automatic == table[k].automatic && st.structural == table[k].structural
    ensures forall fs <- flows ::
      var st := CorrectedFlows(ps, b, done, flows)[fs];
      st.messages == flows[fs].messages && st.automatic == flows[fs].automatic && st.structural == flows[fs].structural
  {
    hide WritersIn, SourceNameBy, SourceRubroBy, FlowNameBy, FlowIntentBy;
  }

  /** The parts of a decided view that corrections leave alone. */
  lemma DecidedIdentity(snap: Snapshot, ps: Policies)
    requires Accepted(snap, ps)
    ensures var d := Decide(snap, ps); var table := EffectiveSources(snap, ps); var flows := FlowsOf(snap, table);
      && d.view.sources == table && d.view.flows == flows && d.bindings == AllBindings(snap, ps)
      && d.sources.Keys == table.Keys && d.flows.Keys == flows.Keys
      && (forall k <- table :: d.sources[k].messages == table[k].messages && d.sources[k].structural == table[k].structural)
      && (forall fs <- flows :: d.flows[fs].messages == flows[fs].messages && d.flows[fs].structural == flows[fs].structural)
  {
    hide ValidClassification, ValidPolicies, Decide, AllBindings, EffectiveSources, FlowsOf, CorrectedSource, CorrectedFlow;
    DecideUnfolds(snap, ps);
    var d := Decide(snap, ps);
    CorrectionsKeepIdentity(ps, d.bindings, PlainIds(ps), d.view.sources, d.view.flows);
  }

  // ------------------------------------------------------ one target is exact

  /** An anchor prepared on a source of the view resolves exactly in the same view. */
  lemma SourceAnchorExact(snap: Snapshot, ps: Policies, k: SourceSelector)
    requires Accepted(snap, ps) && k in Decide(snap, ps).sources
    ensures k in EffectiveSources(snap, ps)
    ensures ResolveSource(snap, SourceAnchorOf(snap, k, Decide(snap, ps).sources[k]), k, EffectiveSources(snap, ps))
      == Binding(Exact, SourceCandidate(snap, k, EffectiveSources(snap, ps)[k]))
  {
    hide ValidClassification, ValidPolicies, Decide, EffectiveSources, FlowsOf, AllBindings;
    DecidedIdentity(snap, ps);
    EffectiveIdsComplete(snap, ps, k);
  }

  /** The identifiers a flow fragment observes. */
  lemma FlowIdsComplete(snap: Snapshot, table: SourceTable, fs: FlowSelector)
    requires snap.Valid() && fs in FlowsOf(snap, table)
    ensures var st := FlowsOf(snap, table)[fs];
      && FlowIdsOf(snap.classified, st.messages) == {st.automatic}
      && st.automatic in snap.classified.flows
      && SourceIdsOf(snap.classified, st.messages) == {snap.classified.flows[st.automatic].source}
      && fs.source in table && st.structural == table[fs.source].structural
      && st.messages <= table[fs.source].messages
  {
    FlowConfidenceConservative(snap, table, fs);
    FlowDecisionsInherited(snap, table, fs);
    var st := FlowsOf(snap, table)[fs];
    var f := FlowWith(snap, fs.flow);
    assert st.automatic == f && st.messages <= snap.classified.flows[f].messages;
    assert forall m <- st.messages :: snap.classified.messages[m].flow == f
             && snap.classified.messages[m].source == snap.classified.flows[f].source;
    var m := SomeMember(st.messages);
    assert f in FlowIdsOf(snap.classified, st.messages);
    assert snap.classified.flows[f].source in SourceIdsOf(snap.classified, st.messages);
  }

  lemma SingleDescriptor(snap: Snapshot, k: SourceSelector, s: SourceId)
    requires snap.Valid() && !k.Merged? && s in AutomaticIds(snap, k)
    ensures AutomaticIds(snap, k) == {s}
  {
  }

  lemma SeveralDescriptors(snap: Snapshot, ds: seq<SourceDescriptor>, s: SourceId)
    requires |ds| >= 2 && ds[0] != ds[1]
    requires Automatic(ds[0]) in BaselineKeys(snap) && Automatic(ds[1]) in BaselineKeys(snap)
    ensures AutomaticIds(snap, Merged(Elements(ds))) != {s}
  {
    var a :| a in snap.classified.sources && snap.classified.sources[a].descriptor == ds[0];
    var b :| b in snap.classified.sources && snap.classified.sources[b].descriptor == ds[1];
    assert a in AutomaticIds(snap, Merged(Elements(ds))) && b in AutomaticIds(snap, Merged(Elements(ds)));
  }

  lemma MergedParticipants(snap: Snapshot, ps: Policies, k: SourceSelector) returns (ds: seq<SourceDescriptor>)
    requires Accepted(snap, ps) && k in EffectiveSources(snap, ps) && k.Merged?
    ensures |ds| >= 2 && ds[0] != ds[1] && k == Merged(Elements(ds))
    ensures Automatic(ds[0]) in BaselineKeys(snap) && Automatic(ds[1]) in BaselineKeys(snap)
  {
    hide ValidClassification, ValidPolicies, GroupsResolve, Applying, BaselineKeys;
    SurvivorsApplicable(snap, ps);
    var applied := Applying(snap, ps);
    assert k in TableKeys(snap, ps, applied);
    assert k !in BaselineKeys(snap) by { BaselineIsAutomatic(snap); }
    var d :| d in applied && d in ps && k in Products(ps[d].command);
    ds := ps[d].command.participants;
    assert ds[0] in StructuralDescriptors(ps[d].command) && ds[1] in StructuralDescriptors(ps[d].command);
  }

  lemma BaselineIsAutomatic(snap: Snapshot)
    ensures forall k <- BaselineKeys(snap) :: k.Automatic?
  {
  }

  /** A merged source has at least two automatic sources; every other source has one. */
  lemma MergedHasSeveral(snap: Snapshot, ps: Policies, k: SourceSelector, s: SourceId)
    requires Accepted(snap, ps) && k in EffectiveSources(snap, ps) && s in AutomaticIds(snap, k)
    ensures AutomaticIds(snap, k) == {s} <==> !k.Merged?
  {
    hide ValidClassification, ValidPolicies, EffectiveSources, AutomaticIds;
    if k.Merged? {
      var ds := MergedParticipants(snap, ps, k);
      SeveralDescriptors(snap, ds, s);
    } else {
      SingleDescriptor(snap, k, s);
    }
  }

  /**
   What was observed on a flow of the view is exactly what the view reports,
   except inside a merged source: the flow observed one automatic source, and
   the view reports all the merged ones.
   */
  lemma FlowAnchorStatus(snap: Snapshot, ps: Policies, fs: FlowSelector, st: FlowState, source: SourceState)
    requires Accepted(snap, ps)
    requires fs.source in EffectiveSources(snap, ps) && source == EffectiveSources(snap, ps)[fs.source]
    requires fs in FlowsOf(snap, EffectiveSources(snap, ps)) && st == FlowsOf(snap, EffectiveSources(snap, ps))[fs]
    ensures ExactStatus(FlowAnchorOf(snap, fs, st),
                        Candidate({FlowKeyOf(fs)}, source.automatic, {st.automatic}, st.structural, st.messages))
      == if fs.source.Merged? then Rebound else Exact
  {
    hide ValidClassification, ValidPolicies, EffectiveSources, FlowsOf, AutomaticIds, SourceIdsOf, FlowIdsOf, MessagesOf;
    FlowIdsComplete(snap, EffectiveSources(snap, ps), fs);
    EffectiveIdsComplete(snap, ps, fs.source);
    var s := snap.classified.flows[st.automatic].source;
    SourceIdsWithin(snap.classified, st.messages, source.messages);
    assert s in SourceIdsOf(snap.classified, st.messages);
    MergedHasSeveral(snap, ps, fs.source, s);
  }

  lemma SourceIdsWithin(c: Classification, few: set<MessageId>, many: set<MessageId>)
    requires few <= many
    ensures SourceIdsOf(c, few) <= SourceIdsOf(c, many)
  {
  }

  // ---------------------------------------- sharing a message is being occupied

  /** A binding that reaches a message names the effective source of that message. */
  lemma SourceBindingTouches(snap: Snapshot, anchor: Anchor, sel: SourceSelector, table: SourceTable, k: SourceSelector, m: MessageId)
    requires k in table && m in table[k].messages
    requires forall l <- table :: m in table[l].messages ==> l == k
    requires m in ResolveSource(snap, anchor, sel, table).candidate.messages
    ensures SourceKey(k) in ResolveSource(snap, anchor, sel, table).candidate.effective
  {
    if sel !in table {
      var fallbacks := SourceFallbacks(anchor, sel, table);
      var cs := set l | l in fallbacks :: SourceCandidate(snap, l, table[l]);
      var c :| c in cs && m in c.messages;
      assert c == SourceCandidate(snap, k, table[k]);
      assert SourceKey(k) in c.effective;
    }
  }

  /** A binding that reaches a message names the effective flow of that message. */
  lemma FlowBindingTouches(anchor: Anchor, sel: FlowSelector, view: View, fs: FlowSelector, m: MessageId)
    requires Linked(view) && fs in view.flows && m in view.flows[fs].messages
    requires forall g <- view.flows :: m in view.flows[g].messages ==> g == fs
    requires m in ResolveFlow(anchor, sel, view).candidate.messages
    ensures FlowKeyOf(fs) in ResolveFlow(anchor, sel, view).candidate.effective
  {
    if sel !in view.flows {
      var fallbacks := FlowFallbacks(anchor, sel, view);
      var cs := set g | g in fallbacks :: FlowCandidate(g, view);
      var c :| c in cs && m in c.messages;
      assert c == FlowCandidate(fs, view);
      assert FlowKeyOf(fs) in c.effective;
    }
  }

  /** What the view says about the messages of a source or a flow that a correction targets. */
  ghost predicate TargetIsolated(view: View, target: TargetSelector) {
    && (target.OnSource? ==>
          && target.source in view.sources
          && forall m, l :: m in view.sources[target.source].messages && l in view.sources && m in view.sources[l].messages
                            ==> l == target.source)
    && (target.OnFlow? ==>
          && target.flow in view.flows
          && forall m, g :: m in view.flows[target.flow].messages && g in view.flows && m in view.flows[g].messages
                            ==> g == target.flow)
  }

  function TargetKeys(target: TargetSelector): set<EffectiveId> {
    match target
    case OnSource(k) => {SourceKey(k)}
    case OnFlow(fs) => {FlowKeyOf(fs)}
    case _ => {}
  }

  function TargetMessages(view: View, target: TargetSelector): set<MessageId> {
    match target
    case OnSource(k) => if k in view.sources then view.sources[k].messages else {}
    case OnFlow(fs) => if fs in view.flows then view.flows[fs].messages else {}
    case _ => {}
  }

  /** Two corrections of one field that share a message share an effective object. */
  lemma CorrectionTouches(snap: Snapshot, view: View, c: Command, e: Command, anchor: Anchor, m: MessageId)
    requires !c.Structural() && !e.Structural()
    requires snap.Valid() && Ready(snap, view) && TargetIsolated(view, c.Target())
    requires CorrectionField(c) != None && CorrectionField(c) == CorrectionField(e)
    requires m in TargetMessages(view, c.Target())
    requires m in ResolveTarget(snap, anchor, e.Target(), view).candidate.messages
    ensures !(ResolveTarget(snap, anchor, e.Target(), view).candidate.effective !! TargetKeys(c.Target()))
  {
    hide ValidClassification, ResolveSource, ResolveFlow;
    if c.Target().OnSource? {
      SourceBindingTouches(snap, anchor, e.Target().source, view.sources, c.Target().source, m);
    } else {
      FlowBindingTouches(anchor, e.Target().flow, view, c.Target().flow, m);
    }
  }

  /** A raw binding of the same field that reaches the target's messages names the target. */
  lemma OverlapTouches(snap: Snapshot, ps: Policies, view: View, raw: map<DecisionId, Binding>, c: Command, e: DecisionId)
    requires Accepted(snap, ps) && Ready(snap, view) && raw == RawPlain(snap, ps, view) && e in raw
    requires !c.Structural() && CorrectionField(c) != None && CorrectionField(c) == CorrectionField(ps[e].command)
    requires TargetIsolated(view, c.Target())
    ensures raw[e].candidate.messages !! TargetMessages(view, c.Target())
      || !(raw[e].candidate.effective !! TargetKeys(c.Target()))
  {
    hide ValidClassification, ResolveTarget, TargetIsolated, TargetKeys, TargetMessages;
    if !(raw[e].candidate.messages !! TargetMessages(view, c.Target())) {
      var m := SomeCommon(raw[e].candidate.messages, TargetMessages(view, c.Target()));
      CorrectionTouches(snap, view, c, ps[e].command, ps[e].anchors[0], m);
    }
  }

  /** The raw bindings of the other policies do not change when one is added. */
  lemma RawFrame(snap: Snapshot, rs: Policies, qs: Policies, d: DecisionId, view: View)
    requires Accepted(snap, rs) && Accepted(snap, qs) && Ready(snap, view)
    requires d in qs && d !in rs && qs == rs[d := qs[d]] && !qs[d].command.Structural()
    ensures RawPlain(snap, rs, view).Keys <= rs.Keys
    ensures RawPlain(snap, qs, view).Keys == RawPlain(snap, rs, view).Keys + {d}
    ensures forall e <- RawPlain(snap, rs, view) :: RawPlain(snap, qs, view)[e] == RawPlain(snap, rs, view)[e] && qs[e] == rs[e]
  {
    hide ValidClassification, ResolveTarget;
    assert PlainIds(qs) == PlainIds(rs) + {d};
  }

  /** A new plain policy keeps its raw binding when nobody occupies what it corrects. */
  lemma PlainUnmarked(snap: Snapshot, rs: Policies, qs: Policies, d: DecisionId, view: View,
                      raw: map<DecisionId, Binding>, more: map<DecisionId, Binding>)
    requires Accepted(snap, rs) && Accepted(snap, qs) && Ready(snap, view)
    requires d in qs && d !in rs && qs == rs[d := qs[d]] && !qs[d].command.Structural()
    requires raw == RawPlain(snap, rs, view) && more == RawPlain(snap, qs, view)
    requires CorrectionField(qs[d].command) != None ==>
      TargetIsolated(view, qs[d].command.Target()) && d in more && more[d].candidate.messages == TargetMessages(view, qs[d].command.Target())
    requires CorrectionField(qs[d].command) != None ==>
      forall e <- raw :: e in rs && CorrectionField(rs[e].command) == CorrectionField(qs[d].command) ==>
        raw[e].candidate.effective !! TargetKeys(qs[d].command.Target())
    ensures d in more && d in PlainBindings(snap, qs, view) && PlainBindings(snap, qs, view)[d] == more[d]
  {
    hide ValidClassification, ResolveTarget, TargetIsolated, TargetKeys, TargetMessages, RawPlain, Ready, Linked, ValidPolicies;
    RawFrame(snap, rs, qs, d, view);
    var c := qs[d].command;
    if CorrectionField(c) != None {
      forall e | e in raw && CorrectionField(rs[e].command) == CorrectionField(c)
        ensures raw[e].candidate.messages !! TargetMessages(view, c.Target())
      {
        OverlapTouches(snap, rs, view, raw, c, e);
      }
    }
    assert !InCorrectionConflict(qs, more, d);
  }

  // --------------------------------------------------- targeted commands bind

  /** The status a policy gets when the active policies are applied. */
  ghost function StatusOf(snap: Snapshot, ps: Policies, d: DecisionId): Option<Status> {
    if Accepted(snap, ps) && d in AllBindings(snap, ps) then Some(AllBindings(snap, ps)[d].status) else None
  }

  /** Exact, except that a flow inside a merged source is rebound. */
  function ExpectedStatus(c: Command): Status {
    if !c.Structural() && c.Target().OnFlow? && c.Target().flow.source.Merged? then Rebound else Exact
  }

  lemma SourceOfMessageUnique(snap: Snapshot, table: SourceTable, m: MessageId, k: SourceSelector, l: SourceSelector)
    requires SplitsRecords(snap, table)
    requires k in table && l in table && m in table[k].messages && m in table[l].messages
    ensures k == l
  {
    var shared := table[k].messages * table[l].messages;
    assert m in shared;
  }

  lemma TargetsIsolated(snap: Snapshot, ps: Policies, target: TargetSelector)
    requires Accepted(snap, ps)
    requires target.OnSource? ==> target.source in EffectiveSources(snap, ps)
    requires target.OnFlow? ==> target.flow in FlowsOf(snap, EffectiveSources(snap, ps))
    ensures TargetIsolated(ViewFor(snap, ps), target)
  {
    hide ValidClassification, ValidPolicies, EffectiveSources, FlowsOf;
    SourcesSplit(snap, ps);
    var table := EffectiveSources(snap, ps);
    var flows := FlowsOf(snap, table);
    if target.OnSource? {
      forall m, l | m in table[target.source].messages && l in table && m in table[l].messages ensures l == target.source {
        SourceOfMessageUnique(snap, table, m, l, target.source);
      }
    } else if target.OnFlow? {
      forall m, g | m in flows[target.flow].messages && g in flows && m in flows[g].messages ensures g == target.flow {
        FlowIdsComplete(snap, table, g);
        FlowsSplitMessages(snap, table, m);
      }
    }
  }

  /** The raw binding of a targeted command prepared in the same view. */
  lemma TargetResolves(snap: Snapshot, rs: Policies, c: Command, observed: Observed)
    requires Accepted(snap, rs) && !c.Structural()
    requires ObserveTarget(snap, Decide(snap, rs), c.Target()) == Ok(observed)
    ensures |observed.anchors| == 1 && observed.anchors[0].selector == Target(c.Target())
    ensures TargetIsolated(ViewFor(snap, rs), c.Target()) && Ready(snap, ViewFor(snap, rs))
    ensures var b := ResolveTarget(snap, observed.anchors[0], c.Target(), ViewFor(snap, rs));
      && b.status == ExpectedStatus(c)
      && (c.Target().OnSource? || c.Target().OnFlow? ==>
            b.candidate.messages == TargetMessages(ViewFor(snap, rs), c.Target()) && observed.targets == TargetKeys(c.Target()))
  {
    hide ValidClassification, ValidPolicies, EffectiveSources, FlowsOf, Decide, AllBindings, TargetIsolated, DecidedFor, Linked, SplitsRecords;
    ViewIsReady(snap, rs);
    DecidedIdentity(snap, rs);
    TargetsIsolated(snap, rs, c.Target());
    if c.Target().OnSource? {
      SourceAnchorExact(snap, rs, c.Target().source);
    } else if c.Target().OnFlow? {
      var fs := c.Target().flow;
      var table := EffectiveSources(snap, rs);
      FlowIdsComplete(snap, table, fs);
      FlowAnchorStatus(snap, rs, fs, FlowsOf(snap, table)[fs], table[fs.source]);
    }
  }

  /** A targeted command that was accepted binds as expected once it is active. */
  lemma TargetedPrediction(snap: Snapshot, rs: Policies, qs: Policies, c: Command, d: DecisionId, observed: Observed)
    requires Accepted(snap, rs) && !c.Structural() && d !in rs
    requires ObserveTarget(snap, Decide(snap, rs), c.Target()) == Ok(observed)
    requires rs.Keys <= AllBindings(snap, rs).Keys && !OccupiedBy(rs, AllBindings(snap, rs), c, observed.targets)
    requires qs == rs[d := Policy(c, observed.anchors)]
    ensures Accepted(snap, qs) && StatusOf(snap, qs, d) == Some(ExpectedStatus(c))
  {
    hide ValidClassification, EffectiveSources, FlowsOf, Decide, AllBindings, TargetIsolated, DecidedFor, Linked, SplitsRecords,
      ViewFor, ResolveTarget, ObserveTarget, TargetKeys, TargetMessages, StructuralBindings, PlainBindings, RawPlain;
    TargetResolves(snap, rs, c, observed);
    assert ValidPolicies(qs);
    var view := ViewFor(snap, rs);
    var raw, more := RawPlain(snap, rs, view), RawPlain(snap, qs, view);
    RawFrame(snap, rs, qs, d, view);
    NewRaw(snap, qs, d, view);
    forall e | e in raw ensures raw[e].candidate == AllBindings(snap, rs)[e].candidate {
      RawCandidate(snap, rs, e);
    }
    PlainUnmarked(snap, rs, qs, d, view, raw, more);
    BindingsJoin(snap, qs);
    assert StructuralIds(qs) == StructuralIds(rs);
    ViewDependsOnStructure(snap, rs, qs);
  }

  lemma NewRaw(snap: Snapshot, ps: Policies, d: DecisionId, view: View)
    requires Accepted(snap, ps) && Ready(snap, view) && d in PlainIds(ps)
    ensures d in RawPlain(snap, ps, view)
    ensures RawPlain(snap, ps, view)[d] == ResolveTarget(snap, ps[d].anchors[0], ps[d].command.Target(), view)
  {
    hide ValidClassification, ResolveTarget;
  }

  lemma RawCandidate(snap: Snapshot, ps: Policies, e: DecisionId)
    requires Accepted(snap, ps)
    ensures Ready(snap, ViewFor(snap, ps))
    ensures e in RawPlain(snap, ps, ViewFor(snap, ps)) ==>
      e in AllBindings(snap, ps) && AllBindings(snap, ps)[e].candidate == RawPlain(snap, ps, ViewFor(snap, ps))[e].candidate
  {
    hide ValidClassification, ValidPolicies, ResolveTarget, StructuralBindings, RawPlain, ViewFor, AllBindings;
    BindingsJoin(snap, ps);
  }
}
