/** What a binding reports: the automatic sources and flows of exactly the messages it reaches. */
module BindingMeaning {
  import opened Basics
  import opened MailModel
  import opened PolicyModel
  import opened StructuralPolicy
  import opened EffectiveFlows
  import opened PolicyBindings
  import opened PolicyApplication
  import opened ProtectionTheorems
  import opened StructuralPrediction
  import opened PrepareAgain
  import opened StructuralEffects
  import opened AnchorStatus
  import opened PreparePrediction
  import opened CorrectedValues
  import opened PrepareAccepts

  /** The flows are those of the messages, and so are the sources unless a flow was targeted. */
  ghost predicate Reports(snap: Snapshot, c: Candidate, flow: bool) {
    && c.flows == FlowIdsOf(snap.classified, c.messages)
    && (!flow ==> c.sources == SourceIdsOf(snap.classified, c.messages))
    && SourceIdsOf(snap.classified, c.messages) <= c.sources
  }

  lemma UnionReports(snap: Snapshot, cs: set<Candidate>, flow: bool)
    requires forall c <- cs :: Reports(snap, c, flow)
    ensures Reports(snap, UnionCandidates(cs), flow)
  {
    UnionFlows(snap, cs);
    UnionSources(snap, cs);
    if !flow {
      assert forall c <- cs :: c.sources == SourceIdsOf(snap.classified, c.messages);
    }
  }

  lemma UnionFlows(snap: Snapshot, cs: set<Candidate>)
    requires forall c <- cs :: c.flows == FlowIdsOf(snap.classified, c.messages)
    ensures UnionCandidates(cs).flows == FlowIdsOf(snap.classified, UnionCandidates(cs).messages)
  {
    var all := UnionCandidates(cs);
    forall f | f in all.flows ensures f in FlowIdsOf(snap.classified, all.messages) {
      var c :| c in cs && f in c.flows;
      var m :| m in c.messages && m in snap.classified.messages && snap.classified.messages[m].flow == f;
      assert m in all.messages;
    }
    forall f | f in FlowIdsOf(snap.classified, all.messages) ensures f in all.flows {
      var m :| m in all.messages && m in snap.classified.messages && snap.classified.messages[m].flow == f;
      var c :| c in cs && m in c.messages;
      assert f in c.flows;
    }
  }

  lemma UnionSources(snap: Snapshot, cs: set<Candidate>)
    requires forall c <- cs :: SourceIdsOf(snap.classified, c.messages) <= c.sources
    ensures SourceIdsOf(snap.classified, UnionCandidates(cs).messages) <= UnionCandidates(cs).sources
    ensures (forall c <- cs :: c.sources == SourceIdsOf(snap.classified, c.messages)) ==>
      UnionCandidates(cs).sources == SourceIdsOf(snap.classified, UnionCandidates(cs).messages)
  {
    var all := UnionCandidates(cs);
    forall s | s in SourceIdsOf(snap.classified, all.messages) ensures s in all.sources {
      var m :| m in all.messages && m in snap.classified.messages && snap.classified.messages[m].source == s;
      var c :| c in cs && m in c.messages;
      assert s in c.sources;
    }
    if forall c <- cs :: c.sources == SourceIdsOf(snap.classified, c.messages) {
      forall s | s in all.sources ensures s in SourceIdsOf(snap.classified, all.messages) {
        var c :| c in cs && s in c.sources;
        var m :| m in c.messages && m in snap.classified.messages && snap.classified.messages[m].source == s;
        assert m in all.messages;
      }
    }
  }

  lemma NothingReports(snap: Snapshot)
    ensures Reports(snap, EMPTY_CANDIDATE, false) && Reports(snap, EMPTY_CANDIDATE, true)
  {
  }

  lemma SourceReports(snap: Snapshot, anchor: Anchor, sel: SourceSelector, table: SourceTable)
    requires forall k <- table :: table[k].automatic == SourceIdsOf(snap.classified, table[k].messages)
    ensures Reports(snap, ResolveSource(snap, anchor, sel, table).candidate, false)
  {
    hide ExactStatus, SourceFallbacks, Reports, UnionCandidates;
    NothingReports(snap);
    forall k | k in table ensures Reports(snap, SourceCandidate(snap, k, table[k]), false) {
      OneSourceReports(snap, k, table[k]);
    }
    var fallbacks := SourceFallbacks(anchor, sel, table);
    FallbacksInTable(anchor, sel, table);
    UnionReports(snap, set k | k in fallbacks :: SourceCandidate(snap, k, table[k]), false);
  }

  lemma FallbacksInTable(anchor: Anchor, sel: SourceSelector, table: SourceTable)
    ensures SourceFallbacks(anchor, sel, table) <= table.Keys
  {
  }

  lemma OneSourceReports(snap: Snapshot, k: SourceSelector, st: SourceState)
    requires st.automatic == SourceIdsOf(snap.classified, st.messages)
    ensures Reports(snap, SourceCandidate(snap, k, st), false)
  {
  }

  lemma BaselineReports(snap: Snapshot)
    requires snap.Valid()
    ensures forall k <- Baseline(snap) :: Baseline(snap)[k].automatic == SourceIdsOf(snap.classified, Baseline(snap)[k].messages)
  {
    hide ValidClassification;
    forall k | k in Baseline(snap) ensures Baseline(snap)[k].automatic == SourceIdsOf(snap.classified, Baseline(snap)[k].messages) {
      assert k in BaselineKeys(snap);
      BaselineHas(snap, k.source);
    }
  }

  lemma StructuralReports(snap: Snapshot, p: Policy)
    requires snap.Valid() && ValidPolicy(p) && p.command.Structural()
    ensures Reports(snap, StructuralBinding(snap, p, Baseline(snap)).candidate, false)
  {
    hide ValidClassification, Baseline, ResolveSource, CombinedStatus, GroupsResolve, MemberStatus, FallbackOnly, Reports, UnionCandidates;
    BaselineReports(snap);
    if p.command.MergeSources? {
      var parts := seq(|p.anchors|, i requires 0 <= i < |p.anchors| => ResolveParticipant(snap, p.anchors[i], Baseline(snap)));
      forall i | 0 <= i < |p.anchors|
        ensures p.anchors[i].selector.Target? && p.anchors[i].selector.target.OnSource? && Reports(snap, parts[i].candidate, false)
      {
        assert p.anchors[i].selector == AnchorSelectors(p.command)[i];
        SourceReports(snap, p.anchors[i], p.anchors[i].selector.target.source, Baseline(snap));
      }
      UnionReports(snap, set b | b in parts :: b.candidate, false);
    } else {
      SourceReports(snap, p.anchors[0], Automatic(p.command.target), Baseline(snap));
    }
  }

  lemma FlowReports(snap: Snapshot, ps: Policies, anchor: Anchor, fs: FlowSelector)
    requires Accepted(snap, ps) && Linked(ViewFor(snap, ps))
    ensures Reports(snap, ResolveFlow(anchor, fs, ViewFor(snap, ps)).candidate, true)
  {
    hide ValidClassification, ValidPolicies, Reports, ViewFor, FlowsIn, FlowCandidate, ResolveFlow, Linked;
    var view := ViewFor(snap, ps);
    ViewFlowsAre(snap, ps);
    ResolvedFlow(anchor, fs, view);
    forall g | g in view.flows && g.source in view.sources ensures Reports(snap, FlowCandidate(g, view), true) {
      OneFlowReports(snap, ps, g);
    }
    NothingReports(snap);
    var hits := FlowFallbacks(anchor, fs, view);
    if fs !in view.flows && hits != {} {
      UnionReports(snap, set g | g in hits && g in view.flows && g.source in view.sources :: FlowCandidate(g, view), true);
    }
  }

  /** What a flow anchor resolves to: its flow, or else the flows it comes back to. */
  lemma ResolvedFlow(anchor: Anchor, fs: FlowSelector, view: View)
    requires Linked(view)
    ensures fs in view.flows ==> fs.source in view.sources
    ensures var hits := FlowFallbacks(anchor, fs, view);
      ResolveFlow(anchor, fs, view).candidate ==
        if fs in view.flows && fs.source in view.sources then FlowCandidate(fs, view)
        else if hits == {} then EMPTY_CANDIDATE
        else UnionCandidates(set g | g in hits && g in view.flows && g.source in view.sources :: FlowCandidate(g, view))
  {
    hide ExactStatus, FlowFallbacks, UnionCandidates;
    FallbacksInView(anchor, fs, view);
    var hits := FlowFallbacks(anchor, fs, view);
    if fs !in view.flows {
      assert (set g | g in hits :: FlowCandidate(g, view)) ==
             set g | g in hits && g in view.flows && g.source in view.sources :: FlowCandidate(g, view);
    }
  }

  lemma OneFlowReports(snap: Snapshot, ps: Policies, g: FlowSelector)
    requires Accepted(snap, ps) && Linked(ViewFor(snap, ps)) && g in FlowsIn(snap, ps) && g in ViewFor(snap, ps).flows
    ensures Reports(snap, FlowCandidate(g, ViewFor(snap, ps)), true)
  {
    hide ValidClassification, ValidPolicies, EffectiveSources, FlowsOf, Creators, ViewFor;
    ViewFlowsAre(snap, ps);
    FlowParts(snap, ps, g);
    SourceIsMade(snap, ps, g.source);
    WithinSource(snap, EffectiveSources(snap, ps), g);
  }

  lemma WithinSource(snap: Snapshot, table: SourceTable, g: FlowSelector)
    requires snap.Valid() && g in FlowsOf(snap, table)
    ensures g.source in table && FlowsOf(snap, table)[g].messages <= table[g.source].messages
  {
    hide ValidClassification, FlowWith;
  }

  /** Every binding, whatever its status. */
  lemma BindingReports(snap: Snapshot, ps: Policies, d: DecisionId)
    requires Accepted(snap, ps) && d in ps
    ensures BindingIn(snap, ps, d).Some?
    ensures Reports(snap, BindingIn(snap, ps, d).value.candidate, !ps[d].command.Structural() && ps[d].command.Target().OnFlow?)
  {
    hide ValidClassification, ValidPolicies, AllBindings, StructuralBinding, Baseline, ViewFor, Reports, RawIn, Contested, EffectiveSources,
      ResolveSource, ResolveFlow;
    if ps[d].command.Structural() {
      ValidOne(ps, d);
      StructuralCandidate(snap, ps, d);
      StructuralReports(snap, ps[d]);
    } else {
      PlainBindingIs(snap, ps, d);
      ValidOne(ps, d);
      var target := ps[d].command.Target();
      if target.OnSource? {
        RawOnSource(snap, ps, d, target.source);
        ViewReports(snap, ps);
        SourceReports(snap, ps[d].anchors[0], target.source, EffectiveSources(snap, ps));
      } else if target.OnFlow? {
        RawOnFlow(snap, ps, d, target.flow);
        FlowReports(snap, ps, ps[d].anchors[0], target.flow);
      } else {
        DirectReports(snap, ps, d);
      }
    }
  }

  lemma ValidOne(ps: Policies, d: DecisionId)
    requires ValidPolicies(ps) && d in ps
    ensures ValidPolicy(ps[d])
  {
  }

  lemma ViewReports(snap: Snapshot, ps: Policies)
    requires Accepted(snap, ps)
    ensures forall k <- EffectiveSources(snap, ps) ::
      EffectiveSources(snap, ps)[k].automatic == SourceIdsOf(snap.classified, EffectiveSources(snap, ps)[k].messages)
  {
    hide ValidClassification, ValidPolicies, EffectiveSources, SourceIdsOf;
    forall k | k in EffectiveSources(snap, ps)
      ensures EffectiveSources(snap, ps)[k].automatic == SourceIdsOf(snap.classified, EffectiveSources(snap, ps)[k].messages)
    {
      SourceIsMade(snap, ps, k);
    }
  }

  lemma DirectReports(snap: Snapshot, ps: Policies, d: DecisionId)
    requires Accepted(snap, ps) && d in PlainIds(ps) && !ps[d].command.Target().OnSource? && !ps[d].command.Target().OnFlow?
    ensures Reports(snap, RawIn(snap, ps, d).candidate, false)
  {
    hide ValidClassification, ValidPolicies, EffectiveSources, DirectMessages, FlowsOf;
    ViewIsReady(snap, ps);
    DirectWithin(snap, ps[d].command.Target());
  }

  // --------------------------------------------- what a binding names

  /** An effective source with a message among some. */
  ghost predicate Meets(snap: Snapshot, ps: Policies, k: SourceSelector, ms: set<MessageId>) {
    Accepted(snap, ps) && k in EffectiveSources(snap, ps) && exists m :: m in ms && m in EffectiveSources(snap, ps)[k].messages
  }

  /** An effective flow with a message among some. */
  ghost predicate MeetsFlow(snap: Snapshot, ps: Policies, fs: FlowSelector, ms: set<MessageId>) {
    fs in FlowsIn(snap, ps) && exists m :: m in ms && m in FlowsIn(snap, ps)[fs].messages
  }

  /** Where the messages of a binding lie, and the decisions behind that. */
  ghost predicate Names(snap: Snapshot, ps: Policies, c: Candidate, sources: bool, flows: bool) {
    && (forall k :: SourceKey(k) in c.effective <==> sources && Meets(snap, ps, k, c.messages))
    && (forall fs :: FlowKeyOf(fs) in c.effective <==> flows && MeetsFlow(snap, ps, fs, c.messages))
    && (forall e :: e in c.structural <==> exists k :: Meets(snap, ps, k, c.messages) && e in Creators(snap, ps, k))
  }

  /** What the source anchor's hits put together. */
  lemma HitsOfSource(snap: Snapshot, anchor: Anchor, sel: SourceSelector, table: SourceTable)
    ensures var c, hits := ResolveSource(snap, anchor, sel, table).candidate, SourceHits(anchor, sel, table);
      && hits <= table.Keys
      && (forall x <- c.effective :: x.SourceKey?)
      && (forall e :: e in c.structural <==> exists k <- hits :: k in table && e in table[k].structural)
  {
    hide ExactStatus, SelectorsShareAnchor;
    var hits := SourceHits(anchor, sel, table);
    var c := ResolveSource(snap, anchor, sel, table).candidate;
    if sel !in table && hits != {} {
      var cs := set k | k in hits :: SourceCandidate(snap, k, table[k]);
      assert c == UnionCandidates(cs);
      forall k, e | k in hits && e in table[k].structural ensures e in c.structural {
        assert SourceCandidate(snap, k, table[k]) in cs && e in SourceCandidate(snap, k, table[k]).structural;
      }
    }
  }

  lemma SourceNames(snap: Snapshot, ps: Policies, d: DecisionId)
    requires Accepted(snap, ps) && d in PlainIds(ps) && ps[d].command.Target().OnSource?
    ensures Names(snap, ps, RawIn(snap, ps, d).candidate, true, false)
  {
    hide ValidClassification, ValidPolicies, EffectiveSources, RawIn, ResolveSource, SourceHits, FlowsIn, Creators;
    var sel, table := ps[d].command.Target().source, EffectiveSources(snap, ps);
    OneAnchor(ps, d);
    RawOnSource(snap, ps, d, sel);
    SourceHitsMean(snap, ps[d].anchors[0], sel, table);
    HitsOfSource(snap, ps[d].anchors[0], sel, table);
    var c, hits := RawIn(snap, ps, d).candidate, SourceHits(ps[d].anchors[0], sel, table);
    forall k | k in table
      ensures SourceKey(k) in c.effective <==> Meets(snap, ps, k, c.messages)
      ensures table[k].structural == Creators(snap, ps, k)
    {
      NamesItsSource(snap, ps, d, k);
      SourceIsMade(snap, ps, k);
    }
    forall k ensures k in hits <==> Meets(snap, ps, k, c.messages) {
    }
  }

  lemma HitsOfFlow(anchor: Anchor, sel: FlowSelector, view: View)
    requires Linked(view)
    ensures var c, hits := ResolveFlow(anchor, sel, view).candidate, FlowHits(anchor, sel, view);
      && hits <= view.flows.Keys
      && (forall x <- c.effective :: x.FlowKeyOf?)
      && (forall e :: e in c.structural <==> exists g <- hits :: g in view.flows && e in view.flows[g].structural)
  {
    hide ExactStatus, ShareFlowAnchor, ShareSourceAnchor;
    var hits := FlowHits(anchor, sel, view);
    var c := ResolveFlow(anchor, sel, view).candidate;
    if sel !in view.flows && hits != {} {
      var cs := set g | g in hits :: FlowCandidate(g, view);
      assert c == UnionCandidates(cs);
      forall g, e | g in hits && e in view.flows[g].structural ensures e in c.structural {
        assert FlowCandidate(g, view) in cs && e in FlowCandidate(g, view).structural;
      }
    }
  }

  lemma FlowNames(snap: Snapshot, ps: Policies, d: DecisionId)
    requires Accepted(snap, ps) && d in PlainIds(ps) && ps[d].command.Target().OnFlow?
    ensures Names(snap, ps, RawIn(snap, ps, d).candidate, false, true)
  {
    hide ValidClassification, ValidPolicies, EffectiveSources, RawIn, ResolveFlow, FlowHits, FlowsOf, FlowsIn, Creators, ViewFor;
    var sel, view := ps[d].command.Target().flow, ViewFor(snap, ps);
    OneAnchor(ps, d);
    RawOnFlow(snap, ps, d, sel);
    ViewFlowsAre(snap, ps);
    FlowHitsMean(ps[d].anchors[0], sel, view);
    HitsOfFlow(ps[d].anchors[0], sel, view);
    var c, hits := RawIn(snap, ps, d).candidate, FlowHits(ps[d].anchors[0], sel, view);
    forall g | g in view.flows
      ensures FlowKeyOf(g) in c.effective <==> MeetsFlow(snap, ps, g, c.messages)
      ensures view.flows[g].structural == Creators(snap, ps, g.source)
    {
      NamesItsFlow(snap, ps, d, g);
      FlowParts(snap, ps, g);
    }
    forall k ensures Meets(snap, ps, k, c.messages) <==> exists g :: g in hits && g.source == k {
      SourceOfHits(snap, ps, hits, c.messages, k);
    }
  }

  /** A source has a message in some flows exactly when it is the source of one of them. */
  lemma SourceOfHits(snap: Snapshot, ps: Policies, hits: set<FlowSelector>, ms: set<MessageId>, k: SourceSelector)
    requires Accepted(snap, ps) && hits <= FlowsIn(snap, ps).Keys
    requires forall m :: m in ms <==> exists g <- hits :: g in FlowsIn(snap, ps) && m in FlowsIn(snap, ps)[g].messages
    ensures Meets(snap, ps, k, ms) <==> exists g :: g in hits && g.source == k
  {
    hide ValidClassification, ValidPolicies, EffectiveSources, FlowsOf, SplitsRecords;
    ViewIsParted(snap, ps);
    var table := EffectiveSources(snap, ps);
    forall g | g in hits ensures g.source in table && FlowsIn(snap, ps)[g].messages <= table[g.source].messages && FlowsIn(snap, ps)[g].messages != {} {
      WithinSource(snap, table, g);
      FlowParts(snap, ps, g);
    }
    if Meets(snap, ps, k, ms) {
      var m :| m in ms && m in table[k].messages;
      var g :| g in hits && m in FlowsIn(snap, ps)[g].messages;
      SourceOfMessageUnique(snap, table, m, k, g.source);
    }
    if g :| g in hits && g.source == k {
      var m := SomeMember(FlowsIn(snap, ps)[g].messages);
      assert m in ms && m in table[k].messages;
    }
  }

  lemma DirectNames(snap: Snapshot, ps: Policies, d: DecisionId)
    requires Accepted(snap, ps) && d in PlainIds(ps) && !ps[d].command.Target().OnSource? && !ps[d].command.Target().OnFlow?
    ensures Names(snap, ps, RawIn(snap, ps, d).candidate, true, true)
  {
    hide ValidClassification, ValidPolicies, EffectiveSources, DirectMessages, FlowsOf, FlowsIn, Creators, ViewFor, Names;
    var ms := DirectMessages(snap, ps[d].command.Target());
    ViewIsReady(snap, ps);
    DirectWithin(snap, ps[d].command.Target());
    if ms == {} {
      assert RawIn(snap, ps, d).candidate == EMPTY_CANDIDATE;
      NothingNames(snap, ps);
    } else {
      assert RawIn(snap, ps, d).candidate == MessagesCandidate(snap, ms, ViewFor(snap, ps));
      MessagesName(snap, ps, ms);
    }
  }

  lemma NothingNames(snap: Snapshot, ps: Policies)
    ensures Names(snap, ps, EMPTY_CANDIDATE, true, true)
  {
  }

  lemma MessagesName(snap: Snapshot, ps: Policies, ms: set<MessageId>)
    requires Accepted(snap, ps) && Ready(snap, ViewFor(snap, ps)) && ms <= snap.records.Keys
    ensures Names(snap, ps, MessagesCandidate(snap, ms, ViewFor(snap, ps)), true, true)
  {
    hide ValidClassification, ValidPolicies, EffectiveSources, FlowsOf, FlowsIn, Creators, ViewFor;
    var view, c := ViewFor(snap, ps), MessagesCandidate(snap, ms, ViewFor(snap, ps));
    BehindPlaces(snap, ps);
    forall m | m in ms
      ensures m in view.toSource && m in view.toFlow
      ensures forall k :: k in EffectiveSources(snap, ps) && m in EffectiveSources(snap, ps)[k].messages <==> k == view.toSource[m]
      ensures forall fs :: fs in FlowsIn(snap, ps) && m in FlowsIn(snap, ps)[fs].messages <==> fs == view.toFlow[m]
    {
      PlaceInSources(snap, ps, m);
      PlaceInFlows(snap, ps, m);
    }
  }

  lemma BehindPlaces(snap: Snapshot, ps: Policies)
    requires Accepted(snap, ps)
    ensures forall k <- ViewFor(snap, ps).sources :: ViewFor(snap, ps).sources[k].structural == Creators(snap, ps, k)
    ensures forall fs <- ViewFor(snap, ps).flows :: ViewFor(snap, ps).flows[fs].structural == Creators(snap, ps, fs.source)
  {
    hide ValidClassification, ValidPolicies, EffectiveSources, FlowsIn, Creators, ViewFor;
    ViewFlowsAre(snap, ps);
    forall k | k in EffectiveSources(snap, ps) ensures EffectiveSources(snap, ps)[k].structural == Creators(snap, ps, k) {
      SourceIsMade(snap, ps, k);
    }
    forall fs | fs in FlowsIn(snap, ps) ensures FlowsIn(snap, ps)[fs].structural == Creators(snap, ps, fs.source) {
      FlowParts(snap, ps, fs);
    }
  }

  /** Where a message lies in the view, and nowhere else. */
  lemma PlaceInSources(snap: Snapshot, ps: Policies, m: MessageId)
    requires Accepted(snap, ps) && m in snap.records
    ensures m in ViewFor(snap, ps).toSource
    ensures forall k :: k in EffectiveSources(snap, ps) && m in EffectiveSources(snap, ps)[k].messages <==> k == ViewFor(snap, ps).toSource[m]
  {
    hide ValidClassification, ValidPolicies, EffectiveSources, FlowsOf, ViewFor, SplitsRecords, Parted, ViewOf;
    var view, table := ViewFor(snap, ps), EffectiveSources(snap, ps);
    ViewIsParted(snap, ps);
    PartedSplits(snap, table);
    PlacedIn(snap, table, m);
    forall k | k in table && m in table[k].messages ensures k == view.toSource[m] {
      SourceOfMessageUnique(snap, table, m, k, view.toSource[m]);
    }
  }

  lemma PlaceInFlows(snap: Snapshot, ps: Policies, m: MessageId)
    requires Accepted(snap, ps) && m in snap.records
    ensures m in ViewFor(snap, ps).toSource && m in ViewFor(snap, ps).toFlow
    ensures ViewFor(snap, ps).toFlow[m].source == ViewFor(snap, ps).toSource[m]
    ensures forall fs :: fs in FlowsIn(snap, ps) && m in FlowsIn(snap, ps)[fs].messages <==> fs == ViewFor(snap, ps).toFlow[m]
  {
    hide ValidClassification, ValidPolicies, EffectiveSources, FlowsOf, FlowsIn, ViewFor, SplitsRecords, Parted, ViewOf;
    ViewIsParted(snap, ps);
    PartedSplits(snap, EffectiveSources(snap, ps));
    PlacedIn(snap, EffectiveSources(snap, ps), m);
    FlowOfMessage(snap, ps, m);
    ViewFlowsAre(snap, ps);
  }

  /** Every correction and protection names exactly the effective sources or flows its messages lie in, and the decisions behind these. */
  lemma BindingNames(snap: Snapshot, ps: Policies, d: DecisionId)
    requires Accepted(snap, ps) && d in PlainIds(ps)
    ensures BindingIn(snap, ps, d).Some?
    ensures Names(snap, ps, BindingIn(snap, ps, d).value.candidate, !ps[d].command.Target().OnFlow?, !ps[d].command.Target().OnSource?)
  {
    hide ValidClassification, ValidPolicies, AllBindings, RawIn, Contested, Names;
    PlainBindingIs(snap, ps, d);
    if ps[d].command.Target().OnSource? {
      SourceNames(snap, ps, d);
    } else if ps[d].command.Target().OnFlow? {
      FlowNames(snap, ps, d);
    } else {
      DirectNames(snap, ps, d);
    }
  }
}
