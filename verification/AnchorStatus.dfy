/** When a frozen anchor still applies: what it observed against what the view is now, however old it is. */
module AnchorStatus {
  import opened Basics
  import opened MailModel
  import opened PolicyModel
  import opened StructuralPolicy
  import opened PartitionMeaning
  import opened StructuralSafety
  import opened EffectiveFlows
  import opened PolicyBindings
  import opened PolicyApplication
  import opened ProtectionTheorems
  import opened PreparePrediction
  import opened StructuralPrediction
  import opened PrepareAgain
  import opened StructuralEffects

  // --------------------------------------------------------------- kinship

  /** Two automatic sources with a common sender, or the same message without one. */
  predicate Akin(x: SourceDescriptor, y: SourceDescriptor) {
    (x.Senders? && y.Senders? && exists a :: a in x.addresses && a in y.addresses) || (x.IsolatedSource? && x == y)
  }

  /** An automatic source that an effective source is made of. */
  predicate MadeOf(k: SourceSelector, x: SourceDescriptor) {
    match k
    case Automatic(d) => x == d
    case Merged(ds) => x in ds
    case PartitionGroup(d, _) => x == d
  }

  ghost predicate AkinSources(k: SourceSelector, l: SourceSelector) {
    exists x, y :: MadeOf(k, x) && MadeOf(l, y) && Akin(x, y)
  }

  /** Two automatic flows that differ at most in their sources, which are akin. */
  predicate AkinFlows(f: FlowDescriptor, g: FlowDescriptor) {
    f.(source := g.source) == g && Akin(f.source, g.source)
  }

  /** What the program takes for a shared anchor. */
  lemma AkinMeans(x: SourceDescriptor, y: SourceDescriptor)
    ensures ShareSourceAnchor(x, y) <==> Akin(x, y)
  {
    if x.Senders? && y.Senders? && x.addresses * y.addresses != {} {
      var a := SomeMember(x.addresses * y.addresses);
    }
    if x.Senders? && y.Senders? && Akin(x, y) {
      var a :| a in x.addresses && a in y.addresses;
      assert a in x.addresses * y.addresses;
    }
  }

  lemma AkinSourcesMean(k: SourceSelector, l: SourceSelector)
    ensures SelectorsShareAnchor(k, l) <==> AkinSources(k, l)
  {
    hide Akin, ShareSourceAnchor;
    forall x, y ensures ShareSourceAnchor(x, y) <==> Akin(x, y) {
      AkinMeans(x, y);
    }
    assert forall x :: x in k.Descriptors() <==> MadeOf(k, x);
    assert forall y :: y in l.Descriptors() <==> MadeOf(l, y);
  }

  lemma AkinFlowsMean(f: FlowDescriptor, g: FlowDescriptor)
    ensures ShareFlowAnchor(f, g) <==> AkinFlows(f, g)
  {
    hide Akin, ShareSourceAnchor;
    AkinMeans(f.source, g.source);
  }

  // ------------------------------------------------------- source targets

  /** The applying merges and partitions that created an effective source; none for an automatic one. */
  ghost function Creators(snap: Snapshot, ps: Policies, k: SourceSelector): set<DecisionId> {
    if Accepted(snap, ps) then Deciders(ps, Applying(snap, ps), k) else {}
  }

  /** The effective sources an anchor is related to: by a message of an observed source, by identifier or by a shared sender. */
  ghost predicate RelatedSource(snap: Snapshot, ps: Policies, anchor: Anchor, sel: SourceSelector, k: SourceSelector) {
    && Accepted(snap, ps) && k in EffectiveSources(snap, ps)
    && ((exists m <- EffectiveSources(snap, ps)[k].messages ::
           m in snap.classified.messages && snap.classified.messages[m].source in anchor.observedSources)
        || anchor.observed == Some(SourceKey(k))
        || AkinSources(sel, k))
  }

  /** What the anchor would have to observe on the source to be exact. */
  ghost predicate ObservedAll(snap: Snapshot, anchor: Anchor, ms: set<MessageId>) {
    && anchor.observedSources == (set m | m in ms && m in snap.classified.messages :: snap.classified.messages[m].source)
    && anchor.observedFlows == (set m | m in ms && m in snap.classified.messages :: snap.classified.messages[m].flow)
  }

  lemma SourceIsMade(snap: Snapshot, ps: Policies, k: SourceSelector)
    requires Accepted(snap, ps) && k in EffectiveSources(snap, ps)
    ensures EffectiveSources(snap, ps)[k].structural == Creators(snap, ps, k)
    ensures EffectiveSources(snap, ps)[k].automatic == SourceIdsOf(snap.classified, EffectiveSources(snap, ps)[k].messages)
  {
    EffectiveIdsComplete(snap, ps, k);
    hide ValidClassification, ValidPolicies, Applying, MessagesOf, AutomaticIds, TableKeys, Deciders;
  }

  lemma FallbacksAreRelated(snap: Snapshot, ps: Policies, anchor: Anchor, sel: SourceSelector)
    requires Accepted(snap, ps)
    ensures forall k :: k in SourceFallbacks(anchor, sel, EffectiveSources(snap, ps)) <==> RelatedSource(snap, ps, anchor, sel, k)
  {
    hide ValidClassification, ValidPolicies, EffectiveSources, SelectorsShareAnchor, AkinSources;
    forall k ensures SelectorsShareAnchor(sel, k) <==> AkinSources(sel, k) {
      AkinSourcesMean(sel, k);
    }
    var table := EffectiveSources(snap, ps);
    forall k | k in table
      ensures anchor.observedSources * table[k].automatic != {} <==>
        exists m <- table[k].messages :: m in snap.classified.messages && snap.classified.messages[m].source in anchor.observedSources
    {
      SourceIsMade(snap, ps, k);
      if anchor.observedSources * table[k].automatic != {} {
        var s := SomeMember(anchor.observedSources * table[k].automatic);
        var m :| m in table[k].messages && m in snap.classified.messages && snap.classified.messages[m].source == s;
      }
      if m :| m in table[k].messages && m in snap.classified.messages && snap.classified.messages[m].source in anchor.observedSources {
        assert snap.classified.messages[m].source in anchor.observedSources * table[k].automatic;
      }
    }
  }

  /** The raw binding of a decision on a source, on a flow, and on messages. */
  lemma RawOnSource(snap: Snapshot, ps: Policies, e: DecisionId, k: SourceSelector)
    requires Accepted(snap, ps) && e in PlainIds(ps) && ps[e].command.Target() == OnSource(k)
    ensures RawIn(snap, ps, e) == ResolveSource(snap, ps[e].anchors[0], k, EffectiveSources(snap, ps))
  {
    hide ValidClassification, EffectiveSources, ResolveSource;
    ViewIsParted(snap, ps);
  }

  lemma RawOnFlow(snap: Snapshot, ps: Policies, e: DecisionId, fs: FlowSelector)
    requires Accepted(snap, ps) && e in PlainIds(ps) && ps[e].command.Target() == OnFlow(fs)
    ensures Linked(ViewFor(snap, ps))
    ensures RawIn(snap, ps, e) == ResolveFlow(ps[e].anchors[0], fs, ViewFor(snap, ps))
  {
    hide ValidClassification, EffectiveSources, ResolveFlow, FlowsOf;
    ViewIsParted(snap, ps);
  }

  lemma ObservedSelf(anchor: Anchor, id: EffectiveId)
    ensures Members(anchor.observed) == {id} <==> anchor.observed == Some(id)
  {
    if anchor.observed.Some? {
      assert anchor.observed.value in Members(anchor.observed);
    }
  }

  /** The status of an anchor whose target is still there. */
  lemma StatusOfPresent(anchor: Anchor, candidate: Candidate, id: EffectiveId)
    requires candidate.effective == {id}
    ensures var status := ExactStatus(anchor, candidate);
      && (status.Applies() <==> anchor.structural == candidate.structural && anchor.observed == Some(id))
      && (status == Exact <==>
            status.Applies() && anchor.observedSources == candidate.sources && anchor.observedFlows == candidate.flows)
      && (!status.Applies() ==> status == NeedsReview)
  {
    ObservedSelf(anchor, id);
    hide Members;
  }

  /**
   The status of a correction or protection of an effective source, before
   conflicts are marked. It applies exactly when the source is in the view, was
   created by the very decisions the anchor observed, and is the one observed; it
   is exact when, besides, the same automatic sources and flows were observed.
   */
  lemma SourceAnchorStatus(snap: Snapshot, ps: Policies, d: DecisionId, k: SourceSelector)
    requires Accepted(snap, ps) && d in PlainIds(ps) && ps[d].command.Target() == OnSource(k) && |ps[d].anchors| == 1
    ensures var anchor, status, table := ps[d].anchors[0], RawIn(snap, ps, d).status, EffectiveSources(snap, ps);
      && (status.Applies() <==>
            k in table && anchor.structural == Creators(snap, ps, k) && anchor.observed == Some(SourceKey(k)))
      && (status == Exact <==> status.Applies() && k in table && ObservedAll(snap, anchor, table[k].messages))
      && (k in table && !status.Applies() ==> status == NeedsReview)
  {
    hide ValidClassification, ValidPolicies, EffectiveSources, RawIn, ExactStatus, Creators, SourceFallbacks;
    RawOnSource(snap, ps, d, k);
    if k in EffectiveSources(snap, ps) {
      SourceIsMade(snap, ps, k);
      StatusOfPresent(ps[d].anchors[0], SourceCandidate(snap, k, EffectiveSources(snap, ps)[k]), SourceKey(k));
      ObservedMeans(snap, ps[d].anchors[0], EffectiveSources(snap, ps)[k].messages);
    }
  }

  lemma ObservedMeans(snap: Snapshot, anchor: Anchor, ms: set<MessageId>)
    ensures ObservedAll(snap, anchor, ms) <==>
      anchor.observedSources == SourceIdsOf(snap.classified, ms) && anchor.observedFlows == FlowIdsOf(snap.classified, ms)
  {
  }

  /** The decisions that created the sources an anchor is related to. */
  ghost predicate CreatedRelated(snap: Snapshot, ps: Policies, anchor: Anchor, sel: SourceSelector, e: DecisionId) {
    exists k :: RelatedSource(snap, ps, anchor, sel, k) && e in Creators(snap, ps, k)
  }

  /**
   When the source is not in the view: orphaned when no source is related to the
   anchor; in need of review when exactly one is, or when the decisions behind
   the related ones are not those observed; and else ambiguous.
   */
  lemma MissingSourceStatus(snap: Snapshot, ps: Policies, d: DecisionId, k: SourceSelector)
    requires Accepted(snap, ps) && d in PlainIds(ps) && ps[d].command.Target() == OnSource(k) && |ps[d].anchors| == 1
    requires k !in EffectiveSources(snap, ps)
    ensures var anchor, status := ps[d].anchors[0], RawIn(snap, ps, d).status;
      && (status == Orphaned <==> forall l :: !RelatedSource(snap, ps, anchor, k, l))
      && (status == Ambiguous <==>
            && (exists l, l' :: RelatedSource(snap, ps, anchor, k, l) && RelatedSource(snap, ps, anchor, k, l') && l != l')
            && (forall e :: e in anchor.structural <==> CreatedRelated(snap, ps, anchor, k, e)))
      && (status != Orphaned && status != Ambiguous ==> status == NeedsReview)
  {
    hide ValidClassification, ValidPolicies, EffectiveSources, RawIn, ExactStatus, Creators, SourceFallbacks, RelatedSource;
    var anchor, table := ps[d].anchors[0], EffectiveSources(snap, ps);
    RawOnSource(snap, ps, d, k);
    FallbacksAreRelated(snap, ps, anchor, k);
    var fallbacks := SourceFallbacks(anchor, k, table);
    SeveralOrOne(fallbacks);
    RelatedInView(snap, ps, anchor, k);
    if fallbacks != {} {
      UnionStructural(snap, ps, anchor, k);
    }
    var found := ResolveSource(snap, anchor, k, table).candidate.structural;
    if fallbacks != {} && anchor.structural != found {
      var e := SomeDifference(anchor.structural, found);
    }
    assert fallbacks == {} <==> forall l :: !RelatedSource(snap, ps, anchor, k, l);
  }

  lemma RelatedInView(snap: Snapshot, ps: Policies, anchor: Anchor, sel: SourceSelector)
    ensures forall k :: RelatedSource(snap, ps, anchor, sel, k) ==> Accepted(snap, ps) && k in EffectiveSources(snap, ps)
  {
    hide ValidClassification, ValidPolicies, EffectiveSources;
  }

  lemma SomeDifference<T>(a: set<T>, b: set<T>) returns (x: T)
    requires a != b
    ensures x in a <==> x !in b
  {
    if !(a <= b) {
      x := SomeMissing(a, b);
    } else {
      x := SomeMissing(b, a);
    }
  }

  lemma SeveralOrOne<T>(s: set<T>)
    ensures |s| == 1 <==> (exists x :: x in s) && !exists x, y :: x in s && y in s && x != y
    ensures s == {} <==> forall x :: x !in s
  {
    if |s| == 1 {
      SingletonUnique(s);
      var x := SomeMember(s);
    } else if s != {} {
      var x := SomeMember(s);
      assert |s - {x}| == |s| - 1 > 0;
      var y := SomeMember(s - {x});
    }
  }

  lemma UnionStructural(snap: Snapshot, ps: Policies, anchor: Anchor, sel: SourceSelector)
    requires Accepted(snap, ps) && sel !in EffectiveSources(snap, ps)
    requires SourceFallbacks(anchor, sel, EffectiveSources(snap, ps)) != {}
    ensures var found := ResolveSource(snap, anchor, sel, EffectiveSources(snap, ps)).candidate.structural;
      forall e :: e in found <==> CreatedRelated(snap, ps, anchor, sel, e)
  {
    hide ValidClassification, ValidPolicies, EffectiveSources, Creators, SourceFallbacks, RelatedSource;
    var table := EffectiveSources(snap, ps);
    FallbacksAreRelated(snap, ps, anchor, sel);
    RelatedInView(snap, ps, anchor, sel);
    var cs := set k | k in SourceFallbacks(anchor, sel, table) :: SourceCandidate(snap, k, table[k]);
    assert ResolveSource(snap, anchor, sel, table).candidate == UnionCandidates(cs);
    forall k | k in SourceFallbacks(anchor, sel, table)
      ensures SourceCandidate(snap, k, table[k]) in cs && table[k].structural == Creators(snap, ps, k)
    {
      SourceIsMade(snap, ps, k);
    }
    forall e | CreatedRelated(snap, ps, anchor, sel, e) ensures e in UnionCandidates(cs).structural {
      var k :| RelatedSource(snap, ps, anchor, sel, k) && e in Creators(snap, ps, k);
      assert e in SourceCandidate(snap, k, table[k]).structural;
    }
  }

  // --------------------------------------------------------- flow targets

  /** The effective flows of the view. */
  ghost function FlowsIn(snap: Snapshot, ps: Policies): FlowTable {
    if Accepted(snap, ps) then FlowsOf(snap, EffectiveSources(snap, ps)) else map[]
  }

  lemma FlowParts(snap: Snapshot, ps: Policies, fs: FlowSelector)
    requires Accepted(snap, ps) && fs in FlowsIn(snap, ps)
    ensures fs.source in EffectiveSources(snap, ps)
    ensures FlowsIn(snap, ps)[fs].structural == Creators(snap, ps, fs.source)
    ensures FlowsIn(snap, ps)[fs].messages != {}
    ensures {FlowsIn(snap, ps)[fs].automatic} == FlowIdsOf(snap.classified, FlowsIn(snap, ps)[fs].messages)
  {
    hide ValidClassification, ValidPolicies, EffectiveSources, FlowsOf, Creators;
    FlowIdsComplete(snap, EffectiveSources(snap, ps), fs);
    SourceIsMade(snap, ps, fs.source);
    FlowConfidenceConservative(snap, EffectiveSources(snap, ps), fs);
  }

  /**
   The status of a correction or protection of an effective flow, before
   conflicts are marked. It applies exactly when the flow is in the view, its
   source was created by the very decisions the anchor observed, and the flow is
   the one observed; it is exact when, besides, the automatic sources of the whole
   effective source and the automatic flow were observed.
   */
  lemma FlowStatus(snap: Snapshot, ps: Policies, d: DecisionId, fs: FlowSelector)
    requires Accepted(snap, ps) && d in PlainIds(ps) && ps[d].command.Target() == OnFlow(fs) && |ps[d].anchors| == 1
    ensures var anchor, status, flows, table := ps[d].anchors[0], RawIn(snap, ps, d).status, FlowsIn(snap, ps), EffectiveSources(snap, ps);
      && (status.Applies() <==>
            fs in flows && anchor.structural == Creators(snap, ps, fs.source) && anchor.observed == Some(FlowKeyOf(fs)))
      && (status == Exact <==>
            && status.Applies() && fs in flows && fs.source in table
            && anchor.observedSources == SourceIdsOf(snap.classified, table[fs.source].messages)
            && anchor.observedFlows == FlowIdsOf(snap.classified, flows[fs].messages))
      && (fs in flows && !status.Applies() ==> status == NeedsReview)
  {
    hide ValidClassification, ValidPolicies, EffectiveSources, RawIn, ExactStatus, Creators, FlowFallbacks, FlowsIn, SourceIdsOf, FlowIdsOf,
      ViewFor;
    RawOnFlow(snap, ps, d, fs);
    ViewFlowsAre(snap, ps);
    if fs in FlowsIn(snap, ps) {
      FlowParts(snap, ps, fs);
      SourceIsMade(snap, ps, fs.source);
      StatusOfPresent(ps[d].anchors[0], FlowCandidate(fs, ViewFor(snap, ps)), FlowKeyOf(fs));
    }
  }

  lemma ViewFlowsAre(snap: Snapshot, ps: Policies)
    requires Accepted(snap, ps)
    ensures ViewFor(snap, ps).flows == FlowsIn(snap, ps) && ViewFor(snap, ps).sources == EffectiveSources(snap, ps)
  {
    hide ValidClassification, ValidPolicies, EffectiveSources, FlowsOf;
  }

  /** The flows an anchor comes back to: those near it, or, where none is near, those of a related automatic source. */
  ghost predicate RelatedFlow(snap: Snapshot, ps: Policies, anchor: Anchor, sel: FlowSelector, g: FlowSelector) {
    && g in FlowsIn(snap, ps)
    && (if exists h :: NearFlow(snap, ps, anchor, sel, h) then NearFlow(snap, ps, anchor, sel, g)
        else Akin(sel.flow.source, g.flow.source))
  }

  /** A flow of an observed automatic flow, the flow observed, or a flow akin to it. */
  ghost predicate NearFlow(snap: Snapshot, ps: Policies, anchor: Anchor, sel: FlowSelector, g: FlowSelector) {
    && g in FlowsIn(snap, ps)
    && (FlowsIn(snap, ps)[g].automatic in anchor.observedFlows || anchor.observed == Some(FlowKeyOf(g)) || AkinFlows(sel.flow, g.flow))
  }

  lemma FlowFallbacksAreRelated(snap: Snapshot, ps: Policies, anchor: Anchor, sel: FlowSelector)
    requires Accepted(snap, ps)
    ensures forall g :: g in FlowFallbacks(anchor, sel, ViewFor(snap, ps)) <==> RelatedFlow(snap, ps, anchor, sel, g)
  {
    hide ValidClassification, ValidPolicies, ViewFor, FlowsIn, ShareFlowAnchor, ShareSourceAnchor, Akin, AkinFlows;
    ViewFlowsAre(snap, ps);
    forall g: FlowSelector
      ensures ShareFlowAnchor(sel.flow, g.flow) <==> AkinFlows(sel.flow, g.flow)
      ensures ShareSourceAnchor(sel.flow.source, g.flow.source) <==> Akin(sel.flow.source, g.flow.source)
    {
      AkinFlowsMean(sel.flow, g.flow);
      AkinMeans(sel.flow.source, g.flow.source);
    }
    var near := set g | g in ViewFor(snap, ps).flows && NearFlow(snap, ps, anchor, sel, g);
    assert near != {} <==> exists h :: NearFlow(snap, ps, anchor, sel, h) by {
      if near != {} { var h := SomeMember(near); }
      if h :| NearFlow(snap, ps, anchor, sel, h) { assert h in near; }
    }
  }

  ghost predicate CreatedRelatedFlow(snap: Snapshot, ps: Policies, anchor: Anchor, sel: FlowSelector, e: DecisionId) {
    exists g :: RelatedFlow(snap, ps, anchor, sel, g) && e in Creators(snap, ps, g.source)
  }

  /** The same for a flow that is not in the view. */
  lemma MissingFlowStatus(snap: Snapshot, ps: Policies, d: DecisionId, fs: FlowSelector)
    requires Accepted(snap, ps) && d in PlainIds(ps) && ps[d].command.Target() == OnFlow(fs) && |ps[d].anchors| == 1
    requires fs !in FlowsIn(snap, ps)
    ensures var anchor, status := ps[d].anchors[0], RawIn(snap, ps, d).status;
      && (status == Orphaned <==> forall g :: !RelatedFlow(snap, ps, anchor, fs, g))
      && (status == Ambiguous <==>
            && (exists g, g' :: RelatedFlow(snap, ps, anchor, fs, g) && RelatedFlow(snap, ps, anchor, fs, g') && g != g')
            && (forall e :: e in anchor.structural <==> CreatedRelatedFlow(snap, ps, anchor, fs, e)))
      && (status != Orphaned && status != Ambiguous ==> status == NeedsReview)
  {
    hide ValidClassification, ValidPolicies, RawIn, ExactStatus, Creators, FlowFallbacks, RelatedFlow, ViewFor, FlowsIn;
    var anchor, view := ps[d].anchors[0], ViewFor(snap, ps);
    RawOnFlow(snap, ps, d, fs);
    ViewFlowsAre(snap, ps);
    FlowFallbacksAreRelated(snap, ps, anchor, fs);
    var fallbacks := FlowFallbacks(anchor, fs, view);
    SeveralOrOne(fallbacks);
    if fallbacks != {} {
      FlowUnionStructural(snap, ps, anchor, fs);
    }
    var found := ResolveFlow(anchor, fs, view).candidate.structural;
    if fallbacks != {} && anchor.structural != found {
      var e := SomeDifference(anchor.structural, found);
    }
    assert fallbacks == {} <==> forall g :: !RelatedFlow(snap, ps, anchor, fs, g);
  }

  lemma FlowUnionStructural(snap: Snapshot, ps: Policies, anchor: Anchor, sel: FlowSelector)
    requires Accepted(snap, ps) && sel !in FlowsIn(snap, ps) && Linked(ViewFor(snap, ps))
    requires FlowFallbacks(anchor, sel, ViewFor(snap, ps)) != {}
    ensures forall e :: e in ResolveFlow(anchor, sel, ViewFor(snap, ps)).candidate.structural <==> CreatedRelatedFlow(snap, ps, anchor, sel, e)
  {
    hide ValidClassification, ValidPolicies, Creators, FlowFallbacks, RelatedFlow, ViewFor, FlowsIn;
    var view := ViewFor(snap, ps);
    ViewFlowsAre(snap, ps);
    FlowFallbacksAreRelated(snap, ps, anchor, sel);
    FallbacksInView(anchor, sel, view);
    var cs := set g | g in FlowFallbacks(anchor, sel, view) :: FlowCandidate(g, view);
    assert ResolveFlow(anchor, sel, view).candidate == UnionCandidates(cs);
    forall g | g in FlowFallbacks(anchor, sel, view)
      ensures FlowCandidate(g, view) in cs && view.flows[g].structural == Creators(snap, ps, g.source)
    {
      FlowParts(snap, ps, g);
    }
    forall e | CreatedRelatedFlow(snap, ps, anchor, sel, e) ensures e in UnionCandidates(cs).structural {
      var g :| RelatedFlow(snap, ps, anchor, sel, g) && e in Creators(snap, ps, g.source);
      assert e in FlowCandidate(g, view).structural;
    }
  }

  lemma FallbacksInView(anchor: Anchor, sel: FlowSelector, view: View)
    ensures FlowFallbacks(anchor, sel, view) <= view.flows.Keys
  {
    hide ShareFlowAnchor, ShareSourceAnchor;
  }

  // --------------------------------------------- messages, senders and labels

  /** A message a protection of a message, a sender or a label reaches. */
  ghost predicate DirectlyReached(snap: Snapshot, target: TargetSelector, m: MessageId) {
    && m in snap.records && m in snap.classified.messages && snap.classified.messages[m].source in snap.classified.sources
    && match target
       case OnMessage(x) => m == x
       case OnSender(a) => SentBy(snap, a, m)
       case OnLabel(l) => l in snap.records[m].labels
       case _ => false
  }

  ghost function ReachedDirectly(snap: Snapshot, target: TargetSelector): set<MessageId> {
    set m | m in snap.records && DirectlyReached(snap, target, m)
  }

  /** Such a protection is exact as soon as it reaches a message, whatever it observed, and orphaned otherwise. */
  lemma DirectStatus(snap: Snapshot, ps: Policies, d: DecisionId)
    requires Accepted(snap, ps) && d in PlainIds(ps) && !ps[d].command.Target().OnSource? && !ps[d].command.Target().OnFlow?
    ensures var raw := RawIn(snap, ps, d);
      && (raw.status == Exact <==> exists m :: DirectlyReached(snap, ps[d].command.Target(), m))
      && (raw.status != Exact ==> raw.status == Orphaned)
      && (forall m :: m in raw.candidate.messages <==> DirectlyReached(snap, ps[d].command.Target(), m))
  {
    hide ValidClassification, ValidPolicies, EffectiveSources, DirectMessages, MessagesCandidate, DirectlyReached, FlowsOf;
    var ms := DirectMessages(snap, ps[d].command.Target());
    DirectMeans(snap, ps[d].command.Target());
    ViewIsReady(snap, ps);
    DirectWithin(snap, ps[d].command.Target());
    CandidateHolds(snap, ms, ViewFor(snap, ps));
    if ms != {} { var m := SomeMember(ms); }
  }

  lemma DirectMeans(snap: Snapshot, target: TargetSelector)
    requires snap.Valid()
    ensures forall m :: m in DirectMessages(snap, target) <==> DirectlyReached(snap, target, m)
  {
  }

  // ------------------------------------------------- merges and partitions

  /** An anchor on an automatic source that still holds: the source is there, it is the one observed, and no decision was behind it. */
  ghost predicate AutomaticHolds(snap: Snapshot, anchor: Anchor, x: SourceDescriptor) {
    && (exists s <- snap.classified.sources :: snap.classified.sources[s].descriptor == x)
    && anchor.structural == {} && anchor.observed == Some(SourceKey(Automatic(x)))
  }

  lemma BaselineHas(snap: Snapshot, x: SourceDescriptor)
    requires snap.Valid()
    ensures Automatic(x) in Baseline(snap) <==> exists s <- snap.classified.sources :: snap.classified.sources[s].descriptor == x
    ensures Automatic(x) in Baseline(snap) ==>
      var st := Baseline(snap)[Automatic(x)];
      && st.structural == {} && st.messages == MessagesOf(snap, Automatic(x))
      && st.automatic == SourceIdsOf(snap.classified, st.messages)
  {
    hide ValidClassification;
    if Automatic(x) in BaselineKeys(snap) {
      DescriptorHasMessage(snap, x);
      SourceIdsComplete(snap, Automatic(x));
    }
  }

  /** The status of an anchor on an automatic source, resolved against the automatic sources. */
  lemma AutomaticAnchorStatus(snap: Snapshot, anchor: Anchor, x: SourceDescriptor)
    requires snap.Valid()
    ensures var status := ResolveSource(snap, anchor, Automatic(x), Baseline(snap)).status;
      && (status.Applies() <==> AutomaticHolds(snap, anchor, x))
      && (status == Exact <==> AutomaticHolds(snap, anchor, x) && ObservedAll(snap, anchor, MessagesOf(snap, Automatic(x))))
  {
    hide ValidClassification, Baseline, SourceFallbacks, ExactStatus, MessagesOf;
    BaselineHas(snap, x);
    if Automatic(x) in Baseline(snap) {
      var st := Baseline(snap)[Automatic(x)];
      StatusOfPresent(anchor, SourceCandidate(snap, Automatic(x), st), SourceKey(Automatic(x)));
      ObservedMeans(snap, anchor, st.messages);
    }
  }

  /** A merge applies, before conflicts are marked, exactly when every participant holds; it is exact when each observed all of it. */
  lemma MergeStatus(snap: Snapshot, p: Policy)
    requires snap.Valid() && ValidPolicy(p) && p.command.MergeSources?
    ensures |p.anchors| == |p.command.participants|
    ensures var status, ds := StructuralBinding(snap, p, Baseline(snap)).status, p.command.participants;
      && (status.Applies() <==> forall i :: 0 <= i < |ds| ==> AutomaticHolds(snap, p.anchors[i], ds[i]))
      && (status == Exact <==> forall i :: 0 <= i < |ds| ==>
            AutomaticHolds(snap, p.anchors[i], ds[i]) && ObservedAll(snap, p.anchors[i], MessagesOf(snap, Automatic(ds[i]))))
  {
    hide ValidClassification, Baseline, ResolveSource, AutomaticHolds, ObservedAll, MessagesOf, UnionCandidates, CombinedStatus;
    var ds, table := p.command.participants, Baseline(snap);
    var parts := seq(|p.anchors|, i requires 0 <= i < |p.anchors| => ResolveParticipant(snap, p.anchors[i], table));
    var statuses := seq(|parts|, i requires 0 <= i < |parts| => parts[i].status);
    CombinedApplies(statuses);
    forall i | 0 <= i < |ds|
      ensures statuses[i].Applies() <==> AutomaticHolds(snap, p.anchors[i], ds[i])
      ensures statuses[i] == Exact <==>
        AutomaticHolds(snap, p.anchors[i], ds[i]) && ObservedAll(snap, p.anchors[i], MessagesOf(snap, Automatic(ds[i])))
    {
      assert p.anchors[i].selector == AnchorSelectors(p.command)[i];
      AutomaticAnchorStatus(snap, p.anchors[i], ds[i]);
    }
    AllOf(statuses);
  }

  lemma AllOf(ss: seq<Status>)
    ensures (forall s <- ss :: s.Applies()) <==> forall i :: 0 <= i < |ss| ==> ss[i].Applies()
    ensures (forall s <- ss :: s == Exact) <==> forall i :: 0 <= i < |ss| ==> ss[i] == Exact
  {
    forall i | 0 <= i < |ss| ensures ss[i] in ss {
    }
  }

  /** The member anchor of a partition still finds a message of the source. */
  ghost predicate MemberHolds(snap: Snapshot, member: Anchor, ms: set<MessageId>)
    requires snap.Valid()
  {
    member.selector.GroupMember? && AnchorMessages(snap, member.selector.anchor, ms) != {}
  }

  /** And it observed all of them. */
  ghost predicate MemberObserved(snap: Snapshot, member: Anchor, ms: set<MessageId>)
    requires snap.Valid()
  {
    MemberHolds(snap, member, ms) && ObservedAll(snap, member, AnchorMessages(snap, member.selector.anchor, ms))
  }

  /** The member anchor of a partition observed exactly what it names of the source. */
  ghost predicate ObservedNamed(snap: Snapshot, member: Anchor, x: SourceDescriptor) {
    && member.selector.GroupMember?
    && ObservedAll(snap, member, NamedIn(snap, x, member.selector.anchor))
  }

  lemma ObservedNamedMeans(snap: Snapshot, member: Anchor, x: SourceDescriptor)
    requires snap.Valid() && MemberHolds(snap, member, MessagesOf(snap, Automatic(x)))
    ensures ObservedNamed(snap, member, x) <==> MemberObserved(snap, member, MessagesOf(snap, Automatic(x)))
  {
    hide ValidClassification, AnchorMessages, ObservedAll, NamedBy, MessagesOf;
    var named := NamedIn(snap, x, member.selector.anchor);
    forall m ensures m in AnchorMessages(snap, member.selector.anchor, MessagesOf(snap, Automatic(x))) <==> m in named {
      AnchorMessagesMean(snap, x, member.selector.anchor, m);
    }
    assert named == AnchorMessages(snap, member.selector.anchor, MessagesOf(snap, Automatic(x)));
  }

  lemma MemberStatusMeans(snap: Snapshot, member: Anchor, ms: set<MessageId>)
    requires snap.Valid() && member.selector.GroupMember?
    ensures MemberStatus(snap, member, ms).Applies() <==> MemberHolds(snap, member, ms)
    ensures MemberStatus(snap, member, ms) == Exact <==> MemberObserved(snap, member, ms)
  {
    hide ValidClassification, AnchorMessages, ObservedAll;
    ObservedMeans(snap, member, AnchorMessages(snap, member.selector.anchor, ms));
  }

  /**
   A partition applies, before conflicts are marked, exactly when its source
   holds and its groups fit it; it is exact when the source and every member
   observed all of theirs.
   */
  lemma PartitionStatus(snap: Snapshot, p: Policy)
    requires snap.Valid() && ValidPolicy(p) && p.command.PartitionSource?
    ensures |p.anchors| >= 1
    ensures var status, c := StructuralBinding(snap, p, Baseline(snap)).status, p.command;
      && (status.Applies() <==> AutomaticHolds(snap, p.anchors[0], c.target) && GroupsFit(snap, c.target, c.groups))
      && (status == Exact <==>
            && status.Applies() && ObservedAll(snap, p.anchors[0], MessagesOf(snap, Automatic(c.target)))
            && (forall i :: 1 <= i < |p.anchors| ==> ObservedNamed(snap, p.anchors[i], c.target)))
  {
    hide ValidClassification, Baseline, AutomaticHolds, ObservedAll, MessagesOf, GroupsResolve, FallbackOnly, AnchorMessages, MemberHolds,
      MemberObserved, ObservedNamed, GroupsFit, StructuralBinding;
    var c, ms := p.command, MessagesOf(snap, Automatic(p.command.target));
    PartitionChecks(snap, p);
    GroupsFitMeans(snap, c.target, c.groups);
    MembersHold(snap, p, ms);
    if forall i :: 1 <= i < |p.anchors| ==> MemberHolds(snap, p.anchors[i], ms) {
      forall i | 1 <= i < |p.anchors| ensures ObservedNamed(snap, p.anchors[i], c.target) <==> MemberObserved(snap, p.anchors[i], ms) {
        ObservedNamedMeans(snap, p.anchors[i], c.target);
      }
    }
  }

  /** Every member anchor finds a message exactly when every anchor of every group does. */
  lemma MembersHold(snap: Snapshot, p: Policy, ms: set<MessageId>)
    requires snap.Valid() && ValidPolicy(p) && p.command.PartitionSource?
    ensures (forall i :: 1 <= i < |p.anchors| ==> MemberHolds(snap, p.anchors[i], ms)) <==>
      forall g <- p.command.groups, a <- g :: AnchorMessages(snap, a, ms) != {}
  {
    hide ValidClassification, AnchorMessages;
    var members := Flatten(p.command.groups);
    forall i | 1 <= i < |p.anchors| ensures p.anchors[i].selector == GroupMember(members[i - 1]) && members[i - 1] in members {
      assert p.anchors[i].selector == AnchorSelectors(p.command)[i];
    }
    forall a ensures a in members <==> exists g <- p.command.groups :: a in g {
      Flattened(p.command.groups, a);
    }
    if forall i :: 1 <= i < |p.anchors| ==> MemberHolds(snap, p.anchors[i], ms) {
      forall a | a in members ensures AnchorMessages(snap, a, ms) != {} {
        var i :| 0 <= i < |members| && members[i] == a;
        assert MemberHolds(snap, p.anchors[i + 1], ms);
      }
    }
  }

  lemma {:induction false} Flattened(groups: seq<seq<PartitionAnchor>>, a: PartitionAnchor)
    ensures a in Flatten(groups) <==> exists g <- groups :: a in g
  {
    if groups != [] {
      Flattened(groups[1..], a);
      assert groups == [groups[0]] + groups[1..];
    }
  }

  lemma PartitionChecks(snap: Snapshot, p: Policy)
    requires snap.Valid() && ValidPolicy(p) && p.command.PartitionSource?
    ensures |p.anchors| >= 1
    ensures var status, c := StructuralBinding(snap, p, Baseline(snap)).status, p.command;
      var ms := MessagesOf(snap, Automatic(c.target));
      && (status.Applies() <==>
            && AutomaticHolds(snap, p.anchors[0], c.target)
            && (forall g <- c.groups, a <- g :: FallbackOnly(snap, a))
            && GroupsResolve(snap, c.groups, ms)
            && (forall i :: 1 <= i < |p.anchors| ==> MemberHolds(snap, p.anchors[i], ms)))
      && (status == Exact <==>
            && status.Applies() && ObservedAll(snap, p.anchors[0], ms)
            && (forall i :: 1 <= i < |p.anchors| ==> MemberObserved(snap, p.anchors[i], ms)))
  {
    hide ValidClassification, Baseline, AutomaticHolds, ObservedAll, MessagesOf, CombinedStatus, GroupsResolve, FallbackOnly,
      AnchorMessages, ResolveSource, MemberStatus, MemberHolds, MemberObserved;
    var c, ms := p.command, MessagesOf(snap, Automatic(p.command.target));
    MemberSelectors(p);
    AutomaticAnchorStatus(snap, p.anchors[0], c.target);
    BaselineHas(snap, c.target);
    if AutomaticHolds(snap, p.anchors[0], c.target) {
      HoldsThere(snap, p.anchors[0], c.target);
      MembersStatus(snap, p, ms, ResolveSource(snap, p.anchors[0], Automatic(c.target), Baseline(snap)).status);
    }
  }

  lemma HoldsThere(snap: Snapshot, anchor: Anchor, x: SourceDescriptor)
    requires snap.Valid() && AutomaticHolds(snap, anchor, x)
    ensures Automatic(x) in Baseline(snap)
  {
    hide ValidClassification, Baseline;
    BaselineHas(snap, x);
  }

  lemma MembersStatus(snap: Snapshot, p: Policy, ms: set<MessageId>, first: Status)
    requires snap.Valid() && |p.anchors| >= 1 && forall i :: 1 <= i < |p.anchors| ==> p.anchors[i].selector.GroupMember?
    requires first.Applies()
    ensures var n := |p.anchors|;
      var combined := CombinedStatus([first] + seq(n - 1, i requires 0 <= i < n - 1 => MemberStatus(snap, p.anchors[i + 1], ms)));
      && (combined.Applies() <==> forall i :: 1 <= i < n ==> MemberHolds(snap, p.anchors[i], ms))
      && (combined == Exact <==> first == Exact && forall i :: 1 <= i < n ==> MemberObserved(snap, p.anchors[i], ms))
  {
    hide ValidClassification, CombinedStatus, MemberStatus, MemberHolds, MemberObserved, Status.Applies;
    var n := |p.anchors|;
    var rest := seq(n - 1, i requires 0 <= i < n - 1 => MemberStatus(snap, p.anchors[i + 1], ms));
    var all := [first] + rest;
    assert all[0] == first && |all| == n;
    forall i | 1 <= i < n ensures all[i] == MemberStatus(snap, p.anchors[i], ms) {
    }
    MembersMean(snap, p, ms, all);
  }

  lemma MembersMean(snap: Snapshot, p: Policy, ms: set<MessageId>, all: seq<Status>)
    requires snap.Valid() && |p.anchors| == |all| >= 1 && all[0].Applies()
    requires forall i :: 1 <= i < |all| ==> p.anchors[i].selector.GroupMember? && all[i] == MemberStatus(snap, p.anchors[i], ms)
    ensures CombinedStatus(all).Applies() <==> forall i :: 1 <= i < |all| ==> MemberHolds(snap, p.anchors[i], ms)
    ensures CombinedStatus(all) == Exact <==> all[0] == Exact && forall i :: 1 <= i < |all| ==> MemberObserved(snap, p.anchors[i], ms)
  {
    hide ValidClassification, CombinedStatus, MemberStatus, MemberHolds, MemberObserved;
    CombinedApplies(all);
    forall i | 1 <= i < |all|
      ensures MemberHolds(snap, p.anchors[i], ms) <==> all[i].Applies()
      ensures MemberObserved(snap, p.anchors[i], ms) <==> all[i] == Exact
    {
      MemberStatusMeans(snap, p.anchors[i], ms);
    }
    AllOf(all);
  }

  lemma MemberSelectors(p: Policy)
    requires ValidPolicy(p) && p.command.PartitionSource?
    ensures |p.anchors| >= 1 && forall i :: 1 <= i < |p.anchors| ==> p.anchors[i].selector.GroupMember?
  {
    forall i | 1 <= i < |p.anchors| ensures p.anchors[i].selector.GroupMember? {
      assert p.anchors[i].selector == AnchorSelectors(p.command)[i];
    }
  }

  // -------------------------------------------- conflicts between structures

  /** The two merges or partitions name automatic sources that are akin. */
  predicate NameRelated(c: Command, o: Command) {
    exists x <- Named(c), y <- Named(o) :: Akin(x, y)
  }

  /** The automatic sources a merge or partition names. */
  function Named(c: Command): set<SourceDescriptor> {
    match c
    case MergeSources(ds) => set x | x in ds
    case PartitionSource(t, _) => {t}
    case _ => {}
  }

  lemma NamedMeans(c: Command)
    ensures Named(c) == StructuralDescriptors(c)
  {
  }

  lemma RelatedMeans(c: Command, o: Command)
    ensures NameRelated(c, o) <==> HistoricalOverlap(c, o)
  {
    hide Named, StructuralDescriptors, Akin, ShareSourceAnchor;
    NamedMeans(c);
    NamedMeans(o);
    forall x, y ensures ShareSourceAnchor(x, y) <==> Akin(x, y) {
      AkinMeans(x, y);
    }
  }

  lemma RawNeverConflicts(snap: Snapshot, p: Policy)
    requires snap.Valid() && ValidPolicy(p) && p.command.Structural()
    ensures StructuralBinding(snap, p, Baseline(snap)).status != Conflict
  {
    hide ValidClassification, Baseline, ResolveSource, SourceHits, GroupsResolve, FallbackOnly, AnchorMessages;
    var table := Baseline(snap);
    forall i | 0 <= i < |p.anchors| && p.anchors[i].selector.Target? && p.anchors[i].selector.target.OnSource?
      ensures ResolveParticipant(snap, p.anchors[i], table).status != Conflict
    {
      SourceHitsMean(snap, p.anchors[i], p.anchors[i].selector.target.source, table);
    }
    if p.command.MergeSources? {
      forall i | 0 <= i < |p.anchors| ensures p.anchors[i].selector.Target? && p.anchors[i].selector.target.OnSource? {
        assert p.anchors[i].selector == AnchorSelectors(p.command)[i];
      }
    } else {
      SourceHitsMean(snap, p.anchors[0], Automatic(p.command.target), table);
      MembersNeverConflict(snap, p, MessagesOf(snap, Automatic(p.command.target)));
      BaselineHas(snap, p.command.target);
    }
  }

  lemma MembersNeverConflict(snap: Snapshot, p: Policy, ms: set<MessageId>)
    requires snap.Valid() && ValidPolicy(p) && p.command.PartitionSource?
    ensures forall i :: 1 <= i < |p.anchors| ==> p.anchors[i].selector.GroupMember?
    ensures forall first: Status :: first != Conflict ==>
      CombinedStatus([first] + seq(|p.anchors| - 1, i requires 0 <= i < |p.anchors| - 1 => MemberStatus(snap, p.anchors[i + 1], ms))) != Conflict
  {
    hide ValidClassification, AnchorMessages;
    MemberSelectors(p);
    var rest := seq(|p.anchors| - 1, i requires 0 <= i < |p.anchors| - 1 => MemberStatus(snap, p.anchors[i + 1], ms));
    forall i | 0 <= i < |rest| ensures rest[i] != Conflict {
    }
  }

  /** Another merge or partition names a related source, or reaches a common message. */
  ghost predicate Clashes(snap: Snapshot, ps: Policies, d: DecisionId, e: DecisionId) {
    && d in ps && e in ps && d != e && ps[d].command.Structural() && ps[e].command.Structural()
    && (NameRelated(ps[d].command, ps[e].command)
        || exists m :: m in ReachedBy(snap, ps, d) && m in ReachedBy(snap, ps, e))
  }

  ghost function ReachedBy(snap: Snapshot, ps: Policies, e: DecisionId): set<MessageId> {
    if BindingIn(snap, ps, e).Some? then BindingIn(snap, ps, e).value.candidate.messages else {}
  }

  /** A merge or partition is in conflict exactly when another one clashes with it, and otherwise has its raw status. */
  lemma StructuralConflictExactly(snap: Snapshot, ps: Policies, d: DecisionId)
    requires Accepted(snap, ps) && d in StructuralIds(ps)
    ensures BindingIn(snap, ps, d).Some?
    ensures BindingIn(snap, ps, d).value.status ==
      if exists e :: Clashes(snap, ps, d, e) then Conflict else StructuralBinding(snap, ps[d], Baseline(snap)).status
    ensures StructuralBinding(snap, ps[d], Baseline(snap)).status != Conflict
  {
    hide ValidClassification, ValidPolicy, AllBindings, StructuralBinding, Baseline, NameRelated, HistoricalOverlap;
    assert ValidPolicy(ps[d]);
    RawNeverConflicts(snap, ps[d]);
    BindingKeys(snap, ps);
    var raw := RawStructural(snap, ps);
    assert raw.Keys == StructuralIds(ps);
    forall e | e in StructuralIds(ps) ensures ReachedBy(snap, ps, e) == raw[e].candidate.messages {
      StructuralCandidate(snap, ps, e);
    }
    forall e | e in raw && e != d ensures StructuralOverlap(ps, raw, d, e) <==> Clashes(snap, ps, d, e) {
      RelatedMeans(ps[d].command, ps[e].command);
      CommonMessage(raw[d].candidate.messages, raw[e].candidate.messages);
    }
    assert InStructuralConflict(ps, raw, d) <==> exists e :: Clashes(snap, ps, d, e);
  }

  lemma CommonMessage(a: set<MessageId>, b: set<MessageId>)
    ensures !(a !! b) <==> exists m :: m in a && m in b
  {
    if !(a !! b) { var m := SomeCommon(a, b); }
  }
}
