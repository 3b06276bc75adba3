/** How the conflict marks of corrections follow from an accepted merge or partition. */
module StructuralMarks {
  import opened Basics
  import opened MailModel
  import opened PolicyModel
  import opened StructuralPolicy
  import opened StructuralSafety
  import opened StructuralFold
  import opened EffectiveFlows
  import opened PolicyBindings
  import opened Corrections
  import opened PolicyApplication
  import opened ProtectionTheorems
  import opened CorrectionSteps
  import opened PolicyPrepare
  import opened PreparePrediction
  import opened StructuralPrediction
  import opened PrepareAgain
  import opened StructuralEffects

  // ------------------------------------------------------- what is still reached

  /** The sources an anchor still reaches besides the products, told from the table before. */
  function SourceKept(c: Command, anchor: Anchor, sel: SourceSelector, from: SourceTable): set<SourceSelector> {
    if sel in Products(c) then {}
    else if sel in from && sel !in ConsumedKeys(c) then {sel}
    else SourceFallbacks(anchor, sel, from) - ConsumedKeys(c)
  }

  /** The flow is cut out of a product. */
  predicate FlowCreated(snap: Snapshot, c: Command, sel: FlowSelector)
    requires snap.Valid()
  {
    sel.source in Products(c) && exists f <- snap.classified.flows ::
      snap.classified.flows[f].descriptor == sel.flow && snap.classified.flows[f].messages * MessagesOf(snap, sel.source) != {}
  }

  /** The flows an anchor still reaches besides those of the products, told from the view before. */
  function FlowKept(snap: Snapshot, c: Command, anchor: Anchor, sel: FlowSelector, from: View): set<FlowSelector>
    requires snap.Valid()
  {
    if FlowCreated(snap, c, sel) then {}
    else if sel in from.flows && sel.source !in ConsumedKeys(c) then {sel}
    else set g | g in FlowFallbacks(anchor, sel, from) && g.source !in ConsumedKeys(c)
  }

  /** The messages that the target of a correction still reaches, besides those that are taken. */
  function KeptMessages(snap: Snapshot, c: Command, anchor: Anchor, target: TargetSelector, from: View): set<MessageId>
    requires snap.Valid()
  {
    match target
    case OnSource(k) => set l, m | l in SourceKept(c, anchor, k, from.sources) && l in from.sources && m in from.sources[l].messages :: m
    case OnFlow(fs) => set g, m | g in FlowKept(snap, c, anchor, fs, from) && g in from.flows && m in from.flows[g].messages :: m
    case _ => {}
  }

  lemma SourceKeptIs(snap: Snapshot, c: Command, anchor: Anchor, sel: SourceSelector, from: SourceTable, to: SourceTable)
    requires snap.Valid() && Replaced(snap, c, from, to)
    ensures SourceHits(anchor, sel, to) - Products(c) == SourceKept(c, anchor, sel, from)
  {
    hide ValidClassification, MessagesOf, AutomaticIds, Products, ShareSourceAnchor, ConsumedKeys;
    forall k | k in ConsumedKeys(c) ensures k !in Products(c) {
      ConsumedAreAutomatic(c, k);
    }
  }

  /** Messages of products are taken, and messages of sources that stay are not. */
  lemma SourceSides(snap: Snapshot, c: Command, from: SourceTable, to: SourceTable, k: SourceSelector, m: MessageId)
    requires snap.Valid() && Replaced(snap, c, from, to) && Parted(snap, from) && k in to && m in to[k].messages
    ensures m in Taken(snap, c) <==> k in Products(c)
    ensures k !in Products(c) ==> k in from && from[k] == to[k]
  {
    hide ValidClassification, MessagesOf, AutomaticIds, Products, Taken, Parted, ConsumedKeys;
    if k in Products(c) {
      ProductFromTaken(snap, c, k);
    } else {
      TakenSources(snap, c, from, to, k, m);
    }
  }

  lemma SourceKeptMessages(snap: Snapshot, c: Command, anchor: Anchor, sel: SourceSelector, from: View, to: View, m: MessageId)
    requires snap.Valid() && Replaced(snap, c, from.sources, to.sources) && Parted(snap, from.sources) && m !in Taken(snap, c)
    ensures m in ResolveSource(snap, anchor, sel, to.sources).candidate.messages
       <==> m in KeptMessages(snap, c, anchor, OnSource(sel), from)
  {
    hide ValidClassification, Replaced, Products, ResolveSource, SourceHits, SourceKept, Taken, Parted;
    SourceHitsMean(snap, anchor, sel, to.sources);
    SourceKeptIs(snap, c, anchor, sel, from.sources, to.sources);
    var hits := SourceHits(anchor, sel, to.sources);
    forall k | k in hits && m in to.sources[k].messages
      ensures k in SourceKept(c, anchor, sel, from.sources) && k in from.sources && m in from.sources[k].messages
    {
      SourceSides(snap, c, from.sources, to.sources, k, m);
    }
    forall k | k in SourceKept(c, anchor, sel, from.sources) && k in from.sources && m in from.sources[k].messages
      ensures k in hits && m in to.sources[k].messages
    {
      assert k in hits - Products(c);
      KeptStays(snap, c, from.sources, to.sources, k);
    }
  }

  lemma KeptStays(snap: Snapshot, c: Command, from: SourceTable, to: SourceTable, k: SourceSelector)
    requires snap.Valid() && Replaced(snap, c, from, to) && k in from && k in to
    ensures from[k] == to[k]
  {
    hide ValidClassification, MessagesOf, AutomaticIds, Products;
  }

  // ---------------------------------------------------------------- flows

  /** Every flow of a source that is taken goes on in a flow of a product. */
  ghost predicate FlowsGoOn(c: Command, from: View, to: View) {
    forall h <- from.flows :: h.source in ConsumedKeys(c) ==> exists g <- to.flows :: GoesOn(c, from, to, h, g)
  }

  ghost predicate GoesOn(c: Command, from: View, to: View, h: FlowSelector, g: FlowSelector) {
    && h in from.flows && g in to.flows && g !in from.flows && g.source in Products(c)
    && g.flow == h.flow && to.flows[g].automatic == from.flows[h].automatic
  }

  lemma ViewFlowsGoOn(snap: Snapshot, c: Command, from: SourceTable, to: SourceTable)
    requires snap.Valid() && Replaced(snap, c, from, to) && Parted(snap, from) && SplitsRecords(snap, to)
    ensures FlowsGoOn(c, ViewOf(snap, from), ViewOf(snap, to))
  {
    hide ValidClassification, Replaced, Products, FlowsOf, ConsumedKeys, SourceMap, FlowMap, MessageSource;
    var before, after := ViewOf(snap, from), ViewOf(snap, to);
    forall h | h in before.flows && h.source in ConsumedKeys(c) ensures exists g <- after.flows :: GoesOn(c, before, after, h, g) {
      var g := FlowGoesOn(snap, c, from, to, h);
    }
  }

  lemma FlowGoesOn(snap: Snapshot, c: Command, from: SourceTable, to: SourceTable, h: FlowSelector) returns (g: FlowSelector)
    requires snap.Valid() && Replaced(snap, c, from, to) && Parted(snap, from) && SplitsRecords(snap, to)
    requires h in FlowsOf(snap, from) && h.source in ConsumedKeys(c)
    ensures GoesOn(c, ViewOf(snap, from), ViewOf(snap, to), h, g)
  {
    hide ValidClassification, Products, FlowsOf, ConsumedKeys, SourceMap, FlowMap, MessagesOf, AutomaticIds, Taken;
    var f := FlowBehind(snap, from, h);
    var m := SomeMember(snap.classified.flows[f].messages * from[h.source].messages);
    assert m in snap.records;
    TakenSources(snap, c, from, to, h.source, m);
    var l :| l in to && m in to[l].messages;
    SourceSides(snap, c, from, to, l, m);
    g := FlowSelector(h.flow, l);
    assert m in snap.classified.flows[f].messages * to[l].messages;
    FlowsAreIntersections(snap, from, f, h.source);
    FlowsAreIntersections(snap, to, f, l);
    FlowSourcesKnown(snap, from);
  }

  /** A flow is created exactly when it is in the view after and was not before. */
  lemma FlowCreatedIs(snap: Snapshot, c: Command, sel: FlowSelector, from: SourceTable, to: SourceTable)
    requires snap.Valid() && Replaced(snap, c, from, to)
    ensures FlowCreated(snap, c, sel) <==> sel in FlowsOf(snap, to) && sel !in FlowsOf(snap, from)
  {
    hide ValidClassification, Products, FlowsOf, ConsumedKeys, MessagesOf, AutomaticIds;
    FlowSourcesKnown(snap, from);
    FlowSourcesKnown(snap, to);
    if FlowCreated(snap, c, sel) {
      var f :| f in snap.classified.flows && snap.classified.flows[f].descriptor == sel.flow
               && snap.classified.flows[f].messages * MessagesOf(snap, sel.source) != {};
      FlowsAreIntersections(snap, to, f, sel.source);
    }
    if sel in FlowsOf(snap, to) && sel !in FlowsOf(snap, from) {
      var f := FlowBehind(snap, to, sel);
      if sel.source !in Products(c) {
        FlowsOfSourceStay(snap, from, to, sel);
      }
    }
  }

  /** Where something is near before, something is near after: the flow itself, or what it goes on in. */
  lemma NearGoesOn(c: Command, anchor: Anchor, sel: FlowSelector, from: View, to: View, h: FlowSelector)
    requires FlowsReplaced(c, from, to) && FlowsGoOn(c, from, to) && OwnObserved(anchor, OnFlow(sel))
    requires ShareFlowAnchor(h.flow, h.flow) && h in NearFlows(anchor, sel, from)
    ensures NearFlows(anchor, sel, to) != {}
  {
    hide ShareFlowAnchor, ShareSourceAnchor, Products, ConsumedKeys, NewFlowFromTaken;
    if h.source in ConsumedKeys(c) {
      var g :| g in to.flows && GoesOn(c, from, to, h, g);
      assert g in NearFlows(anchor, sel, to);
    } else {
      assert h in NearFlows(anchor, sel, to);
    }
  }

  /** What is near before and after, when the target is neither kept nor created. */
  lemma NearFollows(c: Command, anchor: Anchor, sel: FlowSelector, from: View, to: View)
    requires FlowsReplaced(c, from, to) && FlowsGoOn(c, from, to) && OwnObserved(anchor, OnFlow(sel)) && sel !in to.flows
    requires forall f <- from.flows :: ShareFlowAnchor(f.flow, f.flow)
    ensures forall g <- to.flows :: g in from.flows ==> (g in NearFlows(anchor, sel, to) <==> g in NearFlows(anchor, sel, from))
    ensures NearFlows(anchor, sel, to) == {} <==> NearFlows(anchor, sel, from) == {}
  {
    hide ShareFlowAnchor, ShareSourceAnchor, Products, ConsumedKeys, FlowsGoOn;
    if NearFlows(anchor, sel, from) != {} {
      var h := SomeMember(NearFlows(anchor, sel, from));
      NearGoesOn(c, anchor, sel, from, to, h);
    }
    if NearFlows(anchor, sel, to) != {} {
      var g := SomeMember(NearFlows(anchor, sel, to));
      if g !in from.flows {
        var x :| x in StructuralDescriptors(c) && TakenFragment(c, from.flows, to.flows, g, x);
        assert FlowSelector(g.flow, Automatic(x)) in NearFlows(anchor, sel, from);
      }
    }
  }

  lemma FlowKeptIs(snap: Snapshot, c: Command, anchor: Anchor, sel: FlowSelector, from: View, to: View, g: FlowSelector)
    requires snap.Valid() && FlowsReplaced(c, from, to) && FlowsGoOn(c, from, to) && OwnObserved(anchor, OnFlow(sel))
    requires forall f <- from.flows :: ShareFlowAnchor(f.flow, f.flow)
    requires FlowCreated(snap, c, sel) <==> sel in to.flows && sel !in from.flows
    requires g in from.flows && g.source !in ConsumedKeys(c)
    ensures g in FlowHits(anchor, sel, to) <==> g in FlowKept(snap, c, anchor, sel, from)
  {
    hide ValidClassification, ShareFlowAnchor, ShareSourceAnchor, FlowCreated, FlowsGoOn, NewFlowFromTaken, ConsumedKeys;
    if sel !in to.flows {
      NearFollows(c, anchor, sel, from, to);
      FallbackMeans(anchor, sel, from, g);
      FallbackMeans(anchor, sel, to, g);
    }
  }

  lemma FallbackMeans(anchor: Anchor, sel: FlowSelector, view: View, g: FlowSelector)
    requires g in view.flows
    ensures g in FlowFallbacks(anchor, sel, view) <==>
      if NearFlows(anchor, sel, view) != {} then g in NearFlows(anchor, sel, view) else ShareSourceAnchor(sel.flow.source, g.flow.source)
  {
    hide ShareFlowAnchor, ShareSourceAnchor;
  }

  lemma FlowSides(snap: Snapshot, c: Command, from: SourceTable, to: SourceTable, g: FlowSelector, m: MessageId)
    requires snap.Valid() && Replaced(snap, c, from, to) && Parted(snap, from)
    requires g in FlowsOf(snap, to) && m in FlowsOf(snap, to)[g].messages && m !in Taken(snap, c)
    ensures g in FlowsOf(snap, from) && g.source !in ConsumedKeys(c) && FlowsOf(snap, from)[g] == FlowsOf(snap, to)[g]
  {
    hide ValidClassification, Products, FlowsOf, Taken, Parted, ConsumedKeys, MessagesOf, AutomaticIds;
    FlowWithinSource(snap, to, g, m);
    SourceSides(snap, c, from, to, g.source, m);
    FlowsOfSourceStay(snap, from, to, g);
    if g.source in ConsumedKeys(c) { ConsumedAreAutomatic(c, g.source); }
  }

  lemma FlowKeptMessages(snap: Snapshot, c: Command, anchor: Anchor, sel: FlowSelector, from: SourceTable, to: SourceTable, m: MessageId)
    requires snap.Valid() && Replaced(snap, c, from, to) && Parted(snap, from) && SplitsRecords(snap, to) && m !in Taken(snap, c)
    requires Linked(ViewOf(snap, from)) && Linked(ViewOf(snap, to)) && OwnObserved(anchor, OnFlow(sel))
    ensures m in ResolveFlow(anchor, sel, ViewOf(snap, to)).candidate.messages
       <==> m in KeptMessages(snap, c, anchor, OnFlow(sel), ViewOf(snap, from))
  {
    hide ValidClassification, Replaced, Products, FlowsOf, FlowHits, FlowKept, FlowCreated, ResolveFlow, Taken, Parted, ShareFlowAnchor, SourceMap,
      FlowMap, ConsumedKeys, FlowsReplaced, FlowsGoOn, SplitsRecords, Linked, OwnObserved;
    PartedSplits(snap, from);
    var before, after := ViewOf(snap, from), ViewOf(snap, to);
    ViewFlowsReplaced(snap, c, from, to);
    ViewFlowsGoOn(snap, c, from, to);
    FlowsShareThemselves(snap, from);
    FlowCreatedIs(snap, c, sel, from, to);
    FlowHitsMean(anchor, sel, after);
    forall g | g in FlowHits(anchor, sel, after) && g in after.flows && m in after.flows[g].messages
      ensures g in FlowKept(snap, c, anchor, sel, before) && g in before.flows && m in before.flows[g].messages
    {
      FlowSides(snap, c, from, to, g, m);
      FlowKeptIs(snap, c, anchor, sel, before, after, g);
    }
    forall g | g in FlowKept(snap, c, anchor, sel, before) && g in before.flows && m in before.flows[g].messages
      ensures g in FlowHits(anchor, sel, after) && g in after.flows && m in after.flows[g].messages
    {
      FlowWithinSource(snap, from, g, m);
      TakenSources(snap, c, from, to, g.source, m);
      FlowStays(c, before, after, g) by { ViewFlowsReplaced(snap, c, from, to); }
      FlowKeptIs(snap, c, anchor, sel, before, after, g);
    }
  }

  lemma FlowStays(c: Command, from: View, to: View, g: FlowSelector)
    requires FlowsReplaced(c, from, to) && g in from.flows && g.source !in ConsumedKeys(c)
    ensures g in to.flows && to.flows[g] == from.flows[g]
  {
    hide NewFlowFromTaken;
  }

  // ---------------------------------------------------------------- marks

  /** What a correction still reaches, told from the policies before. */
  ghost function KeptBy(snap: Snapshot, rs: Policies, c: Command, f: DecisionId): set<MessageId>
    requires Accepted(snap, rs) && f in PlainIds(rs)
  {
    KeptMessages(snap, c, rs[f].anchors[0], rs[f].command.Target(), ViewFor(snap, rs))
  }

  /** Another correction of the field still reaches a message of this one. */
  ghost predicate ContestedAfter(snap: Snapshot, rs: Policies, c: Command, e: DecisionId)
    requires Accepted(snap, rs) && e in PlainIds(rs)
  {
    && CorrectionField(rs[e].command) != None
    && exists f <- PlainIds(rs) :: f != e && CorrectionField(rs[f].command) == CorrectionField(rs[e].command)
                                   && !(RawIn(snap, rs, e).candidate.messages !! KeptBy(snap, rs, c, f))
  }

  lemma KeptByIs(snap: Snapshot, rs: Policies, qs: Policies, d: DecisionId, f: DecisionId, m: MessageId)
    requires Accepted(snap, rs) && Accepted(snap, qs)
    requires d in qs && d !in rs && qs == rs[d := qs[d]] && qs[d].command.Structural()
    requires StatusOf(snap, qs, d) == Some(Exact)
    requires f in PlainIds(rs) && f in PlainIds(qs) && ObservesItself(rs[f]) && CorrectionField(rs[f].command) != None
    requires m !in Taken(snap, qs[d].command)
    ensures m in RawIn(snap, qs, f).candidate.messages <==> m in KeptBy(snap, rs, qs[d].command, f)
  {
    hide ValidClassification, ValidPolicies, EffectiveSources, ResolveSource, ResolveFlow, ViewFor, ViewOf, Linked, Replaced, Parted, SplitsRecords,
      Taken, StatusOf, KeptMessages, OwnObserved;
    var c := qs[d].command;
    var from, to := EffectiveSources(snap, rs), EffectiveSources(snap, qs);
    ViewReplaced(snap, rs, qs, d);
    ViewIsParted(snap, rs);
    ViewIsParted(snap, qs);
    PartedSplits(snap, from);
    PartedSplits(snap, to);
    if rs[f].command.Target().OnSource? {
      ViewSources(snap, from);
      ViewSources(snap, to);
      SourceKeptMessages(snap, c, rs[f].anchors[0], rs[f].command.Target().source, ViewFor(snap, rs), ViewFor(snap, qs), m);
    } else {
      FlowKeptMessages(snap, c, rs[f].anchors[0], rs[f].command.Target().flow, from, to, m);
    }
  }

  lemma ViewSources(snap: Snapshot, table: SourceTable)
    requires snap.Valid() && SplitsRecords(snap, table)
    ensures ViewOf(snap, table).sources == table
  {
  }

  /** Whether a correction that is not disturbed is contested afterwards. */
  lemma ContestedFollows(snap: Snapshot, rs: Policies, qs: Policies, d: DecisionId, e: DecisionId)
    requires Accepted(snap, rs) && Accepted(snap, qs)
    requires d in qs && d !in rs && qs == rs[d := qs[d]] && qs[d].command.Structural()
    requires StatusOf(snap, qs, d) == Some(Exact)
    requires e in PlainIds(rs) && e in PlainIds(qs)
    requires forall f <- PlainIds(rs) :: ObservesItself(rs[f])
    requires RawIn(snap, rs, e).candidate.messages !! Taken(snap, qs[d].command)
    requires RawIn(snap, qs, e) == RawIn(snap, rs, e)
    ensures Contested(snap, qs, e) <==> ContestedAfter(snap, rs, qs[d].command, e)
  {
    hide ValidClassification, ValidPolicies, RawIn, KeptBy, Taken, StatusOf, ObservesItself;
    assert PlainIds(qs) == PlainIds(rs);
    var ms := RawIn(snap, rs, e).candidate.messages;
    forall f | f in PlainIds(rs) && CorrectionField(rs[f].command) == CorrectionField(rs[e].command) != None
      ensures ms !! RawIn(snap, qs, f).candidate.messages <==> ms !! KeptBy(snap, rs, qs[d].command, f)
    {
      forall m | m in ms ensures m in RawIn(snap, qs, f).candidate.messages <==> m in KeptBy(snap, rs, qs[d].command, f) {
        KeptByIs(snap, rs, qs, d, f, m);
      }
    }
  }

  /**
   When a correction is bound as it was once a merge or partition is accepted:
   it reached no message that is taken, and it is in conflict now exactly when
   another correction of its field still reaches one of its messages. Both are
   told from the policies before.
   */
  lemma CorrectionDisturbed(snap: Snapshot, ps: Policies, c: Command, supersedes: set<DecisionId>, d: DecisionId,
                            qs: Policies, e: DecisionId)
    requires Prepare(snap, ps, c, supersedes).Ok? && d !in ps && c.Structural()
    requires qs == Remaining(ps, supersedes)[d := Policy(c, Prepare(snap, ps, c, supersedes).value)]
    requires e in PlainIds(Remaining(ps, supersedes)) && forall f <- PlainIds(Remaining(ps, supersedes)) :: ObservesItself(ps[f])
    ensures Accepted(snap, Remaining(ps, supersedes))
    ensures var rs := Remaining(ps, supersedes);
      BindingIn(snap, qs, e) == BindingIn(snap, rs, e) <==>
        && RawIn(snap, rs, e).candidate.messages !! Taken(snap, c)
        && (Contested(snap, rs, e) <==> ContestedAfter(snap, rs, c, e))
  {
    hide ValidClassification, ValidPolicies, Prepare, StatusOf, ObservesItself, RawIn, BindingIn, Contested, ContestedAfter, Taken;
    var rs := Remaining(ps, supersedes);
    StructuralDisturbs(snap, ps, c, supersedes, d, qs, e);
    PreparePredictsApply(snap, ps, c, supersedes, d, qs);
    if RawIn(snap, rs, e).candidate.messages !! Taken(snap, c) {
      ContestedFollows(snap, rs, qs, d, e);
    }
  }

  /** Whether a binding outlives a command, told from the policies before. */
  ghost predicate Outlives(snap: Snapshot, rs: Policies, c: Command, e: DecisionId)
    requires Accepted(snap, rs) && e in rs
  {
    c.Structural() && !rs[e].command.Structural() ==>
      && RawIn(snap, rs, e).candidate.messages !! Taken(snap, c)
      && (Contested(snap, rs, e) <==> ContestedAfter(snap, rs, c, e))
  }

  /**
   Which bindings an accepted decision leaves as they were: all of them, except
   that a merge or partition disturbs the corrections and protections that reach
   a message it takes, and the corrections whose conflict it settles or starts.
   */
  lemma AcceptedDisturbsExactly(snap: Snapshot, ps: Policies, c: Command, supersedes: set<DecisionId>, d: DecisionId,
                                qs: Policies, e: DecisionId)
    requires Prepare(snap, ps, c, supersedes).Ok? && d !in ps
    requires qs == Remaining(ps, supersedes)[d := Policy(c, Prepare(snap, ps, c, supersedes).value)]
    requires e in Remaining(ps, supersedes)
    requires c.Structural() ==> forall f <- PlainIds(Remaining(ps, supersedes)) :: ObservesItself(ps[f])
    ensures Accepted(snap, Remaining(ps, supersedes))
    ensures BindingIn(snap, qs, e) == BindingIn(snap, Remaining(ps, supersedes), e)
       <==> Outlives(snap, Remaining(ps, supersedes), c, e)
  {
    hide ValidClassification, ValidPolicies, Prepare, RawIn, BindingIn, Contested, ContestedAfter, Taken, ObservesItself;
    RemainingAccepted(snap, ps, c, supersedes);
    if c.Structural() && !ps[e].command.Structural() {
      CorrectionDisturbed(snap, ps, c, supersedes, d, qs, e);
    } else {
      AcceptedDisturbsNobody(snap, ps, c, supersedes, d, qs, e);
    }
  }
}
