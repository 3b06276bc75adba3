/** How corrections and protections bind to the effective view, and which corrections conflict. */
module PolicyBindings {
  import opened Basics
  import opened MailModel
  import opened PolicyModel
  import opened StructuralPolicy
  import opened StructuralSafety
  import opened EffectiveFlows

  /** The view that structural policies leave behind. */
  datatype View = View(
    sources: SourceTable,
    flows: FlowTable,
    toSource: map<MessageId, SourceSelector>,
    toFlow: map<MessageId, FlowSelector>)

  /** The view obtained from a table of sources that splits the records. */
  function ViewOf(snap: Snapshot, table: SourceTable): View
    requires snap.Valid() && SplitsRecords(snap, table)
  {
    View(table, FlowsOf(snap, table),
         SourceMap(snap, table), FlowMap(snap, table))
  }

  // ------------------------------------------------------------ resolution

  function FlowCandidate(fs: FlowSelector, view: View): Candidate
    requires fs in view.flows && fs.source in view.sources
  {
    Candidate({FlowKeyOf(fs)}, view.sources[fs.source].automatic, {view.flows[fs].automatic},
              view.flows[fs].structural, view.flows[fs].messages)
  }

  /** Every flow lies in a source of the view. */
  ghost predicate Linked(view: View) {
    && (forall fs <- view.flows :: fs.source in view.sources)
    && view.toSource.Keys == view.toFlow.Keys
    && (forall m <- view.toSource :: view.toSource[m] in view.sources)
    && (forall m <- view.toFlow :: view.toFlow[m] in view.flows && view.toFlow[m].source == view.toSource[m])
  }

  /** Flows that could stand in for a flow selector that no longer exists. */
  function FlowFallbacks(anchor: Anchor, fs: FlowSelector, view: View): set<FlowSelector> {
    var near := set g | g in view.flows
                        && (view.flows[g].automatic in anchor.observedFlows
                            || anchor.observed == Some(FlowKeyOf(g))
                            || ShareFlowAnchor(fs.flow, g.flow));
    if near != {} then near
    else set g | g in view.flows && ShareSourceAnchor(fs.flow.source, g.flow.source)
  }

  function ResolveFlow(anchor: Anchor, fs: FlowSelector, view: View): Binding
    requires Linked(view)
  {
    if fs in view.flows then
      var candidate := FlowCandidate(fs, view);
      Binding(ExactStatus(anchor, candidate), candidate)
    else
      var fallbacks := FlowFallbacks(anchor, fs, view);
      if fallbacks == {} then
        Binding(Orphaned, EMPTY_CANDIDATE)
      else
        var candidate := UnionCandidates(set g | g in fallbacks :: FlowCandidate(g, view));
        if anchor.structural != candidate.structural || |fallbacks| == 1 then
          Binding(NeedsReview, candidate)
        else
          Binding(Ambiguous, candidate)
  }

  /** The messages a message, sender or label selector reaches. */
  function DirectMessages(snap: Snapshot, target: TargetSelector): set<MessageId>
    requires snap.Valid()
  {
    match target
    case OnMessage(m) => if m in snap.records then {m} else {}
    case OnSender(a) => set m | m in snap.records && CanonicalSender(snap, m) == Some(a)
    case OnLabel(l) => set m | m in snap.records && l in snap.records[m].labels
    case _ => {}
  }

  function MessagesCandidate(snap: Snapshot, ms: set<MessageId>, view: View): Candidate
    requires Linked(view) && ms <= view.toSource.Keys
  {
    Candidate(
      (set m | m in ms :: SourceKey(view.toSource[m])) + (set m | m in ms :: FlowKeyOf(view.toFlow[m])),
      SourceIdsOf(snap.classified, ms),
      FlowIdsOf(snap.classified, ms),
      (set m, d | m in ms && d in view.sources[view.toSource[m]].structural :: d)
      + (set m, d | m in ms && d in view.flows[view.toFlow[m]].structural :: d),
      ms)
  }

  function ResolveTarget(snap: Snapshot, anchor: Anchor, target: TargetSelector, view: View): Binding
    requires snap.Valid() && Linked(view) && snap.records.Keys <= view.toSource.Keys
  {
    match target
    case OnSource(s) => ResolveSource(snap, anchor, s, view.sources)
    case OnFlow(fs) => ResolveFlow(anchor, fs, view)
    case _ =>
      var ms := DirectMessages(snap, target);
      if ms == {} then Binding(Orphaned, EMPTY_CANDIDATE)
      else Binding(Exact, MessagesCandidate(snap, ms, view))
  }

  // ----------------------------------------------------- correction conflicts

  function PlainIds(ps: Policies): set<DecisionId> {
    set d | d in ps && !ps[d].command.Structural()
  }

  function RawPlain(snap: Snapshot, ps: Policies, view: View): map<DecisionId, Binding>
    requires snap.Valid() && ValidPolicies(ps) && Linked(view) && snap.records.Keys <= view.toSource.Keys
  {
    map d | d in PlainIds(ps) :: ResolveTarget(snap, ps[d].anchors[0], ps[d].command.Target(), view)
  }

  datatype Field = SourceName | SourceRubro | FlowName | FlowIntention

  function CorrectionField(c: Command): Option<Field> {
    match c
    case SetSourceDisplayName(_, _) => Some(SourceName)
    case SetSourceRubro(_, _) => Some(SourceRubro)
    case SetFlowDisplayName(_, _) => Some(FlowName)
    case SetFlowIntention(_, _) => Some(FlowIntention)
    case _ => None
  }

  /** Two corrections of one field that reach a common message. */
  predicate CorrectionOverlap(ps: Policies, raw: map<DecisionId, Binding>, left: DecisionId, right: DecisionId)
    requires left in ps && right in ps && left in raw && right in raw
  {
    && CorrectionField(ps[left].command) != None
    && CorrectionField(ps[left].command) == CorrectionField(ps[right].command)
    && !(raw[left].candidate.messages !! raw[right].candidate.messages)
  }

  predicate InCorrectionConflict(ps: Policies, raw: map<DecisionId, Binding>, d: DecisionId)
    requires d in raw && raw.Keys <= ps.Keys
  {
    exists e <- raw :: e != d && CorrectionOverlap(ps, raw, d, e)
  }

  function MarkCorrections(ps: Policies, raw: map<DecisionId, Binding>): map<DecisionId, Binding>
    requires raw.Keys <= ps.Keys
  {
    map d | d in raw :: if InCorrectionConflict(ps, raw, d) then raw[d].(status := Conflict) else raw[d]
  }

  function PlainBindings(snap: Snapshot, ps: Policies, view: View): map<DecisionId, Binding>
    requires snap.Valid() && ValidPolicies(ps) && Linked(view) && snap.records.Keys <= view.toSource.Keys
  {
    var raw := RawPlain(snap, ps, view);
    assert raw.Keys == PlainIds(ps);
    MarkCorrections(ps, raw)
  }

  // -------------------------------------------------- corrections, order-free

  /** The surviving corrections that write one field of one target. */
  function Writers(ps: Policies, bindings: map<DecisionId, Binding>, field: Field, target: TargetSelector): set<DecisionId> {
    set d | d in bindings && d in ps && bindings[d].status.Applies()
            && CorrectionField(ps[d].command) == Some(field) && ps[d].command.Target() == target
  }

  /** A surviving correction names an object of the view, whose messages its binding holds. */
  lemma SurvivorPresent(snap: Snapshot, ps: Policies, view: View, d: DecisionId)
    requires snap.Valid() && ValidPolicies(ps) && Linked(view) && snap.records.Keys <= view.toSource.Keys
    requires d in PlainIds(ps) && PlainBindings(snap, ps, view)[d].status.Applies()
    ensures ps[d].command.Target().OnSource? ==>
      var s := ps[d].command.Target().source;
      s in view.sources && RawPlain(snap, ps, view)[d].candidate.messages == view.sources[s].messages
    ensures ps[d].command.Target().OnFlow? ==>
      var fs := ps[d].command.Target().flow;
      fs in view.flows && RawPlain(snap, ps, view)[d].candidate.messages == view.flows[fs].messages
  {
    hide ValidClassification;
  }

  /** At most one surviving correction writes a given field of a given source or flow. */
  lemma OneWriter(snap: Snapshot, ps: Policies, view: View, field: Field, target: TargetSelector, d: DecisionId, e: DecisionId)
    requires snap.Valid() && ValidPolicies(ps) && Linked(view) && snap.records.Keys <= view.toSource.Keys
    requires forall s <- view.sources :: view.sources[s].messages != {}
    requires forall fs <- view.flows :: view.flows[fs].messages != {}
    requires d in Writers(ps, PlainBindings(snap, ps, view), field, target)
    requires e in Writers(ps, PlainBindings(snap, ps, view), field, target)
    ensures d == e
  {
    hide ValidClassification;
    SurvivorPresent(snap, ps, view, d);
    SurvivorPresent(snap, ps, view, e);
  }
}
