/** Selectors, decisions, prepared anchors and bindings of the local policy memory. */
module PolicyModel {
  import opened Basics
  import opened MailModel

  type DecisionId = int

  datatype PartitionAnchor =
    | SenderAnchor(sender: Address)
    | FlowAnchor(flow: FlowDescriptor)
    | MessageAnchor(message: MessageId)

  datatype SourceSelector =
    | Automatic(source: SourceDescriptor)
    | Merged(sources: set<SourceDescriptor>)
    | PartitionGroup(source: SourceDescriptor, anchors: set<PartitionAnchor>)
  {
    /** The automatic sources the selector is built from. */
    function Descriptors(): set<SourceDescriptor> {
      match this
      case Automatic(d) => {d}
      case Merged(ds) => ds
      case PartitionGroup(d, _) => {d}
    }
  }

  datatype FlowSelector = FlowSelector(flow: FlowDescriptor, source: SourceSelector)

  /** An effective identifier is the digest of the canonical key of a selector. */
  datatype EffectiveId = SourceKey(source: SourceSelector) | FlowKeyOf(flow: FlowSelector)

  datatype TargetSelector =
    | OnMessage(message: MessageId)
    | OnSender(sender: Address)
    | OnLabel(labelId: Label)
    | OnSource(source: SourceSelector)
    | OnFlow(flow: FlowSelector)

  datatype Command =
    | SetSourceDisplayName(source: SourceSelector, name: string)
    | SetSourceRubro(source: SourceSelector, rubro: Rubro)
    | SetFlowDisplayName(flow: FlowSelector, name: string)
    | SetFlowIntention(flow: FlowSelector, intention: Intent)
    | MergeSources(participants: seq<SourceDescriptor>)
    | PartitionSource(target: SourceDescriptor, groups: seq<seq<PartitionAnchor>>)
    | ProtectTarget(protect: TargetSelector)
  {
    predicate Structural() {
      MergeSources? || PartitionSource?
    }

    /** The selector a targeted command carries. */
    function Target(): TargetSelector
      requires !Structural()
    {
      match this
      case SetSourceDisplayName(s, _) => OnSource(s)
      case SetSourceRubro(s, _) => OnSource(s)
      case SetFlowDisplayName(f, _) => OnFlow(f)
      case SetFlowIntention(f, _) => OnFlow(f)
      case ProtectTarget(t) => t
    }

    /** What the command constructors check. */
    ghost predicate Valid() {
      match this
      case MergeSources(ds) => |ds| >= 2 && Distinct(ds)
      case PartitionSource(t, gs) =>
        && |gs| >= 2
        && (forall g <- gs :: g != [] && Distinct(g))
        && (forall i, j :: 0 <= i < j < |gs| ==> Elements(gs[i]) !! Elements(gs[j]))
        && (forall g <- gs, a <- g :: a.FlowAnchor? ==> a.flow.source == t)
      case _ => true
    }
  }

  datatype AnchorSelector = Target(target: TargetSelector) | GroupMember(anchor: PartitionAnchor)

  datatype Anchor = Anchor(
    selector: AnchorSelector,
    observed: Option<EffectiveId>,
    observedSources: set<SourceId>,
    observedFlows: set<FlowId>,
    structural: set<DecisionId>)

  /** An accepted decision: its command and the anchors frozen when it was prepared. */
  datatype Policy = Policy(command: Command, anchors: seq<Anchor>)

  /** The active policies of an account. Decision identifiers are unique. */
  type Policies = map<DecisionId, Policy>

  datatype Status = Exact | Rebound | NeedsReview | Orphaned | Ambiguous | Conflict {
    /** Only exact and rebound bindings change the effective view. */
    predicate Applies() {
      Exact? || Rebound?
    }
  }

  /** The current objects a binding reaches. */
  datatype Candidate = Candidate(
    effective: set<EffectiveId>,
    sources: set<SourceId>,
    flows: set<FlowId>,
    structural: set<DecisionId>,
    messages: set<MessageId>)

  const EMPTY_CANDIDATE := Candidate({}, {}, {}, {}, {})

  datatype Binding = Binding(status: Status, candidate: Candidate)

  /** All anchors of all groups, in canonical order. */
  function Flatten(groups: seq<seq<PartitionAnchor>>): seq<PartitionAnchor> {
    if groups == [] then [] else groups[0] + Flatten(groups[1..])
  }

  /** The anchor selectors a prepared decision must carry for its command. */
  function AnchorSelectors(command: Command): seq<AnchorSelector> {
    match command
    case MergeSources(ds) => seq(|ds|, i requires 0 <= i < |ds| => Target(OnSource(Automatic(ds[i]))))
    case PartitionSource(t, gs) =>
      var members := Flatten(gs);
      [Target(OnSource(Automatic(t)))] + seq(|members|, i requires 0 <= i < |members| => GroupMember(members[i]))
    case _ => [Target(command.Target())]
  }

  /** The checks made when a decision is prepared and whenever it is loaded again. */
  ghost predicate ValidPolicy(p: Policy) {
    && p.command.Valid()
    && |p.anchors| == |AnchorSelectors(p.command)|
    && (forall i :: 0 <= i < |p.anchors| ==> p.anchors[i].selector == AnchorSelectors(p.command)[i])
  }

  ghost predicate ValidPolicies(ps: Policies) {
    forall d <- ps :: ValidPolicy(ps[d])
  }

  predicate ShareSourceAnchor(left: SourceDescriptor, right: SourceDescriptor) {
    match (left, right)
    case (IsolatedSource(m), IsolatedSource(n)) => m == n
    case (Senders(a), Senders(b)) => a * b != {}
    case _ => false
  }

  predicate SelectorsShareAnchor(left: SourceSelector, right: SourceSelector) {
    exists a <- left.Descriptors(), b <- right.Descriptors() :: ShareSourceAnchor(a, b)
  }

  predicate ShareFlowAnchor(left: FlowDescriptor, right: FlowDescriptor) {
    && ShareSourceAnchor(left.source, right.source)
    && left.intent == right.intent
    && match (left, right)
       case (ListIntent(_, a, _), ListIntent(_, b, _)) => a == b
       case (SenderIntent(_, a, _), SenderIntent(_, b, _)) => a == b
       case (IsolatedFlow(_, a, _), IsolatedFlow(_, b, _)) => a == b
       case _ => false
  }

  /** The automatic sources a structural command consumes. */
  function StructuralDescriptors(c: Command): set<SourceDescriptor> {
    match c
    case MergeSources(ds) => Elements(ds)
    case PartitionSource(t, _) => {t}
    case _ => {}
  }

  /** Several statuses joined into one. */
  function CombinedStatus(ss: seq<Status>): Status {
    if Conflict in ss then Conflict
    else if Ambiguous in ss then Ambiguous
    else if forall s <- ss :: s == Orphaned then Orphaned
    else if NeedsReview in ss || Orphaned in ss then NeedsReview
    else if Rebound in ss then Rebound
    else Exact
  }

  /** A combined binding applies exactly when it is non-empty and every part applies. */
  lemma CombinedApplies(ss: seq<Status>)
    requires ss != []
    ensures CombinedStatus(ss).Applies() <==> forall s <- ss :: s.Applies()
    ensures CombinedStatus(ss) == Exact <==> forall s <- ss :: s == Exact
  {
    assert ss[0] in ss;
    forall s | s in ss && CombinedStatus(ss).Applies() ensures s.Applies() {
      assert s == Exact || s == Rebound || s == NeedsReview || s == Orphaned || s == Ambiguous || s == Conflict;
    }
  }
}
