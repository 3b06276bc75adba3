/** Preparing a decision: what it observes, and which decisions are refused. */
module PolicyPrepare {
  import opened Basics
  import opened MailModel
  import opened PolicyModel
  import opened StructuralPolicy
  import opened StructuralSafety
  import opened EffectiveFlows
  import opened PolicyBindings
  import opened Corrections
  import opened PolicyApplication

  datatype PolicyError = PolicyConflict | TargetNotFound | InvalidInput

  // ------------------------------------------------------------ supersession

  /** Whether a new command may replace an active one. */
  predicate SupersedesCompatible(command: Command, current: Command) {
    if command.Structural() then
      current.Structural() && HistoricalOverlap(command, current)
    else if current.Structural() then false
    else if command.ProtectTarget? then
      current.ProtectTarget? && current.protect == command.protect
    else if CorrectionField(command) != CorrectionField(current) then false
    else
      || command.Target() == current.Target()
      || (command.Target().OnSource? && current.Target().OnSource?
          && SelectorsShareAnchor(command.Target().source, current.Target().source))
      || (command.Target().OnFlow? && current.Target().OnFlow?
          && ShareFlowAnchor(command.Target().flow.flow, current.Target().flow.flow))
  }

  // ----------------------------------------------------------------- anchors

  function SourceAnchorOf(snap: Snapshot, k: SourceSelector, st: SourceState): Anchor {
    Anchor(Target(OnSource(k)), Some(SourceKey(k)), SourceIdsOf(snap.classified, st.messages),
           FlowIdsOf(snap.classified, st.messages), st.structural)
  }

  function FlowAnchorOf(snap: Snapshot, fs: FlowSelector, st: FlowState): Anchor {
    Anchor(Target(OnFlow(fs)), Some(FlowKeyOf(fs)), SourceIdsOf(snap.classified, st.messages),
           FlowIdsOf(snap.classified, st.messages), st.structural)
  }

  function DirectAnchorOf(snap: Snapshot, target: TargetSelector, ms: set<MessageId>): Anchor {
    Anchor(Target(target), None, SourceIdsOf(snap.classified, ms), FlowIdsOf(snap.classified, ms), {})
  }

  function MemberAnchorOf(snap: Snapshot, a: PartitionAnchor, ms: set<MessageId>): Anchor {
    Anchor(GroupMember(a), None, SourceIdsOf(snap.classified, ms), FlowIdsOf(snap.classified, ms), {})
  }

  /** The member anchors of one group, each observing what it matches inside the group. */
  function GroupAnchors(snap: Snapshot, group: seq<PartitionAnchor>, ms: set<MessageId>): seq<Anchor>
    requires snap.Valid()
  {
    if group == [] then []
    else [MemberAnchorOf(snap, group[0], AnchorMessages(snap, group[0], ms))] + GroupAnchors(snap, group[1..], ms)
  }

  function AllGroupAnchors(snap: Snapshot, groups: seq<seq<PartitionAnchor>>, allowed: set<MessageId>): seq<Anchor>
    requires snap.Valid()
  {
    if groups == [] then []
    else GroupAnchors(snap, groups[0], GroupMessages(snap, groups[0], allowed)) + AllGroupAnchors(snap, groups[1..], allowed)
  }

  // --------------------------------------------------------------- conflicts

  /** Whether a remaining policy already occupies what the command targets. */
  predicate OccupiedBy(remaining: Policies, bindings: map<DecisionId, Binding>, command: Command, targets: set<EffectiveId>)
    requires remaining.Keys <= bindings.Keys
  {
    if command.Structural() then
      exists e <- remaining :: remaining[e].command.Structural()
        && (HistoricalOverlap(command, remaining[e].command) || !(bindings[e].candidate.effective !! targets))
    else
      && CorrectionField(command) != None
      && exists e <- remaining :: CorrectionField(remaining[e].command) == CorrectionField(command)
                                  && !(bindings[e].candidate.effective !! targets)
  }

  // ------------------------------------------------------------- preparation

  /** The anchors of a decision and the identifiers of what it targets. */
  datatype Observed = Observed(anchors: seq<Anchor>, targets: set<EffectiveId>)

  function ParticipantAnchor(snap: Snapshot, table: SourceTable, x: SourceDescriptor): Anchor
    requires Automatic(x) in table
  {
    SourceAnchorOf(snap, Automatic(x), table[Automatic(x)])
  }

  function ObserveMerge(snap: Snapshot, table: SourceTable, ds: seq<SourceDescriptor>): Result<Observed, PolicyError> {
    if exists x <- ds :: Automatic(x) !in table then Err(TargetNotFound)
    else Ok(Observed(seq(|ds|, i requires 0 <= i < |ds| && Automatic(ds[i]) in table => ParticipantAnchor(snap, table, ds[i])),
                     set x | x in ds :: SourceKey(Automatic(x))))
  }

  function ObservePartition(snap: Snapshot, table: SourceTable, t: SourceDescriptor, gs: seq<seq<PartitionAnchor>>)
    : Result<Observed, PolicyError>
    requires snap.Valid()
  {
    if Automatic(t) !in table then Err(TargetNotFound)
    else
      var st := table[Automatic(t)];
      if exists g <- gs, a <- g :: !FallbackOnly(snap, a) then Err(InvalidInput)
      else if !GroupsResolve(snap, gs, st.messages) then Err(InvalidInput)
      else if exists g <- gs, a <- g :: AnchorMessages(snap, a, GroupMessages(snap, g, st.messages)) == {} then Err(InvalidInput)
      else Ok(Observed([SourceAnchorOf(snap, Automatic(t), st)] + AllGroupAnchors(snap, gs, st.messages),
                       {SourceKey(Automatic(t))}))
  }

  ghost function ObserveTarget(snap: Snapshot, d: Decided, target: TargetSelector): Result<Observed, PolicyError>
    requires snap.Valid() && DecidedFor(snap, d)
  {
    if target.OnSource? then
      if target.source !in d.sources then Err(TargetNotFound)
      else Ok(Observed([SourceAnchorOf(snap, target.source, d.sources[target.source])], {SourceKey(target.source)}))
    else if target.OnFlow? then
      if target.flow !in d.flows then Err(TargetNotFound)
      else Ok(Observed([FlowAnchorOf(snap, target.flow, d.flows[target.flow])], {FlowKeyOf(target.flow)}))
    else
      var ms := DirectMessages(snap, target);
      if ms == {} then Err(TargetNotFound)
      else Ok(Observed([DirectAnchorOf(snap, target, ms)],
                       (set m | m in ms :: SourceKey(d.view.toSource[m])) + (set m | m in ms :: FlowKeyOf(d.view.toFlow[m]))))
  }

  /** What a command observes in the view of the remaining policies. */
  ghost function Observe(snap: Snapshot, d: Decided, command: Command): Result<Observed, PolicyError>
    requires snap.Valid() && DecidedFor(snap, d)
  {
    if command.MergeSources? then ObserveMerge(snap, d.sources, command.participants)
    else if command.PartitionSource? then ObservePartition(snap, d.sources, command.target, command.groups)
    else ObserveTarget(snap, d, command.Target())
  }

  /** The policies left once the superseded ones are gone. */
  function Remaining(ps: Policies, supersedes: set<DecisionId>): Policies {
    map e | e in ps && e !in supersedes :: ps[e]
  }

  lemma RemainingValid(ps: Policies, supersedes: set<DecisionId>)
    requires ValidPolicies(ps)
    ensures ValidPolicies(Remaining(ps, supersedes))
  {
  }

  /**
   The anchors of an accepted decision. A structural command whose target is
   missing is refused as a conflict when a remaining policy explains why.
   */
  ghost function Prepare(snap: Snapshot, ps: Policies, command: Command, supersedes: set<DecisionId>)
    : Result<seq<Anchor>, PolicyError>
  {
    if !Accepted(snap, ps) || !command.Valid() then Err(InvalidInput)
    else if exists e <- supersedes :: e !in ps || !SupersedesCompatible(command, ps[e].command) then Err(PolicyConflict)
    else
      RemainingValid(ps, supersedes);
      var remaining := Remaining(ps, supersedes);
      var d := Decide(snap, remaining);
      BindingKeys(snap, remaining);
      assert d.bindings == AllBindings(snap, remaining);
      match Observe(snap, d, command)
      case Err(error) =>
        if error == TargetNotFound && command.Structural() && OccupiedBy(remaining, d.bindings, command, {}) then Err(PolicyConflict)
        else Err(error)
      case Ok(observed) =>
        if OccupiedBy(remaining, d.bindings, command, observed.targets) then Err(PolicyConflict)
        else Ok(observed.anchors)
  }
}
