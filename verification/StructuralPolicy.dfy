/**
 Structural policies: how merges and partitions bind to the automatic sources,
 which of them conflict, and the table of effective sources that results.
 */
module StructuralPolicy {
  import opened Basics
  import opened MailModel
  import opened PolicyModel

  const COMBINED_NAME := "Fuente combinada"

  datatype SourceState = SourceState(
    automatic: set<SourceId>,
    automaticName: string,
    effectiveName: string,
    messages: set<MessageId>,
    automaticRubro: Rubro,
    effectiveRubro: Rubro,
    confidence: Confidence,
    decisions: set<DecisionId>,
    structural: set<DecisionId>)

  /** Effective identifiers are digests of selectors, so the table is keyed by the selector. */
  type SourceTable = map<SourceSelector, SourceState>

  // ---------------------------------------------------------------- anchors

  function CanonicalSender(snap: Snapshot, m: MessageId): Option<Address>
    requires snap.Valid() && m in snap.records
  {
    match snap.records[m].sender
    case None => None
    case Some(a) =>
      var d := DescriptorOf(snap.classified, m);
      if d.Senders? && a in d.addresses then Some(a) else None
  }

  predicate Matches(snap: Snapshot, anchor: PartitionAnchor, m: MessageId)
    requires snap.Valid() && m in snap.records
  {
    match anchor
    case SenderAnchor(a) => CanonicalSender(snap, m) == Some(a)
    case FlowAnchor(fd) =>
      exists f <- snap.classified.flows ::
        snap.classified.flows[f].descriptor == fd && m in snap.classified.flows[f].messages
    case MessageAnchor(id) => m == id
  }

  function AnchorMessages(snap: Snapshot, anchor: PartitionAnchor, allowed: set<MessageId>): set<MessageId>
    requires snap.Valid()
  {
    set m | m in allowed && m in snap.records && Matches(snap, anchor, m)
  }

  /** Only messages without a usable sender or flow may be addressed one by one. */
  predicate FallbackOnly(snap: Snapshot, anchor: PartitionAnchor)
    requires snap.Valid()
  {
    match anchor
    case MessageAnchor(id) =>
      && id in snap.records
      && CanonicalSender(snap, id) == None
      && snap.classified.flows[snap.classified.messages[id].flow].descriptor.IsolatedFlow?
    case _ => true
  }

  function GroupMessages(snap: Snapshot, group: seq<PartitionAnchor>, allowed: set<MessageId>): set<MessageId>
    requires snap.Valid()
  {
    set m | m in allowed && exists a <- group :: m in AnchorMessages(snap, a, allowed)
  }

  /** No message is matched by two positions of the group. */
  predicate GroupUnambiguous(snap: Snapshot, group: seq<PartitionAnchor>, allowed: set<MessageId>)
    requires snap.Valid()
  {
    forall i, j :: 0 <= i < j < |group| ==>
      AnchorMessages(snap, group[i], allowed) !! AnchorMessages(snap, group[j], allowed)
  }

  /** The groups split the allowed messages into non-empty, disjoint, complete parts. */
  predicate GroupsResolve(snap: Snapshot, groups: seq<seq<PartitionAnchor>>, allowed: set<MessageId>)
    requires snap.Valid()
  {
    && (forall i :: 0 <= i < |groups| ==>
          GroupUnambiguous(snap, groups[i], allowed) && GroupMessages(snap, groups[i], allowed) != {})
    && (forall i, j :: 0 <= i < j < |groups| ==>
          GroupMessages(snap, groups[i], allowed) !! GroupMessages(snap, groups[j], allowed))
    && (forall m <- allowed :: exists i :: 0 <= i < |groups| && m in GroupMessages(snap, groups[i], allowed))
  }

  /** Resolves the groups one after the other, stopping at the first overlap, hole or empty group. */
  method PartitionGroups(snap: Snapshot, groups: seq<seq<PartitionAnchor>>, allowed: set<MessageId>)
    returns (resolved: Option<seq<set<MessageId>>>)
    requires snap.Valid()
    ensures resolved.Some? <==> GroupsResolve(snap, groups, allowed)
    ensures resolved.Some? ==> |resolved.value| == |groups|
    ensures resolved.Some? ==>
      forall i :: 0 <= i < |groups| ==> resolved.value[i] == GroupMessages(snap, groups[i], allowed)
  {
    hide ValidClassification, GroupMessages, GroupUnambiguous, AnchorMessages;
    var parts: seq<set<MessageId>> := [];
    var seen: set<MessageId> := {};
    for g := 0 to |groups|
      invariant |parts| == g
      invariant forall i :: 0 <= i < g ==>
        parts[i] == GroupMessages(snap, groups[i], allowed) && parts[i] != {} && parts[i] <= seen
        && GroupUnambiguous(snap, groups[i], allowed)
      invariant forall i, j :: 0 <= i < j < g ==> parts[i] !! parts[j]
      invariant forall m <- seen :: exists i :: 0 <= i < g && m in parts[i]
      invariant seen <= allowed
    {
      GroupWithin(snap, groups[g], allowed);
      var matched := MatchGroup(snap, groups[g], allowed);
      if matched == None {
        return None;
      }
      var ids := matched.value;
      if ids == {} || !(ids !! seen) {
        if ids != {} {
          ghost var m := SomeCommon(ids, seen);
          ghost var i :| 0 <= i < g && m in parts[i];
          assert !(GroupMessages(snap, groups[i], allowed) !! GroupMessages(snap, groups[g], allowed));
        }
        return None;
      }
      seen := seen + ids;
      parts := parts + [ids];
    }
    if !(allowed <= seen) {
      ghost var m := SomeMissing(allowed, seen);
      assert forall i :: 0 <= i < |groups| ==> m !in GroupMessages(snap, groups[i], allowed);
      return None;
    }
    return Some(parts);
  }

  lemma GroupWithin(snap: Snapshot, group: seq<PartitionAnchor>, allowed: set<MessageId>)
    requires snap.Valid()
    ensures GroupMessages(snap, group, allowed) <= allowed
  {
    hide ValidClassification, AnchorMessages;
  }

  /** Collects the matches of one group; a repeated match makes the group ambiguous. */
  method MatchGroup(snap: Snapshot, group: seq<PartitionAnchor>, allowed: set<MessageId>)
    returns (matched: Option<set<MessageId>>)
    requires snap.Valid()
    ensures matched.Some? <==> GroupUnambiguous(snap, group, allowed)
    ensures matched.Some? ==> matched.value == GroupMessages(snap, group, allowed)
  {
    var ids: set<MessageId> := {};
    for a := 0 to |group|
      invariant forall m :: m in ids <==> exists i :: 0 <= i < a && m in AnchorMessages(snap, group[i], allowed)
      invariant forall i, j :: 0 <= i < j < a ==>
        AnchorMessages(snap, group[i], allowed) !! AnchorMessages(snap, group[j], allowed)
    {
      var more := AnchorMessages(snap, group[a], allowed);
      if !(ids !! more) {
        assert !GroupUnambiguous(snap, group, allowed) by {
          var m :| m in ids && m in more;
          var i :| 0 <= i < a && m in AnchorMessages(snap, group[i], allowed);
        }
        return None;
      }
      ids := ids + more;
    }
    forall m | m in GroupMessages(snap, group, allowed) ensures m in ids {
      var a :| a in group && m in AnchorMessages(snap, a, allowed);
      var i :| 0 <= i < |group| && group[i] == a;
    }
    forall m | m in ids ensures m in GroupMessages(snap, group, allowed) {
      var i :| 0 <= i < |group| && m in AnchorMessages(snap, group[i], allowed);
      assert group[i] in group;
    }
    return Some(ids);
  }

  // ---------------------------------------------------------- source states

  /** The messages a selector stands for in a snapshot. */
  function MessagesOf(snap: Snapshot, sel: SourceSelector): set<MessageId>
    requires snap.Valid()
  {
    set m | m in snap.records
            && DescriptorOf(snap.classified, m) in sel.Descriptors()
            && (sel.PartitionGroup? ==> exists a <- sel.anchors :: Matches(snap, a, m))
  }

  /** The automatic sources a selector is built from. */
  function AutomaticIds(snap: Snapshot, sel: SourceSelector): set<SourceId> {
    set s | s in snap.classified.sources && snap.classified.sources[s].descriptor in sel.Descriptors()
  }

  /** The display name of a single automatic source. */
  function SingleName(snap: Snapshot, ids: set<SourceId>): string {
    if |ids| == 1 then
      SingletonUnique(ids);
      var s :| s in ids;
      if s in snap.classified.sources then snap.classified.sources[s].name else ""
    else ""
  }

  function RubrosOf(c: Classification, ms: set<MessageId>): set<Rubro> {
    set m | m in ms && m in c.messages :: c.messages[m].rubro
  }

  function ConfidencesOf(c: Classification, ms: set<MessageId>): set<Confidence> {
    set m | m in ms && m in c.messages :: c.messages[m].confidence
  }

  /**
   Builds the state of an effective source. The program rejects an empty
   source here; `StructuralSafety.TableSplitsMessages` shows that no reachable table contains one.
   */
  function MakeState(snap: Snapshot, sel: SourceSelector, ms: set<MessageId>, ids: set<SourceId>,
                     decisions: set<DecisionId>): SourceState
  {
    var name := if sel.Merged? then COMBINED_NAME else SingleName(snap, ids);
    var rubro := CommonRubro(RubrosOf(snap.classified, ms));
    var confidences := ConfidencesOf(snap.classified, ms);
    var confidence := if confidences == {} then Contradictory else WorstConfidence(confidences);
    SourceState(ids, name, name, ms, rubro, rubro, confidence, decisions, decisions)
  }

  function StateOf(snap: Snapshot, sel: SourceSelector, decisions: set<DecisionId>): SourceState
    requires snap.Valid()
  {
    MakeState(snap, sel, MessagesOf(snap, sel), AutomaticIds(snap, sel), decisions)
  }

  /** Every automatic source starts as an effective source of its own. */
  function BaselineKeys(snap: Snapshot): set<SourceSelector> {
    set s | s in snap.classified.sources :: Automatic(snap.classified.sources[s].descriptor)
  }

  function Baseline(snap: Snapshot): SourceTable
    requires snap.Valid()
  {
    map k | k in BaselineKeys(snap) :: StateOf(snap, k, {})
  }

  /** An automatic selector stands for exactly the messages and the identifier of its source. */
  lemma AutomaticState(snap: Snapshot, s: SourceId)
    requires snap.Valid() && s in snap.classified.sources
    ensures MessagesOf(snap, Automatic(snap.classified.sources[s].descriptor)) == snap.classified.sources[s].messages
    ensures AutomaticIds(snap, Automatic(snap.classified.sources[s].descriptor)) == {s}
    ensures snap.classified.sources[s].messages != {}
  {
  }

  // -------------------------------------------------------------- resolution

  /** The current objects of one effective source. */
  function SourceCandidate(snap: Snapshot, sel: SourceSelector, st: SourceState): Candidate {
    Candidate({SourceKey(sel)}, st.automatic, FlowIdsOf(snap.classified, st.messages), st.structural, st.messages)
  }

  function UnionCandidates(cs: set<Candidate>): Candidate {
    Candidate(
      set c, x | c in cs && x in c.effective :: x,
      set c, x | c in cs && x in c.sources :: x,
      set c, x | c in cs && x in c.flows :: x,
      set c, x | c in cs && x in c.structural :: x,
      set c, x | c in cs && x in c.messages :: x)
  }

  /** An anchor whose selector still exists is exact, rebound or in need of review. */
  function ExactStatus(anchor: Anchor, candidate: Candidate): Status {
    if anchor.structural != candidate.structural then NeedsReview
    else if Members(anchor.observed) != candidate.effective then NeedsReview
    else if anchor.observedSources == candidate.sources && anchor.observedFlows == candidate.flows then Exact
    else Rebound
  }

  /** Sources that could stand in for a source selector that no longer exists. */
  function SourceFallbacks(anchor: Anchor, sel: SourceSelector, table: SourceTable): set<SourceSelector> {
    set k | k in table
            && (anchor.observedSources * table[k].automatic != {}
                || anchor.observed == Some(SourceKey(k))
                || SelectorsShareAnchor(sel, k))
  }

  function ResolveSource(snap: Snapshot, anchor: Anchor, sel: SourceSelector, table: SourceTable): Binding {
    if sel in table then
      var candidate := SourceCandidate(snap, sel, table[sel]);
      Binding(ExactStatus(anchor, candidate), candidate)
    else
      var fallbacks := SourceFallbacks(anchor, sel, table);
      if fallbacks == {} then
        Binding(Orphaned, EMPTY_CANDIDATE)
      else
        var candidate := UnionCandidates(set k | k in fallbacks :: SourceCandidate(snap, k, table[k]));
        if anchor.structural != candidate.structural || |fallbacks| == 1 then
          Binding(NeedsReview, candidate)
        else
          Binding(Ambiguous, candidate)
  }

  /** The binding of one anchor of a merge. */
  function ResolveParticipant(snap: Snapshot, anchor: Anchor, table: SourceTable): Binding
    requires anchor.selector.Target? && anchor.selector.target.OnSource?
  {
    ResolveSource(snap, anchor, anchor.selector.target.source, table)
  }

  /** The status of a partition member against the messages of the partitioned source. */
  function MemberStatus(snap: Snapshot, member: Anchor, allowed: set<MessageId>): Status
    requires snap.Valid() && member.selector.GroupMember?
  {
    var current := AnchorMessages(snap, member.selector.anchor, allowed);
    if current == {} then NeedsReview
    else if member.observedSources == SourceIdsOf(snap.classified, current)
            && member.observedFlows == FlowIdsOf(snap.classified, current) then Exact
    else Rebound
  }

  function MergeBinding(snap: Snapshot, p: Policy, table: SourceTable): Binding
    requires ValidPolicy(p) && p.command.MergeSources?
  {
    var parts := seq(|p.anchors|, i requires 0 <= i < |p.anchors| => ResolveParticipant(snap, p.anchors[i], table));
    Binding(
      CombinedStatus(seq(|parts|, i requires 0 <= i < |parts| => parts[i].status)),
      UnionCandidates(set b | b in parts :: b.candidate))
  }

  function PartitionBinding(snap: Snapshot, p: Policy, table: SourceTable): Binding
    requires snap.Valid() && ValidPolicy(p) && p.command.PartitionSource?
  {
    var target := Automatic(p.command.target);
    var bound := ResolveSource(snap, p.anchors[0], target, table);
    if target !in table || !bound.status.Applies() then
      bound
    else if exists g <- p.command.groups, a <- g :: !FallbackOnly(snap, a) then
      Binding(NeedsReview, bound.candidate)
    else if !GroupsResolve(snap, p.command.groups, table[target].messages) then
      Binding(NeedsReview, bound.candidate)
    else
      var n := |p.anchors|;
      Binding(
        CombinedStatus([bound.status] + seq(n - 1, i requires 0 <= i < n - 1 =>
                         MemberStatus(snap, p.anchors[i + 1], table[target].messages))),
        bound.candidate)
  }

  function StructuralBinding(snap: Snapshot, p: Policy, table: SourceTable): Binding
    requires snap.Valid() && ValidPolicy(p) && p.command.Structural()
  {
    if p.command.MergeSources? then MergeBinding(snap, p, table) else PartitionBinding(snap, p, table)
  }

  // --------------------------------------------------------------- conflicts

  function StructuralIds(ps: Policies): set<DecisionId> {
    set d | d in ps && ps[d].command.Structural()
  }

  function RawStructural(snap: Snapshot, ps: Policies): map<DecisionId, Binding>
    requires snap.Valid() && ValidPolicies(ps)
  {
    map d | d in StructuralIds(ps) :: StructuralBinding(snap, ps[d], Baseline(snap))
  }

  predicate HistoricalOverlap(left: Command, right: Command) {
    exists x <- StructuralDescriptors(left), y <- StructuralDescriptors(right) :: ShareSourceAnchor(x, y)
  }

  /** Two structural policies that name related sources or reach a common message. */
  predicate StructuralOverlap(ps: Policies, raw: map<DecisionId, Binding>, left: DecisionId, right: DecisionId)
    requires left in ps && right in ps && left in raw && right in raw
  {
    || HistoricalOverlap(ps[left].command, ps[right].command)
    || !(raw[left].candidate.messages !! raw[right].candidate.messages)
  }

  lemma OverlapSymmetric(ps: Policies, raw: map<DecisionId, Binding>, d: DecisionId, e: DecisionId)
    requires d in ps && e in ps && d in raw && e in raw
    ensures StructuralOverlap(ps, raw, d, e) <==> StructuralOverlap(ps, raw, e, d)
  {
    HistoricalSymmetric(ps[d].command, ps[e].command);
    HistoricalSymmetric(ps[e].command, ps[d].command);
  }

  lemma HistoricalSymmetric(left: Command, right: Command)
    ensures HistoricalOverlap(left, right) ==> HistoricalOverlap(right, left)
  {
    if HistoricalOverlap(left, right) {
      var x, y :| x in StructuralDescriptors(left) && y in StructuralDescriptors(right) && ShareSourceAnchor(x, y);
      assert ShareSourceAnchor(y, x) by {
        if x.Senders? { assert x.addresses * y.addresses == y.addresses * x.addresses; }
      }
    }
  }

  predicate InStructuralConflict(ps: Policies, raw: map<DecisionId, Binding>, d: DecisionId)
    requires d in raw && raw.Keys <= ps.Keys
  {
    exists e <- raw :: e != d && StructuralOverlap(ps, raw, d, e)
  }

  /** Every overlapping policy is marked; its candidate stays. */
  function MarkStructural(ps: Policies, raw: map<DecisionId, Binding>): map<DecisionId, Binding>
    requires raw.Keys <= ps.Keys
  {
    map d | d in raw :: if InStructuralConflict(ps, raw, d) then raw[d].(status := Conflict) else raw[d]
  }

  function StructuralBindings(snap: Snapshot, ps: Policies): map<DecisionId, Binding>
    requires snap.Valid() && ValidPolicies(ps)
  {
    var raw := RawStructural(snap, ps);
    assert raw.Keys == StructuralIds(ps);
    MarkStructural(ps, raw)
  }

  /** The structural policies that are applied. */
  function Applying(snap: Snapshot, ps: Policies): set<DecisionId>
    requires snap.Valid() && ValidPolicies(ps)
  {
    var bindings := StructuralBindings(snap, ps);
    set d | d in bindings && bindings[d].status.Applies()
  }

  // -------------------------------------------------- the table, order-free

  /** The effective sources a structural policy creates. */
  function Products(c: Command): set<SourceSelector> {
    match c
    case MergeSources(ds) => {Merged(Elements(ds))}
    case PartitionSource(t, gs) => set g | g in gs :: PartitionGroup(t, Elements(g))
    case _ => {}
  }

  /** The automatic sources some policies consume. */
  function Consumed(ps: Policies, applied: set<DecisionId>): set<SourceDescriptor> {
    set d, x | d in applied && d in ps && x in StructuralDescriptors(ps[d].command) :: x
  }

  /** The policies among `applied` that created a selector. */
  function Deciders(ps: Policies, applied: set<DecisionId>, k: SourceSelector): set<DecisionId> {
    set d | d in applied && d in ps && k in Products(ps[d].command)
  }

  function TableKeys(snap: Snapshot, ps: Policies, applied: set<DecisionId>): set<SourceSelector> {
    (set k | k in BaselineKeys(snap) && k.source !in Consumed(ps, applied))
    + (set d, k | d in applied && d in ps && k in Products(ps[d].command) :: k)
  }

  /** The effective sources after some structural policies, whatever the order of application. */
  function TableOf(snap: Snapshot, ps: Policies, applied: set<DecisionId>): SourceTable
    requires snap.Valid()
  {
    map k | k in TableKeys(snap, ps, applied) :: StateOf(snap, k, Deciders(ps, applied, k))
  }

  /** The effective sources of a snapshot under its active policies. */
  function EffectiveSources(snap: Snapshot, ps: Policies): SourceTable
    requires snap.Valid() && ValidPolicies(ps)
  {
    TableOf(snap, ps, Applying(snap, ps))
  }
}
