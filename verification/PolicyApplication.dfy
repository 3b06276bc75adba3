/** The whole application of the active policies to a snapshot, as an order-free specification. */
module PolicyApplication {
  import opened Basics
  import opened MailModel
  import opened PolicyModel
  import opened StructuralPolicy
  import opened StructuralSafety
  import opened EffectiveFlows
  import opened PolicyBindings
  import opened Corrections
  import opened Protection

  // ------------------------------------------------------------------- view

  /** The surviving structural policies leave sources that split the records. */
  lemma SourcesSplit(snap: Snapshot, ps: Policies)
    requires snap.Valid() && ValidPolicies(ps)
    ensures SplitsRecords(snap, EffectiveSources(snap, ps))
    ensures forall k <- EffectiveSources(snap, ps) :: EffectiveSources(snap, ps)[k].messages != {}
  {
    hide ValidClassification;
    SurvivorsApplicable(snap, ps);
    TableSplitsMessages(snap, ps, Applying(snap, ps));
  }

  ghost function ViewFor(snap: Snapshot, ps: Policies): View
    requires snap.Valid() && ValidPolicies(ps)
  {
    SourcesSplit(snap, ps);
    ViewOf(snap, EffectiveSources(snap, ps))
  }

  lemma FlowSourcesKnown(snap: Snapshot, table: SourceTable)
    requires snap.Valid()
    ensures forall fs <- FlowsOf(snap, table) :: fs.source in table
  {
    hide ValidClassification, MakeFlow, FlowWith;
  }

  /** A view built from sources that split the records links messages, flows and sources. */
  lemma ViewLinked(snap: Snapshot, table: SourceTable)
    requires snap.Valid() && SplitsRecords(snap, table)
    ensures Linked(ViewOf(snap, table))
    ensures ViewOf(snap, table).toSource.Keys == snap.records.Keys
  {
    hide ValidClassification, FlowsOf, SplitsRecords, FlowSelectorFor, MessageSource;
    FlowSourcesKnown(snap, table);
    forall m | m in snap.records
      ensures ViewOf(snap, table).toFlow[m] in FlowsOf(snap, table)
      ensures ViewOf(snap, table).toFlow[m].source == ViewOf(snap, table).toSource[m]
      ensures ViewOf(snap, table).toSource[m] in table
    {
      PlacedTogether(snap, table, m);
    }
  }

  lemma PlacedTogether(snap: Snapshot, table: SourceTable, m: MessageId)
    requires snap.Valid() && SplitsRecords(snap, table) && m in snap.records
    ensures ViewOf(snap, table).toFlow[m] in FlowsOf(snap, table)
    ensures ViewOf(snap, table).toFlow[m].source == ViewOf(snap, table).toSource[m]
    ensures ViewOf(snap, table).toSource[m] in table
  {
    hide ValidClassification, FlowsOf;
    FlowsSplitMessages(snap, table, m);
  }

  ghost predicate Ready(snap: Snapshot, view: View) {
    && Linked(view)
    && view.toSource.Keys == snap.records.Keys
  }

  // --------------------------------------------------------------- bindings

  ghost function AllBindings(snap: Snapshot, ps: Policies): map<DecisionId, Binding>
    requires snap.Valid() && ValidPolicies(ps)
  {
    SourcesSplit(snap, ps);
    ViewLinked(snap, EffectiveSources(snap, ps));
    StructuralBindings(snap, ps) + PlainBindings(snap, ps, ViewFor(snap, ps))
  }

  lemma BindingKeys(snap: Snapshot, ps: Policies)
    requires snap.Valid() && ValidPolicies(ps)
    ensures StructuralBindings(snap, ps).Keys == StructuralIds(ps)
    ensures AllBindings(snap, ps).Keys == ps.Keys
    ensures forall d <- StructuralIds(ps) :: AllBindings(snap, ps)[d] == StructuralBindings(snap, ps)[d]
  {
    hide ValidClassification;
    assert ps.Keys == StructuralIds(ps) + PlainIds(ps);
  }

  // ------------------------------------------------------------- protection

  /** The applying protections that reach a message. */
  function ProtectedBy(ps: Policies, bindings: map<DecisionId, Binding>, m: MessageId): set<DecisionId> {
    set d | d in bindings && d in ps && bindings[d].status.Applies() && ps[d].command.ProtectTarget?
            && m in bindings[d].candidate.messages
  }

  /** The policies that reach a message but wait for a review. */
  function UnsettledOn(bindings: map<DecisionId, Binding>, m: MessageId): set<DecisionId> {
    set d | d in bindings && !bindings[d].status.Applies() && bindings[d].status != Orphaned
            && m in bindings[d].candidate.messages
  }

  predicate LabelProtected(ps: Policies, bindings: map<DecisionId, Binding>, m: MessageId) {
    exists d <- bindings :: d in ps && bindings[d].status.Applies() && ps[d].command.ProtectTarget?
                            && ps[d].command.protect.OnLabel? && m in bindings[d].candidate.messages
  }

  /** The reason a corrected intention adds to every message of the flow. */
  function IntentReasons(st: FlowState): set<Reason> {
    if st.effectiveIntent == st.automaticIntent then {}
    else match st.effectiveIntent
      case Security => {IsSecurity}
      case Document => {IsDocument}
      case Personal => {IsPersonal}
      case _ => {}
  }

  /** What the policies add to the automatic reasons of a message. */
  function PolicyReasons(ps: Policies, bindings: map<DecisionId, Binding>, flow: FlowState, m: MessageId): set<Reason> {
    (if ProtectedBy(ps, bindings, m) + UnsettledOn(bindings, m) != {} then {ManualPolicy} else {})
    + (if LabelProtected(ps, bindings, m) then {ProtectedLabel} else {})
    + IntentReasons(flow)
    + (if UnsettledOn(bindings, m) != {} then {PolicyReview} else {})
  }

  /** What the policies decide about a snapshot. */
  datatype Decided = Decided(
    view: View,
    bindings: map<DecisionId, Binding>,
    sources: SourceTable,
    flows: FlowTable)

  ghost predicate DecidedFor(snap: Snapshot, d: Decided) {
    && Ready(snap, d.view)
    && d.sources.Keys == d.view.sources.Keys
    && d.flows.Keys == d.view.flows.Keys
  }

  /** The effective source a message ends in. */
  ghost function SourceStateOf(snap: Snapshot, d: Decided, m: MessageId): SourceState
    requires DecidedFor(snap, d) && m in snap.records
  {
    d.sources[d.view.toSource[m]]
  }

  /** The effective flow a message ends in. */
  ghost function FlowStateOf(snap: Snapshot, d: Decided, m: MessageId): FlowState
    requires DecidedFor(snap, d) && m in snap.records
  {
    d.flows[d.view.toFlow[m]]
  }

  ghost function Decide(snap: Snapshot, ps: Policies): (d: Decided)
    requires snap.Valid() && ValidPolicies(ps)
    ensures DecidedFor(snap, d)
  {
    SourcesSplit(snap, ps);
    ViewLinked(snap, EffectiveSources(snap, ps));
    var view := ViewFor(snap, ps);
    var bindings := AllBindings(snap, ps);
    Decided(view, bindings,
            CorrectedSources(ps, bindings, PlainIds(ps), view.sources),
            CorrectedFlows(ps, bindings, PlainIds(ps), view.flows))
  }

  function BaseReasons(snap: Snapshot): (r: Reasons)
    requires snap.Valid()
    ensures r.Keys == snap.records.Keys
  {
    map m | m in snap.records :: AutomaticReasons(snap.records[m], snap.classified.messages[m])
  }

  function AutomaticProtection(snap: Snapshot): (r: Reasons)
    requires snap.Valid()
    ensures r.Keys == snap.records.Keys
  {
    Spread(snap, BaseReasons(snap))
  }

  /** The reasons before the last pass over the conversations. */
  ghost function ReasonsBefore(snap: Snapshot, ps: Policies, d: Decided): (r: Reasons)
    requires snap.Valid() && DecidedFor(snap, d)
    ensures r.Keys == snap.records.Keys
  {
    map m | m in snap.records ::
      AutomaticProtection(snap)[m] + PolicyReasons(ps, d.bindings, FlowStateOf(snap, d, m), m)
  }

  ghost function EffectiveProtection(snap: Snapshot, ps: Policies, d: Decided): Reasons
    requires snap.Valid() && DecidedFor(snap, d)
  {
    Spread(snap, ReasonsBefore(snap, ps, d))
  }

  /** What `apply_local_policies` accepts. */
  ghost predicate Accepted(snap: Snapshot, ps: Policies) {
    snap.Valid() && ValidPolicies(ps)
  }

  /** The reasons before the last pass, under the active policies; none for a rejected input. */
  ghost function Gathered(snap: Snapshot, ps: Policies): (r: Reasons)
    ensures r.Keys == snap.records.Keys
  {
    if Accepted(snap, ps) then ReasonsBefore(snap, ps, Decide(snap, ps)) else map m | m in snap.records :: {}
  }

  /** The effective reasons of every message, under the active policies. */
  ghost function Protected(snap: Snapshot, ps: Policies): (r: Reasons)
    ensures r.Keys == snap.records.Keys
  {
    Spread(snap, Gathered(snap, ps))
  }

  /** The effective reasons of one message. */
  ghost function ReasonsOn(snap: Snapshot, ps: Policies, m: MessageId): set<Reason> {
    if m in snap.records then Protected(snap, ps)[m] else {}
  }

  /** Every decision shown on a message. */
  ghost function DecisionsOn(snap: Snapshot, ps: Policies, d: Decided, m: MessageId): set<DecisionId>
    requires snap.Valid() && DecidedFor(snap, d) && m in snap.records
  {
    ProtectedBy(ps, d.bindings, m) + UnsettledOn(d.bindings, m)
    + SourceStateOf(snap, d, m).decisions + FlowStateOf(snap, d, m).decisions
  }

  /** Some decision shown on the message is not applied. */
  ghost predicate ShowsUnapplied(snap: Snapshot, ps: Policies, d: Decided, m: MessageId)
    requires snap.Valid() && DecidedFor(snap, d) && m in snap.records
  {
    exists e <- DecisionsOn(snap, ps, d, m) :: e in ps && e in d.bindings && !d.bindings[e].status.Applies()
  }

  ghost predicate ReviewRequired(snap: Snapshot, ps: Policies, d: Decided, m: MessageId)
    requires snap.Valid() && DecidedFor(snap, d) && m in snap.records
  {
    || Mixed(snap, BaseReasons(snap), snap.records[m].thread)
    || UnsettledOn(d.bindings, m) != {}
    || snap.classified.messages[m].confidence == Low
    || snap.classified.messages[m].confidence == Contradictory
    || ShowsUnapplied(snap, ps, d, m)
    || Mixed(snap, ReasonsBefore(snap, ps, d), snap.records[m].thread)
  }
}
