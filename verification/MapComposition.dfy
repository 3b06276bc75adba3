/** The study map: counters of every source and flow, monthly volumes and a summary that agree. */
module MapComposition {
  import opened Basics
  import opened MailModel
  import opened PolicyModel
  import opened StructuralPolicy
  import opened EffectiveFlows
  import opened Protection
  import opened PolicyResult
  import opened CleanupScope
  import opened Sums

  type Month = int

  /** The counters of a flow, a source or the whole map. */
  datatype Totals = Totals(messages: nat, bytes: nat, shielded: nat, review: nat, hardExcluded: nat) {
    function Get(me: Measure): nat {
      match me
      case Messages => messages
      case Bytes => bytes
      case Shielded => shielded
      case Review => review
      case HardOnes => hardExcluded
    }
  }

  datatype Measure = Messages | Bytes | Shielded | Review | HardOnes

  datatype Volume = Volume(messages: nat, bytes: nat)

  datatype MapFlow = MapFlow(source: SourceSelector, totals: Totals, firstSeen: Instant, lastSeen: Instant)

  datatype MapSource = MapSource(
    totals: Totals,
    flows: set<FlowSelector>,
    firstSeen: Instant,
    lastSeen: Instant,
    monthly: map<Month, Volume>)

  datatype Projection = Projection(
    flows: map<FlowSelector, MapFlow>,
    sources: map<SourceSelector, MapSource>,
    summary: Totals,
    sourceCount: nat,
    flowCount: nat)

  // ----------------------------------------------------------------- weights

  function Flag(b: bool): nat {
    if b then 1 else 0
  }

  /** What one message adds to a counter. */
  function WeightOf(c: Composition, me: Measure, m: MessageId): nat {
    if m !in c.snap.records || m !in c.outcome.messages then 0
    else match me
      case Messages => 1
      case Bytes => c.snap.records[m].size
      case Shielded => Flag(c.outcome.messages[m].shown.shielded)
      case Review => Flag(c.outcome.messages[m].shown.review)
      case HardOnes => Flag(c.outcome.messages[m].shown.hardExcluded)
  }

  function Weight(c: Composition, me: Measure): MessageId -> int {
    (m: MessageId) => WeightOf(c, me, m)
  }

  function ReceivedAt(c: Composition, m: MessageId): Instant {
    if m in c.snap.records then c.snap.records[m].receivedAt else 0
  }

  // ------------------------------------------------------------------ checks

  function FlowTotal(p: Projection, me: Measure): FlowSelector -> int {
    (fs: FlowSelector) => if fs in p.flows then p.flows[fs].totals.Get(me) else 0
  }

  function SourceTotal(p: Projection, me: Measure): SourceSelector -> int {
    (k: SourceSelector) => if k in p.sources then p.sources[k].totals.Get(me) else 0
  }

  function FlowCountOf(p: Projection): SourceSelector -> int {
    (k: SourceSelector) => if k in p.sources then |p.sources[k].flows| else 0
  }

  function MonthMessages(s: MapSource): Month -> int {
    (month: Month) => if month in s.monthly then s.monthly[month].messages else 0
  }

  function MonthBytes(s: MapSource): Month -> int {
    (month: Month) => if month in s.monthly then s.monthly[month].bytes else 0
  }

  /** The checks of a flow on its own. */
  predicate FlowShapeValid(f: MapFlow) {
    && f.totals.messages > 0 && f.firstSeen <= f.lastSeen
    && f.totals.shielded <= f.totals.messages && f.totals.review <= f.totals.messages && f.totals.hardExcluded <= f.totals.messages
  }

  predicate SourceShapeValid(s: MapSource) {
    && s.totals.messages > 0 && s.firstSeen <= s.lastSeen
    && s.totals.shielded <= s.totals.messages && s.totals.review <= s.totals.messages && s.totals.hardExcluded <= s.totals.messages
  }

  /** The flows and the months of a source add up to it, in every counter. */
  ghost predicate SourceConserves(p: Projection, k: SourceSelector)
    requires k in p.sources
  {
    var s := p.sources[k];
    && SourceShapeValid(s)
    && s.flows == (set fs | fs in p.flows && p.flows[fs].source == k)
    && (forall me: Measure :: SumOver(s.flows, FlowTotal(p, me)) == s.totals.Get(me))
    && SumOver(s.monthly.Keys, MonthMessages(s)) == s.totals.messages
    && SumOver(s.monthly.Keys, MonthBytes(s)) == s.totals.bytes
  }

  /** Every check of the projection's constructors on counters. */
  ghost predicate Conserves(p: Projection) {
    && (forall fs <- p.flows :: p.flows[fs].source in p.sources && FlowShapeValid(p.flows[fs]))
    && (forall k <- p.sources :: SourceConserves(p, k))
    && (forall me: Measure :: SumOver(p.sources.Keys, SourceTotal(p, me)) == p.summary.Get(me))
    && p.sourceCount == |p.sources| && p.flowCount == |p.flows|
    && SumOver(p.sources.Keys, FlowCountOf(p)) == p.flowCount
  }

  // ----------------------------------------------------------------- the map

  /** Counters that are those of some messages. */
  ghost predicate CountsMembers(c: Composition, ms: set<MessageId>, t: Totals) {
    forall me: Measure :: t.Get(me) == SumOver(ms, Weight(c, me))
  }

  /** The first and the last date of some messages: they bound them all, and each is the date of one. */
  ghost predicate Spans(c: Composition, ms: set<MessageId>, first: Instant, last: Instant) {
    && (forall m <- ms :: first <= ReceivedAt(c, m) <= last)
    && (exists m <- ms :: ReceivedAt(c, m) == first) && (exists m <- ms :: ReceivedAt(c, m) == last)
  }

  /** A projection whose counters are those of the members of its flows and sources. */
  ghost predicate Counts(c: Composition, month: Instant -> Month, p: Projection) {
    && p.flows.Keys == c.outcome.flows.Keys && p.sources.Keys == c.outcome.sources.Keys
    && (forall fs <- p.flows ::
          && p.flows[fs].source == c.outcome.flows[fs].source
          && Spans(c, c.outcome.flows[fs].messages, p.flows[fs].firstSeen, p.flows[fs].lastSeen)
          && CountsMembers(c, c.outcome.flows[fs].messages, p.flows[fs].totals))
    && (forall k <- p.sources ::
          && p.sources[k].flows == c.outcome.sources[k].flows
          && Spans(c, c.outcome.sources[k].messages, p.sources[k].firstSeen, p.sources[k].lastSeen)
          && CountsMembers(c, c.outcome.sources[k].messages, p.sources[k].totals)
          && MonthlyOf(c, month, c.outcome.sources[k].messages, p.sources[k].monthly))
    && CountsMembers(c, c.outcome.messages.Keys, p.summary)
    && p.sourceCount == |c.outcome.sources| && p.flowCount == |c.outcome.flows|
  }

  function InMonth(c: Composition, month: Instant -> Month, ms: set<MessageId>): Month -> set<MessageId> {
    (x: Month) => set m | m in ms && month(ReceivedAt(c, m)) == x
  }

  /** The volume of each month that has messages. */
  ghost predicate MonthlyOf(c: Composition, month: Instant -> Month, ms: set<MessageId>, volume: map<Month, Volume>) {
    && (forall x :: x in volume <==> exists m <- ms :: month(ReceivedAt(c, m)) == x)
    && (forall x <- volume ::
          && volume[x].messages == SumOver(InMonth(c, month, ms)(x), Weight(c, Messages))
          && volume[x].bytes == SumOver(InMonth(c, month, ms)(x), Weight(c, Bytes)))
  }

  // ------------------------------------------------------------ conservation

  lemma MonthsPartition(c: Composition, month: Instant -> Month, ms: set<MessageId>, volume: map<Month, Volume>)
    requires MonthlyOf(c, month, ms, volume)
    ensures Partitions(ms, volume.Keys, InMonth(c, month, ms))
  {
    hide SumOver;
    var part := InMonth(c, month, ms);
    forall m ensures m in ms <==> exists x <- volume.Keys :: m in part(x) {
      if m in ms {
        var x := month(ReceivedAt(c, m));
        assert x in volume && m in part(x);
      }
    }
  }

  /** The months of some messages add up to them. */
  lemma MonthsCover(c: Composition, month: Instant -> Month, ms: set<MessageId>, s: MapSource)
    requires MonthlyOf(c, month, ms, s.monthly)
    ensures SumOver(s.monthly.Keys, MonthMessages(s)) == SumOver(ms, Weight(c, Messages))
    ensures SumOver(s.monthly.Keys, MonthBytes(s)) == SumOver(ms, Weight(c, Bytes))
  {
    hide SumOver, Partitions;
    var part := InMonth(c, month, ms);
    MonthsPartition(c, month, ms, s.monthly);
    SumPartition(ms, Weight(c, Messages), s.monthly.Keys, part, MonthMessages(s));
    SumPartition(ms, Weight(c, Bytes), s.monthly.Keys, part, MonthBytes(s));
  }

  function FlowMessages(c: Composition): FlowSelector -> set<MessageId> {
    (fs: FlowSelector) => if fs in c.outcome.flows then c.outcome.flows[fs].messages else {}
  }

  function SourceMessages(c: Composition): SourceSelector -> set<MessageId> {
    (k: SourceSelector) => if k in c.outcome.sources then c.outcome.sources[k].messages else {}
  }

  function SourceFlows(c: Composition): SourceSelector -> set<FlowSelector> {
    (k: SourceSelector) => if k in c.outcome.sources then c.outcome.sources[k].flows else {}
  }

  lemma FlowMembership(o: Outcome, fs: FlowSelector)
    requires ValidOutcome(o) && fs in o.flows
    ensures forall m :: m in o.flows[fs].messages <==> m in o.messages && o.messages[m].flow == fs
    ensures o.flows[fs].messages != {} && o.flows[fs].source in o.sources && o.flows[fs].messages <= o.messages.Keys
  {
    hide ShownValid;
    assert FlowReportValid(o, fs);
  }

  lemma SourceMembership(o: Outcome, k: SourceSelector)
    requires ValidOutcome(o) && k in o.sources
    ensures forall m :: m in o.sources[k].messages <==> m in o.messages && o.messages[m].source == k
    ensures forall fs :: fs in o.sources[k].flows <==> fs in o.flows && o.flows[fs].source == k
    ensures o.sources[k].messages != {} && o.sources[k].messages <= o.messages.Keys
  {
    hide ShownValid;
    assert SourceReportValid(o, k);
  }

  lemma MessageMembership(o: Outcome, m: MessageId)
    requires ValidOutcome(o) && m in o.messages
    ensures o.messages[m].flow in o.flows && o.messages[m].source in o.sources
    ensures o.flows[o.messages[m].flow].source == o.messages[m].source
  {
    hide ShownValid;
  }

  lemma FlowsPartitionSource(c: Composition, k: SourceSelector)
    requires ValidOutcome(c.outcome) && k in c.outcome.sources
    ensures Partitions(c.outcome.sources[k].messages, c.outcome.sources[k].flows, FlowMessages(c))
  {
    hide ValidOutcome;
    var o := c.outcome;
    var keys, part := o.sources[k].flows, FlowMessages(c);
    SourceMembership(o, k);
    forall fs | fs in keys ensures forall m :: m in part(fs) <==> m in o.messages && o.messages[m].flow == fs {
      FlowMembership(o, fs);
    }
    forall m ensures m in o.sources[k].messages <==> exists fs <- keys :: m in part(fs) {
      if m in o.messages { MessageMembership(o, m); }
      if m in o.sources[k].messages { assert m in part(o.messages[m].flow); }
    }
  }

  lemma SourcesPartitionMessages(c: Composition)
    requires ValidOutcome(c.outcome)
    ensures Partitions(c.outcome.messages.Keys, c.outcome.sources.Keys, SourceMessages(c))
  {
    hide ValidOutcome;
    var o := c.outcome;
    var part := SourceMessages(c);
    forall k | k in o.sources ensures forall m :: m in part(k) <==> m in o.messages && o.messages[m].source == k {
      SourceMembership(o, k);
    }
    forall m ensures m in o.messages.Keys <==> exists k <- o.sources.Keys :: m in part(k) {
      if m in o.messages {
        MessageMembership(o, m);
        assert m in part(o.messages[m].source);
      }
    }
  }

  lemma SourcesPartitionFlows(c: Composition)
    requires ValidOutcome(c.outcome)
    ensures Partitions(c.outcome.flows.Keys, c.outcome.sources.Keys, SourceFlows(c))
  {
    hide ValidOutcome;
    var o := c.outcome;
    var part := SourceFlows(c);
    forall k | k in o.sources ensures forall fs :: fs in part(k) <==> fs in o.flows && o.flows[fs].source == k {
      SourceMembership(o, k);
    }
    forall fs ensures fs in o.flows.Keys <==> exists k <- o.sources.Keys :: fs in part(k) {
      if fs in o.flows {
        FlowMembership(o, fs);
        assert fs in part(o.flows[fs].source);
      }
    }
  }

  // --------------------------------------------------------- the main result

  lemma CountersBounded(c: Composition, ms: set<MessageId>, t: Totals)
    requires CountsMembers(c, ms, t)
    ensures t.shielded <= t.messages && t.review <= t.messages && t.hardExcluded <= t.messages
  {
    SumBound(ms, Weight(c, Shielded), Weight(c, Messages));
    SumBound(ms, Weight(c, Review), Weight(c, Messages));
    SumBound(ms, Weight(c, HardOnes), Weight(c, Messages));
    assert t.Get(Messages) == t.messages && t.Get(Shielded) == t.shielded && t.Get(Review) == t.review && t.Get(HardOnes) == t.hardExcluded;
  }

  lemma MessagesCounted(c: Composition, ms: set<MessageId>, t: Totals)
    requires ms <= c.snap.records.Keys && c.snap.records.Keys == c.outcome.messages.Keys && ms != {}
    requires CountsMembers(c, ms, t)
    ensures t.messages == |ms| > 0
  {
    SumOnes(ms, Weight(c, Messages));
    assert t.Get(Messages) == t.messages;
  }

  /** Counters told from the members: how many there are, how many of them are protected, to review and hard excluded, and their bytes. */
  ghost predicate Tells(c: Composition, ms: set<MessageId>, t: Totals) {
    && t.messages == |ms|
    && t.shielded == |set m | m in ms && m in c.outcome.messages && c.outcome.messages[m].shown.shielded|
    && t.review == |set m | m in ms && m in c.outcome.messages && c.outcome.messages[m].shown.review|
    && t.hardExcluded == |set m | m in ms && m in c.outcome.messages && c.outcome.messages[m].shown.hardExcluded|
    && t.bytes == SumOver(ms, SizeOf(c))
  }

  lemma CountersTell(c: Composition, ms: set<MessageId>, t: Totals)
    requires ms <= c.snap.records.Keys && c.snap.records.Keys == c.outcome.messages.Keys && CountsMembers(c, ms, t)
    ensures Tells(c, ms, t)
  {
    hide SumOver, WeightOf;
    FlagTells(c, ms, Messages, ms);
    FlagTells(c, ms, Shielded, set m | m in ms && m in c.outcome.messages && c.outcome.messages[m].shown.shielded);
    FlagTells(c, ms, Review, set m | m in ms && m in c.outcome.messages && c.outcome.messages[m].shown.review);
    FlagTells(c, ms, HardOnes, set m | m in ms && m in c.outcome.messages && c.outcome.messages[m].shown.hardExcluded);
    BytesTell(c, ms);
    assert t.Get(Messages) == t.messages && t.Get(Bytes) == t.bytes && t.Get(Shielded) == t.shielded && t.Get(Review) == t.review
      && t.Get(HardOnes) == t.hardExcluded;
  }

  lemma FlagTells(c: Composition, ms: set<MessageId>, me: Measure, on: set<MessageId>)
    requires ms <= c.snap.records.Keys && c.snap.records.Keys == c.outcome.messages.Keys && me != Bytes
    requires on == match me
      case Shielded => (set m | m in ms && m in c.outcome.messages && c.outcome.messages[m].shown.shielded)
      case Review => (set m | m in ms && m in c.outcome.messages && c.outcome.messages[m].shown.review)
      case HardOnes => (set m | m in ms && m in c.outcome.messages && c.outcome.messages[m].shown.hardExcluded)
      case _ => ms
    ensures SumOver(ms, Weight(c, me)) == |on|
  {
    hide SumOver;
    SumFlags(ms, Weight(c, me), on);
  }

  lemma BytesTell(c: Composition, ms: set<MessageId>)
    requires ms <= c.snap.records.Keys && c.snap.records.Keys == c.outcome.messages.Keys
    ensures SumOver(ms, Weight(c, Bytes)) == SumOver(ms, SizeOf(c))
  {
    hide SumOver;
    SumAgree(ms, Weight(c, Bytes), SizeOf(c));
  }

  function SizeOf(c: Composition): MessageId -> int {
    (m: MessageId) => if m in c.snap.records then c.snap.records[m].size else 0
  }

  /** Every counter of the map tells its members. */
  lemma ProjectionTells(c: Composition, month: Instant -> Month, p: Projection)
    requires c.Coherent() && Counts(c, month, p)
    ensures forall fs <- p.flows :: fs in c.outcome.flows && Tells(c, c.outcome.flows[fs].messages, p.flows[fs].totals)
    ensures forall k <- p.sources :: k in c.outcome.sources && Tells(c, c.outcome.sources[k].messages, p.sources[k].totals)
    ensures Tells(c, c.outcome.messages.Keys, p.summary)
  {
    hide ValidClassification, ValidOutcome, Consistent, Tells, CountsMembers, MonthlyOf, Spans;
    forall fs | fs in p.flows ensures Tells(c, c.outcome.flows[fs].messages, p.flows[fs].totals) {
      FlowMembership(c.outcome, fs);
      CountersTell(c, c.outcome.flows[fs].messages, p.flows[fs].totals);
    }
    forall k | k in p.sources ensures Tells(c, c.outcome.sources[k].messages, p.sources[k].totals) {
      SourceMembership(c.outcome, k);
      CountersTell(c, c.outcome.sources[k].messages, p.sources[k].totals);
    }
    CountersTell(c, c.outcome.messages.Keys, p.summary);
  }

  lemma CountedBasics(c: Composition, ms: set<MessageId>, t: Totals)
    requires CountsMembers(c, ms, t)
    ensures t.messages == SumOver(ms, Weight(c, Messages)) && t.bytes == SumOver(ms, Weight(c, Bytes))
  {
    assert t.Get(Messages) == t.messages && t.Get(Bytes) == t.bytes;
  }

  lemma FlowsAddToSource(c: Composition, month: Instant -> Month, p: Projection, k: SourceSelector, me: Measure)
    requires c.Coherent() && Counts(c, month, p) && k in p.sources
    ensures SumOver(p.sources[k].flows, FlowTotal(p, me)) == p.sources[k].totals.Get(me)
  {
    hide ValidClassification, ValidOutcome, Consistent, WeightOf, SumOver, Partitions, MonthlyOf;
    SourceMembership(c.outcome, k);
    FlowsPartitionSource(c, k);
    SumPartition(c.outcome.sources[k].messages, Weight(c, me), p.sources[k].flows, FlowMessages(c), FlowTotal(p, me));
  }

  lemma SourceFlowsKnown(c: Composition, month: Instant -> Month, p: Projection, k: SourceSelector)
    requires c.Coherent() && Counts(c, month, p) && k in p.sources
    ensures p.sources[k].flows == (set fs | fs in p.flows && p.flows[fs].source == k)
  {
    hide ValidClassification, ValidOutcome, Consistent, WeightOf, SumOver, MonthlyOf;
    SourceMembership(c.outcome, k);
  }

  lemma SourceAddsUp(c: Composition, month: Instant -> Month, p: Projection, k: SourceSelector)
    requires c.Coherent() && Counts(c, month, p) && k in p.sources
    requires p.sources[k].firstSeen <= p.sources[k].lastSeen
    ensures SourceConserves(p, k)
  {
    hide ValidClassification, ValidOutcome, Consistent, Weight, SumOver, MonthlyOf, FlowTotal, CountsMembers, WeightOf, MonthMessages,
      MonthBytes;
    var o, s := c.outcome, p.sources[k];
    SourceMembership(o, k);
    SourceFlowsKnown(c, month, p, k);
    forall me: Measure ensures SumOver(s.flows, FlowTotal(p, me)) == s.totals.Get(me) {
      FlowsAddToSource(c, month, p, k, me);
    }
    MonthsCover(c, month, o.sources[k].messages, s);
    CountedBasics(c, o.sources[k].messages, s.totals);
    CountersBounded(c, o.sources[k].messages, s.totals);
    MessagesCounted(c, o.sources[k].messages, s.totals);
  }

  lemma SummaryAddsUp(c: Composition, month: Instant -> Month, p: Projection, me: Measure)
    requires c.Coherent() && Counts(c, month, p)
    ensures SumOver(p.sources.Keys, SourceTotal(p, me)) == p.summary.Get(me)
  {
    hide ValidClassification, ValidOutcome, Consistent, WeightOf, MonthlyOf, SumOver, Partitions;
    SourcesPartitionMessages(c);
    SumPartition(c.outcome.messages.Keys, Weight(c, me), c.outcome.sources.Keys, SourceMessages(c), SourceTotal(p, me));
  }

  lemma FlowsAddUp(c: Composition, month: Instant -> Month, p: Projection)
    requires c.Coherent() && Counts(c, month, p)
    ensures SumOver(p.sources.Keys, FlowCountOf(p)) == p.flowCount
  {
    hide ValidClassification, ValidOutcome, Consistent, WeightOf, MonthlyOf, SumOver, Partitions;
    var one := (fs: FlowSelector) => 1;
    SourcesPartitionFlows(c);
    SumOnes(c.outcome.flows.Keys, one);
    forall k | k in p.sources.Keys ensures FlowCountOf(p)(k) == SumOver(SourceFlows(c)(k), one) {
      SumOnes(SourceFlows(c)(k), one);
    }
    SumPartition(c.outcome.flows.Keys, one, c.outcome.sources.Keys, SourceFlows(c), FlowCountOf(p));
    SameSize(p.flows, c.outcome.flows);
  }

  /**
   Conservation: on every coherent composition the counters of flows, sources and
   summary agree and the months add up, so no check of the map can fail.
   */
  lemma ProjectionConserves(c: Composition, month: Instant -> Month, p: Projection)
    requires c.Coherent() && Counts(c, month, p)
    requires forall fs <- p.flows :: p.flows[fs].firstSeen <= p.flows[fs].lastSeen
    requires forall k <- p.sources :: p.sources[k].firstSeen <= p.sources[k].lastSeen
    ensures Conserves(p)
  {
    hide ValidClassification, ValidOutcome, Consistent, WeightOf, SourceConserves, MonthlyOf, SourceShapeValid, SumOver, CountsMembers;
    forall fs | fs in p.flows ensures p.flows[fs].source in p.sources && FlowShapeValid(p.flows[fs]) {
      FlowMembership(c.outcome, fs);
      CountersBounded(c, c.outcome.flows[fs].messages, p.flows[fs].totals);
      MessagesCounted(c, c.outcome.flows[fs].messages, p.flows[fs].totals);
    }
    forall k | k in p.sources ensures SourceConserves(p, k) {
      SourceAddsUp(c, month, p, k);
    }
    forall me: Measure ensures SumOver(p.sources.Keys, SourceTotal(p, me)) == p.summary.Get(me) {
      SummaryAddsUp(c, month, p, me);
    }
    FlowsAddUp(c, month, p);
    SameSize(p.sources, c.outcome.sources);
    SameSize(p.flows, c.outcome.flows);
  }

  lemma SameSize<K, V, W>(a: map<K, V>, b: map<K, W>)
    requires a.Keys == b.Keys
    ensures |a| == |b|
  {
    assert |a| == |a.Keys| && |b| == |b.Keys|;
  }
}
