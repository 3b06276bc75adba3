/** Which messages a cleanup plan considers, and which of them it may keep selected. */
module CleanupScope {
  import opened Basics
  import opened MailModel
  import opened PolicyModel
  import opened StructuralPolicy
  import opened EffectiveFlows
  import opened Protection
  import opened PolicyApplication
  import opened ProtectionTheorems
  import opened PolicyResult
  import opened Sorting

  /** Instants are microseconds since an epoch. */
  type Instant = int

  const MAX_MESSAGE_SIZE := 2_147_483_647
  const MAX_CONSIDERED := 100_000
  const SYSTEM_LABELS: set<Label> := {Inbox, TabPersonal, TabSocial, TabPromotions, TabUpdates, TabForums}

  datatype ReadState = AnyRead | OnlyRead | OnlyUnread

  datatype CleanupTarget =
    | SourceTarget(source: SourceSelector)
    | FlowTarget(flow: FlowSelector)
    | SenderTarget(address: Address)

  datatype PlanReason =
    | Guard(reason: Reason)
    | OutsideDate | ReadStateMismatch | ExcludedLabel | KeepLatest
    | MissingAfterCreation | ScopeChanged | ProtectionChanged

  /** What a plan selects: its targets and filters, with the date window already resolved. */
  datatype Selection = Selection(
    targets: seq<CleanupTarget>,
    onOrAfter: Option<Instant>,
    before: Option<Instant>,
    read: ReadState,
    excluded: set<Label>,
    keepLatest: nat)

  /** The records, the policy report and the revisions one command observes. */
  datatype Composition = Composition(snap: Snapshot, outcome: Outcome, mapRevision: int, policyRevision: int) {
    ghost predicate Coherent() {
      && snap.Valid()
      && outcome.messages.Keys == snap.records.Keys
      && ValidOutcome(outcome)
      && forall m <- outcome.messages :: Consistent(outcome.messages[m].shown)
    }
  }

  /** Compositions made from a policy report are coherent. */
  lemma ReportsAreCoherent(snap: Snapshot, ps: Policies, mapRevision: int, policyRevision: int)
    requires Accepted(snap, ps)
    ensures Composition(snap, OutcomeOf(snap, ps), mapRevision, policyRevision).Coherent()
  {
    hide ValidClassification, ValidPolicies, ValidOutcome, ShownOn, Consistent, Decide, DecidedFor;
    OutcomeIsValid(snap, ps);
    forall m | m in snap.records ensures Consistent(OutcomeOf(snap, ps).messages[m].shown) {
      ShownConsistent(snap, ps, m);
    }
  }

  // ----------------------------------------------------------------- targets

  predicate SizesBounded(c: Composition) {
    forall m <- c.snap.records :: c.snap.records[m].size <= MAX_MESSAGE_SIZE
  }

  /** Every sender belongs to the source its message was classified in. */
  predicate SendersKnown(c: Composition)
    requires c.Coherent()
  {
    forall m <- c.snap.records :: c.snap.records[m].sender != None ==> CanonicalSender(c.snap, m) != None
  }

  function TargetMessages(c: Composition, t: CleanupTarget): (ms: set<MessageId>)
    requires c.outcome.messages.Keys == c.snap.records.Keys
    ensures ms <= c.snap.records.Keys
  {
    match t
    case SourceTarget(k) => set m | m in c.outcome.messages && c.outcome.messages[m].source == k
    case FlowTarget(fs) => set m | m in c.outcome.messages && c.outcome.messages[m].flow == fs
    case SenderTarget(a) => set m | m in c.snap.records && c.snap.records[m].sender == Some(a)
  }

  /** Whether the catalog of the composition lists a target. */
  predicate Listed(c: Composition, t: CleanupTarget)
    requires c.outcome.messages.Keys == c.snap.records.Keys
  {
    match t
    case SourceTarget(k) => k in c.outcome.sources
    case FlowTarget(fs) => fs in c.outcome.flows
    case SenderTarget(_) => TargetMessages(c, t) != {}
  }

  predicate LabelListed(c: Composition, l: Label) {
    l in SYSTEM_LABELS && exists m <- c.snap.records :: l in c.snap.records[m].labels
  }

  /** The structural targets of a selection still exist. */
  predicate StructureCurrent(c: Composition, sel: Selection)
    requires c.outcome.messages.Keys == c.snap.records.Keys
  {
    forall t <- sel.targets :: t.SenderTarget? || Listed(c, t)
  }

  function Universe(c: Composition, targets: seq<CleanupTarget>): (ms: set<MessageId>)
    requires c.outcome.messages.Keys == c.snap.records.Keys
    ensures ms <= c.snap.records.Keys
  {
    set t, m | t in targets && m in TargetMessages(c, t) :: m
  }

  /** A listed target reaches at least one message. */
  lemma ListedReaches(c: Composition, t: CleanupTarget)
    requires c.Coherent() && Listed(c, t)
    ensures TargetMessages(c, t) != {}
  {
    hide ValidClassification;
    if t.SourceTarget? {
      assert SourceReportValid(c.outcome, t.source);
    } else if t.FlowTarget? {
      assert FlowReportValid(c.outcome, t.flow);
    }
  }

  // ----------------------------------------------------------------- reasons

  /** The protection reasons of a message, checked against its flags. */
  function PolicyReasonsOf(shown: Shown): Option<set<PlanReason>> {
    var flagged := shown.shielded || shown.review || shown.hardExcluded;
    if flagged != (shown.reasons != {}) then None else Some(set r | r in shown.reasons :: Guard(r))
  }

  /** On every policy report the flags and the reasons agree, so the check never fails. */
  lemma FlagsAgree(c: Composition, m: MessageId)
    requires c.Coherent() && m in c.snap.records
    ensures PolicyReasonsOf(c.outcome.messages[m].shown) == Some(GuardsOn(c, m))
  {
    hide ValidClassification, ValidOutcome;
    assert Consistent(c.outcome.messages[m].shown);
  }

  function GuardsOn(c: Composition, m: MessageId): set<PlanReason>
    requires m in c.outcome.messages
  {
    set r | r in c.outcome.messages[m].shown.reasons :: Guard(r)
  }

  predicate OutsideWindow(sel: Selection, at: Instant) {
    (sel.onOrAfter.Some? && at < sel.onOrAfter.value) || (sel.before.Some? && at >= sel.before.value)
  }

  predicate ReadMismatch(sel: Selection, labels: set<Label>) {
    (sel.read == OnlyUnread && Label.Unread !in labels) || (sel.read == OnlyRead && Label.Unread in labels)
  }

  function BaseReasons(c: Composition, sel: Selection, m: MessageId): set<PlanReason>
    requires m in c.snap.records && m in c.outcome.messages
  {
    GuardsOn(c, m)
    + (if OutsideWindow(sel, c.snap.records[m].receivedAt) then {OutsideDate} else {})
    + (if ReadMismatch(sel, c.snap.records[m].labels) then {ReadStateMismatch} else {})
    + (if !(c.snap.records[m].labels !! sel.excluded) then {ExcludedLabel} else {})
  }

  /** The members of a universe that nothing excludes. */
  function Candidates(c: Composition, sel: Selection, universe: set<MessageId>): (ms: set<MessageId>)
    requires c.outcome.messages.Keys == c.snap.records.Keys
    ensures ms <= universe * c.snap.records.Keys
  {
    set m | m in universe && m in c.snap.records && BaseReasons(c, sel, m) == {}
  }

  // ------------------------------------------------------------------- quota

  function Identity(): MessageId -> int {
    (m: MessageId) => m
  }

  function Received(c: Composition): MessageId -> Instant {
    (m: MessageId) => if m in c.snap.records then c.snap.records[m].receivedAt else 0
  }

  function SameFlow(c: Composition, among: set<MessageId>, fs: FlowSelector): set<MessageId> {
    set m | m in among && m in c.outcome.messages && c.outcome.messages[m].flow == fs
  }

  /** The members of a set that come before a message, newest first and then by identifier. */
  function Newer(c: Composition, among: set<MessageId>, m: MessageId): set<MessageId> {
    set n | n in among && Precedes(Identity(), Received(c), n, m)
  }

  /** The candidates the quota lets stay: at most the newest `keepLatest` of each flow, or all when it is zero. */
  function QuotaAllowed(c: Composition, sel: Selection, universe: set<MessageId>): set<MessageId>
    requires c.outcome.messages.Keys == c.snap.records.Keys
  {
    var candidates := Candidates(c, sel, universe);
    set m | m in candidates
            && (sel.keepLatest == 0
                || |Newer(c, SameFlow(c, candidates, c.outcome.messages[m].flow), m)| < sel.keepLatest)
  }

  /** What a composition leaves of a selection. */
  function Clean(c: Composition, sel: Selection): set<MessageId>
    requires c.outcome.messages.Keys == c.snap.records.Keys
  {
    if StructureCurrent(c, sel) then QuotaAllowed(c, sel, Universe(c, sel.targets)) else {}
  }

  // ------------------------------------------------------ what clean means

  /** A message of a target: of its source, of its flow or from its sender. */
  ghost predicate InTarget(c: Composition, t: CleanupTarget, m: MessageId) {
    && m in c.snap.records && m in c.outcome.messages
    && match t
       case SourceTarget(k) => c.outcome.messages[m].source == k
       case FlowTarget(fs) => c.outcome.messages[m].flow == fs
       case SenderTarget(a) => c.snap.records[m].sender == Some(a)
  }

  /** A message of the targets that passes every filter and that nothing protects. */
  ghost predicate Fits(c: Composition, sel: Selection, m: MessageId) {
    && m in c.snap.records && m in c.outcome.messages
    && (exists t <- sel.targets :: InTarget(c, t, m))
    && !c.outcome.messages[m].shown.shielded
    && (sel.onOrAfter.Some? ==> sel.onOrAfter.value <= c.snap.records[m].receivedAt)
    && (sel.before.Some? ==> c.snap.records[m].receivedAt < sel.before.value)
    && (sel.read == OnlyUnread ==> Label.Unread in c.snap.records[m].labels)
    && (sel.read == OnlyRead ==> Label.Unread !in c.snap.records[m].labels)
    && (forall l <- sel.excluded :: l !in c.snap.records[m].labels)
  }

  /** The other messages of its flow that fit and are newer, or as new and first by identifier. */
  ghost function NewerThat(c: Composition, sel: Selection, m: MessageId): set<MessageId>
    requires m in c.snap.records && m in c.outcome.messages
  {
    set n | n in c.snap.records && Fits(c, sel, n) && c.outcome.messages[n].flow == c.outcome.messages[m].flow
            && (c.snap.records[n].receivedAt > c.snap.records[m].receivedAt
                || (c.snap.records[n].receivedAt == c.snap.records[m].receivedAt && n < m))
  }

  /** The sources and flows a selection names still exist. */
  ghost predicate TargetsExist(c: Composition, sel: Selection) {
    forall t <- sel.targets :: (t.SourceTarget? ==> t.source in c.outcome.sources) && (t.FlowTarget? ==> t.flow in c.outcome.flows)
  }

  /** A message a plan may touch: it fits, and fewer than the quota of its flow are newer, when there is a quota. */
  ghost predicate Touchable(c: Composition, sel: Selection, m: MessageId) {
    && TargetsExist(c, sel) && Fits(c, sel, m)
    && (sel.keepLatest > 0 ==> |NewerThat(c, sel, m)| < sel.keepLatest)
  }

  lemma UniverseMeans(c: Composition, targets: seq<CleanupTarget>, m: MessageId)
    requires c.outcome.messages.Keys == c.snap.records.Keys
    ensures m in Universe(c, targets) <==> exists t <- targets :: InTarget(c, t, m)
  {
    forall t | t in targets ensures m in TargetMessages(c, t) <==> InTarget(c, t, m) {
    }
  }

  /** The candidates are the messages that fit. */
  lemma CandidatesFit(c: Composition, sel: Selection, m: MessageId)
    requires c.Coherent()
    ensures m in Candidates(c, sel, Universe(c, sel.targets)) <==> Fits(c, sel, m)
  {
    hide ValidClassification, ValidOutcome, Universe, InTarget, OutsideWindow, ReadMismatch;
    UniverseMeans(c, sel.targets, m);
    if m in c.snap.records {
      GuardsWhenShielded(c, m);
      FiltersMean(sel, c.snap.records[m]);
    }
  }

  lemma GuardsWhenShielded(c: Composition, m: MessageId)
    requires c.Coherent() && m in c.snap.records
    ensures GuardsOn(c, m) == {} <==> !c.outcome.messages[m].shown.shielded
  {
    hide ValidClassification, ValidOutcome;
    assert Consistent(c.outcome.messages[m].shown);
    if c.outcome.messages[m].shown.reasons != {} {
      var r := SomeMember(c.outcome.messages[m].shown.reasons);
      assert Guard(r) in GuardsOn(c, m);
    }
  }

  lemma FiltersMean(sel: Selection, record: Record)
    ensures !OutsideWindow(sel, record.receivedAt) <==>
      (sel.onOrAfter.Some? ==> sel.onOrAfter.value <= record.receivedAt) && (sel.before.Some? ==> record.receivedAt < sel.before.value)
    ensures !ReadMismatch(sel, record.labels) <==>
      (sel.read == OnlyUnread ==> Label.Unread in record.labels) && (sel.read == OnlyRead ==> Label.Unread !in record.labels)
    ensures record.labels !! sel.excluded <==> forall l <- sel.excluded :: l !in record.labels
  {
  }

  lemma NewerMeans(c: Composition, sel: Selection, m: MessageId)
    requires c.Coherent() && m in c.snap.records
    ensures Newer(c, SameFlow(c, Candidates(c, sel, Universe(c, sel.targets)), c.outcome.messages[m].flow), m) == NewerThat(c, sel, m)
  {
    hide ValidClassification, ValidOutcome, Candidates, Fits, Universe;
    forall n ensures n in Candidates(c, sel, Universe(c, sel.targets)) <==> Fits(c, sel, n) {
      CandidatesFit(c, sel, n);
    }
    InRecords(c, sel);
  }

  lemma InRecords(c: Composition, sel: Selection)
    ensures forall n :: Fits(c, sel, n) ==> n in c.snap.records && n in c.outcome.messages
  {
  }

  /**
   Clean means present, of a target, unprotected, inside the date window, of the
   right read state, without an excluded label and within the quota of its flow,
   while the named sources and flows exist: told from the records themselves.
   */
  lemma CleanMeans(c: Composition, sel: Selection, m: MessageId)
    requires c.Coherent()
    ensures m in Clean(c, sel) <==> Touchable(c, sel, m)
  {
    hide ValidClassification, ValidOutcome, Universe, Newer, SameFlow, Candidates, Fits, NewerThat;
    CandidatesFit(c, sel, m);
    InRecords(c, sel);
    if m in c.snap.records {
      NewerMeans(c, sel, m);
    }
    assert StructureCurrent(c, sel) <==> TargetsExist(c, sel);
  }

  // --------------------------------------------------- the quota of one flow

  /** The first `k` of a newest-first list are those that fewer than `k` items precede. */
  lemma FirstOnes<T>(s: seq<T>, id: T -> int, at: T -> int, k: nat, m: T)
    requires Ordered(s, (a, b) => Precedes(id, at, a, b)) && m in s
    ensures m in s[..if k < |s| then k else |s|] <==> |set x | x in Elements(s) && Precedes(id, at, x, m)| < k
  {
    var i :| 0 <= i < |s| && s[i] == m;
    RankIsPosition(s, id, at, i);
    assert (set x | x in Elements(s) && Precedes(id, at, x, m)) == set x | x in s && Precedes(id, at, x, s[i]);
    if m in s[..if k < |s| then k else |s|] {
      var j :| 0 <= j < (if k < |s| then k else |s|) && s[j] == m;
      RankIsPosition(s, id, at, j);
    }
  }

  /** A flow keeps the smaller of the quota and the number of its candidates. */
  lemma QuotaCount(s: seq<MessageId>, id: MessageId -> int, at: MessageId -> int, k: nat)
    requires Ordered(s, (a, b) => Precedes(id, at, a, b))
    ensures |set m | m in Elements(s) && |set x | x in Elements(s) && Precedes(id, at, x, m)| < k|
         == if k < |s| then k else |s|
  {
    var n := if k < |s| then k else |s|;
    var kept := set m | m in Elements(s) && |set x | x in Elements(s) && Precedes(id, at, x, m)| < k;
    forall m ensures m in kept <==> m in s[..n] {
      if m in s { FirstOnes(s, id, at, k, m); }
    }
    assert kept == Elements(s[..n]);
    forall a, b | 0 <= a < b < n ensures s[..n][a] != s[..n][b] {
      assert Precedes(id, at, s[a], s[b]);
    }
    DistinctSize(s[..n]);
  }

  lemma {:induction false} AsSequence(ms: set<MessageId>) returns (s: seq<MessageId>)
    ensures Elements(s) == ms && Distinct(s)
    decreases |ms|
  {
    if ms == {} {
      s := [];
    } else {
      var m := SomeMember(ms);
      var rest := AsSequence(ms - {m});
      s := [m] + rest;
      assert forall x :: x in Elements(s) <==> x == m || x in Elements(rest);
    }
  }

  /** With a quota, each flow keeps exactly the smaller of the quota and its number of candidates. */
  lemma QuotaKeepsNewest(c: Composition, sel: Selection, universe: set<MessageId>, fs: FlowSelector)
    requires c.outcome.messages.Keys == c.snap.records.Keys && sel.keepLatest > 0
    ensures var all := SameFlow(c, Candidates(c, sel, universe), fs);
      |SameFlow(c, QuotaAllowed(c, sel, universe), fs)| == if sel.keepLatest < |all| then sel.keepLatest else |all|
  {
    hide BaseReasons;
    var all := SameFlow(c, Candidates(c, sel, universe), fs);
    var s := AsSequence(all);
    var ordered := NewestFirst(s, Identity(), Received(c));
    NewestFirstOrdered(s, Identity(), Received(c));
    SameElements(s, ordered);
    QuotaCount(ordered, Identity(), Received(c), sel.keepLatest);
    DistinctSize(s);
    assert |ordered| == |multiset(ordered)| == |s|;
    assert SameFlow(c, QuotaAllowed(c, sel, universe), fs)
        == set m | m in all && |set x | x in all && Precedes(Identity(), Received(c), x, m)| < sel.keepLatest by {
      forall m | m in all ensures Newer(c, all, m) == set x | x in all && Precedes(Identity(), Received(c), x, m) {
      }
    }
  }

  lemma SameElements<T>(s: seq<T>, t: seq<T>)
    requires multiset(s) == multiset(t)
    ensures Elements(s) == Elements(t)
  {
    forall x ensures x in s <==> x in t {
      SameItems(s, t, x);
    }
  }
}
