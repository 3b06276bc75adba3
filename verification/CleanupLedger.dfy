/** The persisted plan: members, samples, an append-only ledger of events and removals, and its checks. */
module CleanupLedger {
  import opened Basics
  import opened MailModel
  import opened PolicyModel
  import opened StructuralPolicy
  import opened Protection
  import opened Sorting
  import opened CleanupScope

  /** Twenty-four hours, in microseconds. */
  const VALIDITY: int := 86_400 * 1_000_000
  const MAX_AGGREGATE_SIZE := 214_748_364_700_000
  const MAX_SAMPLES := 5
  const MAX_TARGETS := 100
  const MAX_EXCLUDED_LABELS := 100
  const MAX_KEEP_LATEST := 10_000

  datatype PlanState = Frozen | Reduced | Invalidated | Cancelled | Expired

  datatype EventKind = CreatedEvent | RevalidatedEvent | ReducedEvent | InvalidatedEvent | CancelledEvent

  /** `local` is the digest of the message identifier that orders the members. */
  datatype Member = Member(
    message: MessageId,
    local: int,
    receivedAt: Instant,
    size: nat,
    source: SourceSelector,
    flow: FlowSelector,
    unread: bool,
    reasons: set<PlanReason>)
  {
    predicate Selected() {
      reasons == {}
    }
  }

  datatype Sample = Sample(included: bool, position: nat, member: Member)

  datatype Revisions = Revisions(mapRevision: int, policyRevision: int)

  datatype Event = Event(
    revision: nat,
    kind: EventKind,
    at: Instant,
    state: PlanState,
    observed: Option<Revisions>,
    removed: nat,
    remaining: nat)

  datatype Removal = Removal(message: MessageId, revision: nat, at: Instant, reasons: set<PlanReason>)

  datatype Plan = Plan(
    selection: Selection,
    created: Revisions,
    createdAt: Instant,
    expiresAt: Instant,
    members: seq<Member>,
    samples: seq<Sample>,
    events: seq<Event>,
    removals: seq<Removal>)
  {
    function Last(): Event
      requires events != []
    {
      events[|events| - 1]
    }

    function Selected(): set<MessageId> {
      SelectedIn(members)
    }

    function Removed(): set<MessageId> {
      RemovedIn(removals)
    }

    /** The messages the plan may still touch. */
    function Eligible(): set<MessageId> {
      Selected() - Removed()
    }

    function EligibleCount(): int {
      CountSelected(members) - |removals|
    }
  }

  function RemovedIn(rs: seq<Removal>): set<MessageId> {
    set r | r in rs :: r.message
  }

  function SelectedIn(ms: seq<Member>): set<MessageId> {
    set x | x in ms && x.Selected() :: x.message
  }

  function MessagesIn(ms: seq<Member>): set<MessageId> {
    set x | x in ms :: x.message
  }

  // ----------------------------------------------------------------- totals

  function CountSelected(ms: seq<Member>): nat {
    if ms == [] then 0 else (if ms[0].Selected() then 1 else 0) + CountSelected(ms[1..])
  }

  function SumSizes(ms: seq<Member>, only: Member -> bool): nat {
    if ms == [] then 0 else (if only(ms[0]) then ms[0].size else 0) + SumSizes(ms[1..], only)
  }

  function SelectedBytes(p: Plan): nat {
    SumSizes(p.members, (x: Member) => x.Selected())
  }

  function ExcludedBytes(p: Plan): nat {
    SumSizes(p.members, (x: Member) => !x.Selected())
  }

  function EligibleBytes(p: Plan): nat {
    SumSizes(p.members, (x: Member) => x.Selected() && x.message !in p.Removed())
  }

  function RemovedBytes(p: Plan): nat {
    SumSizes(p.members, (x: Member) => x.Selected() && x.message in p.Removed())
  }

  /** How many removals a revision recorded. */
  function RemovalsAt(rs: seq<Removal>, revision: nat): nat {
    if rs == [] then 0 else (if rs[0].revision == revision then 1 else 0) + RemovalsAt(rs[1..], revision)
  }

  function SumRemoved(es: seq<Event>): nat {
    if es == [] then 0 else es[0].removed + SumRemoved(es[1..])
  }

  // ----------------------------------------------------------------- checks

  predicate CreationReason(r: PlanReason) {
    !r.MissingAfterCreation? && !r.ScopeChanged? && !r.ProtectionChanged?
  }

  predicate MemberValid(x: Member) {
    x.size <= MAX_MESSAGE_SIZE && forall r <- x.reasons :: CreationReason(r)
  }

  /** A removal names why: missing stands alone, and a protection reason comes with the change it caused. */
  predicate RemovalReasonsValid(reasons: set<PlanReason>) {
    && reasons != {}
    && (MissingAfterCreation in reasons ==> reasons == {MissingAfterCreation})
    && ((exists r <- reasons :: r.Guard?) <==> ProtectionChanged in reasons)
  }

  predicate EventValid(e: Event) {
    && e.revision >= 1 && e.state != Expired
    && (e.observed == None <==> e.kind == CancelledEvent)
    && match e.kind
       case CreatedEvent => e.revision == 1 && e.removed == 0 && (e.state == Frozen || e.state == Invalidated)
                            && (e.state == Frozen <==> e.remaining > 0)
       case RevalidatedEvent => (e.state == Frozen || e.state == Reduced) && e.removed == 0 && e.remaining > 0
       case ReducedEvent => e.state == Reduced && e.removed > 0 && e.remaining > 0
       case InvalidatedEvent => e.state == Invalidated && e.removed > 0 && e.remaining == 0
       case CancelledEvent => e.state == Cancelled && e.removed == 0 && e.remaining > 0
  }

  predicate Terminal(s: PlanState) {
    s == Cancelled || s == Invalidated
  }

  /** One event may follow another. */
  predicate Follows(previous: Event, current: Event) {
    && !Terminal(previous.state)
    && previous.at <= current.at
    && match current.kind
       case RevalidatedEvent => current.state == previous.state && current.remaining == previous.remaining
       case ReducedEvent => current.remaining == previous.remaining - current.removed
       case InvalidatedEvent => current.remaining == previous.remaining - current.removed
       case CancelledEvent => current.remaining == previous.remaining
       case CreatedEvent => false
  }

  ghost predicate MembersValid(ms: seq<Member>) {
    && 0 < |ms| <= MAX_CONSIDERED
    && (forall x <- ms :: MemberValid(x))
    && (forall i, j :: 0 <= i < j < |ms| ==> ms[i].local < ms[j].local)
    && (forall i, j :: 0 <= i < j < |ms| ==> ms[i].message != ms[j].message)
  }

  function LocalOf(): Sample -> int {
    (s: Sample) => s.member.local
  }

  function DateOf(): Sample -> Instant {
    (s: Sample) => s.member.receivedAt
  }

  /** The samples of one kind: at most five, numbered, newest first. */
  ghost predicate SampleListValid(ss: seq<Sample>) {
    && |ss| <= MAX_SAMPLES
    && (forall i :: 0 <= i < |ss| ==> ss[i].position == i)
    && Ordered(ss, (a, b) => Precedes(LocalOf(), DateOf(), a, b))
  }

  function OfKind(ss: seq<Sample>, included: bool): seq<Sample> {
    if ss == [] then []
    else (if ss[0].included == included then [ss[0]] else []) + OfKind(ss[1..], included)
  }

  ghost predicate SamplesValid(ss: seq<Sample>, ms: seq<Member>) {
    && (forall s <- ss :: s.member in ms && (s.included <==> s.member.Selected()))
    && (forall i, j :: 0 <= i < j < |ss| ==> ss[i].member != ss[j].member)
    && SampleListValid(OfKind(ss, true))
    && SampleListValid(OfKind(ss, false))
  }

  ghost predicate EventsValid(p: Plan) {
    && p.events != []
    && (forall i :: 0 <= i < |p.events| ==> EventValid(p.events[i]) && p.events[i].revision == i + 1)
    && p.events[0].kind == CreatedEvent
    && p.events[0].at == p.createdAt && p.events[0].observed == Some(p.created)
    && (forall i :: 0 <= i < |p.events| ==> p.createdAt <= p.events[i].at < p.expiresAt)
    && (forall i :: 1 <= i < |p.events| ==> Follows(p.events[i - 1], p.events[i]))
  }

  ghost predicate RemovalsValid(p: Plan)
    requires p.events != []
  {
    && (forall i, j :: 0 <= i < j < |p.removals| ==> p.removals[i].message != p.removals[j].message)
    && (forall r <- p.removals ::
          && r.message in p.Selected()
          && 2 <= r.revision <= |p.events| && r.at == p.events[r.revision - 1].at
          && RemovalReasonsValid(r.reasons))
    && (forall i :: 0 <= i < |p.events| ==> p.events[i].removed == RemovalsAt(p.removals, i + 1))
  }

  ghost predicate StateValid(p: Plan)
    requires p.events != []
  {
    && p.events[0].remaining == CountSelected(p.members)
    && p.Last().remaining == p.EligibleCount()
    && (p.Last().state == Frozen ==> p.removals == [])
    && (p.Last().state == Reduced ==> p.removals != [] && p.EligibleCount() > 0)
    && (p.Last().state == Invalidated ==> p.EligibleCount() == 0)
  }

  /** One to a hundred different targets, at most a hundred excluded labels and a quota of at most 10,000. */
  ghost predicate SelectionValid(sel: Selection) {
    && 1 <= |sel.targets| <= MAX_TARGETS && Distinct(sel.targets)
    && |sel.excluded| <= MAX_EXCLUDED_LABELS
    && sel.keepLatest <= MAX_KEEP_LATEST
  }

  lemma SelectionLimits(sel: Selection)
    ensures SelectionValid(sel) <==>
      && 1 <= |sel.targets| <= 100 && (forall i, j :: 0 <= i < j < |sel.targets| ==> sel.targets[i] != sel.targets[j])
      && |sel.excluded| <= 100 && sel.keepLatest <= 10_000
    ensures MAX_AGGREGATE_SIZE == 100_000 * 2_147_483_647
  {
  }

  /** Every check of the persisted plan's constructor. */
  ghost predicate ValidPlan(p: Plan) {
    && SelectionValid(p.selection)
    && p.expiresAt == p.createdAt + VALIDITY
    && MembersValid(p.members)
    && SamplesValid(p.samples, p.members)
    && EventsValid(p)
    && RemovalsValid(p)
    && StateValid(p)
    && SelectedBytes(p) <= MAX_AGGREGATE_SIZE && ExcludedBytes(p) <= MAX_AGGREGATE_SIZE && EligibleBytes(p) <= MAX_AGGREGATE_SIZE
  }

  // ------------------------------------------------------------------ bytes

  lemma {:induction false} SizesBound(ms: seq<Member>, only: Member -> bool)
    requires forall x <- ms :: MemberValid(x)
    ensures SumSizes(ms, only) <= |ms| * MAX_MESSAGE_SIZE
  {
    if ms != [] {
      SizesBound(ms[1..], only);
      assert ms[0] in ms;
    }
  }

  lemma {:induction false} SizesSplit(ms: seq<Member>, all: Member -> bool, left: Member -> bool, right: Member -> bool)
    requires forall x <- ms :: all(x) <==> left(x) || right(x)
    requires forall x <- ms :: !(left(x) && right(x))
    ensures SumSizes(ms, all) == SumSizes(ms, left) + SumSizes(ms, right)
  {
    if ms != [] {
      SizesSplit(ms[1..], all, left, right);
      assert ms[0] in ms;
    }
  }

  /**
   With at most 100,000 members of at most 2,147,483,647 bytes, the selected and
   excluded bytes together never exceed 214,748,364,700,000, so the aggregate
   check never refuses a plan.
   */
  lemma AggregateNeverTooLarge(p: Plan)
    requires |p.members| <= MAX_CONSIDERED && forall x <- p.members :: MemberValid(x)
    ensures SelectedBytes(p) + ExcludedBytes(p) <= MAX_AGGREGATE_SIZE
    ensures EligibleBytes(p) + RemovedBytes(p) == SelectedBytes(p)
  {
    SizesSplit(p.members, (x: Member) => true, (x: Member) => x.Selected(), (x: Member) => !x.Selected());
    SizesBound(p.members, (x: Member) => true);
    SizesSplit(p.members, (x: Member) => x.Selected(), (x: Member) => x.Selected() && x.message !in p.Removed(),
               (x: Member) => x.Selected() && x.message in p.Removed());
    assert |p.members| * MAX_MESSAGE_SIZE <= MAX_CONSIDERED * MAX_MESSAGE_SIZE == MAX_AGGREGATE_SIZE;
  }

  // ------------------------------------------------------------------ counts

  lemma {:induction false} SelectedCount(ms: seq<Member>)
    requires forall i, j :: 0 <= i < j < |ms| ==> ms[i].message != ms[j].message
    ensures CountSelected(ms) == |SelectedIn(ms)|
  {
    if ms == [] {
      assert SelectedIn(ms) == {};
    } else {
      SelectedCount(ms[1..]);
      SelectedHead(ms);
      assert ms[0].message !in SelectedIn(ms[1..]);
    }
  }

  lemma SelectedHead(ms: seq<Member>)
    requires ms != []
    ensures SelectedIn(ms) == SelectedIn(ms[1..]) + if ms[0].Selected() then {ms[0].message} else {}
  {
    assert forall x :: x in ms <==> x == ms[0] || x in ms[1..];
  }

  lemma {:induction false} RemovedCount(rs: seq<Removal>)
    requires forall i, j :: 0 <= i < j < |rs| ==> rs[i].message != rs[j].message
    ensures |rs| == |RemovedIn(rs)|
  {
    if rs == [] {
      assert RemovedIn(rs) == {};
    } else {
      RemovedCount(rs[1..]);
      RemovedHead(rs);
      assert rs[0].message !in RemovedIn(rs[1..]);
    }
  }

  lemma RemovedHead(rs: seq<Removal>)
    requires rs != []
    ensures RemovedIn(rs) == RemovedIn(rs[1..]) + {rs[0].message}
  {
    assert forall r :: r in rs <==> r == rs[0] || r in rs[1..];
  }

  lemma RemovedJoin(a: seq<Removal>, b: seq<Removal>)
    ensures RemovedIn(a + b) == RemovedIn(a) + RemovedIn(b)
  {
    assert forall r :: r in a + b <==> r in a || r in b;
  }

  lemma MessagesHead(ms: seq<Member>)
    requires ms != []
    ensures MessagesIn(ms) == MessagesIn(ms[1..]) + {ms[0].message}
  {
    assert forall x :: x in ms <==> x == ms[0] || x in ms[1..];
  }

  /** The eligible count is the number of eligible messages. */
  lemma EligibleCounted(p: Plan)
    requires ValidPlan(p)
    ensures p.EligibleCount() == |p.Eligible()|
    ensures p.Removed() <= p.Selected()
  {
    SelectedCount(p.members);
    RemovedCount(p.removals);
    assert p.Removed() <= p.Selected();
    assert |p.Selected() - p.Removed()| == |p.Selected()| - |p.Removed()|;
  }

  // ----------------------------------------------------------- conservation

  lemma {:induction false} RemainingTelescopes(p: Plan, n: nat)
    requires EventsValid(p) && 1 <= n <= |p.events|
    ensures p.events[n - 1].remaining + SumRemoved(p.events[..n]) == p.events[0].remaining
  {
    if n == 1 {
      assert p.events[..1] == [p.events[0]];
    } else {
      RemainingTelescopes(p, n - 1);
      assert Follows(p.events[n - 2], p.events[n - 1]);
      assert EventValid(p.events[n - 1]);
      SumAppend(p.events[..n - 1], p.events[n - 1]);
      assert p.events[..n] == p.events[..n - 1] + [p.events[n - 1]];
    }
  }

  lemma {:induction false} SumAppend(es: seq<Event>, e: Event)
    ensures SumRemoved(es + [e]) == SumRemoved(es) + e.removed
  {
    if es == [] {
      assert es + [e] == [e];
    } else {
      SumAppend(es[1..], e);
      assert (es + [e])[1..] == es[1..] + [e];
    }
  }

  /** In every state the selected messages are the eligible ones plus those the events removed. */
  lemma SelectionConserved(p: Plan)
    requires ValidPlan(p)
    ensures CountSelected(p.members) == p.EligibleCount() + SumRemoved(p.events)
    ensures |p.removals| == SumRemoved(p.events)
  {
    RemainingTelescopes(p, |p.events|);
    assert p.events[..|p.events|] == p.events;
  }

  /** Unless it was cancelled, the state of a plan says how many members were removed: none, some or all. */
  lemma StateMeansRemovals(p: Plan)
    requires ValidPlan(p) && p.Last().state != Cancelled
    ensures p.Last().state == Frozen <==> p.Eligible() != {} && p.Removed() == {}
    ensures p.Last().state == Reduced <==> p.Eligible() != {} && p.Removed() != {}
    ensures p.Last().state == Invalidated <==> p.Eligible() == {}
  {
    EligibleCounted(p);
    assert EventValid(p.Last());
    assert p.Removed() == {} <==> p.removals == [] by {
      if p.removals != [] { assert p.removals[0].message in p.Removed(); }
    }
  }
}
