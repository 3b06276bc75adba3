/** Revalidating and cancelling a plan: each step appends to the ledger and keeps every check. */
module CleanupSteps {
  import opened Basics
  import opened MailModel
  import opened PolicyModel
  import opened StructuralPolicy
  import opened Protection
  import opened PolicyResult
  import opened Sorting
  import opened CleanupScope
  import opened CleanupLedger

  datatype PlanError =
    | MapRevisionConflict | PolicyRevisionConflict | PlanRevisionConflict
    | TargetNotFound | UnsupportedTarget | PlanTooLarge | StudyUnavailable
    | InvalidTransition | PlanExpired | InvalidRequest | LedgerRejected

  datatype RevalidateCommand = RevalidateCommand(planRevision: int, mapRevision: int, policyRevision: int)

  datatype CancelCommand = CancelCommand(planRevision: int)

  function EffectiveState(p: Plan, now: Instant): PlanState
    requires p.events != []
  {
    if Terminal(p.Last().state) then p.Last().state
    else if now >= p.expiresAt then Expired
    else p.Last().state
  }

  // --------------------------------------------------------------- removals

  /** Why a composition takes a member out of a plan; nothing when it stays. */
  function RemovalReasonsFor(c: Composition, sel: Selection, m: MessageId): set<PlanReason>
    requires c.outcome.messages.Keys == c.snap.records.Keys
  {
    if !StructureCurrent(c, sel) then {ScopeChanged}
    else if m !in c.snap.records then {MissingAfterCreation}
    else
      var reasons := (if m !in Universe(c, sel.targets) then {ScopeChanged} else {})
                     + BaseReasons(c, sel, m)
                     + (if GuardsOn(c, m) != {} then {ProtectionChanged} else {});
      if reasons == {} && m !in QuotaAllowed(c, sel, Universe(c, sel.targets)) then {KeepLatest} else reasons
  }

  /** A member stays exactly when the composition is clean of reasons for it, and every removal has valid reasons. */
  lemma CleanMembersStay(c: Composition, sel: Selection, m: MessageId)
    requires c.outcome.messages.Keys == c.snap.records.Keys
    ensures RemovalReasonsFor(c, sel, m) == {} <==> m in Clean(c, sel)
    ensures RemovalReasonsFor(c, sel, m) != {} ==> RemovalReasonsValid(RemovalReasonsFor(c, sel, m))
  {
    hide Universe;
    if m in c.snap.records && GuardsOn(c, m) != {} {
      var r := SomeMember(GuardsOn(c, m));
      assert r.Guard? && r in BaseReasons(c, sel, m);
    }
  }

  /** The selected members that no earlier revalidation removed. */
  function Still(ms: seq<Member>, removed: set<MessageId>): seq<Member> {
    if ms == [] then []
    else (if ms[0].Selected() && ms[0].message !in removed then [ms[0]] else []) + Still(ms[1..], removed)
  }

  /** The removals one revalidation records, in the order of the members. */
  function NewRemovals(c: Composition, sel: Selection, still: seq<Member>, revision: nat, now: Instant): seq<Removal>
    requires c.outcome.messages.Keys == c.snap.records.Keys
  {
    if still == [] then []
    else
      var reasons := RemovalReasonsFor(c, sel, still[0].message);
      (if reasons != {} then [Removal(still[0].message, revision, now, reasons)] else [])
      + NewRemovals(c, sel, still[1..], revision, now)
  }

  lemma {:induction false} StillMeans(ms: seq<Member>, removed: set<MessageId>)
    requires forall i, j :: 0 <= i < j < |ms| ==> ms[i].message != ms[j].message
    ensures forall x :: x in Still(ms, removed) <==> x in ms && x.Selected() && x.message !in removed
    ensures forall i, j :: 0 <= i < j < |Still(ms, removed)| ==> Still(ms, removed)[i].message != Still(ms, removed)[j].message
  {
    if ms != [] {
      StillMeans(ms[1..], removed);
      assert forall x :: x in ms <==> x == ms[0] || x in ms[1..];
    }
  }

  lemma {:induction false} DistinctMessages(ms: seq<Member>)
    requires forall i, j :: 0 <= i < j < |ms| ==> ms[i].message != ms[j].message
    ensures |ms| == |MessagesIn(ms)|
  {
    if ms == [] {
      assert MessagesIn(ms) == {};
    } else {
      DistinctMessages(ms[1..]);
      MessagesHead(ms);
      assert ms[0].message !in MessagesIn(ms[1..]);
    }
  }

  /** As many members remain as there are eligible messages. */
  lemma StillCount(p: Plan)
    requires ValidPlan(p)
    ensures |Still(p.members, p.Removed())| == p.EligibleCount() == |p.Eligible()|
    ensures MessagesIn(Still(p.members, p.Removed())) == p.Eligible()
  {
    EligibleCounted(p);
    hide EventsValid, RemovalsValid, SamplesValid, StateValid, SelectedBytes, ExcludedBytes, EligibleBytes, MemberValid;
    var still := Still(p.members, p.Removed());
    StillMeans(p.members, p.Removed());
    DistinctMessages(still);
    assert MessagesIn(still) == p.Eligible();
  }

  lemma {:induction false} NewRemovalsMean(c: Composition, sel: Selection, still: seq<Member>, revision: nat, now: Instant)
    requires c.outcome.messages.Keys == c.snap.records.Keys
    requires forall i, j :: 0 <= i < j < |still| ==> still[i].message != still[j].message
    ensures var rs := NewRemovals(c, sel, still, revision, now);
      && |rs| <= |still|
      && (forall r <- rs :: r.revision == revision && r.at == now && RemovalReasonsValid(r.reasons))
      && RemovedIn(rs) == MessagesIn(still) - Clean(c, sel)
      && (forall i, j :: 0 <= i < j < |rs| ==> rs[i].message != rs[j].message)
  {
    hide Clean, RemovalReasonsFor, RemovalReasonsValid, StructureCurrent;
    if still == [] {
      assert RemovedIn([]) == {} == MessagesIn([]);
    } else {
      var rest := NewRemovals(c, sel, still[1..], revision, now);
      var rs := NewRemovals(c, sel, still, revision, now);
      NewRemovalsMean(c, sel, still[1..], revision, now);
      CleanMembersStay(c, sel, still[0].message);
      MessagesHead(still);
      if still[0].message in Clean(c, sel) {
        assert rs == rest;
      } else {
        assert rs[0].message == still[0].message && rs[1..] == rest;
        RemovedHead(rs);
        assert rs[0].message !in MessagesIn(still[1..]);
        forall r | r in rest ensures r.message in MessagesIn(still[1..]) {
          assert r.message in RemovedIn(rest);
        }
      }
    }
  }

  // ------------------------------------------------------------------ steps

  /** The plan with one more event and its removals. */
  function Appended(p: Plan, e: Event, rs: seq<Removal>): Plan {
    p.(events := p.events + [e], removals := p.removals + rs)
  }

  /** What a revalidation appends once its checks pass. */
  function RevalidationEvent(p: Plan, remaining: nat, removed: nat, observed: Revisions, now: Instant): Event
    requires p.events != []
  {
    var kind := if removed == 0 then RevalidatedEvent else if remaining != 0 then ReducedEvent else InvalidatedEvent;
    var state := if removed == 0 then p.Last().state else if remaining != 0 then Reduced else Invalidated;
    Event(p.Last().revision + 1, kind, now, state, Some(observed), removed, remaining)
  }

  function RevalidatedPlan(c: Composition, p: Plan, now: Instant): Plan
    requires p.events != [] && c.outcome.messages.Keys == c.snap.records.Keys
  {
    var still := Still(p.members, p.Removed());
    var rs := NewRemovals(c, p.selection, still, p.Last().revision + 1, now);
    var remaining := if |rs| <= |still| then |still| - |rs| else 0;
    Appended(p, RevalidationEvent(p, remaining, |rs|, Revisions(c.mapRevision, c.policyRevision), now), rs)
  }

  /** What a revalidation refuses before it looks at the members. */
  function RevalidationRefused(c: Composition, p: Plan, cmd: RevalidateCommand, now: Instant): Option<PlanError>
    requires p.events != [] && c.Coherent()
  {
    if EffectiveState(p, now) == Expired then Some(PlanExpired)
    else if Terminal(EffectiveState(p, now)) then Some(InvalidTransition)
    else if cmd.planRevision != p.Last().revision then Some(PlanRevisionConflict)
    else if !SizesBounded(c) then Some(StudyUnavailable)
    else if cmd.mapRevision != c.mapRevision then Some(MapRevisionConflict)
    else if cmd.policyRevision != c.policyRevision then Some(PolicyRevisionConflict)
    else if !SendersKnown(c) then Some(StudyUnavailable)
    else if StructureCurrent(c, p.selection) && |Universe(c, p.selection.targets)| > MAX_CONSIDERED then Some(PlanTooLarge)
    else None
  }

  /** Revalidation: the new plan goes through every check of the constructor again. */
  ghost function Revalidate(c: Composition, p: Plan, cmd: RevalidateCommand, now: Instant): Result<Plan, PlanError>
    requires p.events != [] && c.Coherent()
  {
    match RevalidationRefused(c, p, cmd, now)
    case Some(error) => Err(error)
    case None => if ValidPlan(RevalidatedPlan(c, p, now)) then Ok(RevalidatedPlan(c, p, now)) else Err(LedgerRejected)
  }

  function CancellationEvent(p: Plan, now: Instant): Event
    requires p.events != []
  {
    Event(p.Last().revision + 1, CancelledEvent, now, Cancelled, None, 0, if p.EligibleCount() > 0 then p.EligibleCount() else 0)
  }

  function CancellationRefused(p: Plan, cmd: CancelCommand, now: Instant): Option<PlanError>
    requires p.events != []
  {
    if EffectiveState(p, now) == Expired then Some(PlanExpired)
    else if Terminal(EffectiveState(p, now)) then Some(InvalidTransition)
    else if cmd.planRevision != p.Last().revision then Some(PlanRevisionConflict)
    else None
  }

  ghost function Cancel(p: Plan, cmd: CancelCommand, now: Instant): Result<Plan, PlanError>
    requires p.events != []
  {
    match CancellationRefused(p, cmd, now)
    case Some(error) => Err(error)
    case None =>
      var cancelled := Appended(p, CancellationEvent(p, now), []);
      if ValidPlan(cancelled) then Ok(cancelled) else Err(LedgerRejected)
  }

  // -------------------------------------------------------- keeping the checks

  lemma {:induction false} RemovalsAtJoin(a: seq<Removal>, b: seq<Removal>, revision: nat)
    ensures RemovalsAt(a + b, revision) == RemovalsAt(a, revision) + RemovalsAt(b, revision)
  {
    if a == [] {
      assert a + b == b;
    } else {
      RemovalsAtJoin(a[1..], b, revision);
      assert (a + b)[1..] == a[1..] + b;
    }
  }

  lemma {:induction false} RemovalsAtAll(rs: seq<Removal>, revision: nat, other: nat)
    requires forall r <- rs :: r.revision == revision
    ensures RemovalsAt(rs, other) == if other == revision then |rs| else 0
  {
    if rs != [] {
      assert rs[0] in rs;
      RemovalsAtAll(rs[1..], revision, other);
    }
  }

  lemma {:induction false} RemovalsAtNone(rs: seq<Removal>, revision: nat)
    requires forall r <- rs :: r.revision < revision
    ensures RemovalsAt(rs, revision) == 0
  {
    if rs != [] {
      assert rs[0] in rs;
      RemovalsAtNone(rs[1..], revision);
    }
  }

  lemma FollowsByDate(previous: Event, current: Event)
    requires Follows(previous, current.(at := previous.at))
    ensures Follows(previous, current) <==> previous.at <= current.at
  {
  }

  lemma AppendedEventsValid(p: Plan, e: Event, rs: seq<Removal>)
    requires ValidPlan(p) && EventValid(e) && e.revision == |p.events| + 1 && e.kind != CreatedEvent
    requires !Terminal(p.Last().state) && e.at < p.expiresAt
    requires Follows(p.Last(), e.(at := p.Last().at))
    ensures EventsValid(Appended(p, e, rs)) <==> p.Last().at <= e.at
  {
    hide RemovalsValid, SamplesValid, StateValid, MembersValid, SelectedBytes, ExcludedBytes, EligibleBytes, EventValid, Follows;
    var q := Appended(p, e, rs);
    var n := |p.events|;
    FollowsByDate(p.Last(), e);
    assert q.events[n] == e && q.events[n - 1] == p.Last();
    forall i | 0 <= i < n ensures q.events[i] == p.events[i] {
    }
    if p.Last().at <= e.at {
      assert EventsValid(q);
    } else {
      assert !Follows(q.events[n - 1], q.events[n]);
    }
  }

  /** New removals of eligible members fit the ledger. */
  ghost predicate FittingRemovals(p: Plan, e: Event, rs: seq<Removal>) {
    && (forall r <- rs :: r.revision == e.revision && r.at == e.at && RemovalReasonsValid(r.reasons) && r.message in p.Eligible())
    && (forall i, j :: 0 <= i < j < |rs| ==> rs[i].message != rs[j].message)
  }

  lemma RemovalsStayDistinct(p: Plan, e: Event, rs: seq<Removal>)
    requires FittingRemovals(p, e, rs)
    requires forall i, j :: 0 <= i < j < |p.removals| ==> p.removals[i].message != p.removals[j].message
    ensures var all := p.removals + rs;
      forall i, j :: 0 <= i < j < |all| ==> all[i].message != all[j].message
  {
    hide RemovalReasonsValid;
    var all := p.removals + rs;
    forall i, j | 0 <= i < j < |all| ensures all[i].message != all[j].message {
      if i < |p.removals| <= j {
        assert p.removals[i].message in p.Removed();
        assert rs[j - |p.removals|].message in p.Eligible();
      }
    }
  }

  lemma RemovalCountsKept(p: Plan, e: Event, rs: seq<Removal>)
    requires ValidPlan(p) && FittingRemovals(p, e, rs) && e.revision == |p.events| + 1 && e.removed == |rs|
    ensures var q := Appended(p, e, rs);
      forall i :: 0 <= i < |q.events| ==> q.events[i].removed == RemovalsAt(q.removals, i + 1)
  {
    hide RemovalReasonsValid, SamplesValid, MembersValid, EventsValid, StateValid, SelectedBytes, ExcludedBytes, EligibleBytes;
    var q := Appended(p, e, rs);
    forall i | 0 <= i < |q.events| ensures q.events[i].removed == RemovalsAt(q.removals, i + 1) {
      RemovalsAtJoin(p.removals, rs, i + 1);
      RemovalsAtAll(rs, e.revision, i + 1);
      if i < |p.events| {
        assert q.events[i] == p.events[i];
      } else {
        RemovalsAtNone(p.removals, i + 1);
      }
    }
  }

  lemma AppendedRemovalsValid(p: Plan, e: Event, rs: seq<Removal>)
    requires ValidPlan(p) && FittingRemovals(p, e, rs) && e.revision == |p.events| + 1 && e.removed == |rs|
    ensures RemovalsValid(Appended(p, e, rs))
  {
    hide RemovalReasonsValid, SamplesValid, MembersValid, StateValid, SelectedBytes, ExcludedBytes, EligibleBytes, EventValid, Follows;
    var q := Appended(p, e, rs);
    RemovalsStayDistinct(p, e, rs);
    RemovalCountsKept(p, e, rs);
    forall r | r in q.removals
      ensures r.message in q.Selected() && 2 <= r.revision <= |q.events| && r.at == q.events[r.revision - 1].at
      ensures RemovalReasonsValid(r.reasons)
    {
      if r in p.removals {
        assert q.events[r.revision - 1] == p.events[r.revision - 1];
      } else {
        assert r in rs && r.message in p.Eligible();
      }
    }
  }

  /** The state an appended event records fits what is left. */
  lemma SettledState(p: Plan, e: Event, rs: seq<Removal>)
    requires ValidPlan(p) && EventValid(e) && e.kind != CreatedEvent && e.removed == |rs|
    requires !Terminal(p.Last().state)
    requires Follows(p.Last(), e.(at := p.Last().at)) && e.remaining == p.EligibleCount() - |rs|
    ensures e.state == Frozen ==> p.removals + rs == []
    ensures e.state == Reduced ==> p.removals + rs != [] && e.remaining > 0
    ensures e.state == Invalidated ==> e.remaining == 0
  {
    hide RemovalsValid, SamplesValid, MembersValid, EligibleBytes, SelectedBytes, ExcludedBytes;
    assert EventValid(p.events[|p.events| - 1]);
  }

  /** A step that appends a fitting event and new removals is accepted exactly when the clock did not go back. */
  lemma AppendedValid(p: Plan, e: Event, rs: seq<Removal>)
    requires ValidPlan(p) && EventValid(e) && e.revision == |p.events| + 1 && e.kind != CreatedEvent
    requires !Terminal(p.Last().state) && e.at < p.expiresAt && e.removed == |rs|
    requires Follows(p.Last(), e.(at := p.Last().at)) && e.remaining == p.EligibleCount() - |rs|
    requires FittingRemovals(p, e, rs)
    ensures ValidPlan(Appended(p, e, rs)) <==> p.Last().at <= e.at
  {
    var q := Appended(p, e, rs);
    AggregateNeverTooLarge(q);
    hide RemovalsValid, SamplesValid, MembersValid, EligibleBytes, SelectedBytes, ExcludedBytes, EventValid, Follows, FittingRemovals;
    AppendedEventsValid(p, e, rs);
    AppendedRemovalsValid(p, e, rs);
    assert q.Last() == e && q.events[0] == p.events[0];
    assert q.EligibleCount() == p.EligibleCount() - |rs|;
    SettledState(p, e, rs);
    hide EventsValid;
    assert StateValid(q);
  }

  lemma ActivePlan(p: Plan)
    requires ValidPlan(p) && !Terminal(p.Last().state)
    ensures p.events != [] && p.Last().revision == |p.events|
    ensures p.Last().state == Frozen || p.Last().state == Reduced
    ensures p.Last().remaining == p.EligibleCount() > 0
  {
    assert EventValid(p.events[|p.events| - 1]);
  }

  /** What the removals of a revalidation are, for the plan that is revalidated. */
  lemma RevalidationRemoves(c: Composition, p: Plan, now: Instant)
    requires ValidPlan(p) && c.Coherent()
    ensures var still := Still(p.members, p.Removed());
      var rs := NewRemovals(c, p.selection, still, p.Last().revision + 1, now);
      && |rs| <= |still| == p.EligibleCount()
      && RemovedIn(rs) == p.Eligible() - Clean(c, p.selection)
      && FittingRemovals(p, p.Last().(revision := p.Last().revision + 1, at := now), rs)
  {
    StillCount(p);
    hide ValidClassification, ValidOutcome, Clean, RemovalReasonsValid, RemovalReasonsFor, StructureCurrent, SamplesValid, EventValid,
      Follows, RemovalsValid, StateValid, MemberValid, SelectedBytes, ExcludedBytes, EligibleBytes;
    var still := Still(p.members, p.Removed());
    StillMeans(p.members, p.Removed());
    NewRemovalsMean(c, p.selection, still, p.Last().revision + 1, now);
    var rs := NewRemovals(c, p.selection, still, p.Last().revision + 1, now);
    forall r | r in rs ensures r.message in p.Eligible() {
      assert r.message in RemovedIn(rs);
    }
  }

  /**
   A revalidation that passes its checks is persisted exactly when the clock is
   not before the last event; it then keeps exactly the eligible members that
   the composition is clean of, and changes nothing else.
   */
  lemma RevalidationKeepsClean(c: Composition, p: Plan, cmd: RevalidateCommand, now: Instant)
    requires ValidPlan(p) && c.Coherent() && RevalidationRefused(c, p, cmd, now) == None
    ensures Revalidate(c, p, cmd, now).Ok? <==> p.Last().at <= now
    ensures !Revalidate(c, p, cmd, now).Ok? ==> Revalidate(c, p, cmd, now) == Err(LedgerRejected)
    ensures Revalidate(c, p, cmd, now).Ok? ==>
      var q := Revalidate(c, p, cmd, now).value;
      && ValidPlan(q) && q.Last().at == now && q.Last().revision == p.Last().revision + 1
      && q.Eligible() == p.Eligible() * Clean(c, p.selection)
      && q.selection == p.selection && q.members == p.members && q.createdAt == p.createdAt && q.expiresAt == p.expiresAt
      && p.events <= q.events && p.removals <= q.removals
  {
    hide ValidClassification, ValidOutcome, Clean, RemovalReasonsValid, ValidPlan, SizesBounded, SendersKnown, StructureCurrent;
    ActivePlan(p);
    RevalidationRemoves(c, p, now);
    var rs := NewRemovals(c, p.selection, Still(p.members, p.Removed()), p.Last().revision + 1, now);
    var q := RevalidatedPlan(c, p, now);
    var e := q.Last();
    AppendedValid(p, e, rs);
    RemovedJoin(p.removals, rs);
  }

  /** A cancellation that passes its checks is persisted exactly when the clock is not before the last event. */
  lemma CancellationKeepsLedger(p: Plan, cmd: CancelCommand, now: Instant)
    requires ValidPlan(p) && CancellationRefused(p, cmd, now) == None
    ensures Cancel(p, cmd, now).Ok? <==> p.Last().at <= now
    ensures !Cancel(p, cmd, now).Ok? ==> Cancel(p, cmd, now) == Err(LedgerRejected)
    ensures Cancel(p, cmd, now).Ok? ==>
      var q := Cancel(p, cmd, now).value;
      && ValidPlan(q) && q.Last().at == now && q.Last().state == Cancelled
      && q.Eligible() == p.Eligible() && q.selection == p.selection && q.members == p.members
      && q.expiresAt == p.expiresAt && q.removals == p.removals && p.events <= q.events
  {
    hide ValidPlan, RemovalReasonsValid;
    ActivePlan(p);
    AppendedValid(p, CancellationEvent(p, now), []);
    assert Appended(p, CancellationEvent(p, now), []).removals == p.removals;
  }
}
