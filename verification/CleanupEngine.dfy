/** The loops that create and revalidate plans, against their specification. */
module CleanupEngine {
  import opened Basics
  import opened MailModel
  import opened StructuralPolicy
  import opened EffectiveFlows
  import opened PolicyModel
  import opened Protection
  import opened PolicyResult
  import opened Sorting
  import opened CleanupScope
  import opened CleanupLedger
  import opened CleanupSteps
  import opened CleanupCreation
  import opened CleanupReasons

  /** Collects the messages of every target. */
  method TargetUniverse(c: Composition, targets: seq<CleanupTarget>) returns (universe: set<MessageId>)
    requires c.Coherent()
    ensures universe == Universe(c, targets)
  {
    hide ValidClassification, ValidOutcome;
    universe := {};
    for i := 0 to |targets|
      invariant forall m :: m in universe <==> exists t <- targets[..i] :: m in TargetMessages(c, t)
    {
      var more := TargetMessages(c, targets[i]);
      assert forall t :: t in targets[..i + 1] <==> t in targets[..i] || t == targets[i];
      universe := universe + more;
    }
    assert targets[..|targets|] == targets;
    forall m ensures m in universe <==> m in Universe(c, targets) {
    }
  }

  /** Groups the candidates by effective flow and keeps the newest of each group. */
  method SelectNewest(c: Composition, sel: Selection, universe: set<MessageId>) returns (allowed: set<MessageId>)
    requires c.Coherent() && universe <= c.snap.records.Keys
    ensures allowed == QuotaAllowed(c, sel, universe)
  {
    hide ValidClassification, ValidOutcome, BaseReasons;
    if sel.keepLatest == 0 {
      allowed := set m | m in universe && BaseReasons(c, sel, m) == {};
      forall m ensures m in allowed <==> m in QuotaAllowed(c, sel, universe) {
      }
      return;
    }
    var byFlow := GroupCandidates(c, sel, universe);
    ghost var candidates := Candidates(c, sel, universe);
    allowed := {};
    var todo := byFlow.Keys;
    while todo != {}
      invariant todo <= byFlow.Keys
      invariant forall m :: m in allowed <==>
        m in QuotaAllowed(c, sel, universe) && c.outcome.messages[m].flow !in todo
    {
      ghost var some := SomeMember(todo);
      var fs :| fs in todo;
      var ordered := NewestFirst(byFlow[fs], Identity(), Received(c));
      FlowQuota(c, sel, universe, fs, byFlow[fs]);
      var first := ordered[..if sel.keepLatest < |ordered| then sel.keepLatest else |ordered|];
      todo := todo - {fs};
      allowed := allowed + Elements(first);
    }
    forall m ensures m in allowed <==> m in QuotaAllowed(c, sel, universe) {
      if m in QuotaAllowed(c, sel, universe) {
        assert m in Candidates(c, sel, universe);
      }
    }
  }

  /** The first ones of a flow are those the quota allows in it. */
  lemma FlowQuota(c: Composition, sel: Selection, universe: set<MessageId>, fs: FlowSelector, s: seq<MessageId>)
    requires c.outcome.messages.Keys == c.snap.records.Keys && sel.keepLatest > 0
    requires Distinct(s) && Elements(s) == SameFlow(c, Candidates(c, sel, universe), fs)
    ensures var ordered := NewestFirst(s, Identity(), Received(c));
      forall m :: m in Elements(ordered[..if sel.keepLatest < |ordered| then sel.keepLatest else |ordered|])
        <==> m in QuotaAllowed(c, sel, universe) && c.outcome.messages[m].flow == fs
  {
    hide BaseReasons;
    var all := SameFlow(c, Candidates(c, sel, universe), fs);
    var ordered := NewestFirst(s, Identity(), Received(c));
    NewestFirstOrdered(s, Identity(), Received(c));
    SameElements(s, ordered);
    forall m ensures m in Elements(ordered[..if sel.keepLatest < |ordered| then sel.keepLatest else |ordered|])
        <==> m in QuotaAllowed(c, sel, universe) && c.outcome.messages[m].flow == fs
    {
      if m in all {
        assert m in ordered by { assert m in Elements(ordered); }
        FirstOnes(ordered, Identity(), Received(c), sel.keepLatest, m);
        assert Newer(c, all, m) == set x | x in Elements(ordered) && Precedes(Identity(), Received(c), x, m);
      } else {
        assert m !in Elements(ordered);
      }
    }
  }

  lemma NoCandidates(c: Composition, sel: Selection)
    requires c.outcome.messages.Keys == c.snap.records.Keys
    ensures Candidates(c, sel, {}) == {}
  {
  }

  lemma CandidatesStep(c: Composition, sel: Selection, done: set<MessageId>, m: MessageId)
    requires c.outcome.messages.Keys == c.snap.records.Keys && m in c.snap.records
    ensures Candidates(c, sel, done + {m}) == Candidates(c, sel, done) + if BaseReasons(c, sel, m) == {} then {m} else {}
  {
    hide BaseReasons;
  }

  /** The candidates of each flow that has some, in the order they were visited. */
  method GroupCandidates(c: Composition, sel: Selection, universe: set<MessageId>)
    returns (byFlow: map<FlowSelector, seq<MessageId>>)
    requires c.Coherent() && universe <= c.snap.records.Keys
    ensures forall m <- Candidates(c, sel, universe) :: c.outcome.messages[m].flow in byFlow
    ensures forall fs <- byFlow :: Distinct(byFlow[fs]) && Elements(byFlow[fs]) == SameFlow(c, Candidates(c, sel, universe), fs)
  {
    hide ValidClassification, ValidOutcome, BaseReasons, Candidates;
    byFlow := map[];
    assert Candidates(c, sel, {}) == {} by { NoCandidates(c, sel); }
    var todo := universe;
    ghost var done: set<MessageId> := {};
    while todo != {}
      invariant todo !! done && todo + done == universe
      invariant forall m <- Candidates(c, sel, done) :: c.outcome.messages[m].flow in byFlow
      invariant forall fs <- byFlow :: Distinct(byFlow[fs])
      invariant forall fs, m :: fs in byFlow && m in byFlow[fs] <==> m in Candidates(c, sel, done) && c.outcome.messages[m].flow == fs
    {
      ghost var some := SomeMember(todo);
      var m :| m in todo;
      CandidatesStep(c, sel, done, m);
      todo, done := todo - {m}, done + {m};
      if BaseReasons(c, sel, m) == {} {
        var fs := c.outcome.messages[m].flow;
        byFlow := byFlow[fs := (if fs in byFlow then byFlow[fs] else []) + [m]];
      }
    }
    assert done == universe;
    forall fs | fs in byFlow ensures Elements(byFlow[fs]) == SameFlow(c, Candidates(c, sel, universe), fs) {
      forall m ensures m in Elements(byFlow[fs]) <==> m in SameFlow(c, Candidates(c, sel, universe), fs) {
        assert m in byFlow[fs] <==> m in Candidates(c, sel, done) && c.outcome.messages[m].flow == fs;
      }
    }
  }

  /** A list holds the member of each message of a set, once. */
  ghost predicate Gathered(c: Composition, sel: Selection, allowed: set<MessageId>, digest: MessageId -> int,
                           listed: seq<Member>, of: set<MessageId>)
    requires c.outcome.messages.Keys == c.snap.records.Keys && of <= c.snap.records.Keys
  {
    && (forall x <- listed :: x.message in of && x == MemberOf(c, sel, allowed, digest, x.message))
    && (forall m <- of :: exists x <- listed :: x.message == m)
    && UniqueIds(listed, LocalIdentifier())
  }

  /** Builds the member of every message of the universe and lists them by local identifier. */
  method ListMembers(c: Composition, sel: Selection, digest: MessageId -> int, universe: set<MessageId>, allowed: set<MessageId>)
    returns (members: seq<Member>)
    requires c.Coherent() && universe == Universe(c, sel.targets) && allowed == QuotaAllowed(c, sel, universe)
    requires Injective(digest)
    ensures ListsUniverse(c, sel, digest, members)
  {
    hide ValidClassification, ValidOutcome, MemberOf, Universe, QuotaAllowed, UniqueIds, Injective, Gathered, ListsUniverse;
    var listed: seq<Member> := [];
    var todo := universe;
    ghost var done: set<MessageId> := {};
    NothingGathered(c, sel, allowed, digest);
    while todo != {}
      invariant todo !! done && todo + done == universe
      invariant Gathered(c, sel, allowed, digest, listed, done)
    {
      ghost var some := SomeMember(todo);
      var m :| m in todo;
      GatherOne(c, sel, allowed, digest, listed, done, m);
      todo, done := todo - {m}, done + {m};
      listed := listed + [MemberOf(c, sel, allowed, digest, m)];
    }
    assert done == universe;
    SortedLists(c, sel, digest, listed);
    return StableSort(listed, (a, b) => ByIdentifier(LocalIdentifier(), a, b));
  }

  lemma NothingGathered(c: Composition, sel: Selection, allowed: set<MessageId>, digest: MessageId -> int)
    requires c.outcome.messages.Keys == c.snap.records.Keys
    ensures Gathered(c, sel, allowed, digest, [], {})
  {
  }

  lemma GatherOne(c: Composition, sel: Selection, allowed: set<MessageId>, digest: MessageId -> int, listed: seq<Member>,
                  of: set<MessageId>, m: MessageId)
    requires c.outcome.messages.Keys == c.snap.records.Keys && of <= c.snap.records.Keys
    requires m in c.snap.records && m !in of && Injective(digest)
    requires Gathered(c, sel, allowed, digest, listed, of)
    ensures Gathered(c, sel, allowed, digest, listed + [MemberOf(c, sel, allowed, digest, m)], of + {m})
  {
    hide MemberOf;
    var x := MemberOf(c, sel, allowed, digest, m);
    MemberIdentity(c, sel, allowed, digest, m);
    UniqueAppend(c, sel, allowed, digest, listed, m);
    hide UniqueIds;
    assert forall y :: y in listed + [x] <==> y in listed || y == x;
    assert x in listed + [x];
  }

  lemma SortedLists(c: Composition, sel: Selection, digest: MessageId -> int, listed: seq<Member>)
    requires c.outcome.messages.Keys == c.snap.records.Keys
    requires Gathered(c, sel, QuotaAllowed(c, sel, Universe(c, sel.targets)), digest, listed, Universe(c, sel.targets))
    ensures ListsUniverse(c, sel, digest, StableSort(listed, (a, b) => ByIdentifier(LocalIdentifier(), a, b)))
  {
    hide Universe, QuotaAllowed, MemberOf;
    var members := StableSort(listed, (a, b) => ByIdentifier(LocalIdentifier(), a, b));
    IdentifierOrdered(listed, LocalIdentifier());
    forall x ensures x in members <==> x in listed {
      SameItems(listed, members, x);
    }
    forall i, j | 0 <= i < j < |members| ensures members[i].local < members[j].local {
      assert LocalIdentifier()(members[i]) < LocalIdentifier()(members[j]);
    }
  }

  lemma MemberIdentity(c: Composition, sel: Selection, allowed: set<MessageId>, digest: MessageId -> int, m: MessageId)
    requires m in c.snap.records && m in c.outcome.messages
    ensures MemberOf(c, sel, allowed, digest, m).message == m && MemberOf(c, sel, allowed, digest, m).local == digest(m)
  {
  }

  lemma UniqueAppend(c: Composition, sel: Selection, allowed: set<MessageId>, digest: MessageId -> int, listed: seq<Member>, m: MessageId)
    requires c.outcome.messages.Keys == c.snap.records.Keys && m in c.snap.records && Injective(digest)
    requires UniqueIds(listed, LocalIdentifier())
    requires forall x <- listed :: x.message in c.snap.records && x.message != m && x == MemberOf(c, sel, allowed, digest, x.message)
    ensures UniqueIds(listed + [MemberOf(c, sel, allowed, digest, m)], LocalIdentifier())
  {
    hide MemberOf;
    MemberIdentity(c, sel, allowed, digest, m);
    forall i | 0 <= i < |listed| ensures listed[i].local != digest(m) {
      assert listed[i] in listed;
      MemberIdentity(c, sel, allowed, digest, listed[i].message);
    }
  }

  lemma ListsAll(c: Composition, sel: Selection, digest: MessageId -> int, ms: seq<Member>)
    requires c.outcome.messages.Keys == c.snap.records.Keys && ListsUniverse(c, sel, digest, ms)
    ensures MessagesIn(ms) == Universe(c, sel.targets)
  {
    hide Universe;
    forall m ensures m in MessagesIn(ms) <==> m in Universe(c, sel.targets) {
    }
  }

  lemma PlanExplained(c: Composition, cmd: CreateCommand, digest: MessageId -> int, ms: seq<Member>)
    requires c.Coherent() && cmd.Valid() && CreationRefused(c, cmd) == None && Injective(digest)
    requires ListsUniverse(c, cmd.selection, digest, ms)
    ensures MessagesIn(ms) == Universe(c, cmd.selection.targets)
    ensures forall m :: m in Clean(c, cmd.selection) <==> Touchable(c, cmd.selection, m)
    ensures forall m :: m in MessagesIn(ms) <==> exists t <- cmd.selection.targets :: InTarget(c, t, m)
    ensures forall x <- ms :: ShowsMessage(c, digest, x) && ExplainsCreation(c, cmd.selection, x.message, x.reasons)
    ensures forall x <- ms :: (exists s <- SamplesOf(ms) :: s.member == x) <==> |NewerOfKind(ms, x)| < 5
  {
    hide ValidClassification, ValidOutcome, CreationRefused, ListsUniverse, SamplesOf, Clean, Touchable, UniqueIds, MembersValid, InTarget,
      ShowsMessage, ExplainsCreation;
    MembersAreValid(c, cmd, digest, ms);
    ListsAll(c, cmd.selection, digest, ms);
    MembersExplained(c, cmd.selection, digest, ms);
    forall m ensures m in Clean(c, cmd.selection) <==> Touchable(c, cmd.selection, m) {
      CleanMeans(c, cmd.selection, m);
    }
    forall x | x in ms ensures (exists s <- SamplesOf(ms) :: s.member == x) <==> |NewerOfKind(ms, x)| < 5 {
      SamplesAreNewest(ms, x);
    }
  }

  /**
   Creates a plan. It fails exactly when one of the listed checks fails; the
   checks of the plan itself never refuse it.
   */
  method CreatePlan(c: Composition, cmd: CreateCommand, digest: MessageId -> int, now: Instant) returns (r: Result<Plan, PlanError>)
    requires c.Coherent() && cmd.Valid() && Injective(digest)
    ensures CreationRefused(c, cmd) == None <==> r.Ok?
    ensures r.Err? ==> CreationRefused(c, cmd) == Some(r.error)
    ensures r.Ok? ==>
      && ValidPlan(r.value)
      && r.value.selection == cmd.selection && r.value.createdAt == now
      && MessagesIn(r.value.members) == Universe(c, cmd.selection.targets)
      && r.value.Eligible() == Clean(c, cmd.selection)
      && (r.value.Last().state == Frozen <==> Clean(c, cmd.selection) != {})
    ensures r.Ok? ==>
      && (forall m :: m in r.value.Eligible() <==> Touchable(c, cmd.selection, m))
      && (forall m :: m in MessagesIn(r.value.members) <==> exists t <- cmd.selection.targets :: InTarget(c, t, m))
      && (forall x <- r.value.members :: ShowsMessage(c, digest, x) && ExplainsCreation(c, cmd.selection, x.message, x.reasons))
      && (forall x <- r.value.members :: (exists s <- r.value.samples :: s.member == x) <==> |NewerOfKind(r.value.members, x)| < 5)
      && r.value.created == Revisions(c.mapRevision, c.policyRevision) && r.value.removals == []
  {
    hide ValidClassification, ValidOutcome, ValidPlan, Clean, QuotaAllowed, SizesBounded, SendersKnown, Listed, LabelListed, Touchable, InTarget,
      ShowsMessage, ExplainsCreation, SamplesOf, NewerOfKind, Universe, SelectionValid, ListsUniverse;
    if !SizesBounded(c) {
      return Err(StudyUnavailable);
    }
    if cmd.mapRevision != c.mapRevision {
      return Err(MapRevisionConflict);
    }
    if cmd.policyRevision != c.policyRevision {
      return Err(PolicyRevisionConflict);
    }
    if !SendersKnown(c) {
      return Err(StudyUnavailable);
    }
    var targets := cmd.selection.targets;
    for i := 0 to |targets|
      invariant forall t <- targets[..i] :: Listed(c, t)
    {
      if !Listed(c, targets[i]) {
        assert targets[i] in targets;
        return Err(TargetNotFound);
      }
      assert forall t :: t in targets[..i + 1] <==> t in targets[..i] || t == targets[i];
    }
    assert targets[..|targets|] == targets;
    if exists l <- cmd.selection.excluded :: !LabelListed(c, l) {
      return Err(UnsupportedTarget);
    }
    var universe := TargetUniverse(c, targets);
    if |universe| > MAX_CONSIDERED {
      return Err(PlanTooLarge);
    }
    var allowed := SelectNewest(c, cmd.selection, universe);
    var members := ListMembers(c, cmd.selection, digest, universe, allowed);
    CreationIsValid(c, cmd, digest, members, now);
    PlanExplained(c, cmd, digest, members);
    return Ok(NewPlan(c, cmd.selection, members, now));
  }

  /** Collects the removals of one revalidation, member by member. */
  method CollectRemovals(c: Composition, p: Plan, now: Instant) returns (still: nat, removals: seq<Removal>)
    requires c.Coherent() && p.events != []
    ensures still == |Still(p.members, p.Removed())|
    ensures removals == NewRemovals(c, p.selection, Still(p.members, p.Removed()), p.Last().revision + 1, now)
  {
    hide ValidClassification, ValidOutcome, RemovalReasonsFor;
    var current := StructureCurrent(c, p.selection);
    var universe: set<MessageId>, allowed: set<MessageId> := {}, {};
    if current {
      universe := TargetUniverse(c, p.selection.targets);
      allowed := SelectNewest(c, p.selection, universe);
    }
    var removed := p.Removed();
    ghost var rest := Still(p.members, removed);
    var revision := p.Last().revision + 1;
    still, removals := 0, [];
    for i := 0 to |p.members|
      invariant still + |Still(p.members[i..], removed)| == |rest|
      invariant removals + NewRemovals(c, p.selection, Still(p.members[i..], removed), revision, now)
             == NewRemovals(c, p.selection, rest, revision, now)
    {
      var x := p.members[i];
      StillStep(p.members, removed, i);
      if x.Selected() && x.message !in removed {
        still := still + 1;
        var reasons := ReasonsFor(c, p.selection, current, universe, allowed, x.message);
        NewRemovalsStep(c, p.selection, x, Still(p.members[i + 1..], removed), revision, now);
        if reasons != {} {
          var r := Removal(x.message, revision, now, reasons);
          Regroup(removals, r, NewRemovals(c, p.selection, Still(p.members[i + 1..], removed), revision, now));
          removals := removals + [r];
        }
      }
    }
    assert removals + [] == removals;
  }

  lemma StillStep(ms: seq<Member>, removed: set<MessageId>, i: nat)
    requires i < |ms|
    ensures Still(ms[i..], removed)
         == if ms[i].Selected() && ms[i].message !in removed then [ms[i]] + Still(ms[i + 1..], removed) else Still(ms[i + 1..], removed)
  {
    assert ms[i..][0] == ms[i] && ms[i..][1..] == ms[i + 1..];
  }

  lemma NewRemovalsStep(c: Composition, sel: Selection, x: Member, rest: seq<Member>, revision: nat, now: Instant)
    requires c.outcome.messages.Keys == c.snap.records.Keys
    ensures var reasons := RemovalReasonsFor(c, sel, x.message);
      NewRemovals(c, sel, [x] + rest, revision, now)
        == if reasons != {} then [Removal(x.message, revision, now, reasons)] + NewRemovals(c, sel, rest, revision, now)
           else NewRemovals(c, sel, rest, revision, now)
  {
    hide RemovalReasonsFor;
    assert ([x] + rest)[1..] == rest;
  }

  lemma Regroup<T>(a: seq<T>, x: T, b: seq<T>)
    ensures a + ([x] + b) == a + [x] + b
  {
  }

  /** The reasons of one member, from the universe and the quota already computed. */
  method ReasonsFor(c: Composition, sel: Selection, current: bool, universe: set<MessageId>, allowed: set<MessageId>, m: MessageId)
    returns (reasons: set<PlanReason>)
    requires c.Coherent() && current == StructureCurrent(c, sel)
    requires current ==> universe == Universe(c, sel.targets) && allowed == QuotaAllowed(c, sel, universe)
    ensures reasons == RemovalReasonsFor(c, sel, m)
  {
    hide ValidClassification, ValidOutcome, QuotaAllowed, Universe;
    if !current {
      return {ScopeChanged};
    }
    if m !in c.snap.records {
      return {MissingAfterCreation};
    }
    reasons := {};
    if m !in universe {
      reasons := reasons + {ScopeChanged};
    }
    var base := BaseReasons(c, sel, m);
    if GuardsOn(c, m) != {} {
      base := base + {ProtectionChanged};
    }
    reasons := reasons + base;
    if reasons == {} && m !in allowed {
      reasons := reasons + {KeepLatest};
    }
  }

  /**
   Revalidates: the errors come first, then the plan that goes back through the
   constructor's checks, which refuse it exactly when the clock went back.
   */
  method RevalidatePlan(c: Composition, p: Plan, cmd: RevalidateCommand, now: Instant) returns (r: Result<Plan, PlanError>)
    requires c.Coherent() && ValidPlan(p)
    ensures r == Revalidate(c, p, cmd, now)
    ensures r.Ok? <==> RevalidationRefused(c, p, cmd, now) == None && p.Last().at <= now
    ensures r == Err(LedgerRejected) <==> RevalidationRefused(c, p, cmd, now) == None && now < p.Last().at
    ensures r.Ok? ==> r.value.Eligible() == p.Eligible() * Clean(c, p.selection)
    ensures r.Ok? ==> forall m :: m in r.value.Eligible() <==> m in p.Eligible() && Touchable(c, p.selection, m)
    ensures r.Ok? ==>
      && p.removals <= r.value.removals
      && forall removal <- r.value.removals[|p.removals|..] ::
           ExplainsRemoval(c, p.selection, removal.message, removal.reasons) && removal.message in p.Eligible()
  {
    hide ValidClassification, ValidOutcome, ValidPlan, Clean, SizesBounded, SendersKnown, StructureCurrent;
    HasLast(p);
    var refused := RevalidationRefused(c, p, cmd, now);
    if refused.Some? {
      return Err(refused.value);
    }
    RevalidationKeepsClean(c, p, cmd, now);
    var still, removals := CollectRemovals(c, p, now);
    RevalidationRemoves(c, p, now);
    RemovalsExplained(c, p.selection, Still(p.members, p.Removed()), p.Last().revision + 1, now);
    assert (p.removals + removals)[|p.removals|..] == removals;
    forall m ensures m in Clean(c, p.selection) <==> Touchable(c, p.selection, m) {
      CleanMeans(c, p.selection, m);
    }
    var remaining := still - |removals|;
    var e := RevalidationEvent(p, remaining, |removals|, Revisions(c.mapRevision, c.policyRevision), now);
    if now < p.Last().at {
      return Err(LedgerRejected);
    }
    return Ok(Appended(p, e, removals));
  }

  /** Every removal a revalidation records is explained by the composition. */
  lemma {:induction false} RemovalsExplained(c: Composition, sel: Selection, still: seq<Member>, revision: nat, now: Instant)
    requires c.Coherent()
    ensures forall removal <- NewRemovals(c, sel, still, revision, now) :: ExplainsRemoval(c, sel, removal.message, removal.reasons)
  {
    hide ValidClassification, ValidOutcome, ExplainsRemoval, RemovalReasonsFor, Touchable;
    if still != [] {
      RemovalsExplained(c, sel, still[1..], revision, now);
      RemovalExplained(c, sel, still[0].message);
    }
  }

  lemma HasLast(p: Plan)
    requires ValidPlan(p)
    ensures p.events != []
  {
  }
}
