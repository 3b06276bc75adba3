/** Why a plan leaves a message out, and what it shows of it, told from the record. */
module CleanupReasons {
  import opened Basics
  import opened MailModel
  import opened PolicyModel
  import opened StructuralPolicy
  import opened Protection
  import opened PolicyResult
  import opened Sorting
  import opened CleanupScope
  import opened CleanupLedger
  import opened CleanupSteps
  import opened CleanupCreation

  /** The reasons that the filters and the protections give. */
  ghost predicate FiltersGive(c: Composition, sel: Selection, m: MessageId, reasons: set<PlanReason>) {
    && m in c.snap.records && m in c.outcome.messages
    && var record := c.snap.records[m];
       && (forall r: Reason :: Guard(r) in reasons <==> r in c.outcome.messages[m].shown.reasons)
       && (OutsideDate in reasons <==>
             (sel.onOrAfter.Some? && record.receivedAt < sel.onOrAfter.value) || (sel.before.Some? && record.receivedAt >= sel.before.value))
       && (ReadStateMismatch in reasons <==>
             (sel.read == OnlyUnread && Label.Unread !in record.labels) || (sel.read == OnlyRead && Label.Unread in record.labels))
       && (ExcludedLabel in reasons <==> exists l <- sel.excluded :: l in record.labels)
  }

  /** The quota of its flow leaves out a message that fits. */
  ghost predicate QuotaLeavesOut(c: Composition, sel: Selection, m: MessageId) {
    m in c.snap.records && m in c.outcome.messages && Fits(c, sel, m) && sel.keepLatest > 0 && |NewerThat(c, sel, m)| >= sel.keepLatest
  }

  /** Every reason of a member when the plan is created. */
  ghost predicate ExplainsCreation(c: Composition, sel: Selection, m: MessageId, reasons: set<PlanReason>) {
    && FiltersGive(c, sel, m, reasons)
    && (KeepLatest in reasons <==> QuotaLeavesOut(c, sel, m))
    && MissingAfterCreation !in reasons && ScopeChanged !in reasons && ProtectionChanged !in reasons
  }

  /** Every reason of a removal, when the plan is revalidated. */
  ghost predicate ExplainsRemoval(c: Composition, sel: Selection, m: MessageId, reasons: set<PlanReason>) {
    if !TargetsExist(c, sel) then reasons == {ScopeChanged}
    else if m !in c.snap.records || m !in c.outcome.messages then reasons == {MissingAfterCreation}
    else
      && FiltersGive(c, sel, m, reasons)
      && (ScopeChanged in reasons <==> forall t <- sel.targets :: !InTarget(c, t, m))
      && (ProtectionChanged in reasons <==> c.outcome.messages[m].shown.shielded)
      && (KeepLatest in reasons <==> QuotaLeavesOut(c, sel, m))
      && MissingAfterCreation !in reasons
  }

  lemma BaseGives(c: Composition, sel: Selection, m: MessageId)
    requires c.Coherent() && m in c.snap.records
    ensures FiltersGive(c, sel, m, BaseReasons(c, sel, m))
    ensures BaseReasons(c, sel, m) !! {KeepLatest, MissingAfterCreation, ScopeChanged, ProtectionChanged}
  {
    hide ValidClassification, ValidOutcome, OutsideWindow, ReadMismatch;
    FiltersMean(sel, c.snap.records[m]);
    forall r: Reason ensures Guard(r) in GuardsOn(c, m) <==> r in c.outcome.messages[m].shown.reasons {
    }
  }

  /** A member of the universe has no reason but the quota's exactly when it fits. */
  lemma NoReasonFits(c: Composition, sel: Selection, m: MessageId)
    requires c.Coherent() && m in c.snap.records
    ensures Fits(c, sel, m) <==> m in Universe(c, sel.targets) && BaseReasons(c, sel, m) == {}
  {
    hide ValidClassification, ValidOutcome, Universe, BaseReasons, Fits;
    CandidatesFit(c, sel, m);
  }

  lemma QuotaMeans(c: Composition, sel: Selection, m: MessageId)
    requires c.Coherent() && m in c.snap.records
    ensures QuotaLeavesOut(c, sel, m) <==> Fits(c, sel, m) && m !in QuotaAllowed(c, sel, Universe(c, sel.targets))
  {
    hide ValidClassification, ValidOutcome, Universe, Candidates, Fits, Newer, NewerThat, SameFlow;
    CandidatesFit(c, sel, m);
    NewerMeans(c, sel, m);
  }

  /** What creation records of a message of the universe. */
  lemma CreationExplained(c: Composition, sel: Selection, m: MessageId)
    requires c.Coherent() && m in c.snap.records && m in Universe(c, sel.targets)
    ensures ExplainsCreation(c, sel, m, CreationReasons(c, sel, QuotaAllowed(c, sel, Universe(c, sel.targets)), m))
  {
    hide ValidClassification, ValidOutcome, Universe, BaseReasons, QuotaAllowed, QuotaLeavesOut;
    BaseGives(c, sel, m);
    NoReasonFits(c, sel, m);
    QuotaMeans(c, sel, m);
    OnlyQuota(c, sel, m);
  }

  /** With no other reason, the quota's is the only one. */
  lemma OnlyQuota(c: Composition, sel: Selection, m: MessageId)
    ensures FiltersGive(c, sel, m, {}) ==> FiltersGive(c, sel, m, {KeepLatest})
  {
  }

  /** What a revalidation records of a member. */
  lemma RemovalExplained(c: Composition, sel: Selection, m: MessageId)
    requires c.Coherent()
    ensures ExplainsRemoval(c, sel, m, RemovalReasonsFor(c, sel, m)) || RemovalReasonsFor(c, sel, m) == {}
    ensures RemovalReasonsFor(c, sel, m) == {} <==> Touchable(c, sel, m)
  {
    hide ValidClassification, ValidOutcome, Universe, BaseReasons, QuotaAllowed, QuotaLeavesOut, Touchable, Fits, RemovalReasonsValid, GuardsOn,
      InTarget;
    CleanMembersStay(c, sel, m);
    CleanMeans(c, sel, m);
    assert StructureCurrent(c, sel) <==> TargetsExist(c, sel);
    if m in c.snap.records && TargetsExist(c, sel) {
      BaseGives(c, sel, m);
      NoReasonFits(c, sel, m);
      QuotaMeans(c, sel, m);
      OnlyQuota(c, sel, m);
      UniverseMeans(c, sel.targets, m);
      GuardsWhenShielded(c, m);
      MoreReasons(c, sel, m, BaseReasons(c, sel, m));
    }
  }

  /** Reasons of other kinds do not change what the filters give. */
  lemma MoreReasons(c: Composition, sel: Selection, m: MessageId, reasons: set<PlanReason>)
    requires FiltersGive(c, sel, m, reasons)
    ensures FiltersGive(c, sel, m, reasons + {ScopeChanged})
    ensures FiltersGive(c, sel, m, reasons + {ProtectionChanged})
    ensures FiltersGive(c, sel, m, {ScopeChanged} + reasons + {ProtectionChanged})
    ensures FiltersGive(c, sel, m, {} + reasons + {ProtectionChanged})
    ensures FiltersGive(c, sel, m, {ScopeChanged} + reasons + {})
    ensures FiltersGive(c, sel, m, {} + reasons + {})
  {
  }

  // --------------------------------------------------------------- members

  /** A member shows its message as the composition has it. */
  ghost predicate ShowsMessage(c: Composition, digest: MessageId -> int, x: Member) {
    && x.message in c.snap.records && x.message in c.outcome.messages
    && x.local == digest(x.message)
    && x.receivedAt == c.snap.records[x.message].receivedAt && x.size == c.snap.records[x.message].size
    && x.source == c.outcome.messages[x.message].source && x.flow == c.outcome.messages[x.message].flow
    && (x.unread <==> Label.Unread in c.snap.records[x.message].labels)
  }

  lemma MembersExplained(c: Composition, sel: Selection, digest: MessageId -> int, ms: seq<Member>)
    requires c.Coherent() && ListsUniverse(c, sel, digest, ms)
    ensures forall x <- ms :: ShowsMessage(c, digest, x) && ExplainsCreation(c, sel, x.message, x.reasons)
    ensures forall m :: m in MessagesIn(ms) <==> exists t <- sel.targets :: InTarget(c, t, m)
  {
    hide ValidClassification, ValidOutcome, Universe, QuotaAllowed, CreationReasons, ExplainsCreation, InTarget;
    forall x | x in ms ensures ShowsMessage(c, digest, x) && ExplainsCreation(c, sel, x.message, x.reasons) {
      CreationExplained(c, sel, x.message);
    }
    forall m ensures m in MessagesIn(ms) <==> exists t <- sel.targets :: InTarget(c, t, m) {
      UniverseMeans(c, sel.targets, m);
    }
  }

  // --------------------------------------------------------------- samples

  /** The members of the same kind that are newer, or as new and first by local identifier. */
  function NewerOfKind(ms: seq<Member>, x: Member): set<Member> {
    set y | y in ms && y.Selected() == x.Selected()
            && (y.receivedAt > x.receivedAt || (y.receivedAt == x.receivedAt && y.local < x.local))
  }

  /** A member is a sample exactly when fewer than five members of its kind are newer. */
  lemma SamplesAreNewest(ms: seq<Member>, x: Member)
    requires UniqueIds(ms, LocalIdentifier()) && x in ms
    ensures (exists s <- SamplesOf(ms) :: s.member == x) <==> |NewerOfKind(ms, x)| < 5
  {
    hide Chosen, NewestFirst;
    var chosen := Chosen(ms, x.Selected());
    var ordered := NewestFirst(chosen, LocalIdentifier(), MemberDate());
    ChosenMeans(ms, x.Selected());
    NewestFirstOrdered(chosen, LocalIdentifier(), MemberDate());
    SameElements(chosen, ordered);
    assert x in Elements(chosen);
    assert x in Elements(ordered);
    FirstOnes(ordered, LocalIdentifier(), MemberDate(), 5, x);
    NewerAre(ms, ordered, x);
    SampledKind(ms, x);
  }

  lemma NewerAre(ms: seq<Member>, ordered: seq<Member>, x: Member)
    requires forall y :: y in Elements(ordered) <==> y in ms && y.Selected() == x.Selected()
    ensures (set y | y in Elements(ordered) && Precedes(LocalIdentifier(), MemberDate(), y, x)) == NewerOfKind(ms, x)
  {
  }

  /** The samples of a kind are the first ones of the ordered members of that kind. */
  lemma SampledKind(ms: seq<Member>, x: Member)
    requires UniqueIds(ms, LocalIdentifier()) && x in ms
    ensures (exists s <- SamplesOf(ms) :: s.member == x)
       <==> x in Leading(NewestFirst(Chosen(ms, x.Selected()), LocalIdentifier(), MemberDate()))
  {
    hide Chosen, Leading, NewestFirst;
    var kind := x.Selected();
    KindSamplesValid(ms, kind);
    KindSamplesValid(ms, !kind);
    var first := Leading(NewestFirst(Chosen(ms, kind), LocalIdentifier(), MemberDate()));
    assert KindSamples(ms, kind) == Numbered(first, kind);
    assert SamplesOf(ms) == KindSamples(ms, true) + KindSamples(ms, false);
    if s :| s in SamplesOf(ms) && s.member == x {
      assert s in KindSamples(ms, kind) || s in KindSamples(ms, !kind);
      assert s in KindSamples(ms, kind);
      var i :| 0 <= i < |first| && Numbered(first, kind)[i] == s;
      assert first[i] == x;
    }
    if x in first {
      var i :| 0 <= i < |first| && first[i] == x;
      var s := Numbered(first, kind)[i];
      assert s in KindSamples(ms, kind) && s.member == x;
      assert s in SamplesOf(ms);
    }
  }

  // --------------------------------------------------------- what is refused

  /** A plan that is cancelled or has nothing left. */
  ghost predicate Over(p: Plan) {
    p.events == [] || p.events[|p.events| - 1].kind == CancelledEvent || p.Eligible() == {}
  }

  lemma OverMeans(p: Plan)
    requires ValidPlan(p)
    ensures p.events != [] && p.Last().revision == |p.events| && p.expiresAt == p.createdAt + 24 * 60 * 60 * 1_000_000
    ensures p.Last().state != Expired && (Terminal(p.Last().state) <==> Over(p))
  {
    EligibleCounted(p);
    hide RemovalsValid, SamplesValid, MembersValid, SelectedBytes, ExcludedBytes, EligibleBytes;
    assert EventValid(p.events[|p.events| - 1]);
    if p.Eligible() == {} {
      assert |p.Eligible()| == 0;
    }
  }

  /** A composition whose records the plan can count: sizes within bounds, and every sender one of its classified source. */
  ghost predicate Countable(c: Composition) {
    && (forall m <- c.snap.records :: c.snap.records[m].size <= 2_147_483_647)
    && (forall m <- c.snap.records :: c.snap.records[m].sender.Some? ==> OwnSender(c, m))
  }

  ghost predicate OwnSender(c: Composition, m: MessageId) {
    && m in c.snap.records && c.snap.records[m].sender.Some?
    && m in c.snap.classified.messages && c.snap.classified.messages[m].source in c.snap.classified.sources
    && var d := c.snap.classified.sources[c.snap.classified.messages[m].source].descriptor;
       d.Senders? && c.snap.records[m].sender.value in d.addresses
  }

  lemma CountableMeans(c: Composition)
    requires c.Coherent()
    ensures Countable(c) <==> SizesBounded(c) && SendersKnown(c)
    ensures SizesBounded(c) <==> forall m <- c.snap.records :: c.snap.records[m].size <= 2_147_483_647
  {
    hide ValidOutcome, Consistent;
    forall m | m in c.snap.records && c.snap.records[m].sender.Some?
      ensures OwnSender(c, m) <==> CanonicalSender(c.snap, m) != None
    {
    }
  }

  /** The messages that the targets of a selection reach. */
  ghost function InScope(c: Composition, sel: Selection): set<MessageId> {
    set m | m in c.snap.records && exists t <- sel.targets :: InTarget(c, t, m)
  }

  lemma ScopeIsUniverse(c: Composition, sel: Selection)
    requires c.outcome.messages.Keys == c.snap.records.Keys
    ensures InScope(c, sel) == Universe(c, sel.targets)
  {
    hide Universe, InTarget;
    forall m ensures m in InScope(c, sel) <==> m in Universe(c, sel.targets) {
      UniverseMeans(c, sel.targets, m);
    }
  }

  /**
   A revalidation passes its checks exactly when the plan is not over and less
   than a day old, the three revisions are the current ones, the composition can
   be counted, and at most 100,000 messages are in scope while the targets exist.
   An over plan, an old one and a stale revision are refused first, in this order.
   */
  lemma RevalidationChecks(c: Composition, p: Plan, cmd: RevalidateCommand, now: Instant)
    requires ValidPlan(p) && c.Coherent()
    ensures p.events != []
    ensures var refused := RevalidationRefused(c, p, cmd, now);
      var late := now >= p.createdAt + 24 * 60 * 60 * 1_000_000;
      && (refused == None <==>
            && !Over(p) && !late && cmd.planRevision == |p.events|
            && cmd.mapRevision == c.mapRevision && cmd.policyRevision == c.policyRevision && Countable(c)
            && (TargetsExist(c, p.selection) ==> |InScope(c, p.selection)| <= 100_000))
      && (Over(p) <==> refused == Some(InvalidTransition))
      && (!Over(p) && late <==> refused == Some(PlanExpired))
      && (!Over(p) && !late && cmd.planRevision != |p.events| <==> refused == Some(PlanRevisionConflict))
  {
    hide ValidClassification, ValidOutcome, ValidPlan, Universe, SizesBounded, SendersKnown, Countable, Over, InScope;
    OverMeans(p);
    CountableMeans(c);
    ScopeIsUniverse(c, p.selection);
    assert StructureCurrent(c, p.selection) <==> TargetsExist(c, p.selection);
  }

  /** A cancellation passes its checks exactly when the plan is not over, less than a day old and of the expected revision. */
  lemma CancellationChecks(p: Plan, cmd: CancelCommand, now: Instant)
    requires ValidPlan(p)
    ensures p.events != []
    ensures var refused := CancellationRefused(p, cmd, now);
      var late := now >= p.createdAt + 24 * 60 * 60 * 1_000_000;
      && (refused == None <==> !Over(p) && !late && cmd.planRevision == |p.events|)
      && (Over(p) <==> refused == Some(InvalidTransition))
      && (!Over(p) && late <==> refused == Some(PlanExpired))
      && (!Over(p) && !late && cmd.planRevision != |p.events| <==> refused == Some(PlanRevisionConflict))
  {
    hide ValidPlan, Over;
    OverMeans(p);
  }

  /** A label a selection may exclude: the inbox or one of its tabs, on some record. */
  ghost predicate Excludable(c: Composition, l: Label) {
    && (l == Inbox || l == TabPersonal || l == TabSocial || l == TabPromotions || l == TabUpdates || l == TabForums)
    && exists m <- c.snap.records :: l in c.snap.records[m].labels
  }

  /** A target that exists: a source or a flow of the report, or the sender of some record. */
  ghost predicate TargetExists(c: Composition, t: CleanupTarget) {
    match t
    case SourceTarget(k) => k in c.outcome.sources
    case FlowTarget(fs) => fs in c.outcome.flows
    case SenderTarget(a) => exists m <- c.snap.records :: c.snap.records[m].sender == Some(a)
  }

  lemma TargetExistsMeans(c: Composition, t: CleanupTarget)
    requires c.outcome.messages.Keys == c.snap.records.Keys
    ensures TargetExists(c, t) <==> Listed(c, t)
  {
    if t.SenderTarget? {
      var ms := TargetMessages(c, t);
      if ms != {} { var m := SomeMember(ms); }
      if m :| m in c.snap.records && c.snap.records[m].sender == Some(t.address) { assert m in ms; }
    }
  }

  /**
   A creation passes its checks exactly when the revisions are the current ones,
   the composition can be counted, every target exists, every excluded label may
   be excluded, and at most 100,000 messages are in scope.
   */
  lemma CreationChecks(c: Composition, cmd: CreateCommand)
    requires c.Coherent()
    ensures var refused, sel := CreationRefused(c, cmd), cmd.selection;
      && (refused == None <==>
            && cmd.mapRevision == c.mapRevision && cmd.policyRevision == c.policyRevision && Countable(c)
            && (forall t <- sel.targets :: TargetExists(c, t)) && (forall l <- sel.excluded :: Excludable(c, l))
            && |InScope(c, sel)| <= 100_000)
      && (refused == Some(TargetNotFound) ==> exists t <- sel.targets :: !TargetExists(c, t))
      && (refused == Some(UnsupportedTarget) ==> exists l <- sel.excluded :: !Excludable(c, l))
      && (refused == Some(PlanTooLarge) ==> |InScope(c, sel)| > 100_000)
      && (refused == Some(MapRevisionConflict) ==> cmd.mapRevision != c.mapRevision)
      && (refused == Some(PolicyRevisionConflict) ==> cmd.policyRevision != c.policyRevision)
      && (refused == Some(StudyUnavailable) ==> !Countable(c))
  {
    hide ValidClassification, ValidOutcome, Universe, SizesBounded, SendersKnown, Countable, InScope, TargetExists, Listed;
    CountableMeans(c);
    ScopeIsUniverse(c, cmd.selection);
    forall t ensures TargetExists(c, t) <==> Listed(c, t) {
      TargetExistsMeans(c, t);
    }
    forall l ensures Excludable(c, l) <==> LabelListed(c, l) {
    }
  }
}
