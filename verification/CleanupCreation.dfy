/** Creating a plan: its members, its samples and its first event. */
module CleanupCreation {
  import opened Basics
  import opened MailModel
  import opened PolicyModel
  import opened StructuralPolicy
  import opened Protection
  import opened PolicyResult
  import opened Sorting
  import opened CleanupScope
  import opened CleanupLedger
  import opened CleanupSteps

  datatype CreateCommand = CreateCommand(selection: Selection, mapRevision: int, policyRevision: int) {
    /** The checks of the command's constructor. */
    ghost predicate Valid() {
      SelectionValid(selection)
    }
  }

  /** Local identifiers are digests: different messages have different ones. */
  ghost predicate Injective(digest: MessageId -> int) {
    forall a, b :: digest(a) == digest(b) ==> a == b
  }

  /** What a creation refuses, in the program's order. */
  function CreationRefused(c: Composition, cmd: CreateCommand): Option<PlanError>
    requires c.Coherent()
  {
    if !SizesBounded(c) then Some(StudyUnavailable)
    else if cmd.mapRevision != c.mapRevision then Some(MapRevisionConflict)
    else if cmd.policyRevision != c.policyRevision then Some(PolicyRevisionConflict)
    else if !SendersKnown(c) then Some(StudyUnavailable)
    else if exists t <- cmd.selection.targets :: !Listed(c, t) then Some(TargetNotFound)
    else if exists l <- cmd.selection.excluded :: !LabelListed(c, l) then Some(UnsupportedTarget)
    else if |Universe(c, cmd.selection.targets)| > MAX_CONSIDERED then Some(PlanTooLarge)
    else None
  }

  /** Why a message of the universe is excluded from the start; nothing when it is selected. */
  function CreationReasons(c: Composition, sel: Selection, allowed: set<MessageId>, m: MessageId): set<PlanReason>
    requires m in c.snap.records && m in c.outcome.messages
  {
    var reasons := BaseReasons(c, sel, m);
    if reasons == {} && m !in allowed then {KeepLatest} else reasons
  }

  function MemberOf(c: Composition, sel: Selection, allowed: set<MessageId>, digest: MessageId -> int, m: MessageId): Member
    requires m in c.snap.records && m in c.outcome.messages
  {
    var record := c.snap.records[m];
    Member(m, digest(m), record.receivedAt, record.size, c.outcome.messages[m].source, c.outcome.messages[m].flow,
           Label.Unread in record.labels, CreationReasons(c, sel, allowed, m))
  }

  // ---------------------------------------------------------------- samples

  function LocalIdentifier(): Member -> int {
    (x: Member) => x.local
  }

  function MemberDate(): Member -> Instant {
    (x: Member) => x.receivedAt
  }

  function Chosen(ms: seq<Member>, selected: bool): seq<Member> {
    if ms == [] then [] else (if ms[0].Selected() == selected then [ms[0]] else []) + Chosen(ms[1..], selected)
  }

  function Leading(ms: seq<Member>): seq<Member> {
    ms[..if |ms| < MAX_SAMPLES then |ms| else MAX_SAMPLES]
  }

  function Numbered(ms: seq<Member>, included: bool): seq<Sample> {
    seq(|ms|, i requires 0 <= i < |ms| => Sample(included, i, ms[i]))
  }

  function KindSamples(ms: seq<Member>, included: bool): seq<Sample> {
    Numbered(Leading(NewestFirst(Chosen(ms, included), LocalIdentifier(), MemberDate())), included)
  }

  /** The five newest selected members and the five newest excluded ones. */
  function SamplesOf(ms: seq<Member>): seq<Sample> {
    KindSamples(ms, true) + KindSamples(ms, false)
  }

  lemma {:induction false} ChosenMeans(ms: seq<Member>, selected: bool)
    requires UniqueIds(ms, LocalIdentifier())
    ensures forall x :: x in Chosen(ms, selected) <==> x in ms && x.Selected() == selected
    ensures UniqueIds(Chosen(ms, selected), LocalIdentifier())
  {
    if ms != [] {
      ChosenMeans(ms[1..], selected);
      assert forall x :: x in ms <==> x == ms[0] || x in ms[1..];
      forall x | x in Chosen(ms[1..], selected) ensures LocalIdentifier()(x) != LocalIdentifier()(ms[0]) {
        var i :| 0 <= i < |ms[1..]| && ms[1..][i] == x;
        assert LocalIdentifier()(ms[0]) != LocalIdentifier()(ms[i + 1]);
      }
    }
  }

  /** The samples of one kind are at most five members, numbered and newest first. */
  lemma KindSamplesValid(ms: seq<Member>, included: bool)
    requires UniqueIds(ms, LocalIdentifier())
    ensures SampleListValid(KindSamples(ms, included))
    ensures forall s <- KindSamples(ms, included) :: s.included == included && s.member in ms && s.member.Selected() == included
    ensures forall i, j :: 0 <= i < j < |KindSamples(ms, included)| ==>
      KindSamples(ms, included)[i].member != KindSamples(ms, included)[j].member
  {
    var chosen := Chosen(ms, included);
    var ordered := NewestFirst(chosen, LocalIdentifier(), MemberDate());
    ChosenMeans(ms, included);
    NewestFirstOrdered(chosen, LocalIdentifier(), MemberDate());
    var ss := KindSamples(ms, included);
    forall i, j | 0 <= i < j < |ss|
      ensures Precedes(LocalOf(), DateOf(), ss[i], ss[j]) && ss[i].member != ss[j].member
    {
      assert Precedes(LocalIdentifier(), MemberDate(), ordered[i], ordered[j]);
    }
    forall s | s in ss ensures s.member in ms && s.member.Selected() == included {
      var i :| 0 <= i < |ss| && ss[i] == s;
      assert ordered[i] in ordered;
      SameItems(chosen, ordered, ordered[i]);
    }
  }

  lemma {:induction false} OfKindJoin(a: seq<Sample>, b: seq<Sample>, included: bool)
    ensures OfKind(a + b, included) == OfKind(a, included) + OfKind(b, included)
  {
    if a == [] {
      assert a + b == b;
    } else {
      var head := if a[0].included == included then [a[0]] else [];
      OfKindJoin(a[1..], b, included);
      assert (a + b)[1..] == a[1..] + b && (a + b)[0] == a[0];
      assert OfKind(a + b, included) == head + OfKind(a[1..] + b, included);
      assert head + (OfKind(a[1..], included) + OfKind(b, included)) == (head + OfKind(a[1..], included)) + OfKind(b, included);
    }
  }

  lemma {:induction false} OfKindAll(ss: seq<Sample>, kind: bool, included: bool)
    requires forall s <- ss :: s.included == kind
    ensures OfKind(ss, included) == if kind == included then ss else []
  {
    if ss != [] {
      OfKindAll(ss[1..], kind, included);
      assert ss[0] in ss;
    }
  }

  lemma SamplesAreValid(ms: seq<Member>)
    requires UniqueIds(ms, LocalIdentifier())
    ensures SamplesValid(SamplesOf(ms), ms)
  {
    hide SampleListValid, KindSamples;
    KindSamplesValid(ms, true);
    KindSamplesValid(ms, false);
    JoinedSamplesValid(KindSamples(ms, true), KindSamples(ms, false), ms);
  }

  lemma JoinedSamplesValid(yes: seq<Sample>, no: seq<Sample>, ms: seq<Member>)
    requires SampleListValid(yes) && SampleListValid(no)
    requires forall s <- yes :: s.included && s.member in ms && s.member.Selected()
    requires forall s <- no :: !s.included && s.member in ms && !s.member.Selected()
    requires forall i, j :: 0 <= i < j < |yes| ==> yes[i].member != yes[j].member
    requires forall i, j :: 0 <= i < j < |no| ==> no[i].member != no[j].member
    ensures SamplesValid(yes + no, ms)
  {
    hide SampleListValid;
    OfKindJoin(yes, no, true);
    OfKindJoin(yes, no, false);
    OfKindAll(yes, true, true);
    OfKindAll(yes, true, false);
    OfKindAll(no, false, true);
    OfKindAll(no, false, false);
    assert yes + [] == yes && [] + no == no;
    var all := yes + no;
    forall i, j | 0 <= i < j < |all| ensures all[i].member != all[j].member {
      if i < |yes| <= j {
        assert yes[i].member.Selected() && !no[j - |yes|].member.Selected();
      }
    }
  }

  // ------------------------------------------------------------------- plan

  /** The members of a plan, listed in the order of their local identifiers. */
  ghost predicate ListsUniverse(c: Composition, sel: Selection, digest: MessageId -> int, ms: seq<Member>)
    requires c.outcome.messages.Keys == c.snap.records.Keys
  {
    var universe := Universe(c, sel.targets);
    && (forall i, j :: 0 <= i < j < |ms| ==> ms[i].local < ms[j].local)
    && (forall x <- ms :: x.message in universe && x == MemberOf(c, sel, QuotaAllowed(c, sel, universe), digest, x.message))
    && (forall m <- universe :: exists x <- ms :: x.message == m)
  }

  function NewPlan(c: Composition, sel: Selection, ms: seq<Member>, now: Instant): Plan {
    var revisions := Revisions(c.mapRevision, c.policyRevision);
    var count := CountSelected(ms);
    Plan(sel, revisions, now, now + VALIDITY, ms, SamplesOf(ms),
         [Event(1, CreatedEvent, now, if count > 0 then Frozen else Invalidated, Some(revisions), 0, count)], [])
  }

  lemma MembersAreValid(c: Composition, cmd: CreateCommand, digest: MessageId -> int, ms: seq<Member>)
    requires c.Coherent() && cmd.Valid() && CreationRefused(c, cmd) == None && Injective(digest)
    requires ListsUniverse(c, cmd.selection, digest, ms)
    ensures MembersValid(ms) && UniqueIds(ms, LocalIdentifier())
  {
    hide ValidClassification, ValidOutcome, QuotaAllowed, LabelListed, SendersKnown;
    var universe := Universe(c, cmd.selection.targets);
    forall i, j | 0 <= i < j < |ms| ensures ms[i].message != ms[j].message {
      assert ms[i] in ms && ms[j] in ms;
      assert ms[i].local == digest(ms[i].message) && ms[j].local == digest(ms[j].message);
    }
    forall x | x in ms ensures MemberValid(x) {
      assert forall r <- GuardsOn(c, x.message) :: r.Guard?;
    }
    DistinctMessages(ms);
    forall m ensures m in MessagesIn(ms) <==> m in universe {
    }
    assert MessagesIn(ms) == universe;
    var t := cmd.selection.targets[0];
    ListedReaches(c, t);
    var m := SomeMember(TargetMessages(c, t));
    assert m in universe;
  }

  /**
   A creation that passes its checks is always a valid plan. It selects exactly
   what the composition is clean of reasons for, and it is frozen exactly when
   that is not empty.
   */
  lemma CreationIsValid(c: Composition, cmd: CreateCommand, digest: MessageId -> int, ms: seq<Member>, now: Instant)
    requires c.Coherent() && cmd.Valid() && CreationRefused(c, cmd) == None && Injective(digest)
    requires ListsUniverse(c, cmd.selection, digest, ms)
    ensures var p := NewPlan(c, cmd.selection, ms, now);
      && ValidPlan(p)
      && p.Selected() == p.Eligible() == Clean(c, cmd.selection)
      && (p.Last().state == Frozen <==> Clean(c, cmd.selection) != {})
      && (p.Last().state == Invalidated <==> Clean(c, cmd.selection) == {})
  {
    hide ValidClassification, ValidOutcome, CreationRefused, MembersValid, ListsUniverse, SamplesOf, Clean, ValidPlan, UniqueIds;
    MembersAreValid(c, cmd, digest, ms);
    NewPlanIsValid(c, cmd.selection, ms, now);
    SelectedIsClean(c, cmd, digest, ms);
    var p := NewPlan(c, cmd.selection, ms, now);
    EligibleCounted(p);
    assert p.Removed() == {};
    assert p.Selected() == Clean(c, cmd.selection);
    assert p.EligibleCount() == CountSelected(ms);
  }

  lemma NewPlanIsValid(c: Composition, sel: Selection, ms: seq<Member>, now: Instant)
    requires SelectionValid(sel) && MembersValid(ms) && UniqueIds(ms, LocalIdentifier())
    ensures ValidPlan(NewPlan(c, sel, ms, now))
  {
    hide SamplesOf, SamplesValid;
    SamplesAreValid(ms);
    AggregateNeverTooLarge(NewPlan(c, sel, ms, now));
    assert RemovalsAt([], 1) == 0;
  }

  lemma SelectedIsClean(c: Composition, cmd: CreateCommand, digest: MessageId -> int, ms: seq<Member>)
    requires c.Coherent() && CreationRefused(c, cmd) == None
    requires ListsUniverse(c, cmd.selection, digest, ms)
    ensures SelectedIn(ms) == Clean(c, cmd.selection)
  {
    hide ValidClassification, ValidOutcome, LabelListed, SendersKnown, Universe, Newer, SameFlow, BaseReasons;
    var sel := cmd.selection;
    var universe := Universe(c, sel.targets);
    assert StructureCurrent(c, sel);
    forall m ensures m in SelectedIn(ms) <==> m in QuotaAllowed(c, sel, universe) {
      if m in QuotaAllowed(c, sel, universe) {
        var x :| x in ms && x.message == m;
        assert x.Selected();
      }
    }
  }
}
