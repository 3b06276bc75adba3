/** Which messages are protected, why and how strongly, told from the records, the classification and the decisions. */
module ProtectionMeaning {
  import opened Basics
  import opened MailModel
  import opened PolicyModel
  import opened StructuralPolicy
  import opened EffectiveFlows
  import opened PolicyBindings
  import opened Protection
  import opened PolicyApplication
  import opened ProtectionTheorems
  import opened CorrectedValues

  // ------------------------------------------------- what protects by itself

  /** A message that is protected whatever the policies and its conversation. */
  predicate Warrants(record: Record, message: ClassifiedMessage) {
    || Sent in record.labels || Draft in record.labels || Trash in record.labels
    || Starred in record.labels || Important in record.labels
    || message.intent == Security || message.intent == Document || message.intent == Personal
    || message.confidence == Low || message.confidence == Contradictory
  }

  ghost predicate WarrantsAlone(snap: Snapshot, m: MessageId) {
    m in snap.records && m in snap.classified.messages && Warrants(snap.records[m], snap.classified.messages[m])
  }

  /** An applying protection that reaches a message. */
  ghost predicate Shields(snap: Snapshot, ps: Policies, e: DecisionId, m: MessageId) {
    && Accepted(snap, ps) && e in ps && ps[e].command.ProtectTarget? && e in AllBindings(snap, ps)
    && AllBindings(snap, ps)[e].status.Applies() && m in AllBindings(snap, ps)[e].candidate.messages
  }

  predicate ShieldsByLabel(command: Command) {
    command.ProtectTarget? && command.protect.OnLabel?
  }

  /** A decision of any kind that reaches a message and waits for a review. */
  ghost predicate Awaits(snap: Snapshot, ps: Policies, e: DecisionId, m: MessageId) {
    && Accepted(snap, ps) && e in ps && e in AllBindings(snap, ps) && m in AllBindings(snap, ps)[e].candidate.messages
    && AllBindings(snap, ps)[e].status in {NeedsReview, Ambiguous, Conflict}
  }

  /** Some applying protection reaches the message. */
  ghost predicate Shielded(snap: Snapshot, ps: Policies, m: MessageId) {
    exists e <- ps :: Shields(snap, ps, e, m)
  }

  ghost predicate ShieldedByLabel(snap: Snapshot, ps: Policies, m: MessageId) {
    exists e <- ps :: ShieldsByLabel(ps[e].command) && Shields(snap, ps, e, m)
  }

  /** Some decision that reaches the message waits for a review. */
  ghost predicate Awaited(snap: Snapshot, ps: Policies, m: MessageId) {
    exists e <- ps :: Awaits(snap, ps, e, m)
  }

  /** The message is, or is corrected to be, of an intention. */
  ghost predicate IntendedAs(snap: Snapshot, ps: Policies, m: MessageId, intent: Intent)
    requires m in snap.classified.messages
  {
    snap.classified.messages[m].intent == intent || CorrectedTo(snap, ps, m, intent)
  }

  /** What the policies alone make of a message. */
  ghost predicate WarrantedByPolicy(snap: Snapshot, ps: Policies, m: MessageId) {
    || Shielded(snap, ps, m) || Awaited(snap, ps, m)
    || CorrectedTo(snap, ps, m, Security) || CorrectedTo(snap, ps, m, Document) || CorrectedTo(snap, ps, m, Personal)
  }

  /** The reasons of a record, label by label, intention by intention and confidence by confidence. */
  lemma LabelsMean(record: Record, message: ClassifiedMessage)
    ensures var rs, labels := AutomaticReasons(record, message), record.labels;
      && (IsSent in rs <==> Sent in labels) && (IsDraft in rs <==> Draft in labels) && (IsTrash in rs <==> Trash in labels)
      && (IsStarred in rs <==> Starred in labels) && (IsImportant in rs <==> Important in labels)
  {
    hide AutomaticReasons;
    HardLabelsMean(record, message);
    KeptLabelsMean(record, message);
  }

  lemma HardLabelsMean(record: Record, message: ClassifiedMessage)
    ensures var rs, labels := AutomaticReasons(record, message), record.labels;
      (IsSent in rs <==> Sent in labels) && (IsDraft in rs <==> Draft in labels) && (IsTrash in rs <==> Trash in labels)
  {
  }

  lemma KeptLabelsMean(record: Record, message: ClassifiedMessage)
    ensures var rs, labels := AutomaticReasons(record, message), record.labels;
      (IsStarred in rs <==> Starred in labels) && (IsImportant in rs <==> Important in labels)
  {
  }

  lemma ReadingMeans(record: Record, message: ClassifiedMessage)
    ensures var rs := AutomaticReasons(record, message);
      && (IsSecurity in rs <==> message.intent == Security) && (IsDocument in rs <==> message.intent == Document)
      && (IsPersonal in rs <==> message.intent == Personal)
      && (LowConfidence in rs <==> message.confidence == Low) && (Contradiction in rs <==> message.confidence == Contradictory)
  {
  }

  lemma NothingElse(record: Record, message: ClassifiedMessage)
    ensures AutomaticReasons(record, message) !! {ProtectedLabel, MixedConversation, ManualPolicy, PolicyReview}
  {
  }

  lemma WarrantsMeans(record: Record, message: ClassifiedMessage)
    ensures AutomaticReasons(record, message) != {} <==> Warrants(record, message)
  {
    LabelsMean(record, message);
    ReadingMeans(record, message);
    NothingElse(record, message);
    hide AutomaticReasons;
    var rs := AutomaticReasons(record, message);
    if rs != {} {
      var r := SomeMember(rs);
      assert r !in {ProtectedLabel, MixedConversation, ManualPolicy, PolicyReview};
      assert r.IsSent? || r.IsDraft? || r.IsTrash? || r.IsStarred? || r.IsImportant? || r.IsSecurity? || r.IsDocument? || r.IsPersonal?
        || r.LowConfidence? || r.Contradiction?;
    }
  }

  // ------------------------------------------------------ before the last pass

  /** What the policies add to the automatic reasons of a message. */
  ghost function AddedBy(snap: Snapshot, ps: Policies, m: MessageId): set<Reason> {
    hide ValidClassification, ValidPolicies;
    if Accepted(snap, ps) && m in snap.records then PolicyReasons(ps, AllBindings(snap, ps), EndFlow(snap, ps, m), m) else {}
  }

  lemma GatheredIs(snap: Snapshot, ps: Policies, m: MessageId)
    requires Accepted(snap, ps) && m in snap.records
    ensures Gathered(snap, ps)[m] == AutomaticProtection(snap)[m] + AddedBy(snap, ps, m)
  {
    hide ValidClassification, ValidPolicies, AllBindings, Decide, DecidedFor, AutomaticProtection, PolicyReasons;
    DecideUnfolds(snap, ps);
  }

  /** What the policies add, reason by reason. */
  lemma AddedMeans(snap: Snapshot, ps: Policies, m: MessageId)
    requires Accepted(snap, ps) && m in snap.records
    ensures var rs := AddedBy(snap, ps, m);
      && (ManualPolicy in rs <==> Shielded(snap, ps, m) || Awaited(snap, ps, m))
      && (PolicyReview in rs <==> Awaited(snap, ps, m))
      && (ProtectedLabel in rs <==> ShieldedByLabel(snap, ps, m))
      && rs <= {ManualPolicy, PolicyReview, ProtectedLabel, IsSecurity, IsDocument, IsPersonal}
  {
    hide ValidClassification, ValidPolicies, AllBindings, EndFlow;
    BindingKeys(snap, ps);
    var b := AllBindings(snap, ps);
    forall e | e in b ensures e in ProtectedBy(ps, b, m) <==> Shields(snap, ps, e, m) {
    }
    forall e | e in b ensures e in UnsettledOn(b, m) <==> Awaits(snap, ps, e, m) {
    }
    if ProtectedBy(ps, b, m) + UnsettledOn(b, m) != {} {
      var e := SomeMember(ProtectedBy(ps, b, m) + UnsettledOn(b, m));
    }
    if UnsettledOn(b, m) != {} {
      var e := SomeMember(UnsettledOn(b, m));
    }
  }

  /** A corrected intention adds its reason; an intention the message has anyway adds nothing. */
  lemma IntentionAdds(snap: Snapshot, ps: Policies, m: MessageId)
    requires Accepted(snap, ps) && m in snap.records && m in snap.classified.messages
    ensures var rs, own := AddedBy(snap, ps, m), snap.classified.messages[m].intent;
      && (IsSecurity in rs <==> CorrectedTo(snap, ps, m, Security) && own != Security)
      && (IsDocument in rs <==> CorrectedTo(snap, ps, m, Document) && own != Document)
      && (IsPersonal in rs <==> CorrectedTo(snap, ps, m, Personal) && own != Personal)
  {
    hide ValidClassification, ValidPolicies, AllBindings, EndFlow, CorrectedTo, ProtectedBy, UnsettledOn, LabelProtected;
    MessageIntention(snap, ps, m);
  }

  /** Whatever the policies add, they add something exactly when they warrant it or confirm what the message warrants. */
  lemma AddedSomething(snap: Snapshot, ps: Policies, m: MessageId)
    requires Accepted(snap, ps) && m in snap.records && m in snap.classified.messages && !WarrantsAlone(snap, m)
    ensures AddedBy(snap, ps, m) != {} <==> WarrantedByPolicy(snap, ps, m)
  {
    hide ValidClassification, ValidPolicies, AddedBy, Shielded, Awaited, ShieldedByLabel, CorrectedTo;
    AddedMeans(snap, ps, m);
    IntentionAdds(snap, ps, m);
    LabelShields(snap, ps, m);
    if AddedBy(snap, ps, m) != {} {
      var r := SomeMember(AddedBy(snap, ps, m));
      assert r in {ManualPolicy, PolicyReview, ProtectedLabel, IsSecurity, IsDocument, IsPersonal};
    }
  }

  lemma LabelShields(snap: Snapshot, ps: Policies, m: MessageId)
    ensures ShieldedByLabel(snap, ps, m) ==> Shielded(snap, ps, m)
  {
    hide Shields;
  }

  // ------------------------------------------------------- conversations

  /** Some message of a conversation warrants protection by itself and some does not. */
  ghost predicate TornByItself(snap: Snapshot, t: ThreadId) {
    && WarrantedInThread(snap, t)
    && (exists b <- snap.records :: snap.records[b].thread == t && !WarrantsAlone(snap, b))
  }

  /** None does, and the policies warrant it for some message and not for some other. */
  ghost predicate TornByPolicies(snap: Snapshot, ps: Policies, t: ThreadId) {
    && !WarrantedInThread(snap, t)
    && (exists a <- snap.records :: snap.records[a].thread == t && WarrantedByPolicy(snap, ps, a))
    && (exists b <- snap.records :: snap.records[b].thread == t && !WarrantedByPolicy(snap, ps, b))
  }

  /** Some message of a conversation warrants protection by itself. */
  ghost predicate WarrantedInThread(snap: Snapshot, t: ThreadId) {
    exists n <- snap.records :: snap.records[n].thread == t && WarrantsAlone(snap, n)
  }

  lemma BaseNonEmpty(snap: Snapshot, m: MessageId)
    requires snap.Valid() && m in snap.records
    ensures BaseReasons(snap)[m] != {} <==> WarrantsAlone(snap, m)
    ensures m in snap.classified.messages && BaseReasons(snap)[m] == AutomaticReasons(snap.records[m], snap.classified.messages[m])
  {
    hide ValidClassification, AutomaticReasons, Warrants;
    WarrantsMeans(snap.records[m], snap.classified.messages[m]);
  }

  lemma MixedBase(snap: Snapshot, t: ThreadId)
    requires snap.Valid()
    ensures Mixed(snap, BaseReasons(snap), t) <==> TornByItself(snap, t)
  {
    hide ValidClassification, BaseReasons, WarrantsAlone;
    forall m | m in snap.records ensures BaseReasons(snap)[m] != {} <==> WarrantsAlone(snap, m) {
      BaseNonEmpty(snap, m);
    }
  }

  /** The first pass: a message has an automatic reason exactly when some message of its conversation warrants one. */
  lemma AutomaticNonEmpty(snap: Snapshot, m: MessageId)
    requires snap.Valid() && m in snap.records
    ensures AutomaticProtection(snap)[m] != {} <==> WarrantedInThread(snap, snap.records[m].thread)
  {
    hide ValidClassification, BaseReasons, WarrantsAlone, Spread;
    SpreadCloses(snap, BaseReasons(snap), m);
    forall n | n in snap.records ensures BaseReasons(snap)[n] != {} <==> WarrantsAlone(snap, n) {
      BaseNonEmpty(snap, n);
    }
  }

  lemma GatheredNonEmpty(snap: Snapshot, ps: Policies, m: MessageId)
    requires Accepted(snap, ps) && m in snap.records
    ensures Gathered(snap, ps)[m] != {} <==>
      WarrantedInThread(snap, snap.records[m].thread) || WarrantedByPolicy(snap, ps, m)
  {
    hide ValidClassification, ValidPolicies, AutomaticProtection, AddedBy, Gathered, WarrantsAlone, WarrantedByPolicy;
    GatheredIs(snap, ps, m);
    AutomaticNonEmpty(snap, m);
    BaseNonEmpty(snap, m);
    if !WarrantsAlone(snap, m) {
      AddedSomething(snap, ps, m);
    } else {
      assert WarrantedInThread(snap, snap.records[m].thread);
    }
  }

  /** Some message of a conversation warrants protection, by itself or by the policies. */
  ghost predicate WarrantedSomehow(snap: Snapshot, ps: Policies, t: ThreadId) {
    exists n <- snap.records :: snap.records[n].thread == t && (WarrantsAlone(snap, n) || WarrantedByPolicy(snap, ps, n))
  }

  /** A message is protected exactly when some message of its conversation warrants it, by itself or by the policies. */
  lemma ProtectedExactly(snap: Snapshot, ps: Policies, m: MessageId)
    requires Accepted(snap, ps) && m in snap.records
    ensures ReasonsOn(snap, ps, m) != {} <==> WarrantedSomehow(snap, ps, snap.records[m].thread)
  {
    hide ValidClassification, ValidPolicies, Gathered, WarrantsAlone, WarrantedByPolicy, ReasonsOn, Spread, Protected;
    ConversationClosed(snap, ps, m);
    forall n | n in snap.records
      ensures Gathered(snap, ps)[n] != {} <==> WarrantedInThread(snap, snap.records[n].thread) || WarrantedByPolicy(snap, ps, n)
    {
      GatheredNonEmpty(snap, ps, n);
    }
  }

  /** Without policies, exactly when some message of its conversation warrants it by itself. */
  lemma ProtectedWithoutPolicies(snap: Snapshot, m: MessageId)
    requires snap.Valid() && m in snap.records
    ensures ReasonsOn(snap, map[], m) != {} <==> WarrantedInThread(snap, snap.records[m].thread)
  {
    hide ValidClassification, WarrantsAlone, ReasonsOn, Shields, Awaits;
    ProtectedExactly(snap, map[], m);
    forall n ensures !WarrantedByPolicy(snap, map[], n) {
    }
  }

  lemma MixedGatheredExactly(snap: Snapshot, ps: Policies, t: ThreadId)
    requires Accepted(snap, ps)
    ensures Mixed(snap, Gathered(snap, ps), t) <==> TornByPolicies(snap, ps, t)
  {
    hide ValidClassification, ValidPolicies, Gathered, WarrantsAlone, WarrantedByPolicy, WarrantedInThread;
    forall n | n in snap.records
      ensures Gathered(snap, ps)[n] != {} <==> WarrantedInThread(snap, snap.records[n].thread) || WarrantedByPolicy(snap, ps, n)
    {
      GatheredNonEmpty(snap, ps, n);
    }
  }

  /** Marked in the last pass, or in the first one. */
  lemma MarkedWhen(snap: Snapshot, ps: Policies, m: MessageId)
    requires Accepted(snap, ps) && m in snap.records
    ensures MixedConversation in ReasonsOn(snap, ps, m) <==>
      MixedConversation in Gathered(snap, ps)[m] || Mixed(snap, Gathered(snap, ps), snap.records[m].thread)
    ensures ReasonsOn(snap, ps, m) - {MixedConversation} == Gathered(snap, ps)[m] - {MixedConversation}
  {
    hide ValidClassification, ValidPolicies, Gathered, Mixed;
  }

  lemma MarkedFirst(snap: Snapshot, m: MessageId)
    requires snap.Valid() && m in snap.records
    ensures MixedConversation in AutomaticProtection(snap)[m] <==> TornByItself(snap, snap.records[m].thread)
    ensures AutomaticProtection(snap)[m] - {MixedConversation} == AutomaticReasons(snap.records[m], snap.classified.messages[m])
  {
    hide ValidClassification, AutomaticReasons, Mixed, TornByItself;
    MixedBase(snap, snap.records[m].thread);
    NothingElse(snap.records[m], snap.classified.messages[m]);
  }

  /** The mixed mark, on a conversation torn by itself, or torn by the policies alone. */
  lemma MixedExactly(snap: Snapshot, ps: Policies, m: MessageId)
    requires Accepted(snap, ps) && m in snap.records
    ensures MixedConversation in ReasonsOn(snap, ps, m) <==>
      TornByItself(snap, snap.records[m].thread) || TornByPolicies(snap, ps, snap.records[m].thread)
  {
    hide ValidClassification, ValidPolicies, Gathered, TornByItself, TornByPolicies, AddedBy, Mixed, ReasonsOn, AutomaticProtection;
    GatheredIs(snap, ps, m);
    AddedMeans(snap, ps, m);
    MarkedFirst(snap, m);
    MarkedWhen(snap, ps, m);
    MixedGatheredExactly(snap, ps, snap.records[m].thread);
  }

  // -------------------------------------------------- every reason of a message

  /** The reasons a message has of its own: its labels and its confidence, whatever the policies. */
  lemma OwnReasons(snap: Snapshot, ps: Policies, m: MessageId)
    requires Accepted(snap, ps) && m in snap.records
    ensures m in snap.classified.messages
    ensures var rs, labels, message := ReasonsOn(snap, ps, m), snap.records[m].labels, snap.classified.messages[m];
      && (IsSent in rs <==> Sent in labels) && (IsDraft in rs <==> Draft in labels) && (IsTrash in rs <==> Trash in labels)
      && (IsStarred in rs <==> Starred in labels) && (IsImportant in rs <==> Important in labels)
      && (LowConfidence in rs <==> message.confidence == Low) && (Contradiction in rs <==> message.confidence == Contradictory)
  {
    hide ValidClassification, ValidPolicies, Gathered, AddedBy, ReasonsOn, AutomaticProtection, AutomaticReasons;
    LabelsMean(snap.records[m], snap.classified.messages[m]);
    ReadingMeans(snap.records[m], snap.classified.messages[m]);
    MarkedFirst(snap, m);
    MarkedWhen(snap, ps, m);
    GatheredIs(snap, ps, m);
    AddedMeans(snap, ps, m);
    WithoutMark(snap, ps, m);
  }

  /** Apart from the mixed mark, the reasons are the automatic ones and those the policies add. */
  lemma WithoutMark(snap: Snapshot, ps: Policies, m: MessageId)
    requires Accepted(snap, ps) && m in snap.records && m in snap.classified.messages
    ensures forall r :: r != MixedConversation ==>
      (r in ReasonsOn(snap, ps, m) <==> r in AutomaticReasons(snap.records[m], snap.classified.messages[m]) || r in AddedBy(snap, ps, m))
  {
    hide ValidClassification, ValidPolicies, Gathered, AddedBy, ReasonsOn, AutomaticProtection, AutomaticReasons;
    MarkedFirst(snap, m);
    MarkedWhen(snap, ps, m);
    GatheredIs(snap, ps, m);
    forall r | r != MixedConversation
      ensures r in ReasonsOn(snap, ps, m) <==> r in AutomaticReasons(snap.records[m], snap.classified.messages[m]) || r in AddedBy(snap, ps, m)
    {
      assert r in ReasonsOn(snap, ps, m) <==> r in ReasonsOn(snap, ps, m) - {MixedConversation};
      assert r in Gathered(snap, ps)[m] <==> r in Gathered(snap, ps)[m] - {MixedConversation};
      assert r in AutomaticProtection(snap)[m] <==> r in AutomaticProtection(snap)[m] - {MixedConversation};
    }
  }

  /** The reasons that follow intentions, its own or corrected, and those that follow decisions. */
  lemma DecidedReasons(snap: Snapshot, ps: Policies, m: MessageId)
    requires Accepted(snap, ps) && m in snap.records
    ensures m in snap.classified.messages
    ensures var rs := ReasonsOn(snap, ps, m);
      && (IsSecurity in rs <==> IntendedAs(snap, ps, m, Security)) && (IsDocument in rs <==> IntendedAs(snap, ps, m, Document))
      && (IsPersonal in rs <==> IntendedAs(snap, ps, m, Personal))
      && (ManualPolicy in rs <==> Shielded(snap, ps, m) || Awaited(snap, ps, m))
      && (PolicyReview in rs <==> Awaited(snap, ps, m))
      && (ProtectedLabel in rs <==> ShieldedByLabel(snap, ps, m))
  {
    hide ValidClassification, ValidPolicies, Gathered, AddedBy, ReasonsOn, AutomaticReasons, Shielded, Awaited, ShieldedByLabel, CorrectedTo;
    ReadingMeans(snap.records[m], snap.classified.messages[m]);
    NothingElse(snap.records[m], snap.classified.messages[m]);
    AddedMeans(snap, ps, m);
    IntentionAdds(snap, ps, m);
    WithoutMark(snap, ps, m);
  }

  /** A message is hard excluded exactly when it is labelled sent, draft or trash. */
  lemma HardExcludedExactly(snap: Snapshot, ps: Policies, m: MessageId)
    requires Accepted(snap, ps) && m in snap.records
    ensures HardExcluded(ReasonsOn(snap, ps, m)) <==>
      Sent in snap.records[m].labels || Draft in snap.records[m].labels || Trash in snap.records[m].labels
  {
    hide ValidClassification, ValidPolicies, ReasonsOn;
    OwnReasons(snap, ps, m);
  }

  /** The category of a message, from its intention, its labels and the decisions that reach it. */
  lemma CategoryExactly(snap: Snapshot, ps: Policies, m: MessageId)
    requires Accepted(snap, ps) && m in snap.records
    ensures CategoryOf(ReasonsOn(snap, ps, m)) ==
      if IntendedAs(snap, ps, m, Security) || IntendedAs(snap, ps, m, Personal) then Critical
      else if IntendedAs(snap, ps, m, Document) then Documentary
      else if ByUser(snap.records[m]) || Shielded(snap, ps, m) || Awaited(snap, ps, m) then ChosenByUser
      else if WarrantedSomehow(snap, ps, snap.records[m].thread) then ReviewNeeded
      else Ordinary
  {
    hide ValidClassification, ValidPolicies, ReasonsOn, Shielded, Awaited, ShieldedByLabel, IntendedAs, WarrantedSomehow;
    OwnReasons(snap, ps, m);
    DecidedReasons(snap, ps, m);
    ProtectedExactly(snap, ps, m);
    LabelShields(snap, ps, m);
    UserReasons(ReasonsOn(snap, ps, m));
  }

  /** The labels by which the user keeps a message. */
  predicate ByUser(record: Record) {
    Sent in record.labels || Draft in record.labels || Trash in record.labels || Starred in record.labels || Important in record.labels
  }

  lemma UserReasons(rs: set<Reason>)
    ensures rs * {IsSent, IsDraft, IsTrash, IsStarred, IsImportant, ProtectedLabel, ManualPolicy} != {} <==>
      IsSent in rs || IsDraft in rs || IsTrash in rs || IsStarred in rs || IsImportant in rs || ProtectedLabel in rs || ManualPolicy in rs
  {
    var both := rs * {IsSent, IsDraft, IsTrash, IsStarred, IsImportant, ProtectedLabel, ManualPolicy};
    if both != {} {
      var r := SomeMember(both);
    }
    assert rs * {IsSent} <= both && rs * {IsDraft} <= both && rs * {IsTrash} <= both && rs * {IsStarred} <= both;
    if IsSent in rs || IsDraft in rs || IsTrash in rs || IsStarred in rs || IsImportant in rs || ProtectedLabel in rs || ManualPolicy in rs {
      assert IsSent in both || IsDraft in both || IsTrash in both || IsStarred in both || IsImportant in both || ProtectedLabel in both
        || ManualPolicy in both;
    }
  }

  /**
   A review is required exactly when the conversation is torn, a decision that
   reaches the message waits, or its confidence is low or contradictory.
   */
  lemma ReviewExactly(snap: Snapshot, ps: Policies, m: MessageId)
    requires Accepted(snap, ps) && m in snap.records
    ensures m in snap.classified.messages
    ensures MustReview(snap, ps, m) <==>
      || TornByItself(snap, snap.records[m].thread) || TornByPolicies(snap, ps, snap.records[m].thread)
      || Awaited(snap, ps, m)
      || snap.classified.messages[m].confidence == Low || snap.classified.messages[m].confidence == Contradictory
  {
    hide ValidClassification, ValidPolicies, Decide, AllBindings, DecidedFor, Mixed, BaseReasons, ReasonsBefore, TornByItself, TornByPolicies,
      ShowsUnapplied, UnsettledOn;
    DecideUnfolds(snap, ps);
    MixedBase(snap, snap.records[m].thread);
    MixedGatheredExactly(snap, ps, snap.records[m].thread);
    AwaitedMeans(snap, ps, m);
    if ShowsUnapplied(snap, ps, Decide(snap, ps), m) {
      UnappliedIsUnsettled(snap, ps, m);
    }
  }

  lemma AwaitedMeans(snap: Snapshot, ps: Policies, m: MessageId)
    requires Accepted(snap, ps)
    ensures UnsettledOn(AllBindings(snap, ps), m) != {} <==> Awaited(snap, ps, m)
  {
    hide ValidClassification, ValidPolicies, AllBindings;
    BindingKeys(snap, ps);
    if UnsettledOn(AllBindings(snap, ps), m) != {} {
      var e := SomeMember(UnsettledOn(AllBindings(snap, ps), m));
      assert Awaits(snap, ps, e, m);
    }
    if Awaited(snap, ps, m) {
      var e :| e in ps && Awaits(snap, ps, e, m);
      assert e in UnsettledOn(AllBindings(snap, ps), m);
    }
  }
}
