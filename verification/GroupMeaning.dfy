/** Which sources and flows the policy report shows, and what it says of their members together. */
module GroupMeaning {
  import opened Basics
  import opened MailModel
  import opened PolicyModel
  import opened StructuralPolicy
  import opened StructuralSafety
  import opened EffectiveFlows
  import opened PolicyBindings
  import opened Protection
  import opened PolicyApplication
  import opened ProtectionTheorems
  import opened PreparePrediction
  import opened AnchorStatus
  import opened CorrectedValues
  import opened PolicyResult

  // ------------------------------------------------- which sources there are

  /** An applying merge or partition makes the effective source. */
  ghost predicate Makes(snap: Snapshot, ps: Policies, e: DecisionId, k: SourceSelector) {
    && e in ps && Applied(snap, ps, e, ps[e].command)
    && match ps[e].command
       case MergeSources(ds) => k.Merged? && k.sources == (set x | x in ds)
       case PartitionSource(t, gs) => k.PartitionGroup? && k.source == t && exists g <- gs :: k.anchors == set a | a in g
       case _ => false
  }

  /** An applying merge or partition takes the automatic source. */
  ghost predicate Taken(snap: Snapshot, ps: Policies, x: SourceDescriptor) {
    exists e <- ps :: Applied(snap, ps, e, ps[e].command) && x in Named(ps[e].command)
  }

  lemma AppliesMeans(snap: Snapshot, ps: Policies, e: DecisionId)
    requires Accepted(snap, ps)
    ensures e in Applying(snap, ps) <==> e in ps && ps[e].command.Structural() && Applied(snap, ps, e, ps[e].command)
  {
    hide ValidClassification, ValidPolicies, AllBindings, StructuralBindings;
    BindingKeys(snap, ps);
  }

  lemma MakesMeans(snap: Snapshot, ps: Policies, e: DecisionId, k: SourceSelector)
    requires Accepted(snap, ps)
    ensures Makes(snap, ps, e, k) <==> e in Applying(snap, ps) && e in ps && k in Products(ps[e].command)
  {
    hide ValidClassification, ValidPolicies, Applying, Applied;
    AppliesMeans(snap, ps, e);
  }

  /**
   An effective source is in the view exactly when an applying merge or partition
   makes it, or it is an automatic source that none takes; and the decisions
   behind it are those that make it.
   */
  lemma SourcesThere(snap: Snapshot, ps: Policies, k: SourceSelector)
    requires Accepted(snap, ps)
    ensures k in EffectiveSources(snap, ps) <==>
      || (exists e :: Makes(snap, ps, e, k))
      || (k.Automatic? && !Taken(snap, ps, k.source) && exists s <- snap.classified.sources :: snap.classified.sources[s].descriptor == k.source)
    ensures forall e :: e in Creators(snap, ps, k) <==> Makes(snap, ps, e, k)
  {
    hide ValidClassification, ValidPolicies, Applying, Applied, StateOf, Makes, Products;
    forall e ensures Makes(snap, ps, e, k) <==> e in Applying(snap, ps) && e in ps && k in Products(ps[e].command) {
      MakesMeans(snap, ps, e, k);
    }
    if k.Automatic? {
      TakenMeans(snap, ps, k.source);
    }
  }

  lemma TakenMeans(snap: Snapshot, ps: Policies, x: SourceDescriptor)
    requires Accepted(snap, ps)
    ensures Taken(snap, ps, x) <==> x in Consumed(ps, Applying(snap, ps))
  {
    hide ValidClassification, ValidPolicies, Applying, Applied, Named, StructuralDescriptors;
    forall e | e in ps ensures Named(ps[e].command) == StructuralDescriptors(ps[e].command) {
      NamedMeans(ps[e].command);
    }
    forall e ensures e in Applying(snap, ps) <==> e in ps && ps[e].command.Structural() && Applied(snap, ps, e, ps[e].command) {
      AppliesMeans(snap, ps, e);
    }
    forall c: Command | !c.Structural() ensures StructuralDescriptors(c) == {} {
      NothingNamed(c);
    }
  }

  lemma NothingNamed(c: Command)
    requires !c.Structural()
    ensures StructuralDescriptors(c) == {}
  {
  }

  // ------------------------------------------------------ members together

  /** What is said of some messages together: each flag, reason and decision of some member, and the strongest categories. */
  ghost predicate SumsUp(all: Shown, shown: map<MessageId, Shown>) {
    && (all.shielded <==> exists m <- shown :: shown[m].shielded)
    && (all.review <==> exists m <- shown :: shown[m].review)
    && (all.hardExcluded <==> exists m <- shown :: shown[m].hardExcluded)
    && (forall r :: r in all.reasons <==> exists m <- shown :: r in shown[m].reasons)
    && (forall e :: e in all.decisions <==> exists m <- shown :: e in shown[m].decisions)
    && (exists m <- shown :: shown[m].automatic == all.automatic)
    && (exists m <- shown :: shown[m].effective == all.effective)
    && (forall m <- shown :: shown[m].automatic.Rank() <= all.automatic.Rank() && shown[m].effective.Rank() <= all.effective.Rank())
  }

  lemma JoinedSumsUp(shown: map<MessageId, Shown>, m: MessageId)
    requires m in shown && forall n <- shown :: Consistent(shown[n])
    ensures SumsUp(Joined(shown), shown)
  {
    hide CategoryOf, Consistent;
    JoinedCategory(shown, m);
    forall n | n in shown ensures shown[n].automatic.Rank() <= Joined(shown).automatic.Rank() && shown[n].effective.Rank() <= Joined(shown).effective.Rank() {
      JoinedDominates(shown, n);
    }
    var categories := set n | n in shown :: shown[n].automatic;
    assert shown[m].automatic in categories;
  }

  /** The category of all the reasons together is that of some member. */
  lemma JoinedCategory(shown: map<MessageId, Shown>, m: MessageId)
    requires m in shown && forall n <- shown :: Consistent(shown[n])
    ensures exists n <- shown :: shown[n].effective == Joined(shown).effective
  {
    hide Strongest, ShownValid, HardExcluded, CategoryOf;
    var all := Joined(shown);
    if all.reasons == {} {
      assert shown[m].reasons == {};
    } else {
      var r := DecidingReason(all.reasons);
      var n :| n in shown && r in shown[n].reasons;
      CategoryMonotone({r}, shown[n].reasons);
      CategoryMonotone(shown[n].reasons, all.reasons);
      SameRank(shown[n].effective, all.effective);
    }
  }

  lemma SameRank(a: Category, b: Category)
    requires a.Rank() == b.Rank()
    ensures a == b
  {
  }

  /** The reason that decides the category of several. */
  lemma DecidingReason(rs: set<Reason>) returns (r: Reason)
    requires rs != {}
    ensures r in rs && CategoryOf({r}) == CategoryOf(rs)
  {
    var byUser := rs * {IsSent, IsDraft, IsTrash, IsStarred, IsImportant, ProtectedLabel, ManualPolicy};
    if IsSecurity in rs || IsPersonal in rs {
      r := if IsSecurity in rs then IsSecurity else IsPersonal;
    } else if IsDocument in rs {
      r := IsDocument;
    } else if byUser != {} {
      r := SomeMember(byUser);
      assert r in {r} * {IsSent, IsDraft, IsTrash, IsStarred, IsImportant, ProtectedLabel, ManualPolicy};
    } else {
      r := SomeMember(rs);
      assert r !in {IsSent, IsDraft, IsTrash, IsStarred, IsImportant, ProtectedLabel, ManualPolicy} by {
        assert r !in byUser;
      }
      assert {r} * {IsSent, IsDraft, IsTrash, IsStarred, IsImportant, ProtectedLabel, ManualPolicy} == {};
    }
  }

  /** What the report shows on the messages of a flow or a source. */
  ghost function ShownOf(o: Outcome, ms: set<MessageId>): map<MessageId, Shown> {
    map m | m in ms && m in o.messages :: o.messages[m].shown
  }

  lemma ShownAreReported(snap: Snapshot, ps: Policies, ms: set<MessageId>)
    requires Accepted(snap, ps) && ms != {} && ms <= snap.records.Keys
    ensures ShownOf(OutcomeOf(snap, ps), ms) == ShownAmong(snap, ps, ms)
    ensures SumsUp(Joined(ShownAmong(snap, ps, ms)), ShownAmong(snap, ps, ms))
  {
    hide ValidClassification, ValidPolicies, Decide, ShownOn, Joined, SumsUp, Consistent, FlowOutcomeOf, SourceOutcomeOf, SourceStateOf,
      FlowStateOf;
    var m := SomeMember(ms);
    var shown := ShownAmong(snap, ps, ms);
    forall n | n in shown ensures Consistent(shown[n]) {
      ShownConsistent(snap, ps, n);
    }
    JoinedSumsUp(shown, m);
  }

  /** The protection of a flow sums up that of its messages. */
  lemma FlowSumsUp(snap: Snapshot, ps: Policies, fs: FlowSelector)
    requires Accepted(snap, ps) && fs in OutcomeOf(snap, ps).flows
    ensures var o := OutcomeOf(snap, ps);
      SumsUp(o.flows[fs].shown, ShownOf(o, o.flows[fs].messages))
  {
    hide ValidClassification, ValidPolicies, Decide, ShownOn, Joined, SumsUp, Consistent, SourceOutcomeOf, MessageOutcomeOf, ShownAmong,
      ShownOf, ShownValid;
    OutcomeIsValid(snap, ps);
    ShownAreReported(snap, ps, OutcomeOf(snap, ps).flows[fs].messages);
  }

  /** The protection of a source sums up that of its messages. */
  lemma SourceSumsUp(snap: Snapshot, ps: Policies, k: SourceSelector)
    requires Accepted(snap, ps) && k in OutcomeOf(snap, ps).sources
    ensures var o := OutcomeOf(snap, ps);
      SumsUp(o.sources[k].shown, ShownOf(o, o.sources[k].messages))
  {
    hide ValidClassification, ValidPolicies, Decide, ShownOn, Joined, SumsUp, Consistent, FlowOutcomeOf, MessageOutcomeOf, ShownAmong,
      ShownOf, ShownValid;
    OutcomeIsValid(snap, ps);
    ShownAreReported(snap, ps, OutcomeOf(snap, ps).sources[k].messages);
  }
}
