/** What the policy report says of every source, flow and message, told from the records, the classification and the decisions. */
module ReportMeaning {
  import opened Basics
  import opened MailModel
  import opened PolicyModel
  import opened StructuralPolicy
  import opened PartitionMeaning
  import opened StructuralSafety
  import opened EffectiveFlows
  import opened PolicyBindings
  import opened Corrections
  import opened Protection
  import opened PolicyApplication
  import opened ProtectionTheorems
  import opened PreparePrediction
  import opened StructuralEffects
  import opened AnchorStatus
  import opened CorrectedValues
  import opened ProtectionMeaning
  import opened PolicyResult

  // ---------------------------------------------------------------- sources

  /** The messages of an effective source: those of its automatic sources, and in a group those its anchors name. */
  ghost predicate Inside(snap: Snapshot, k: SourceSelector, m: MessageId) {
    && m in snap.records && m in snap.classified.messages && snap.classified.messages[m].source in snap.classified.sources
    && var d := snap.classified.sources[snap.classified.messages[m].source].descriptor;
       match k
       case Automatic(x) => d == x
       case Merged(xs) => d in xs
       case PartitionGroup(x, anchors) => d == x && exists a <- anchors :: NamedBy(snap, a, m)
  }

  lemma InsideMeans(snap: Snapshot, k: SourceSelector, m: MessageId)
    requires snap.Valid()
    ensures m in MessagesOf(snap, k) <==> Inside(snap, k, m)
  {
    hide ValidClassification, Matches, NamedBy;
    if m in snap.records {
      forall a ensures Matches(snap, a, m) <==> NamedBy(snap, a, m) {
        MatchesMeans(snap, a, m);
      }
      KnownSource(snap, m);
    }
  }

  lemma KnownSource(snap: Snapshot, m: MessageId)
    requires snap.Valid() && m in snap.records
    ensures m in snap.classified.messages && snap.classified.messages[m].source in snap.classified.sources
  {
  }

  /**
   An effective source, as the report starts from it: its messages, the worst
   confidence among them, the rubro they share, and the decision that created it.
   */
  lemma SourceTells(snap: Snapshot, ps: Policies, k: SourceSelector)
    requires Accepted(snap, ps) && k in EffectiveSources(snap, ps)
    ensures var st := EffectiveSources(snap, ps)[k];
      && (forall m :: m in st.messages <==> Inside(snap, k, m))
      && st.messages <= snap.classified.messages.Keys
      && (exists m <- st.messages :: snap.classified.messages[m].confidence == st.confidence)
      && (forall m <- st.messages :: snap.classified.messages[m].confidence.Rank() <= st.confidence.Rank())
      && (forall rubro :: AllOf(snap, st.messages, rubro) ==> st.automaticRubro == rubro)
      && ((forall rubro :: !AllOf(snap, st.messages, rubro)) ==> st.automaticRubro == UnknownRubro)
      && st.structural == Creators(snap, ps, k) && st.decisions == Creators(snap, ps, k)
  {
    hide ValidClassification, ValidPolicies, EffectiveSources, MessagesOf, AutomaticIds, SplitsRecords, MakeState, Creators, Inside, AllOf;
    EffectiveIdsComplete(snap, ps, k);
    ViewIsParted(snap, ps);
    MadeState(snap, ps, k);
    var st := EffectiveSources(snap, ps)[k];
    forall m ensures m in st.messages <==> Inside(snap, k, m) {
      InsideMeans(snap, k, m);
    }
    forall m | m in st.messages ensures m in snap.classified.messages {
      InsideKnown(snap, k, m);
    }
    StateTells(snap, k, st.messages, st.automatic, st.structural);
  }

  lemma InsideKnown(snap: Snapshot, k: SourceSelector, m: MessageId)
    requires Inside(snap, k, m)
    ensures m in snap.classified.messages
  {
  }

  lemma MadeState(snap: Snapshot, ps: Policies, k: SourceSelector)
    requires Accepted(snap, ps) && k in EffectiveSources(snap, ps)
    ensures var st := EffectiveSources(snap, ps)[k];
      && st == MakeState(snap, k, st.messages, st.automatic, Creators(snap, ps, k))
      && st.structural == Creators(snap, ps, k)
  {
    hide ValidClassification, ValidPolicies, Applying, TableKeys, Deciders, MessagesOf, AutomaticIds;
  }

  /** What a state says of its messages. */
  lemma StateTells(snap: Snapshot, k: SourceSelector, ms: set<MessageId>, ids: set<SourceId>, decisions: set<DecisionId>)
    requires ms != {} && ms <= snap.classified.messages.Keys
    ensures var st := MakeState(snap, k, ms, ids, decisions);
      && (exists m <- ms :: snap.classified.messages[m].confidence == st.confidence)
      && (forall m <- ms :: snap.classified.messages[m].confidence.Rank() <= st.confidence.Rank())
      && (forall rubro :: AllOf(snap, ms, rubro) ==> st.automaticRubro == rubro)
      && ((forall rubro :: !AllOf(snap, ms, rubro)) ==> st.automaticRubro == UnknownRubro)
      && st.decisions == decisions && st.structural == decisions && (k.Merged? ==> st.automaticName == "Fuente combinada")
  {
    hide SingleName, CommonRubro, WorstConfidence, AllOf;
    ConfidenceTells(snap, ms);
    RubroTells(snap, ms);
  }

  /** All the messages are of one rubro. */
  ghost predicate AllOf(snap: Snapshot, ms: set<MessageId>, rubro: Rubro) {
    forall m <- ms :: m in snap.classified.messages && snap.classified.messages[m].rubro == rubro
  }

  lemma ConfidenceTells(snap: Snapshot, ms: set<MessageId>)
    requires ms != {} && ms <= snap.classified.messages.Keys
    ensures var values := ConfidencesOf(snap.classified, ms);
      && values != {}
      && (exists m <- ms :: snap.classified.messages[m].confidence == WorstConfidence(values))
      && (forall m <- ms :: snap.classified.messages[m].confidence.Rank() <= WorstConfidence(values).Rank())
  {
    var values := ConfidencesOf(snap.classified, ms);
    var some := SomeMember(ms);
    assert snap.classified.messages[some].confidence in values;
    forall m | m in ms ensures snap.classified.messages[m].confidence in values {
    }
  }

  lemma RubroTells(snap: Snapshot, ms: set<MessageId>)
    requires ms != {} && ms <= snap.classified.messages.Keys
    ensures var rubro := CommonRubro(RubrosOf(snap.classified, ms));
      && (forall r :: AllOf(snap, ms, r) ==> rubro == r)
      && ((forall r :: !AllOf(snap, ms, r)) ==> rubro == UnknownRubro)
  {
    var rubros := RubrosOf(snap.classified, ms);
    var some := SomeMember(ms);
    assert snap.classified.messages[some].rubro in rubros;
    forall r ensures AllOf(snap, ms, r) <==> rubros == {r} {
      if rubros == {r} {
        forall m | m in ms ensures snap.classified.messages[m].rubro == r {
          assert snap.classified.messages[m].rubro in rubros;
        }
      }
    }
    hide RubrosOf, AllOf;
  }

  /** The name of a source that is not merged is that of its automatic source. */
  lemma NameTells(snap: Snapshot, ps: Policies, k: SourceSelector, s: SourceId)
    requires Accepted(snap, ps) && k in EffectiveSources(snap, ps) && !k.Merged?
    requires s in snap.classified.sources && snap.classified.sources[s].descriptor == k.source
    ensures EffectiveSources(snap, ps)[k].automaticName == snap.classified.sources[s].name
    ensures EffectiveSources(snap, ps)[k].automatic == {s}
  {
    hide ValidPolicies, EffectiveSources, MessagesOf;
    EffectiveIdsComplete(snap, ps, k);
    MadeState(snap, ps, k);
    assert AutomaticIds(snap, k) == {s};
    NamedSingle(snap, s);
  }

  lemma NamedSingle(snap: Snapshot, s: SourceId)
    requires s in snap.classified.sources
    ensures SingleName(snap, {s}) == snap.classified.sources[s].name
  {
  }

  // ------------------------------------------------------------------ flows

  /** An effective flow, as the report starts from it: what the automatic flow is, cut to the messages of the source. */
  lemma FlowTells(snap: Snapshot, ps: Policies, fs: FlowSelector)
    requires Accepted(snap, ps) && fs in FlowsIn(snap, ps)
    ensures var st := FlowsIn(snap, ps)[fs];
      && st.automatic in snap.classified.flows && fs.source in EffectiveSources(snap, ps)
      && var flow := snap.classified.flows[st.automatic];
         && flow.descriptor == fs.flow
         && st.messages == flow.messages * EffectiveSources(snap, ps)[fs.source].messages
         && st.automaticName == flow.name && st.automaticIntent == flow.intent && st.subscription == flow.subscription
         && st.automaticConfidence == flow.confidence && st.effectiveConfidence == flow.confidence
         && st.structural == Creators(snap, ps, fs.source)
  {
    hide ValidClassification, ValidPolicies, EffectiveSources, Creators;
    FlowParts(snap, ps, fs);
    var f := FlowBehind(snap, EffectiveSources(snap, ps), fs);
    CutFlow(snap, EffectiveSources(snap, ps), fs, f);
  }

  lemma CutFlow(snap: Snapshot, table: SourceTable, fs: FlowSelector, f: FlowId)
    requires snap.Valid() && fs in FlowsOf(snap, table) && fs.source in table
    requires f in snap.classified.flows && snap.classified.flows[f].descriptor == fs.flow
    ensures var st, flow := FlowsOf(snap, table)[fs], snap.classified.flows[f];
      && st.automatic == f && st.messages == flow.messages * table[fs.source].messages
      && st.automaticName == flow.name && st.automaticIntent == flow.intent && st.subscription == flow.subscription
      && st.automaticConfidence == flow.confidence && st.effectiveConfidence == flow.confidence
  {
    FlowWithSelf(snap, f);
    hide ValidClassification, FlowWith;
  }

  // --------------------------------------------------------------- messages

  /** The category a message has of its own, with its conversation but without policies. */
  lemma AutomaticTells(snap: Snapshot, m: MessageId)
    requires snap.Valid() && m in snap.records && m in snap.classified.messages
    ensures CategoryOf(AutomaticOn(snap, m)) ==
      var intent := snap.classified.messages[m].intent;
      if intent == Security || intent == Personal then Critical
      else if intent == Document then Documentary
      else if ByUser(snap.records[m]) then ChosenByUser
      else if WarrantedInThread(snap, snap.records[m].thread) then ReviewNeeded
      else Ordinary
  {
    hide ValidClassification, AutomaticProtection, AutomaticReasons, WarrantedInThread;
    LabelsMean(snap.records[m], snap.classified.messages[m]);
    ReadingMeans(snap.records[m], snap.classified.messages[m]);
    NothingElse(snap.records[m], snap.classified.messages[m]);
    MarkedFirst(snap, m);
    AutomaticNonEmpty(snap, m);
    UserReasons(AutomaticOn(snap, m));
    OwnOrMark(AutomaticOn(snap, m), AutomaticReasons(snap.records[m], snap.classified.messages[m]));
  }

  lemma OwnOrMark(rs: set<Reason>, own: set<Reason>)
    requires rs - {MixedConversation} == own
    ensures forall r :: r != MixedConversation ==> (r in rs <==> r in own)
  {
    forall r | r != MixedConversation ensures r in rs <==> r in own {
      assert r in rs <==> r in rs - {MixedConversation};
    }
  }

  /**
   The report of a message: where it ends, what it is taken for, and how it is
   protected, told from the records, the classification and the decisions.
   */
  lemma MessageTells(snap: Snapshot, ps: Policies, m: MessageId)
    requires Accepted(snap, ps) && m in snap.records
    ensures m in OutcomeOf(snap, ps).messages && m in snap.classified.messages
    ensures var o, message, t := OutcomeOf(snap, ps).messages[m], snap.classified.messages[m], snap.records[m].thread;
      && o.source in EffectiveSources(snap, ps) && Inside(snap, o.source, m)
      && o.flow in FlowsIn(snap, ps) && m in FlowsIn(snap, ps)[o.flow].messages
      && o.subscription == message.subscription && o.confidence == message.confidence
      && (forall intent :: CorrectedTo(snap, ps, m, intent) ==> o.intent == intent)
      && (CorrectedTo(snap, ps, m, o.intent) || o.intent == message.intent)
      && (o.shown.shielded <==> WarrantedSomehow(snap, ps, t))
      && (o.shown.hardExcluded <==> Sent in snap.records[m].labels || Draft in snap.records[m].labels || Trash in snap.records[m].labels)
      && (o.shown.review <==>
            TornByItself(snap, t) || TornByPolicies(snap, ps, t) || Awaited(snap, ps, m)
            || message.confidence == Low || message.confidence == Contradictory)
      && o.shown.reasons == ReasonsOn(snap, ps, m)
  {
    hide ValidClassification, ValidPolicies, Decide, ReasonsOn, CategoryOf, HardExcluded, MustReview, AutomaticOn, DecisionsOn, EndFlow,
      EffectiveSources, Inside, WarrantedSomehow, TornByItself, TornByPolicies, Awaited, CorrectedTo, FlowsIn, FlowOutcomeOf, SourceOutcomeOf;
    ReportParts(snap, ps, m);
    ProtectedExactly(snap, ps, m);
    HardExcludedExactly(snap, ps, m);
    ReviewExactly(snap, ps, m);
    MessageIntention(snap, ps, m);
    MessagePlace(snap, ps, m);
  }

  lemma ReportParts(snap: Snapshot, ps: Policies, m: MessageId)
    requires Accepted(snap, ps) && m in snap.records
    ensures m in OutcomeOf(snap, ps).messages && m in snap.classified.messages
    ensures m in ViewFor(snap, ps).toSource && m in ViewFor(snap, ps).toFlow
    ensures var o, message := OutcomeOf(snap, ps).messages[m], snap.classified.messages[m];
      && o.source == ViewFor(snap, ps).toSource[m] && o.flow == ViewFor(snap, ps).toFlow[m]
      && o.subscription == message.subscription && o.confidence == message.confidence
      && o.intent == EndFlow(snap, ps, m).effectiveIntent
      && o.shown.reasons == ReasonsOn(snap, ps, m) && (o.shown.shielded <==> ReasonsOn(snap, ps, m) != {})
      && (o.shown.review <==> MustReview(snap, ps, m)) && (o.shown.hardExcluded <==> HardExcluded(ReasonsOn(snap, ps, m)))
      && o.shown.effective == CategoryOf(ReasonsOn(snap, ps, m)) && o.shown.automatic == CategoryOf(AutomaticOn(snap, m))
  {
    hide ValidClassification, ValidPolicies, Decide, ReasonsOn, CategoryOf, HardExcluded, MustReview, AutomaticOn, DecisionsOn, ViewFor,
      FlowOutcomeOf, SourceOutcomeOf;
    DecideParts(snap, ps);
    KnownSource(snap, m);
  }

  lemma MessagePlace(snap: Snapshot, ps: Policies, m: MessageId)
    requires Accepted(snap, ps) && m in snap.records
    ensures m in ViewFor(snap, ps).toSource && m in ViewFor(snap, ps).toFlow
    ensures var k, fs := ViewFor(snap, ps).toSource[m], ViewFor(snap, ps).toFlow[m];
      && k in EffectiveSources(snap, ps) && Inside(snap, k, m)
      && fs in FlowsIn(snap, ps) && m in FlowsIn(snap, ps)[fs].messages && fs.source == k
  {
    hide ValidClassification, ValidPolicies, EffectiveSources, FlowsOf, Inside, MessagesOf, ViewOf, ViewFor, SplitsRecords, Parted, Ready;
    ViewIsParted(snap, ps);
    PartedSplits(snap, EffectiveSources(snap, ps));
    PlacedIn(snap, EffectiveSources(snap, ps), m);
    FlowOfMessage(snap, ps, m);
    var k := ViewFor(snap, ps).toSource[m];
    EffectiveIdsComplete(snap, ps, k);
    InsideMeans(snap, k, m);
  }

  /** A correction that applies to an effective source or flow. */
  ghost predicate Corrects(snap: Snapshot, ps: Policies, e: DecisionId, target: TargetSelector) {
    && Accepted(snap, ps) && e in PlainIds(ps) && !ps[e].command.ProtectTarget? && ps[e].command.Target() == target
    && e in AllBindings(snap, ps) && AllBindings(snap, ps)[e].status.Applies()
  }

  /** The decisions shown on a message: those that protect it, those that wait on it, and those behind its source and flow. */
  lemma DecisionsTell(snap: Snapshot, ps: Policies, m: MessageId, e: DecisionId)
    requires Accepted(snap, ps) && m in snap.records
    ensures m in OutcomeOf(snap, ps).messages
    ensures var o := OutcomeOf(snap, ps).messages[m];
      e in o.shown.decisions <==>
        || Shields(snap, ps, e, m) || Awaits(snap, ps, e, m) || e in Creators(snap, ps, o.source)
        || Corrects(snap, ps, e, OnSource(o.source)) || Corrects(snap, ps, e, OnFlow(o.flow))
  {
    hide ValidClassification, ValidPolicies, AllBindings, EffectiveSources, FlowsIn, Creators, ViewFor, Inside, OutcomeOf, Shields, Awaits,
      Corrects, ProtectedBy, UnsettledOn, EndFlow, EndSource;
    MessagePlace(snap, ps, m);
    ReportParts(snap, ps, m);
    var k, fs := ViewFor(snap, ps).toSource[m], ViewFor(snap, ps).toFlow[m];
    ShownDecisions(snap, ps, m);
    ShieldsMean(snap, ps, m, e);
    SourceDecisions(snap, ps, m, e, k);
    FlowDecisions(snap, ps, m, e, fs);
  }

  /** The source a message ends in, with its corrections. */
  ghost function EndSource(snap: Snapshot, ps: Policies, m: MessageId): SourceState
    requires Accepted(snap, ps) && m in snap.records
  {
    hide ValidClassification, ValidPolicies;
    SourceStateOf(snap, Decide(snap, ps), m)
  }

  lemma ShownDecisions(snap: Snapshot, ps: Policies, m: MessageId)
    requires Accepted(snap, ps) && m in snap.records
    ensures m in OutcomeOf(snap, ps).messages
    ensures OutcomeOf(snap, ps).messages[m].shown.decisions
         == ProtectedBy(ps, AllBindings(snap, ps), m) + UnsettledOn(AllBindings(snap, ps), m)
            + EndSource(snap, ps, m).decisions + EndFlow(snap, ps, m).decisions
    ensures OutcomeOf(snap, ps).messages[m].rubro == EndSource(snap, ps, m).effectiveRubro
  {
    hide ValidClassification, ValidPolicies, Decide, ReasonsOn, CategoryOf, HardExcluded, MustReview, AutomaticOn, AllBindings,
      FlowOutcomeOf, SourceOutcomeOf, ProtectedBy, UnsettledOn;
    DecideUnfolds(snap, ps);
  }

  lemma SourceDecisions(snap: Snapshot, ps: Policies, m: MessageId, e: DecisionId, k: SourceSelector)
    requires Accepted(snap, ps) && m in snap.records && m in ViewFor(snap, ps).toSource && k == ViewFor(snap, ps).toSource[m]
    requires k in EffectiveSources(snap, ps)
    ensures e in EndSource(snap, ps, m).decisions <==> e in Creators(snap, ps, k) || Corrects(snap, ps, e, OnSource(k))
  {
    hide ValidClassification, ValidPolicies, Decide, AllBindings, EffectiveSources, Creators, WritersIn, Corrects, Inside;
    DecideUnfolds(snap, ps);
    DecideParts(snap, ps);
    SourceTells(snap, ps, k);
    WritersMean(snap, ps, e, OnSource(k));
  }

  lemma FlowDecisions(snap: Snapshot, ps: Policies, m: MessageId, e: DecisionId, fs: FlowSelector)
    requires Accepted(snap, ps) && m in snap.records && m in ViewFor(snap, ps).toFlow && fs == ViewFor(snap, ps).toFlow[m]
    requires fs in FlowsIn(snap, ps)
    ensures fs.source in EffectiveSources(snap, ps)
    ensures e in EndFlow(snap, ps, m).decisions <==> e in Creators(snap, ps, fs.source) || Corrects(snap, ps, e, OnFlow(fs))
  {
    hide ValidClassification, ValidPolicies, Decide, AllBindings, EffectiveSources, FlowsOf, Creators, WritersIn, Corrects, Inside;
    DecideUnfolds(snap, ps);
    DecideParts(snap, ps);
    FlowDecisionsInherited(snap, EffectiveSources(snap, ps), fs);
    SourceTells(snap, ps, fs.source);
    WritersMean(snap, ps, e, OnFlow(fs));
  }

  lemma ShieldsMean(snap: Snapshot, ps: Policies, m: MessageId, e: DecisionId)
    requires Accepted(snap, ps)
    ensures e in ProtectedBy(ps, AllBindings(snap, ps), m) <==> Shields(snap, ps, e, m)
    ensures e in UnsettledOn(AllBindings(snap, ps), m) <==> Awaits(snap, ps, e, m)
  {
    hide ValidClassification, ValidPolicies, AllBindings;
    BindingKeys(snap, ps);
  }

  /** The writers of the two fields of a target are the corrections that apply to it. */
  lemma WritersMean(snap: Snapshot, ps: Policies, e: DecisionId, target: TargetSelector)
    requires Accepted(snap, ps) && (target.OnSource? || target.OnFlow?)
    ensures var b := AllBindings(snap, ps);
      Corrects(snap, ps, e, target) <==>
        if target.OnSource? then
          e in WritersIn(ps, b, PlainIds(ps), SourceName, target) || e in WritersIn(ps, b, PlainIds(ps), SourceRubro, target)
        else
          e in WritersIn(ps, b, PlainIds(ps), FlowName, target) || e in WritersIn(ps, b, PlainIds(ps), FlowIntention, target)
  {
    hide ValidClassification, ValidPolicies, AllBindings;
  }

  /** A rubro that an applying correction gives the source, or the one the source starts with. */
  ghost predicate RubroDecided(snap: Snapshot, ps: Policies, k: SourceSelector, r: Rubro) {
    && Accepted(snap, ps) && k in EffectiveSources(snap, ps)
    && (forall e, rubro :: Applied(snap, ps, e, SetSourceRubro(k, rubro)) ==> r == rubro)
    && ((forall e, rubro :: !Applied(snap, ps, e, SetSourceRubro(k, rubro))) ==> r == EffectiveSources(snap, ps)[k].automaticRubro)
  }

  /** The rubro of a message is that of its source. */
  lemma MessageRubroTells(snap: Snapshot, ps: Policies, m: MessageId)
    requires Accepted(snap, ps) && m in snap.records
    ensures m in OutcomeOf(snap, ps).messages
    ensures RubroDecided(snap, ps, OutcomeOf(snap, ps).messages[m].source, OutcomeOf(snap, ps).messages[m].rubro)
  {
    hide ValidClassification, ValidPolicies, Decide, EffectiveSources, FlowsIn, OutcomeOf, Applied, Inside, EndFlow, EndSource, ViewFor;
    ReportParts(snap, ps, m);
    ShownDecisions(snap, ps, m);
    MessagePlace(snap, ps, m);
    var k := ViewFor(snap, ps).toSource[m];
    SourceValues(snap, ps, k);
    EndSourceIs(snap, ps, m, k);
  }

  lemma EndSourceIs(snap: Snapshot, ps: Policies, m: MessageId, k: SourceSelector)
    requires Accepted(snap, ps) && m in snap.records && m in ViewFor(snap, ps).toSource && k == ViewFor(snap, ps).toSource[m]
    requires k in Decide(snap, ps).sources
    ensures EndSource(snap, ps, m) == Decide(snap, ps).sources[k]
  {
    hide ValidClassification, ValidPolicies, Decide, ViewFor, EffectiveSources;
    DecideParts(snap, ps);
  }
}
