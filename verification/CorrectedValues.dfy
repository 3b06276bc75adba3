/** What the names, rubros and intentions end as, told from the decisions themselves. */
module CorrectedValues {
  import opened Basics
  import opened MailModel
  import opened PolicyModel
  import opened StructuralPolicy
  import opened StructuralSafety
  import opened EffectiveFlows
  import opened PolicyBindings
  import opened Corrections
  import opened PolicyApplication
  import opened ProtectionTheorems
  import opened CorrectionSteps
  import opened PreparePrediction

  /** A command that is active and applies. */
  ghost predicate Applied(snap: Snapshot, ps: Policies, e: DecisionId, command: Command) {
    Accepted(snap, ps) && e in ps && ps[e].command == command && e in AllBindings(snap, ps) && AllBindings(snap, ps)[e].status.Applies()
  }

  /** The writer of a field of a target, if it has one. */
  lemma WriterIs(snap: Snapshot, ps: Policies, field: Field, target: TargetSelector, e: DecisionId)
    requires Accepted(snap, ps) && e in PlainIds(ps) && e in AllBindings(snap, ps)
    requires CorrectionField(ps[e].command) == Some(field) && ps[e].command.Target() == target
    requires AllBindings(snap, ps)[e].status.Applies()
    ensures WritersIn(ps, AllBindings(snap, ps), PlainIds(ps), field, target) == {e}
  {
    hide ValidClassification, ValidPolicies, AllBindings;
    SurvivorsDoNotCompete(snap, ps);
    var writers := WritersIn(ps, AllBindings(snap, ps), PlainIds(ps), field, target);
    assert e in Writers(ps, AllBindings(snap, ps), field, target);
    forall d | d in writers ensures d == e {
      assert d in Writers(ps, AllBindings(snap, ps), field, target);
    }
  }

  /** A writer is an applying correction of its field and target. */
  lemma WriterApplies(snap: Snapshot, ps: Policies, field: Field, target: TargetSelector)
    requires Accepted(snap, ps)
    ensures forall e <- WritersIn(ps, AllBindings(snap, ps), PlainIds(ps), field, target) ::
      Applied(snap, ps, e, ps[e].command) && !ps[e].command.Structural()
      && CorrectionField(ps[e].command) == Some(field) && ps[e].command.Target() == target
  {
    hide ValidClassification, ValidPolicies, AllBindings;
  }

  lemma NameIs(snap: Snapshot, ps: Policies, k: SourceSelector, otherwise: string)
    requires Accepted(snap, ps)
    ensures var name := SourceNameBy(ps, WritersIn(ps, AllBindings(snap, ps), PlainIds(ps), SourceName, OnSource(k)), otherwise);
      && (forall e, n :: Applied(snap, ps, e, SetSourceDisplayName(k, n)) ==> name == n)
      && ((forall e, n :: !Applied(snap, ps, e, SetSourceDisplayName(k, n))) ==> name == otherwise)
  {
    hide ValidClassification, ValidPolicies, AllBindings, WritersIn;
    var writers := WritersIn(ps, AllBindings(snap, ps), PlainIds(ps), SourceName, OnSource(k));
    forall e, n | Applied(snap, ps, e, SetSourceDisplayName(k, n)) ensures SourceNameBy(ps, writers, otherwise) == n {
      WriterIs(snap, ps, SourceName, OnSource(k), e);
    }
    WriterApplies(snap, ps, SourceName, OnSource(k));
    if writers != {} {
      var e := TheWriter(writers);
      assert Applied(snap, ps, e, SetSourceDisplayName(k, ps[e].command.name));
    }
  }

  lemma RubroIs(snap: Snapshot, ps: Policies, k: SourceSelector, otherwise: Rubro)
    requires Accepted(snap, ps)
    ensures var rubro := SourceRubroBy(ps, WritersIn(ps, AllBindings(snap, ps), PlainIds(ps), SourceRubro, OnSource(k)), otherwise);
      && (forall e, r :: Applied(snap, ps, e, SetSourceRubro(k, r)) ==> rubro == r)
      && ((forall e, r :: !Applied(snap, ps, e, SetSourceRubro(k, r))) ==> rubro == otherwise)
  {
    hide ValidClassification, ValidPolicies, AllBindings, WritersIn;
    var writers := WritersIn(ps, AllBindings(snap, ps), PlainIds(ps), SourceRubro, OnSource(k));
    forall e, r | Applied(snap, ps, e, SetSourceRubro(k, r)) ensures SourceRubroBy(ps, writers, otherwise) == r {
      WriterIs(snap, ps, SourceRubro, OnSource(k), e);
    }
    WriterApplies(snap, ps, SourceRubro, OnSource(k));
    if writers != {} {
      var e := TheWriter(writers);
      assert Applied(snap, ps, e, SetSourceRubro(k, ps[e].command.rubro));
    }
  }

  lemma FlowNameIs(snap: Snapshot, ps: Policies, fs: FlowSelector, otherwise: string)
    requires Accepted(snap, ps)
    ensures var name := FlowNameBy(ps, WritersIn(ps, AllBindings(snap, ps), PlainIds(ps), FlowName, OnFlow(fs)), otherwise);
      && (forall e, n :: Applied(snap, ps, e, SetFlowDisplayName(fs, n)) ==> name == n)
      && ((forall e, n :: !Applied(snap, ps, e, SetFlowDisplayName(fs, n))) ==> name == otherwise)
  {
    hide ValidClassification, ValidPolicies, AllBindings, WritersIn;
    var writers := WritersIn(ps, AllBindings(snap, ps), PlainIds(ps), FlowName, OnFlow(fs));
    forall e, n | Applied(snap, ps, e, SetFlowDisplayName(fs, n)) ensures FlowNameBy(ps, writers, otherwise) == n {
      WriterIs(snap, ps, FlowName, OnFlow(fs), e);
    }
    WriterApplies(snap, ps, FlowName, OnFlow(fs));
    if writers != {} {
      var e := TheWriter(writers);
      assert Applied(snap, ps, e, SetFlowDisplayName(fs, ps[e].command.name));
    }
  }

  lemma IntentIs(snap: Snapshot, ps: Policies, fs: FlowSelector, otherwise: Intent)
    requires Accepted(snap, ps)
    ensures var intent := FlowIntentBy(ps, WritersIn(ps, AllBindings(snap, ps), PlainIds(ps), FlowIntention, OnFlow(fs)), otherwise);
      && (forall e, i :: Applied(snap, ps, e, SetFlowIntention(fs, i)) ==> intent == i)
      && ((forall e, i :: !Applied(snap, ps, e, SetFlowIntention(fs, i))) ==> intent == otherwise)
  {
    hide ValidClassification, ValidPolicies, AllBindings, WritersIn;
    var writers := WritersIn(ps, AllBindings(snap, ps), PlainIds(ps), FlowIntention, OnFlow(fs));
    forall e, i | Applied(snap, ps, e, SetFlowIntention(fs, i)) ensures FlowIntentBy(ps, writers, otherwise) == i {
      WriterIs(snap, ps, FlowIntention, OnFlow(fs), e);
    }
    WriterApplies(snap, ps, FlowIntention, OnFlow(fs));
    if writers != {} {
      var e := TheWriter(writers);
      assert Applied(snap, ps, e, SetFlowIntention(fs, ps[e].command.intention));
    }
  }

  /** The name and the rubro of an effective source are those of the applying correction, or else the ones it was built with. */
  lemma SourceValues(snap: Snapshot, ps: Policies, k: SourceSelector)
    requires Accepted(snap, ps) && k in EffectiveSources(snap, ps)
    ensures k in Decide(snap, ps).sources
    ensures var st, base := Decide(snap, ps).sources[k], EffectiveSources(snap, ps)[k];
      && (forall e, name :: Applied(snap, ps, e, SetSourceDisplayName(k, name)) ==> st.effectiveName == name)
      && ((forall e, name :: !Applied(snap, ps, e, SetSourceDisplayName(k, name))) ==> st.effectiveName == base.automaticName)
      && (forall e, rubro :: Applied(snap, ps, e, SetSourceRubro(k, rubro)) ==> st.effectiveRubro == rubro)
      && ((forall e, rubro :: !Applied(snap, ps, e, SetSourceRubro(k, rubro))) ==> st.effectiveRubro == base.automaticRubro)
  {
    hide ValidClassification, ValidPolicies, AllBindings, Decide, EffectiveSources, WritersIn, SourceNameBy, SourceRubroBy, Applied;
    DecideUnfolds(snap, ps);
    BuiltWith(snap, ps, k);
    NameIs(snap, ps, k, EffectiveSources(snap, ps)[k].effectiveName);
    RubroIs(snap, ps, k, EffectiveSources(snap, ps)[k].effectiveRubro);
  }

  lemma BuiltWith(snap: Snapshot, ps: Policies, k: SourceSelector)
    requires Accepted(snap, ps) && k in EffectiveSources(snap, ps)
    ensures var st := EffectiveSources(snap, ps)[k];
      st.effectiveName == st.automaticName && st.effectiveRubro == st.automaticRubro
  {
    hide ValidClassification, ValidPolicies, Applying, MessagesOf, AutomaticIds, TableKeys, Deciders;
  }

  /** The same for the name and the intention of an effective flow. */
  lemma FlowValues(snap: Snapshot, ps: Policies, fs: FlowSelector)
    requires Accepted(snap, ps) && fs in FlowsOf(snap, EffectiveSources(snap, ps))
    ensures fs in Decide(snap, ps).flows
    ensures var st, base := Decide(snap, ps).flows[fs], FlowsOf(snap, EffectiveSources(snap, ps))[fs];
      && st.automaticIntent == base.automaticIntent
      && (forall e, name :: Applied(snap, ps, e, SetFlowDisplayName(fs, name)) ==> st.effectiveName == name)
      && ((forall e, name :: !Applied(snap, ps, e, SetFlowDisplayName(fs, name))) ==> st.effectiveName == base.automaticName)
      && (forall e, intent :: Applied(snap, ps, e, SetFlowIntention(fs, intent)) ==> st.effectiveIntent == intent)
      && ((forall e, intent :: !Applied(snap, ps, e, SetFlowIntention(fs, intent))) ==> st.effectiveIntent == base.automaticIntent)
  {
    hide ValidClassification, ValidPolicies, AllBindings, Decide, EffectiveSources, FlowsOf, WritersIn, FlowNameBy, FlowIntentBy, Applied;
    DecideUnfolds(snap, ps);
    FlowBuiltWith(snap, EffectiveSources(snap, ps), fs);
    FlowNameIs(snap, ps, fs, FlowsOf(snap, EffectiveSources(snap, ps))[fs].effectiveName);
    IntentIs(snap, ps, fs, FlowsOf(snap, EffectiveSources(snap, ps))[fs].effectiveIntent);
  }

  lemma FlowBuiltWith(snap: Snapshot, table: SourceTable, fs: FlowSelector)
    requires snap.Valid() && fs in FlowsOf(snap, table)
    ensures var st := FlowsOf(snap, table)[fs];
      && st.effectiveName == st.automaticName && st.effectiveIntent == st.automaticIntent
      && forall m <- st.messages :: m in snap.classified.messages && snap.classified.messages[m].intent == st.automaticIntent
  {
    FlowConfidenceConservative(snap, table, fs);
    var g :| g in snap.classified.flows && snap.classified.flows[g].messages * table[fs.source].messages != {}
             && snap.classified.flows[g].descriptor == fs.flow;
    assert FlowWith(snap, fs.flow) == g;
  }

  // ------------------------------------------------- the intention of a message

  /** Some applying correction gives the flow of a message this intention. */
  ghost predicate CorrectedTo(snap: Snapshot, ps: Policies, m: MessageId, intent: Intent) {
    && Accepted(snap, ps)
    && exists e <- ps :: ps[e].command.SetFlowIntention? && ps[e].command.intention == intent && e in AllBindings(snap, ps)
                         && AllBindings(snap, ps)[e].status.Applies() && m in AllBindings(snap, ps)[e].candidate.messages
  }

  /** An applying flow correction reaches exactly the messages of its flow. */
  lemma ReachesItsFlow(snap: Snapshot, ps: Policies, e: DecisionId, m: MessageId)
    requires Accepted(snap, ps) && m in snap.records && e in PlainIds(ps) && ps[e].command.Target().OnFlow?
    requires CorrectionField(ps[e].command) != None
    requires e in AllBindings(snap, ps) && AllBindings(snap, ps)[e].status.Applies()
    ensures m in ViewFor(snap, ps).toFlow
    ensures m in AllBindings(snap, ps)[e].candidate.messages <==> ViewFor(snap, ps).toFlow[m] == ps[e].command.Target().flow
  {
    hide ValidClassification, ValidPolicies, AllBindings, EffectiveSources, FlowsOf, Decide, PlainBindings, StructuralBindings, ViewFor, RawPlain;
    PlainBindingKeys(snap, ps);
    RawCandidate(snap, ps, e);
    SurvivorPresent(snap, ps, ViewFor(snap, ps), e);
    FlowOfMessage(snap, ps, m);
  }

  /** A message lies in the flow the view gives it, and in no other. */
  lemma FlowOfMessage(snap: Snapshot, ps: Policies, m: MessageId)
    requires Accepted(snap, ps) && m in snap.records
    ensures var view := ViewFor(snap, ps);
      && m in view.toFlow && view.toFlow[m] in view.flows && m in view.flows[view.toFlow[m]].messages
      && view.flows == FlowsOf(snap, EffectiveSources(snap, ps))
      && forall fs <- view.flows :: m in view.flows[fs].messages ==> fs == view.toFlow[m]
  {
    hide ValidClassification, ValidPolicies, EffectiveSources, FlowsOf;
    SourcesSplit(snap, ps);
    FlowsSplitMessages(snap, EffectiveSources(snap, ps), m);
  }

  /** The flow a message ends in, with its corrections. */
  ghost function EndFlow(snap: Snapshot, ps: Policies, m: MessageId): FlowState
    requires Accepted(snap, ps) && m in snap.records
  {
    hide ValidClassification, ValidPolicies;
    FlowStateOf(snap, Decide(snap, ps), m)
  }

  lemma EndFlowIs(snap: Snapshot, ps: Policies, m: MessageId) returns (fs: FlowSelector)
    requires Accepted(snap, ps) && m in snap.records
    ensures m in ViewFor(snap, ps).toFlow && fs == ViewFor(snap, ps).toFlow[m]
    ensures fs in FlowsOf(snap, EffectiveSources(snap, ps)) && m in FlowsOf(snap, EffectiveSources(snap, ps))[fs].messages
    ensures fs in Decide(snap, ps).flows && EndFlow(snap, ps, m) == Decide(snap, ps).flows[fs]
  {
    hide ValidClassification, ValidPolicies, AllBindings, Decide, EffectiveSources, FlowsOf, ViewFor;
    DecideParts(snap, ps);
    FlowOfMessage(snap, ps, m);
    fs := ViewFor(snap, ps).toFlow[m];
    FlowValues(snap, ps, fs);
  }

  /** The intention a message ends with: the corrected one, or else its own. */
  lemma MessageIntention(snap: Snapshot, ps: Policies, m: MessageId)
    requires Accepted(snap, ps) && m in snap.records
    ensures m in snap.classified.messages && EndFlow(snap, ps, m).automaticIntent == snap.classified.messages[m].intent
    ensures forall intent :: CorrectedTo(snap, ps, m, intent) ==> EndFlow(snap, ps, m).effectiveIntent == intent
    ensures CorrectedTo(snap, ps, m, EndFlow(snap, ps, m).effectiveIntent)
      || EndFlow(snap, ps, m).effectiveIntent == snap.classified.messages[m].intent
  {
    hide ValidClassification, ValidPolicies, AllBindings, Decide, EffectiveSources, FlowsOf, ViewFor, EndFlow;
    var fs := EndFlowIs(snap, ps, m);
    FlowValues(snap, ps, fs);
    FlowBuiltWith(snap, EffectiveSources(snap, ps), fs);
    forall intent | CorrectedTo(snap, ps, m, intent) ensures EndFlow(snap, ps, m).effectiveIntent == intent {
      var e := CorrectorApplies(snap, ps, m, intent, fs);
    }
    if !(forall e, intent :: !Applied(snap, ps, e, SetFlowIntention(fs, intent))) {
      var e, intent :| Applied(snap, ps, e, SetFlowIntention(fs, intent));
      AppliedCorrects(snap, ps, m, e, intent, fs);
    }
  }

  lemma CorrectorApplies(snap: Snapshot, ps: Policies, m: MessageId, intent: Intent, fs: FlowSelector) returns (e: DecisionId)
    requires Accepted(snap, ps) && m in snap.records && CorrectedTo(snap, ps, m, intent)
    requires m in ViewFor(snap, ps).toFlow && fs == ViewFor(snap, ps).toFlow[m]
    ensures Applied(snap, ps, e, SetFlowIntention(fs, intent))
  {
    hide ValidClassification, ValidPolicies, AllBindings, Decide, ViewFor;
    e :| e in ps && ps[e].command.SetFlowIntention? && ps[e].command.intention == intent
      && e in AllBindings(snap, ps) && AllBindings(snap, ps)[e].status.Applies()
      && m in AllBindings(snap, ps)[e].candidate.messages;
    ReachesItsFlow(snap, ps, e, m);
  }

  lemma AppliedCorrects(snap: Snapshot, ps: Policies, m: MessageId, e: DecisionId, intent: Intent, fs: FlowSelector)
    requires Accepted(snap, ps) && m in snap.records && Applied(snap, ps, e, SetFlowIntention(fs, intent))
    requires m in ViewFor(snap, ps).toFlow && fs == ViewFor(snap, ps).toFlow[m]
    ensures CorrectedTo(snap, ps, m, intent)
  {
    hide ValidClassification, ValidPolicies, AllBindings, Decide, ViewFor;
    ReachesItsFlow(snap, ps, e, m);
  }
}
