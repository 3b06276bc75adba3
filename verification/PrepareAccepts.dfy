/** Which decisions are accepted, and which error each of the others gets, told without the program's own checks. */
module PrepareAccepts {
  import opened Basics
  import opened MailModel
  import opened PolicyModel
  import opened StructuralPolicy
  import opened StructuralSafety
  import opened EffectiveFlows
  import opened PolicyBindings
  import opened Corrections
  import opened PolicyApplication
  import opened ProtectionTheorems
  import opened CorrectionSteps
  import opened PolicyPrepare
  import opened PreparePrediction
  import opened StructuralPrediction
  import opened PrepareAgain
  import opened StructuralEffects
  import opened AnchorStatus
  import opened PartitionMeaning

  // -------------------------------------------------------- supersession

  /** The two commands correct the same field. */
  predicate SameField(c: Command, o: Command) {
    match (c, o)
    case (SetSourceDisplayName(_, _), SetSourceDisplayName(_, _)) => true
    case (SetSourceRubro(_, _), SetSourceRubro(_, _)) => true
    case (SetFlowDisplayName(_, _), SetFlowDisplayName(_, _)) => true
    case (SetFlowIntention(_, _), SetFlowIntention(_, _)) => true
    case _ => false
  }

  /** A command may replace another of its kind: a protection of the same target, or a correction, merge or partition of a related one. */
  ghost predicate MayReplace(c: Command, o: Command) {
    match (c, o)
    case (SetSourceDisplayName(k, _), SetSourceDisplayName(l, _)) => k == l || AkinSources(k, l)
    case (SetSourceRubro(k, _), SetSourceRubro(l, _)) => k == l || AkinSources(k, l)
    case (SetFlowDisplayName(f, _), SetFlowDisplayName(g, _)) => f == g || AkinFlows(f.flow, g.flow)
    case (SetFlowIntention(f, _), SetFlowIntention(g, _)) => f == g || AkinFlows(f.flow, g.flow)
    case (ProtectTarget(t), ProtectTarget(u)) => t == u
    case _ => c.Structural() && o.Structural() && NameRelated(c, o)
  }

  /** Every decision to be replaced is active and may be replaced by the command. */
  ghost predicate Replaceable(ps: Policies, c: Command, supersedes: set<DecisionId>) {
    forall e <- supersedes :: e in ps && MayReplace(c, ps[e].command)
  }

  lemma MayReplaceMeans(c: Command, o: Command)
    ensures MayReplace(c, o) <==> SupersedesCompatible(c, o)
    ensures NameRelated(c, o) <==> HistoricalOverlap(c, o)
    ensures !c.Structural() && !c.ProtectTarget? ==> (SameField(c, o) <==> CorrectionField(c) == CorrectionField(o))
  {
    RelatedMeans(c, o);
    hide NameRelated, HistoricalOverlap, SelectorsShareAnchor, ShareFlowAnchor, AkinSources, AkinFlows;
    forall k, l ensures SelectorsShareAnchor(k, l) <==> AkinSources(k, l) {
      AkinSourcesMean(k, l);
    }
    forall f, g ensures ShareFlowAnchor(f, g) <==> AkinFlows(f, g) {
      AkinFlowsMean(f, g);
    }
  }

  // ------------------------------------------------------------- targets

  /** What a correction or protection targets, in the view of the remaining policies. */
  ghost predicate TargetThere(snap: Snapshot, rs: Policies, target: TargetSelector) {
    && Accepted(snap, rs)
    && match target
       case OnSource(k) => k in EffectiveSources(snap, rs)
       case OnFlow(fs) => fs in FlowsIn(snap, rs)
       case _ => exists m :: DirectlyReached(snap, target, m)
  }

  /** A message of the effective source or flow a correction targets. */
  ghost predicate OfTarget(snap: Snapshot, rs: Policies, target: TargetSelector, m: MessageId) {
    && Accepted(snap, rs)
    && match target
       case OnSource(k) => k in EffectiveSources(snap, rs) && m in EffectiveSources(snap, rs)[k].messages
       case OnFlow(fs) => fs in FlowsIn(snap, rs) && m in FlowsIn(snap, rs)[fs].messages
       case _ => false
  }

  /** A remaining correction of the same field already reaches a message of the target. */
  ghost predicate Disputed(snap: Snapshot, rs: Policies, c: Command) {
    && !c.Structural()
    && exists e <- rs, m :: SameField(c, rs[e].command) && OfTarget(snap, rs, c.Target(), m) && Reached(snap, rs, e, m)
  }

  ghost predicate Reached(snap: Snapshot, rs: Policies, e: DecisionId, m: MessageId) {
    BindingIn(snap, rs, e).Some? && m in BindingIn(snap, rs, e).value.candidate.messages
  }

  lemma ObservesTarget(snap: Snapshot, rs: Policies, target: TargetSelector)
    requires Accepted(snap, rs)
    ensures var o := ObserveTarget(snap, Decide(snap, rs), target);
      && (o.Ok? <==> TargetThere(snap, rs, target))
      && (o.Err? ==> o == Err(TargetNotFound))
      && (o.Ok? && (target.OnSource? || target.OnFlow?) ==> o.value.targets == TargetKeys(target))
  {
    hide ValidClassification, ValidPolicies, Decide, EffectiveSources, FlowsOf, AllBindings, DirectMessages, DirectlyReached;
    DecidedIdentity(snap, rs);
    DirectMeans(snap, target);
    if DirectMessages(snap, target) != {} {
      var m := SomeMember(DirectMessages(snap, target));
    }
  }

  // --------------------------------------------------- what occupies a target

  lemma OneAnchor(ps: Policies, e: DecisionId)
    requires ValidPolicies(ps) && e in PlainIds(ps)
    ensures |ps[e].anchors| == 1 && ps[e].anchors[0].selector == Target(ps[e].command.Target())
  {
    assert ValidPolicy(ps[e]);
  }

  /** A binding names the target of a correction exactly when it reaches one of its messages. */
  lemma NamesWhatItReaches(snap: Snapshot, rs: Policies, e: DecisionId, target: TargetSelector)
    requires Accepted(snap, rs) && e in PlainIds(rs) && TargetThere(snap, rs, target)
    requires (target.OnSource? && rs[e].command.Target().OnSource?) || (target.OnFlow? && rs[e].command.Target().OnFlow?)
    ensures !(RawIn(snap, rs, e).candidate.effective !! TargetKeys(target))
       <==> exists m :: OfTarget(snap, rs, target, m) && m in RawIn(snap, rs, e).candidate.messages
  {
    if target.OnSource? {
      NamesItsSource(snap, rs, e, target.source);
    } else {
      NamesItsFlow(snap, rs, e, target.flow);
    }
  }

  lemma NamesItsSource(snap: Snapshot, rs: Policies, e: DecisionId, k: SourceSelector)
    requires Accepted(snap, rs) && e in PlainIds(rs) && rs[e].command.Target().OnSource? && k in EffectiveSources(snap, rs)
    ensures !(RawIn(snap, rs, e).candidate.effective !! {SourceKey(k)})
       <==> exists m :: m in EffectiveSources(snap, rs)[k].messages && m in RawIn(snap, rs, e).candidate.messages
  {
    hide ValidClassification, ValidPolicies, EffectiveSources, RawIn, ResolveSource, SourceHits, SplitsRecords;
    var sel, table := rs[e].command.Target().source, EffectiveSources(snap, rs);
    OneAnchor(rs, e);
    RawOnSource(snap, rs, e, sel);
    SourceHitsMean(snap, rs[e].anchors[0], sel, table);
    ViewIsParted(snap, rs);
    var b := RawIn(snap, rs, e).candidate;
    var hits := SourceHits(rs[e].anchors[0], sel, table);
    if SourceKey(k) in b.effective {
      var m := SomeMember(table[k].messages);
      assert k in hits && m in b.messages;
    }
    if m :| m in table[k].messages && m in b.messages {
      var l :| l in hits && l in table && m in table[l].messages;
      SourceOfMessageUnique(snap, table, m, k, l);
      assert SourceKey(k) in b.effective;
    }
  }

  lemma NamesItsFlow(snap: Snapshot, rs: Policies, e: DecisionId, fs: FlowSelector)
    requires Accepted(snap, rs) && e in PlainIds(rs) && rs[e].command.Target().OnFlow? && fs in FlowsIn(snap, rs)
    ensures !(RawIn(snap, rs, e).candidate.effective !! {FlowKeyOf(fs)})
       <==> exists m :: m in FlowsIn(snap, rs)[fs].messages && m in RawIn(snap, rs, e).candidate.messages
  {
    hide ValidClassification, ValidPolicies, EffectiveSources, RawIn, ResolveFlow, FlowHits, ViewFor, FlowsOf;
    var sel, view := rs[e].command.Target().flow, ViewFor(snap, rs);
    OneAnchor(rs, e);
    RawOnFlow(snap, rs, e, sel);
    ViewFlowsAre(snap, rs);
    FlowHitsMean(rs[e].anchors[0], sel, view);
    FlowParts(snap, rs, fs);
    TargetsIsolated(snap, rs, OnFlow(fs));
    var b := RawIn(snap, rs, e).candidate;
    var hits := FlowHits(rs[e].anchors[0], sel, view);
    if FlowKeyOf(fs) in b.effective {
      var m := SomeMember(FlowsIn(snap, rs)[fs].messages);
      assert fs in hits && m in b.messages;
    }
    if m :| m in FlowsIn(snap, rs)[fs].messages && m in b.messages {
      var g :| g in hits && g in view.flows && m in view.flows[g].messages;
      assert FlowKeyOf(fs) in b.effective;
    }
  }

  lemma SameTargets(c: Command, o: Command)
    requires SameField(c, o)
    ensures !c.Structural() && !o.Structural() && !c.ProtectTarget? && !o.ProtectTarget?
    ensures (c.Target().OnSource? && o.Target().OnSource?) || (c.Target().OnFlow? && o.Target().OnFlow?)
  {
  }

  /** A correction's target is occupied exactly when a remaining correction of the field reaches one of its messages. */
  lemma OccupiedIsDisputed(snap: Snapshot, rs: Policies, c: Command)
    requires Accepted(snap, rs) && !c.Structural() && !c.ProtectTarget? && TargetThere(snap, rs, c.Target())
    requires rs.Keys <= AllBindings(snap, rs).Keys
    ensures OccupiedBy(rs, AllBindings(snap, rs), c, TargetKeys(c.Target())) <==> Disputed(snap, rs, c)
  {
    hide ValidClassification, ValidPolicies, AllBindings, TargetThere, RawIn, TargetKeys, OfTarget, SameField, BindingIn;
    forall e | e in rs ensures SameField(c, rs[e].command) <==> CorrectionField(c) == CorrectionField(rs[e].command) {
      MayReplaceMeans(c, rs[e].command);
    }
    forall e | e in rs && SameField(c, rs[e].command)
      ensures !(AllBindings(snap, rs)[e].candidate.effective !! TargetKeys(c.Target()))
         <==> exists m :: OfTarget(snap, rs, c.Target(), m) && Reached(snap, rs, e, m)
    {
      OccupiesWhatItReaches(snap, rs, c, e);
    }
    CorrectionHasField(c);
  }

  lemma CorrectionHasField(c: Command)
    ensures !c.Structural() && !c.ProtectTarget? <==> CorrectionField(c) != None
  {
  }

  lemma OccupiesWhatItReaches(snap: Snapshot, rs: Policies, c: Command, e: DecisionId)
    requires Accepted(snap, rs) && !c.Structural() && TargetThere(snap, rs, c.Target()) && e in rs && SameField(c, rs[e].command)
    ensures e in AllBindings(snap, rs)
    ensures !(AllBindings(snap, rs)[e].candidate.effective !! TargetKeys(c.Target()))
       <==> exists m :: OfTarget(snap, rs, c.Target(), m) && Reached(snap, rs, e, m)
  {
    hide ValidClassification, ValidPolicies, AllBindings, TargetThere, RawIn, TargetKeys, OfTarget, SameField, Contested;
    SameTargets(c, rs[e].command);
    BindingKeys(snap, rs);
    PlainBindingIs(snap, rs, e);
    NamesWhatItReaches(snap, rs, e, c.Target());
    forall m ensures Reached(snap, rs, e, m) <==> m in RawIn(snap, rs, e).candidate.messages {
    }
  }

  // --------------------------------------------- corrections and protections

  /** What decides about a command, step by step. */
  lemma PrepareSteps(snap: Snapshot, ps: Policies, c: Command, supersedes: set<DecisionId>)
    requires Accepted(snap, ps) && c.Valid()
    ensures Accepted(snap, Remaining(ps, supersedes))
    ensures var rs := Remaining(ps, supersedes);
      && rs.Keys <= AllBindings(snap, rs).Keys
      && Prepare(snap, ps, c, supersedes) ==
         if !Replaceable(ps, c, supersedes) then Err(PolicyConflict)
         else match Observe(snap, Decide(snap, rs), c)
              case Err(error) =>
                if error == TargetNotFound && c.Structural() && OccupiedBy(rs, AllBindings(snap, rs), c, {}) then Err(PolicyConflict)
                else Err(error)
              case Ok(observed) =>
                if OccupiedBy(rs, AllBindings(snap, rs), c, observed.targets) then Err(PolicyConflict) else Ok(observed.anchors)
  {
    hide ValidClassification, ValidPolicy, AllBindings, OccupiedBy, Decide, DecidedFor, Observe, Remaining, MayReplace, SupersedesCompatible;
    RemainingValid(ps, supersedes);
    var rs := Remaining(ps, supersedes);
    BindingKeys(snap, rs);
    DecideParts(snap, rs);
    forall e | e in supersedes && e in ps ensures MayReplace(c, ps[e].command) <==> SupersedesCompatible(c, ps[e].command) {
      MayReplaceMeans(c, ps[e].command);
    }
  }

  /**
   A correction is accepted exactly when it may replace what it replaces, its
   target is in the view of the remaining policies, and no remaining correction
   of its field reaches a message of the target.
   */
  lemma CorrectionAccepted(snap: Snapshot, ps: Policies, c: Command, supersedes: set<DecisionId>)
    requires Accepted(snap, ps) && c.Valid() && !c.Structural() && !c.ProtectTarget?
    ensures var rs, result := Remaining(ps, supersedes), Prepare(snap, ps, c, supersedes);
      && (result.Ok? <==> Replaceable(ps, c, supersedes) && TargetThere(snap, rs, c.Target()) && !Disputed(snap, rs, c))
      && (!Replaceable(ps, c, supersedes) ==> result == Err(PolicyConflict))
      && (Replaceable(ps, c, supersedes) && !TargetThere(snap, rs, c.Target()) ==> result == Err(TargetNotFound))
      && (Replaceable(ps, c, supersedes) && TargetThere(snap, rs, c.Target()) && Disputed(snap, rs, c) ==> result == Err(PolicyConflict))
  {
    hide ValidClassification, ValidPolicies, AllBindings, OccupiedBy, Decide, DecidedFor, ObserveTarget, Remaining, Replaceable, Prepare,
      TargetThere, Disputed, TargetKeys;
    var rs := Remaining(ps, supersedes);
    PrepareSteps(snap, ps, c, supersedes);
    ObservesTarget(snap, rs, c.Target());
    CorrectionTargets(c);
    if TargetThere(snap, rs, c.Target()) {
      OccupiedIsDisputed(snap, rs, c);
    }
  }

  lemma CorrectionTargets(c: Command)
    requires !c.Structural() && !c.ProtectTarget?
    ensures c.Target().OnSource? || c.Target().OnFlow?
  {
  }

  /** A protection is accepted exactly when it may replace what it replaces and its target is there; nothing competes with it. */
  lemma ProtectionAccepted(snap: Snapshot, ps: Policies, c: Command, supersedes: set<DecisionId>)
    requires Accepted(snap, ps) && c.ProtectTarget?
    ensures var rs, result := Remaining(ps, supersedes), Prepare(snap, ps, c, supersedes);
      && (result.Ok? <==> Replaceable(ps, c, supersedes) && TargetThere(snap, rs, c.protect))
      && (!Replaceable(ps, c, supersedes) ==> result == Err(PolicyConflict))
      && (Replaceable(ps, c, supersedes) && !TargetThere(snap, rs, c.protect) ==> result == Err(TargetNotFound))
  {
    hide ValidClassification, ValidPolicies, AllBindings, Decide, DecidedFor, ObserveTarget, Remaining, Replaceable, Prepare, TargetThere;
    PrepareSteps(snap, ps, c, supersedes);
    ObservesTarget(snap, Remaining(ps, supersedes), c.protect);
  }

  /** What is prepared for a protection of a message, a sender or a label: the automatic sources and flows it reaches. */
  lemma DirectObserves(snap: Snapshot, ps: Policies, c: Command, supersedes: set<DecisionId>)
    requires Prepare(snap, ps, c, supersedes).Ok? && c.ProtectTarget? && !c.protect.OnSource? && !c.protect.OnFlow?
    ensures var anchors := Prepare(snap, ps, c, supersedes).value;
      && |anchors| == 1 && anchors[0].selector == Target(c.protect) && anchors[0].observed == None && anchors[0].structural == {}
      && ObservedAll(snap, anchors[0], ReachedDirectly(snap, c.protect))
  {
    hide ValidClassification, ValidPolicies, AllBindings, Prepare, OccupiedBy, Decide, DecidedFor, ObservedAll, DirectMessages, DirectlyReached;
    var observed := PrepareUnfolds(snap, ps, c, supersedes);
    DirectMeans(snap, c.protect);
    var ms := DirectMessages(snap, c.protect);
    DirectWithin(snap, c.protect);
    assert ms == ReachedDirectly(snap, c.protect);
    ObservedMeans(snap, observed.anchors[0], ms);
  }

  /** Whatever the command: an input or a command that breaks its own checks is refused as invalid. */
  lemma InvalidRefused(snap: Snapshot, ps: Policies, c: Command, supersedes: set<DecisionId>)
    requires !Accepted(snap, ps) || !c.Valid()
    ensures Prepare(snap, ps, c, supersedes) == Err(InvalidInput)
  {
  }

  // ------------------------------------------------- merges and partitions

  /** Every automatic source the command names is still in the view of the remaining policies. */
  ghost predicate NamedThere(snap: Snapshot, rs: Policies, c: Command) {
    Accepted(snap, rs) && forall x <- Named(c) :: Automatic(x) in EffectiveSources(snap, rs)
  }

  /** A remaining merge or partition names a related automatic source. */
  ghost predicate RelatedRemains(rs: Policies, c: Command) {
    exists e <- rs :: rs[e].command.Structural() && NameRelated(c, rs[e].command)
  }

  /** A remaining merge or partition reaches a message of a named source. */
  ghost predicate ReachedByStructure(snap: Snapshot, rs: Policies, c: Command) {
    exists e <- rs, m :: rs[e].command.Structural() && Reached(snap, rs, e, m) && OfNamed(snap, c, m)
  }

  /** A message of an automatic source the command names. */
  ghost predicate OfNamed(snap: Snapshot, c: Command, m: MessageId) {
    exists x <- Named(c) :: OfAutomatic(snap, x, m)
  }

  /** A structural binding names an automatic source exactly when it reaches one of its messages. */
  lemma StructureNames(snap: Snapshot, p: Policy, x: SourceDescriptor)
    requires snap.Valid() && ValidPolicy(p) && p.command.Structural() && Automatic(x) in Baseline(snap)
    ensures SourceKey(Automatic(x)) in StructuralBinding(snap, p, Baseline(snap)).candidate.effective
       <==> exists m :: m in MessagesOf(snap, Automatic(x)) && m in StructuralBinding(snap, p, Baseline(snap)).candidate.messages
  {
    hide ValidClassification, Baseline, StructuralBinding, MessagesOf;
    BaselineEntry(snap, x);
    var b := StructuralBinding(snap, p, Baseline(snap)).candidate;
    if SourceKey(Automatic(x)) in b.effective {
      NamedIsReached(snap, p, x);
      var m := SomeMember(Baseline(snap)[Automatic(x)].messages);
    }
    if m :| m in MessagesOf(snap, Automatic(x)) && m in b.messages {
      StructuralTouches(snap, p, x, m);
    }
  }

  lemma NamedIsReached(snap: Snapshot, p: Policy, x: SourceDescriptor)
    requires snap.Valid() && ValidPolicy(p) && p.command.Structural() && Automatic(x) in Baseline(snap)
    requires SourceKey(Automatic(x)) in StructuralBinding(snap, p, Baseline(snap)).candidate.effective
    ensures Baseline(snap)[Automatic(x)].messages <= StructuralBinding(snap, p, Baseline(snap)).candidate.messages
  {
    hide ValidClassification, ResolveSource, Baseline, GroupsResolve, FallbackOnly, SourceHits, CombinedStatus;
    var table := Baseline(snap);
    if p.command.MergeSources? {
      var parts := seq(|p.anchors|, i requires 0 <= i < |p.anchors| => ResolveParticipant(snap, p.anchors[i], table));
      var b :| b in parts && SourceKey(Automatic(x)) in b.candidate.effective;
      var i :| 0 <= i < |parts| && parts[i] == b;
      assert p.anchors[i].selector == AnchorSelectors(p.command)[i];
      SourceHitsMean(snap, p.anchors[i], p.anchors[i].selector.target.source, table);
      forall m | m in table[Automatic(x)].messages ensures m in StructuralBinding(snap, p, table).candidate.messages {
        assert m in b.candidate.messages;
      }
    } else {
      SourceHitsMean(snap, p.anchors[0], Automatic(p.command.target), table);
      var b := ResolveSource(snap, p.anchors[0], Automatic(p.command.target), table);
      assert StructuralBinding(snap, p, table).candidate == b.candidate;
      forall m | m in table[Automatic(x)].messages ensures m in b.candidate.messages {
        assert Automatic(x) in SourceHits(p.anchors[0], Automatic(p.command.target), table);
      }
    }
  }

  /** The named sources are occupied exactly when a remaining merge or partition names a related source or reaches their messages. */
  lemma OccupiedStructure(snap: Snapshot, rs: Policies, c: Command, targets: set<EffectiveId>)
    requires Accepted(snap, rs) && c.Structural() && rs.Keys <= AllBindings(snap, rs).Keys
    requires forall x <- Named(c) :: Automatic(x) in Baseline(snap)
    requires targets == set x | x in Named(c) :: SourceKey(Automatic(x))
    ensures OccupiedBy(rs, AllBindings(snap, rs), c, targets) <==> RelatedRemains(rs, c) || ReachedByStructure(snap, rs, c)
  {
    hide ValidClassification, ValidPolicies, AllBindings, Baseline, NameRelated, HistoricalOverlap, Named, Reached, OfNamed;
    forall e | e in rs && rs[e].command.Structural()
      ensures NameRelated(c, rs[e].command) <==> HistoricalOverlap(c, rs[e].command)
      ensures !(AllBindings(snap, rs)[e].candidate.effective !! targets)
         <==> exists m :: Reached(snap, rs, e, m) && OfNamed(snap, c, m)
    {
      MayReplaceMeans(c, rs[e].command);
      StructureOccupies(snap, rs, c, e, targets);
    }
  }

  lemma StructureOccupies(snap: Snapshot, rs: Policies, c: Command, e: DecisionId, targets: set<EffectiveId>)
    requires Accepted(snap, rs) && c.Structural() && e in StructuralIds(rs) && e in AllBindings(snap, rs)
    requires forall x <- Named(c) :: Automatic(x) in Baseline(snap)
    requires targets == set x | x in Named(c) :: SourceKey(Automatic(x))
    ensures !(AllBindings(snap, rs)[e].candidate.effective !! targets)
       <==> exists m :: Reached(snap, rs, e, m) && OfNamed(snap, c, m)
  {
    hide ValidClassification, ValidPolicy, AllBindings, Baseline, Named, StructuralBinding, MessagesOf, OfAutomatic;
    StructuralCandidate(snap, rs, e);
    assert ValidPolicy(rs[e]);
    var b := AllBindings(snap, rs)[e].candidate;
    forall x, m ensures m in MessagesOf(snap, Automatic(x)) <==> OfAutomatic(snap, x, m) {
      OfAutomaticMeans(snap, x, m);
    }
    if !(b.effective !! targets) {
      var k := SomeCommon(b.effective, targets);
      var x :| x in Named(c) && k == SourceKey(Automatic(x));
      StructureNames(snap, rs[e], x);
      var m :| m in MessagesOf(snap, Automatic(x)) && m in b.messages;
      assert Reached(snap, rs, e, m) && OfNamed(snap, c, m);
    }
    if m :| Reached(snap, rs, e, m) && OfNamed(snap, c, m) {
      var x :| x in Named(c) && m in MessagesOf(snap, Automatic(x));
      StructureNames(snap, rs[e], x);
      assert SourceKey(Automatic(x)) in b.effective * targets;
    }
  }

  /** Without a target, only a related name occupies. */
  lemma OccupiedWithoutTarget(snap: Snapshot, rs: Policies, c: Command)
    requires Accepted(snap, rs) && c.Structural() && rs.Keys <= AllBindings(snap, rs).Keys
    ensures OccupiedBy(rs, AllBindings(snap, rs), c, {}) <==> RelatedRemains(rs, c)
  {
    hide ValidClassification, ValidPolicies, AllBindings, NameRelated, HistoricalOverlap;
    forall e | e in rs && rs[e].command.Structural() ensures NameRelated(c, rs[e].command) <==> HistoricalOverlap(c, rs[e].command) {
      MayReplaceMeans(c, rs[e].command);
    }
  }

  lemma NamedInBaseline(snap: Snapshot, rs: Policies, c: Command)
    requires NamedThere(snap, rs, c)
    ensures forall x <- Named(c) :: Automatic(x) in Baseline(snap)
  {
    hide ValidClassification, ValidPolicies, EffectiveSources, Baseline, Named;
    forall x | x in Named(c) ensures Automatic(x) in Baseline(snap) {
      AutomaticUntouched(snap, rs, x);
    }
  }

  /**
   A merge is accepted exactly when it may replace what it replaces, every source
   it names is in the view of the remaining policies, and no remaining merge or
   partition names a related source or reaches their messages. A missing source
   is a conflict when a remaining decision names a related one.
   */
  lemma MergeAccepted(snap: Snapshot, ps: Policies, c: Command, supersedes: set<DecisionId>)
    requires Accepted(snap, ps) && c.Valid() && c.MergeSources?
    ensures var rs, result := Remaining(ps, supersedes), Prepare(snap, ps, c, supersedes);
      var free := !RelatedRemains(rs, c) && !ReachedByStructure(snap, rs, c);
      && (result.Ok? <==> Replaceable(ps, c, supersedes) && NamedThere(snap, rs, c) && free)
      && (!Replaceable(ps, c, supersedes) ==> result == Err(PolicyConflict))
      && (Replaceable(ps, c, supersedes) && !NamedThere(snap, rs, c) ==>
            result == Err(if RelatedRemains(rs, c) then PolicyConflict else TargetNotFound))
      && (Replaceable(ps, c, supersedes) && NamedThere(snap, rs, c) && !free ==> result == Err(PolicyConflict))
  {
    hide ValidClassification, ValidPolicies, AllBindings, OccupiedBy, Decide, DecidedFor, EffectiveSources, Remaining, Replaceable, Prepare,
      RelatedRemains, ReachedByStructure, Baseline;
    var rs := Remaining(ps, supersedes);
    PrepareSteps(snap, ps, c, supersedes);
    DecidedIdentity(snap, rs);
    ObservesMerge(snap, Decide(snap, rs).sources, c);
    OccupiedWithoutTarget(snap, rs, c);
    if NamedThere(snap, rs, c) {
      NamedInBaseline(snap, rs, c);
      OccupiedStructure(snap, rs, c, set x | x in Named(c) :: SourceKey(Automatic(x)));
    }
  }

  lemma ObservesMerge(snap: Snapshot, table: SourceTable, c: Command)
    requires c.MergeSources?
    ensures var o := ObserveMerge(snap, table, c.participants);
      && (o.Ok? <==> forall x <- Named(c) :: Automatic(x) in table)
      && (o.Err? ==> o == Err(TargetNotFound))
      && (o.Ok? ==> o.value.targets == set x | x in Named(c) :: SourceKey(Automatic(x)))
  {
  }

  /**
   A partition is accepted exactly when it may replace what it replaces, its
   source is in the view, its groups fit the messages of the source, and no
   remaining merge or partition names a related source or reaches its messages.
   */
  lemma PartitionAccepted(snap: Snapshot, ps: Policies, c: Command, supersedes: set<DecisionId>)
    requires Accepted(snap, ps) && c.Valid() && c.PartitionSource?
    ensures var rs, result := Remaining(ps, supersedes), Prepare(snap, ps, c, supersedes);
      var free := !RelatedRemains(rs, c) && !ReachedByStructure(snap, rs, c);
      && (result.Ok? <==> Replaceable(ps, c, supersedes) && NamedThere(snap, rs, c) && GroupsFit(snap, c.target, c.groups) && free)
      && (!Replaceable(ps, c, supersedes) ==> result == Err(PolicyConflict))
      && (Replaceable(ps, c, supersedes) && !NamedThere(snap, rs, c) ==>
            result == Err(if RelatedRemains(rs, c) then PolicyConflict else TargetNotFound))
      && (Replaceable(ps, c, supersedes) && NamedThere(snap, rs, c) && !GroupsFit(snap, c.target, c.groups) ==> result == Err(InvalidInput))
      && (Replaceable(ps, c, supersedes) && NamedThere(snap, rs, c) && GroupsFit(snap, c.target, c.groups) && !free ==> result == Err(PolicyConflict))
  {
    hide ValidClassification, ValidPolicies, AllBindings, OccupiedBy, Decide, DecidedFor, EffectiveSources, Remaining, Replaceable, Prepare,
      RelatedRemains, ReachedByStructure, Baseline, GroupsFit, ObservePartition;
    var rs := Remaining(ps, supersedes);
    PrepareSteps(snap, ps, c, supersedes);
    DecidedIdentity(snap, rs);
    OccupiedWithoutTarget(snap, rs, c);
    if NamedThere(snap, rs, c) {
      NamedInBaseline(snap, rs, c);
      AutomaticUntouched(snap, rs, c.target);
      BaselineEntry(snap, c.target);
      OccupiedStructure(snap, rs, c, set x | x in Named(c) :: SourceKey(Automatic(x)));
    }
    ObservesPartition(snap, Decide(snap, rs).sources, c);
  }

  lemma ObservesPartition(snap: Snapshot, table: SourceTable, c: Command)
    requires snap.Valid() && c.Valid() && c.PartitionSource?
    requires Automatic(c.target) in table ==> table[Automatic(c.target)].messages == MessagesOf(snap, Automatic(c.target))
    ensures var o := ObservePartition(snap, table, c.target, c.groups);
      && (Automatic(c.target) !in table ==> o == Err(TargetNotFound))
      && (Automatic(c.target) in table && !GroupsFit(snap, c.target, c.groups) ==> o == Err(InvalidInput))
      && (Automatic(c.target) in table && GroupsFit(snap, c.target, c.groups) ==>
            o.Ok? && o.value.targets == set x | x in Named(c) :: SourceKey(Automatic(x)))
  {
    hide ValidClassification, AnchorMessages, GroupMessages, FallbackOnly, GroupsResolve, MessagesOf, AllGroupAnchors, GroupsFit;
    var ms := MessagesOf(snap, Automatic(c.target));
    GroupsFitMeans(snap, c.target, c.groups);
    forall g, a | g in c.groups && a in g ensures AnchorMessages(snap, a, GroupMessages(snap, g, ms)) == AnchorMessages(snap, a, ms) {
      AnchorWithinGroup(snap, g, a, ms);
    }
  }
}
