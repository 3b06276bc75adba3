/** What an accepted merge or partition does to the corrections and protections around it. */
module StructuralEffects {
  import opened Basics
  import opened MailModel
  import opened PolicyModel
  import opened StructuralPolicy
  import opened StructuralSafety
  import opened StructuralFold
  import opened EffectiveFlows
  import opened PolicyBindings
  import opened Corrections
  import opened PolicyApplication
  import opened ProtectionTheorems
  import opened CorrectionSteps
  import opened PolicyPrepare
  import opened PreparePrediction
  import opened StructuralPrediction
  import opened PrepareAgain

  // --------------------------------------------------- how the sources change

  /** The messages of the automatic sources that a structural command takes. */
  function Taken(snap: Snapshot, c: Command): set<MessageId>
    requires snap.Valid()
  {
    set x, m | x in StructuralDescriptors(c) && m in MessagesOf(snap, Automatic(x)) :: m
  }

  /** One table follows from another: some automatic sources are replaced by products of theirs. */
  ghost predicate Replaced(snap: Snapshot, c: Command, from: SourceTable, to: SourceTable)
    requires snap.Valid()
  {
    && (forall k :: k in to <==> (k in from && k !in ConsumedKeys(c)) || k in Products(c))
    && (forall k <- from :: k in to ==> to[k] == from[k])
    && ConsumedKeys(c) <= from.Keys && Products(c) !! from.Keys
    && (forall k <- from :: from[k].messages == MessagesOf(snap, k) && from[k].automatic == AutomaticIds(snap, k))
    && (forall k <- to :: to[k].messages == MessagesOf(snap, k) && to[k].automatic == AutomaticIds(snap, k))
  }

  lemma SurvivorsGrow(snap: Snapshot, rs: Policies, qs: Policies, d: DecisionId)
    requires Accepted(snap, rs) && Accepted(snap, qs)
    requires d in qs && d !in rs && qs == rs[d := qs[d]] && qs[d].command.Structural()
    requires StatusOf(snap, qs, d) == Some(Exact)
    ensures Applying(snap, qs) == Applying(snap, rs) + {d} && Applying(snap, rs) <= StructuralIds(rs)
  {
    hide ValidClassification, ValidPolicy, AllBindings, StructuralBindings;
    StructuralOthersStay(snap, rs, qs, d);
    BindingKeys(snap, rs);
    BindingKeys(snap, qs);
    assert StructuralIds(qs) == StructuralIds(rs) + {d};
    forall e | e in StructuralIds(rs) ensures StructuralBindings(snap, qs)[e] == StructuralBindings(snap, rs)[e] {
      assert e in StructuralIds(qs);
    }
    assert StructuralBindings(snap, qs)[d].status == Exact;
  }

  lemma ViewReplaced(snap: Snapshot, rs: Policies, qs: Policies, d: DecisionId)
    requires Accepted(snap, rs) && Accepted(snap, qs)
    requires d in qs && d !in rs && qs == rs[d := qs[d]] && qs[d].command.Structural()
    requires StatusOf(snap, qs, d) == Some(Exact)
    ensures Replaced(snap, qs[d].command, EffectiveSources(snap, rs), EffectiveSources(snap, qs))
  {
    hide ValidClassification, ValidPolicies, Applying, GroupsResolve, StatusOf, TableKeys, Products, Deciders, MessagesOf, AutomaticIds, Applicable;
    SurvivorsGrow(snap, rs, qs, d);
    var a := Applying(snap, rs);
    KeysDependOnStructure(snap, rs, qs, a);
    SurvivorsApplicable(snap, qs);
    var from, to := EffectiveSources(snap, rs), EffectiveSources(snap, qs);
    forall k ensures k in to <==> (k in from && k !in ConsumedKeys(qs[d].command)) || k in Products(qs[d].command) {
      KeysStep(snap, qs, a, d, k);
    }
    forall k | k in from && k in to ensures to[k] == from[k] {
      ProductIsNew(snap, qs, a, d, k);
      DecidersStep(snap, qs, a, d, k);
    }
    forall k | k in ConsumedKeys(qs[d].command) ensures k in from {
      TargetsUntouched(snap, qs, a, d, k.source);
    }
    forall k | k in Products(qs[d].command) ensures k !in from {
      ProductIsNew(snap, qs, a, d, k);
    }
  }

  /** What a new structural policy creates was not there. */
  lemma ProductIsNew(snap: Snapshot, ps: Policies, applied: set<DecisionId>, d: DecisionId, k: SourceSelector)
    requires snap.Valid() && Applicable(snap, ps, applied + {d}) && d !in applied && d in ps
    ensures k in Products(ps[d].command) ==> k !in TableOf(snap, ps, applied)
  {
    hide ValidClassification, GroupsResolve, Products, Applicable;
    if k in Products(ps[d].command) && k in TableOf(snap, ps, applied) {
      ProductDescriptors(ps[d].command, k);
      BaselineIsAutomaticKeys(snap);
      var e :| e in applied && e in ps && k in Products(ps[e].command);
      SameMaker(snap, ps, applied + {d}, d, e, k);
    }
  }

  /** What a product is made of comes from the sources that were taken. */
  lemma ProductFromTaken(snap: Snapshot, c: Command, k: SourceSelector)
    requires snap.Valid() && k in Products(c)
    ensures k.Descriptors() == StructuralDescriptors(c)
    ensures MessagesOf(snap, k) <= Taken(snap, c)
    ensures forall i <- AutomaticIds(snap, k) :: exists x <- StructuralDescriptors(c) :: i in AutomaticIds(snap, Automatic(x))
  {
    hide ValidClassification;
    ProductDescriptors(c, k);
    forall m | m in MessagesOf(snap, k) ensures m in Taken(snap, c) {
      var x := DescriptorOf(snap.classified, m);
      assert x in StructuralDescriptors(c) && m in MessagesOf(snap, Automatic(x));
    }
    forall i | i in AutomaticIds(snap, k) ensures exists x <- StructuralDescriptors(c) :: i in AutomaticIds(snap, Automatic(x)) {
      var x := snap.classified.sources[i].descriptor;
      assert x in StructuralDescriptors(c) && i in AutomaticIds(snap, Automatic(x));
    }
  }

  // -------------------------------------------------------- source targets

  /** The effective sources an anchor reaches: its own, or else the fallbacks. */
  function SourceHits(anchor: Anchor, sel: SourceSelector, table: SourceTable): set<SourceSelector> {
    if sel in table then {sel} else SourceFallbacks(anchor, sel, table)
  }

  lemma SourceHitsMean(snap: Snapshot, anchor: Anchor, sel: SourceSelector, table: SourceTable)
    ensures var b := ResolveSource(snap, anchor, sel, table); var hits := SourceHits(anchor, sel, table);
      && hits <= table.Keys
      && (forall k :: k in hits <==> SourceKey(k) in b.candidate.effective)
      && (forall m :: m in b.candidate.messages <==> exists k <- hits :: k in table && m in table[k].messages)
      && b.status != Conflict
  {
    var hits := SourceHits(anchor, sel, table);
    var b := ResolveSource(snap, anchor, sel, table);
    if sel !in table && hits != {} {
      var cs := set k | k in hits :: SourceCandidate(snap, k, table[k]);
      assert b.candidate == UnionCandidates(cs);
      forall k | k in hits ensures SourceKey(k) in b.candidate.effective && table[k].messages <= b.candidate.messages {
        var c := SourceCandidate(snap, k, table[k]);
        assert c in cs && SourceKey(k) in c.effective;
        forall m | m in table[k].messages ensures m in b.candidate.messages {
          assert m in c.messages;
        }
      }
    }
  }

  /** The binding depends only on the sources that are reached. */
  lemma SameSourceHits(snap: Snapshot, anchor: Anchor, sel: SourceSelector, from: SourceTable, to: SourceTable)
    requires SourceHits(anchor, sel, from) == SourceHits(anchor, sel, to)
    requires forall k <- SourceHits(anchor, sel, from) :: k in from && k in to && from[k] == to[k]
    ensures ResolveSource(snap, anchor, sel, from) == ResolveSource(snap, anchor, sel, to)
  {
    hide ExactStatus;
    var hits := SourceHits(anchor, sel, from);
    if sel !in from && sel !in to {
      assert (set k | k in hits :: SourceCandidate(snap, k, from[k])) == (set k | k in hits :: SourceCandidate(snap, k, to[k]));
    }
  }

  /** An anchor that observed its own target, as every prepared one does. */
  predicate OwnObserved(anchor: Anchor, target: TargetSelector) {
    match target
    case OnSource(k) => anchor.observed == Some(SourceKey(k))
    case OnFlow(fs) => anchor.observed == Some(FlowKeyOf(fs))
    case _ => true
  }

  /** A product is reached only where a source that was taken was reached before. */
  lemma ProductHit(snap: Snapshot, c: Command, anchor: Anchor, sel: SourceSelector, from: SourceTable, to: SourceTable, k: SourceSelector)
    returns (x: SourceDescriptor)
    requires snap.Valid() && c.Structural() && c.Valid() && Replaced(snap, c, from, to) && OwnObserved(anchor, OnSource(sel))
    requires forall x <- StructuralDescriptors(c) :: ShareSourceAnchor(x, x)
    requires k in Products(c) && k in SourceHits(anchor, sel, to)
    ensures Automatic(x) in ConsumedKeys(c) && Automatic(x) in SourceHits(anchor, sel, from)
  {
    hide ValidClassification, MessagesOf, AutomaticIds, Products;
    SomeDescriptor(c);
    ProductFromTaken(snap, c, k);
    if sel in from {
      x := sel.source;
    } else if k == sel {
      x := SomeTaken(snap, c, from, k);
      assert SelectorsShareAnchor(sel, Automatic(x));
    } else if SelectorsShareAnchor(sel, k) {
      var a, b :| a in sel.Descriptors() && b in k.Descriptors() && ShareSourceAnchor(a, b);
      assert SelectorsShareAnchor(sel, Automatic(b));
      x := b;
    } else {
      var i :| i in anchor.observedSources * to[k].automatic;
      x :| x in StructuralDescriptors(c) && i in AutomaticIds(snap, Automatic(x));
      assert i in anchor.observedSources * from[Automatic(x)].automatic;
    }
  }

  /** What is reached stays when no taken source is reached. */
  lemma SourceHitsStay(snap: Snapshot, c: Command, anchor: Anchor, sel: SourceSelector, from: SourceTable, to: SourceTable)
    requires snap.Valid() && c.Structural() && c.Valid() && Replaced(snap, c, from, to) && OwnObserved(anchor, OnSource(sel))
    requires forall x <- StructuralDescriptors(c) :: ShareSourceAnchor(x, x)
    requires SourceHits(anchor, sel, from) !! ConsumedKeys(c)
    ensures SourceHits(anchor, sel, to) == SourceHits(anchor, sel, from)
  {
    hide ValidClassification, MessagesOf, AutomaticIds, Products, ShareSourceAnchor;
    forall k | k in SourceHits(anchor, sel, to) ensures k !in Products(c) {
      if k in Products(c) {
        var x := ProductHit(snap, c, anchor, sel, from, to, k);
      }
    }
  }

  lemma SomeTaken(snap: Snapshot, c: Command, from: SourceTable, k: SourceSelector) returns (x: SourceDescriptor)
    requires k in Products(c) && StructuralDescriptors(c) != {}
    ensures x in StructuralDescriptors(c) && x in k.Descriptors()
  {
    ProductDescriptors(c, k);
    x := SomeMember(StructuralDescriptors(c));
  }

  /** A table whose sources split the records into non-empty parts. */
  ghost predicate Parted(snap: Snapshot, table: SourceTable) {
    SplitsRecords(snap, table) && forall k <- table :: table[k].messages != {}
  }

  /** A source of the table shares a message with what is taken exactly when it is taken. */
  lemma TakenSources(snap: Snapshot, c: Command, from: SourceTable, to: SourceTable, k: SourceSelector, m: MessageId)
    requires snap.Valid() && Replaced(snap, c, from, to) && Parted(snap, from)
    requires k in from && m in from[k].messages
    ensures m in Taken(snap, c) <==> k in ConsumedKeys(c)
  {
    hide ValidClassification, MessagesOf, AutomaticIds, Products;
    if m in Taken(snap, c) {
      var x :| x in StructuralDescriptors(c) && m in MessagesOf(snap, Automatic(x));
      assert Automatic(x) in ConsumedKeys(c);
      SourceOfMessageUnique(snap, from, m, k, Automatic(x));
    }
  }

  lemma SourceBindingStays(snap: Snapshot, c: Command, anchor: Anchor, sel: SourceSelector, from: SourceTable, to: SourceTable)
    requires snap.Valid() && c.Structural() && c.Valid() && Replaced(snap, c, from, to) && OwnObserved(anchor, OnSource(sel))
    requires forall x <- StructuralDescriptors(c) :: ShareSourceAnchor(x, x)
    requires Parted(snap, from)
    ensures ResolveSource(snap, anchor, sel, to) == ResolveSource(snap, anchor, sel, from)
       <==> ResolveSource(snap, anchor, sel, from).candidate.messages !! Taken(snap, c)
    ensures ResolveSource(snap, anchor, sel, to) != ResolveSource(snap, anchor, sel, from) ==>
      ResolveSource(snap, anchor, sel, to).candidate != ResolveSource(snap, anchor, sel, from).candidate
  {
    hide ValidClassification, MessagesOf, AutomaticIds, Products, ShareSourceAnchor, SourceHits, ResolveSource, Taken, SplitsRecords;
    SourceHitsMean(snap, anchor, sel, from);
    SourceHitsMean(snap, anchor, sel, to);
    var hits := SourceHits(anchor, sel, from);
    if hits !! ConsumedKeys(c) {
      SourceHitsStay(snap, c, anchor, sel, from, to);
      SameSourceHits(snap, anchor, sel, from, to);
      forall m | m in ResolveSource(snap, anchor, sel, from).candidate.messages ensures m !in Taken(snap, c) {
        var k :| k in hits && k in from && m in from[k].messages;
        TakenSources(snap, c, from, to, k, m);
      }
    } else {
      var k := SomeCommon(hits, ConsumedKeys(c));
      var m := SomeMember(from[k].messages);
      TakenSources(snap, c, from, to, k, m);
      assert m in ResolveSource(snap, anchor, sel, from).candidate.messages;
      assert SourceKey(k) in ResolveSource(snap, anchor, sel, from).candidate.effective;
      ConsumedAreAutomatic(c, k);
    }
  }

  lemma ConsumedAreAutomatic(c: Command, k: SourceSelector)
    requires k in ConsumedKeys(c)
    ensures k !in Products(c)
  {
  }

  // ---------------------------------------------------------- flow targets

  /** The effective flows an anchor reaches: its own, or else the fallbacks. */
  function FlowHits(anchor: Anchor, sel: FlowSelector, view: View): set<FlowSelector> {
    if sel in view.flows then {sel} else FlowFallbacks(anchor, sel, view)
  }

  lemma FlowHitsMean(anchor: Anchor, sel: FlowSelector, view: View)
    requires Linked(view)
    ensures var b := ResolveFlow(anchor, sel, view); var hits := FlowHits(anchor, sel, view);
      && hits <= view.flows.Keys
      && (forall g :: g in hits <==> FlowKeyOf(g) in b.candidate.effective)
      && (forall m :: m in b.candidate.messages <==> exists g <- hits :: g in view.flows && m in view.flows[g].messages)
      && b.status != Conflict
  {
    var hits := FlowHits(anchor, sel, view);
    var b := ResolveFlow(anchor, sel, view);
    if sel !in view.flows && hits != {} {
      var cs := set g | g in hits :: FlowCandidate(g, view);
      assert b.candidate == UnionCandidates(cs);
      forall g | g in hits ensures FlowKeyOf(g) in b.candidate.effective && view.flows[g].messages <= b.candidate.messages {
        var c := FlowCandidate(g, view);
        assert c in cs && FlowKeyOf(g) in c.effective;
        forall m | m in view.flows[g].messages ensures m in b.candidate.messages {
          assert m in c.messages;
        }
      }
    }
  }

  lemma SameFlowHits(anchor: Anchor, sel: FlowSelector, from: View, to: View)
    requires Linked(from) && Linked(to) && FlowHits(anchor, sel, from) == FlowHits(anchor, sel, to)
    requires forall g <- FlowHits(anchor, sel, from) ::
      g in from.flows && g in to.flows && from.flows[g] == to.flows[g] && from.sources[g.source] == to.sources[g.source]
    ensures ResolveFlow(anchor, sel, from) == ResolveFlow(anchor, sel, to)
  {
    hide ExactStatus;
    var hits := FlowHits(anchor, sel, from);
    if sel !in from.flows && sel !in to.flows {
      assert (set g | g in hits :: FlowCandidate(g, from)) == (set g | g in hits :: FlowCandidate(g, to));
    }
  }

  /** How the flows follow from the sources: those of a taken source go, those of a product come from one of them. */
  ghost predicate FlowsReplaced(c: Command, from: View, to: View) {
    && (forall g <- from.flows :: g.source in ConsumedKeys(c) ==> g !in to.flows)
    && (forall g <- from.flows :: g.source !in ConsumedKeys(c) ==>
          g in to.flows && g.source in to.sources && g.source in from.sources
          && to.flows[g] == from.flows[g] && to.sources[g.source] == from.sources[g.source])
    && (forall g <- to.flows :: g !in from.flows ==> NewFlowFromTaken(c, from.flows, to.flows, g))
  }

  /** The flows of a source that stays are those it had. */
  lemma FlowsOfSourceStay(snap: Snapshot, from: SourceTable, to: SourceTable, g: FlowSelector)
    requires snap.Valid() && g.source in from && g.source in to && from[g.source] == to[g.source]
    ensures g in FlowsOf(snap, from) <==> g in FlowsOf(snap, to)
    ensures g in FlowsOf(snap, from) ==> FlowsOf(snap, from)[g] == FlowsOf(snap, to)[g]
  {
    hide ValidClassification, MakeFlow, FlowWith;
  }

  lemma ViewFlowsReplaced(snap: Snapshot, c: Command, from: SourceTable, to: SourceTable)
    requires snap.Valid() && Replaced(snap, c, from, to) && SplitsRecords(snap, from) && SplitsRecords(snap, to)
    ensures FlowsReplaced(c, ViewOf(snap, from), ViewOf(snap, to))
  {
    hide ValidClassification, MessagesOf, AutomaticIds, Products, SplitsRecords, FlowsOf, ConsumedKeys, SourceMap, FlowMap;
    FlowSourcesKnown(snap, from);
    FlowSourcesKnown(snap, to);
    var gone, come := FlowsOf(snap, from), FlowsOf(snap, to);
    forall g | g in gone && g.source !in ConsumedKeys(c)
      ensures g in come && come[g] == gone[g] && g.source in to && to[g.source] == from[g.source]
    {
      FlowsOfSourceStay(snap, from, to, g);
    }
    forall g | g in gone && g.source in ConsumedKeys(c) ensures g !in come {
      ConsumedAreAutomatic(c, g.source);
    }
    forall g | g in come && g !in gone ensures NewFlowFromTaken(c, gone, come, g) {
      if g.source in from {
        FlowsOfSourceStay(snap, from, to, g);
      } else {
        var x := FlowFromTaken(snap, c, from, to, g);
      }
    }
  }

  /** A new flow lies in a product, and its automatic flow had a fragment in a source that was taken. */
  ghost predicate NewFlowFromTaken(c: Command, from: FlowTable, to: FlowTable, g: FlowSelector)
    requires g in to
  {
    g.source in Products(c) && exists x <- StructuralDescriptors(c) :: TakenFragment(c, from, to, g, x)
  }

  predicate TakenFragment(c: Command, from: FlowTable, to: FlowTable, g: FlowSelector, x: SourceDescriptor)
    requires g in to
  {
    var h := FlowSelector(g.flow, Automatic(x));
    h in from && from[h].automatic == to[g].automatic
  }

  /** A flow of a product was, before, a flow of a source that was taken. */
  lemma FlowFromTaken(snap: Snapshot, c: Command, from: SourceTable, to: SourceTable, g: FlowSelector) returns (x: SourceDescriptor)
    requires snap.Valid() && Replaced(snap, c, from, to) && g in FlowsOf(snap, to) && g.source in Products(c)
    ensures x in StructuralDescriptors(c)
    ensures NewFlowFromTaken(c, FlowsOf(snap, from), FlowsOf(snap, to), g)
  {
    hide ValidClassification, MessagesOf, AutomaticIds, Products, FlowsOf;
    ProductFromTaken(snap, c, g.source);
    var f := FlowBehind(snap, to, g);
    var m := SomeMember(snap.classified.flows[f].messages * to[g.source].messages);
    x :| x in StructuralDescriptors(c) && m in MessagesOf(snap, Automatic(x));
    assert Automatic(x) in ConsumedKeys(c);
    assert m in snap.classified.flows[f].messages * from[Automatic(x)].messages;
    FlowsAreIntersections(snap, from, f, Automatic(x));
    FlowsAreIntersections(snap, to, f, g.source);
    assert TakenFragment(c, FlowsOf(snap, from), FlowsOf(snap, to), g, x);
  }

  lemma FlowBehind(snap: Snapshot, table: SourceTable, g: FlowSelector) returns (f: FlowId)
    requires snap.Valid() && g in FlowsOf(snap, table)
    ensures f in snap.classified.flows && snap.classified.flows[f].descriptor == g.flow
    ensures g.source in table && snap.classified.flows[f].messages * table[g.source].messages != {}
  {
    hide ValidClassification;
    f :| f in snap.classified.flows && snap.classified.flows[f].messages * table[g.source].messages != {}
         && snap.classified.flows[f].descriptor == g.flow;
  }

  /** The flows an anchor falls back to first: those it observed, or those that share its anchor. */
  function NearFlows(anchor: Anchor, sel: FlowSelector, view: View): set<FlowSelector> {
    set g | g in view.flows
            && (view.flows[g].automatic in anchor.observedFlows
                || anchor.observed == Some(FlowKeyOf(g))
                || ShareFlowAnchor(sel.flow, g.flow))
  }

  /** A flow of a product is reached only where a flow of a taken source was reached before. */
  lemma FlowProductHit(c: Command, anchor: Anchor, sel: FlowSelector, from: View, to: View, g: FlowSelector)
    returns (h: FlowSelector)
    requires FlowsReplaced(c, from, to) && OwnObserved(anchor, OnFlow(sel))
    requires forall f <- from.flows :: ShareFlowAnchor(f.flow, f.flow)
    requires g in FlowHits(anchor, sel, to) && g in to.flows && g !in from.flows
    ensures h.source in ConsumedKeys(c) && h in FlowHits(anchor, sel, from)
  {
    hide ShareFlowAnchor, ShareSourceAnchor, Products, FlowFallbacks;
    var x :| x in StructuralDescriptors(c) && TakenFragment(c, from.flows, to.flows, g, x);
    h := FlowSelector(g.flow, Automatic(x));
    assert h.source in ConsumedKeys(c);
    if sel in from.flows {
      h := sel;
    } else if sel in to.flows {
      assert ShareFlowAnchor(h.flow, h.flow);
      ReachedNear(anchor, sel, from, h);
    } else if h in NearFlows(anchor, sel, from) {
      ReachedNear(anchor, sel, from, h);
    } else if NearFlows(anchor, sel, from) != {} {
      FarReached(c, anchor, sel, from, to, g, h);
      h := SomeMember(NearFlows(anchor, sel, from));
      ReachedNear(anchor, sel, from, h);
    } else {
      FarReached(c, anchor, sel, from, to, g, h);
    }
  }

  lemma ReachedNear(anchor: Anchor, sel: FlowSelector, view: View, h: FlowSelector)
    requires sel !in view.flows && h in view.flows
    requires h in NearFlows(anchor, sel, view) || ShareFlowAnchor(sel.flow, h.flow)
    ensures h in FlowHits(anchor, sel, view)
  {
    hide ShareFlowAnchor, ShareSourceAnchor;
    assert h in NearFlows(anchor, sel, view);
  }

  /** When the fragment before is not near, the new flow is reached only if nothing is near any more. */
  lemma FarReached(c: Command, anchor: Anchor, sel: FlowSelector, from: View, to: View, g: FlowSelector, h: FlowSelector)
    requires FlowsReplaced(c, from, to) && OwnObserved(anchor, OnFlow(sel)) && sel !in from.flows && sel !in to.flows
    requires g in FlowHits(anchor, sel, to) && g in to.flows && h in from.flows
    requires h.flow == g.flow && from.flows[h].automatic == to.flows[g].automatic && h !in NearFlows(anchor, sel, from)
    ensures NearFlows(anchor, sel, to) == {}
    ensures forall n <- NearFlows(anchor, sel, from) :: n.source in ConsumedKeys(c)
    ensures NearFlows(anchor, sel, from) == {} ==> h in FlowHits(anchor, sel, from)
  {
    hide ShareFlowAnchor, ShareSourceAnchor, Products, NewFlowFromTaken;
    assert g !in NearFlows(anchor, sel, to);
    assert forall n <- NearFlows(anchor, sel, from) :: n.source !in ConsumedKeys(c) ==> n in NearFlows(anchor, sel, to);
  }

  lemma FlowHitsStay(c: Command, anchor: Anchor, sel: FlowSelector, from: View, to: View)
    requires FlowsReplaced(c, from, to) && OwnObserved(anchor, OnFlow(sel))
    requires forall f <- from.flows :: ShareFlowAnchor(f.flow, f.flow)
    requires forall g <- FlowHits(anchor, sel, from) :: g.source !in ConsumedKeys(c)
    ensures FlowHits(anchor, sel, to) == FlowHits(anchor, sel, from)
  {
    hide ShareFlowAnchor, ShareSourceAnchor, Products, NewFlowFromTaken;
    forall g | g in FlowHits(anchor, sel, to) ensures g in from.flows {
      if g !in from.flows {
        var h := FlowProductHit(c, anchor, sel, from, to, g);
      }
    }
    if sel !in from.flows && sel !in to.flows {
      FallbacksStay(c, anchor, sel, from, to);
    }
  }

  lemma FallbacksStay(c: Command, anchor: Anchor, sel: FlowSelector, from: View, to: View)
    requires FlowsReplaced(c, from, to)
    requires forall g <- FlowFallbacks(anchor, sel, from) :: g.source !in ConsumedKeys(c)
    requires forall g <- FlowFallbacks(anchor, sel, to) :: g in from.flows
    ensures FlowFallbacks(anchor, sel, to) == FlowFallbacks(anchor, sel, from)
  {
    hide ShareFlowAnchor, ShareSourceAnchor, Products, NewFlowFromTaken;
    assert forall g <- NearFlows(anchor, sel, from) :: g.source !in ConsumedKeys(c) ==> g in NearFlows(anchor, sel, to);
    assert forall g <- NearFlows(anchor, sel, to) :: g in from.flows ==> g in NearFlows(anchor, sel, from);
  }

  /** The messages of a flow lie in its source. */
  lemma FlowWithinSource(snap: Snapshot, table: SourceTable, g: FlowSelector, m: MessageId)
    requires snap.Valid() && g in FlowsOf(snap, table) && m in FlowsOf(snap, table)[g].messages
    ensures g.source in table && m in table[g.source].messages
  {
    hide ValidClassification;
    FlowSourcesKnown(snap, table);
  }

  lemma FlowsShareThemselves(snap: Snapshot, table: SourceTable)
    requires snap.Valid()
    ensures forall g <- FlowsOf(snap, table) :: ShareFlowAnchor(g.flow, g.flow)
  {
    forall g | g in FlowsOf(snap, table) ensures ShareFlowAnchor(g.flow, g.flow) {
      var f :| f in snap.classified.flows && snap.classified.flows[f].descriptor == g.flow;
      assert Automatic(g.flow.source) in BaselineKeys(snap);
      SharesWithItself(snap, g.flow.source);
    }
  }

  lemma FlowBindingStays(snap: Snapshot, c: Command, anchor: Anchor, sel: FlowSelector, from: SourceTable, to: SourceTable)
    requires snap.Valid() && Replaced(snap, c, from, to) && OwnObserved(anchor, OnFlow(sel))
    requires Parted(snap, from) && SplitsRecords(snap, to) && Linked(ViewOf(snap, from)) && Linked(ViewOf(snap, to))
    ensures ResolveFlow(anchor, sel, ViewOf(snap, to)) == ResolveFlow(anchor, sel, ViewOf(snap, from))
       <==> ResolveFlow(anchor, sel, ViewOf(snap, from)).candidate.messages !! Taken(snap, c)
    ensures ResolveFlow(anchor, sel, ViewOf(snap, to)) != ResolveFlow(anchor, sel, ViewOf(snap, from)) ==>
      ResolveFlow(anchor, sel, ViewOf(snap, to)).candidate != ResolveFlow(anchor, sel, ViewOf(snap, from)).candidate
  {
    hide ValidClassification, Replaced, Products, FlowsOf, FlowHits, ResolveFlow, Taken, SplitsRecords, ShareFlowAnchor, SourceMap, FlowMap,
      ConsumedKeys, NewFlowFromTaken;
    var before, after := ViewOf(snap, from), ViewOf(snap, to);
    ViewFlowsReplaced(snap, c, from, to);
    FlowsShareThemselves(snap, from);
    FlowHitsMean(anchor, sel, before);
    FlowHitsMean(anchor, sel, after);
    var b := ResolveFlow(anchor, sel, before);
    if forall g <- FlowHits(anchor, sel, before) :: g.source !in ConsumedKeys(c) {
      FlowHitsStay(c, anchor, sel, before, after);
      SameFlowHits(anchor, sel, before, after);
      forall m | m in b.candidate.messages ensures m !in Taken(snap, c) {
        var g :| g in FlowHits(anchor, sel, before) && g in before.flows && m in before.flows[g].messages;
        FlowWithinSource(snap, from, g, m);
        TakenSources(snap, c, from, to, g.source, m);
      }
    } else {
      var g :| g in FlowHits(anchor, sel, before) && g.source in ConsumedKeys(c);
      FlowConfidenceConservative(snap, from, g);
      var m := SomeMember(before.flows[g].messages);
      FlowWithinSource(snap, from, g, m);
      TakenSources(snap, c, from, to, g.source, m);
      assert m in b.candidate.messages && FlowKeyOf(g) in b.candidate.effective;
    }
  }

  // -------------------------------------------- messages, senders and labels

  lemma PlacedIn(snap: Snapshot, table: SourceTable, m: MessageId)
    requires snap.Valid() && SplitsRecords(snap, table) && m in snap.records
    ensures var view := ViewOf(snap, table);
      && view.sources == table && view.flows == FlowsOf(snap, table)
      && m in view.toSource && m in view.toFlow
      && view.toSource[m] in table && m in table[view.toSource[m]].messages
      && view.toFlow[m] in view.flows
      && view.toFlow[m] == FlowSelector(snap.classified.flows[FlowIdOf(snap.classified, m)].descriptor, view.toSource[m])
  {
    hide ValidClassification, FlowsOf;
    PlacedTogether(snap, table, m);
  }

  /** A message is in the same source and the same flow of two views. */
  ghost predicate SamePlace(from: View, to: View, m: MessageId) {
    && m in from.toSource && m in from.toFlow && m in to.toSource && m in to.toFlow
    && to.toSource[m] == from.toSource[m] && to.toFlow[m] == from.toFlow[m]
    && from.toSource[m] in from.sources && to.toSource[m] in to.sources
    && to.sources[to.toSource[m]] == from.sources[from.toSource[m]]
    && from.toFlow[m] in from.flows && to.toFlow[m] in to.flows
    && to.flows[to.toFlow[m]] == from.flows[from.toFlow[m]]
  }

  /** A message stays where it was, unless its source was taken. */
  lemma PlaceStays(snap: Snapshot, c: Command, from: SourceTable, to: SourceTable, m: MessageId)
    requires snap.Valid() && Replaced(snap, c, from, to) && m in snap.records
    requires Parted(snap, from) && SplitsRecords(snap, to)
    ensures var before, after := ViewOf(snap, from), ViewOf(snap, to);
      && m in before.toSource && m in after.toSource
      && (m in Taken(snap, c) <==> before.toSource[m] in ConsumedKeys(c))
      && after.toSource[m] !in ConsumedKeys(c)
      && (m !in Taken(snap, c) ==> SamePlace(before, after, m))
  {
    hide ValidClassification, Products, FlowsOf, Taken, ConsumedKeys, MessageSource, ViewOf, SplitsRecords, MessagesOf, AutomaticIds;
    var before, after := ViewOf(snap, from), ViewOf(snap, to);
    PlacedIn(snap, from, m);
    PlacedIn(snap, to, m);
    TakenSources(snap, c, from, to, before.toSource[m], m);
    if after.toSource[m] in ConsumedKeys(c) { ConsumedAreAutomatic(c, after.toSource[m]); }
    if m !in Taken(snap, c) {
      SourceOfMessageUnique(snap, to, m, before.toSource[m], after.toSource[m]);
      FlowsOfSourceStay(snap, from, to, before.toFlow[m]);
    }
  }

  lemma SameCandidates(snap: Snapshot, ms: set<MessageId>, from: View, to: View)
    requires Linked(from) && Linked(to) && ms <= from.toSource.Keys && ms <= to.toSource.Keys
    requires forall m <- ms :: SamePlace(from, to, m)
    ensures MessagesCandidate(snap, ms, to) == MessagesCandidate(snap, ms, from)
  {
    hide Linked;
    SameStructure(ms, from, to);
    assert (set m | m in ms :: SourceKey(from.toSource[m])) == (set m | m in ms :: SourceKey(to.toSource[m]));
    assert (set m | m in ms :: FlowKeyOf(from.toFlow[m])) == (set m | m in ms :: FlowKeyOf(to.toFlow[m]));
  }

  lemma SameStructure(ms: set<MessageId>, from: View, to: View)
    requires Linked(from) && Linked(to) && ms <= from.toSource.Keys && ms <= to.toSource.Keys
    requires forall m <- ms :: SamePlace(from, to, m)
    ensures (set m, d | m in ms && d in from.sources[from.toSource[m]].structural :: d)
         == (set m, d | m in ms && d in to.sources[to.toSource[m]].structural :: d)
    ensures (set m, d | m in ms && d in from.flows[from.toFlow[m]].structural :: d)
         == (set m, d | m in ms && d in to.flows[to.toFlow[m]].structural :: d)
  {
    hide Linked;
  }

  lemma OtherCandidates(snap: Snapshot, ms: set<MessageId>, from: View, to: View, m: MessageId)
    requires Linked(from) && Linked(to) && ms <= from.toSource.Keys && ms <= to.toSource.Keys
    requires m in ms && forall n <- ms :: to.toSource[n] != from.toSource[m]
    ensures MessagesCandidate(snap, ms, to) != MessagesCandidate(snap, ms, from)
  {
    hide Linked;
    assert SourceKey(from.toSource[m]) in MessagesCandidate(snap, ms, from).effective;
    assert SourceKey(from.toSource[m]) !in MessagesCandidate(snap, ms, to).effective;
  }

  lemma DirectBindingStays(snap: Snapshot, c: Command, ms: set<MessageId>, from: SourceTable, to: SourceTable)
    requires snap.Valid() && Replaced(snap, c, from, to) && ms <= snap.records.Keys
    requires Parted(snap, from) && SplitsRecords(snap, to)
    requires Ready(snap, ViewOf(snap, from)) && Ready(snap, ViewOf(snap, to))
    ensures MessagesCandidate(snap, ms, ViewOf(snap, to)) == MessagesCandidate(snap, ms, ViewOf(snap, from))
       <==> ms !! Taken(snap, c)
  {
    hide ValidClassification, Replaced, ViewOf, Linked, Taken, SplitsRecords, ConsumedKeys, SamePlace, MessagesCandidate;
    var before, after := ViewOf(snap, from), ViewOf(snap, to);
    forall m | m in ms
      ensures m in Taken(snap, c) <==> before.toSource[m] in ConsumedKeys(c)
      ensures after.toSource[m] !in ConsumedKeys(c)
      ensures m !in Taken(snap, c) ==> SamePlace(before, after, m)
    {
      PlaceStays(snap, c, from, to, m);
    }
    if ms !! Taken(snap, c) {
      SameCandidates(snap, ms, before, after);
    } else {
      var m := SomeCommon(ms, Taken(snap, c));
      OtherCandidates(snap, ms, before, after, m);
    }
  }

  // --------------------------------------------------------- every target

  /** A raw binding stays as it was exactly when it reached none of the messages that are taken. */
  lemma TargetStays(snap: Snapshot, c: Command, anchor: Anchor, target: TargetSelector, from: SourceTable, to: SourceTable)
    requires snap.Valid() && c.Structural() && c.Valid() && Replaced(snap, c, from, to) && OwnObserved(anchor, target)
    requires Parted(snap, from) && SplitsRecords(snap, to)
    requires Ready(snap, ViewOf(snap, from)) && Ready(snap, ViewOf(snap, to))
    requires forall x <- StructuralDescriptors(c) :: ShareSourceAnchor(x, x)
    ensures var before, after := ResolveTarget(snap, anchor, target, ViewOf(snap, from)), ResolveTarget(snap, anchor, target, ViewOf(snap, to));
      && (after == before <==> before.candidate.messages !! Taken(snap, c))
      && (after != before ==> after.candidate != before.candidate)
      && before.status != Conflict
  {
    hide ValidClassification, Replaced, ResolveSource, ResolveFlow, Taken, SplitsRecords, ShareSourceAnchor, FlowsOf, SourceMap, FlowMap,
      FlowSelectorFor, DirectMessages, MessagesCandidate;
    match target
    case OnSource(k) =>
      SourceBindingStays(snap, c, anchor, k, from, to);
      SourceHitsMean(snap, anchor, k, from);
    case OnFlow(fs) =>
      FlowBindingStays(snap, c, anchor, fs, from, to);
      FlowHitsMean(anchor, fs, ViewOf(snap, from));
    case _ =>
      DirectWithin(snap, target);
      DirectBindingStays(snap, c, DirectMessages(snap, target), from, to);
      CandidateHolds(snap, DirectMessages(snap, target), ViewOf(snap, from));
  }

  lemma DirectWithin(snap: Snapshot, target: TargetSelector)
    requires snap.Valid()
    ensures DirectMessages(snap, target) <= snap.records.Keys
  {
    hide ValidClassification;
  }

  lemma CandidateHolds(snap: Snapshot, ms: set<MessageId>, view: View)
    requires Linked(view) && ms <= view.toSource.Keys
    ensures MessagesCandidate(snap, ms, view).messages == ms
  {
  }

  // ------------------------------------------- every decision in the view

  /** The binding of a correction or protection before conflicts are marked. */
  ghost function RawIn(snap: Snapshot, ps: Policies, e: DecisionId): Binding
    requires Accepted(snap, ps) && e in PlainIds(ps)
  {
    ViewIsReady(snap, ps);
    ResolveTarget(snap, ps[e].anchors[0], ps[e].command.Target(), ViewFor(snap, ps))
  }

  /** Another correction of its field reaches a message of it. */
  ghost predicate Contested(snap: Snapshot, ps: Policies, e: DecisionId)
    requires Accepted(snap, ps) && e in PlainIds(ps)
  {
    && CorrectionField(ps[e].command) != None
    && exists f <- PlainIds(ps) :: f != e && CorrectionField(ps[f].command) == CorrectionField(ps[e].command)
                                   && !(RawIn(snap, ps, e).candidate.messages !! RawIn(snap, ps, f).candidate.messages)
  }

  /** The binding of a correction or protection is its raw binding, marked when it is contested. */
  lemma PlainBindingIs(snap: Snapshot, ps: Policies, e: DecisionId)
    requires Accepted(snap, ps) && e in PlainIds(ps)
    ensures var raw := RawIn(snap, ps, e);
      BindingIn(snap, ps, e) == Some(if Contested(snap, ps, e) then raw.(status := Conflict) else raw)
  {
    hide ValidClassification, ValidPolicies, ResolveTarget, StructuralBindings, AllBindings, ViewFor, Linked;
    PlainBindingKeys(snap, ps);
    BindingKeys(snap, ps);
    var raw := RawPlain(snap, ps, ViewFor(snap, ps));
    forall f | f in PlainIds(ps) ensures f in raw && raw[f] == RawIn(snap, ps, f) {
      NewRaw(snap, ps, f, ViewFor(snap, ps));
    }
    assert Contested(snap, ps, e) <==> InCorrectionConflict(ps, raw, e);
  }

  lemma DescriptorsShareThemselves(snap: Snapshot, c: Command)
    requires snap.Valid() && ConsumedKeys(c) <= BaselineKeys(snap)
    ensures forall x <- StructuralDescriptors(c) :: ShareSourceAnchor(x, x)
  {
    hide ValidClassification, ShareSourceAnchor;
    forall x | x in StructuralDescriptors(c) ensures ShareSourceAnchor(x, x) {
      assert Automatic(x) in ConsumedKeys(c);
      SharesWithItself(snap, x);
    }
  }

  lemma ConsumedExist(snap: Snapshot, ps: Policies, d: DecisionId)
    requires Accepted(snap, ps) && d in StructuralIds(ps) && StatusOf(snap, ps, d) == Some(Exact)
    ensures ConsumedKeys(ps[d].command) <= BaselineKeys(snap) && ps[d].command.Valid()
  {
    hide ValidClassification, ValidPolicy, AllBindings, StructuralBindings, GroupsResolve, BaselineKeys;
    BindingKeys(snap, ps);
    SurvivorsApplicable(snap, ps);
    assert d in Applying(snap, ps);
  }

  lemma ViewIsParted(snap: Snapshot, ps: Policies)
    requires Accepted(snap, ps)
    ensures Parted(snap, EffectiveSources(snap, ps))
    ensures ViewFor(snap, ps) == ViewOf(snap, EffectiveSources(snap, ps)) && Ready(snap, ViewFor(snap, ps))
  {
    hide ValidClassification, ValidPolicies, EffectiveSources, SplitsRecords;
    SourcesSplit(snap, ps);
    ViewIsReady(snap, ps);
  }

  /** A correction or protection whose anchor observed its own target. */
  predicate ObservesItself(p: Policy)
    requires !p.command.Structural()
  {
    |p.anchors| == 1 && OwnObserved(p.anchors[0], p.command.Target())
  }

  /** Once an exact structural policy is added, a raw binding stays exactly when it reached no message that is taken. */
  lemma RawStays(snap: Snapshot, rs: Policies, qs: Policies, d: DecisionId, e: DecisionId)
    requires Accepted(snap, rs) && Accepted(snap, qs)
    requires d in qs && d !in rs && qs == rs[d := qs[d]] && qs[d].command.Structural()
    requires StatusOf(snap, qs, d) == Some(Exact)
    requires e in PlainIds(rs) && e in PlainIds(qs) && ObservesItself(rs[e])
    ensures RawIn(snap, qs, e) == RawIn(snap, rs, e) <==> RawIn(snap, rs, e).candidate.messages !! Taken(snap, qs[d].command)
    ensures RawIn(snap, qs, e) != RawIn(snap, rs, e) ==> RawIn(snap, qs, e).candidate != RawIn(snap, rs, e).candidate
    ensures RawIn(snap, rs, e).status != Conflict
  {
    hide ValidClassification, ValidPolicies, AllBindings, EffectiveSources, ResolveTarget, ViewFor, ViewOf, Ready, Replaced, Parted, SplitsRecords,
      ShareSourceAnchor, Taken, StatusOf, OwnObserved, ConsumedKeys, BaselineKeys;
    var c := qs[d].command;
    ConsumedExist(snap, qs, d);
    DescriptorsShareThemselves(snap, c);
    ViewReplaced(snap, rs, qs, d);
    ViewIsParted(snap, rs);
    ViewIsParted(snap, qs);
    PartedSplits(snap, EffectiveSources(snap, qs));
    TargetStays(snap, c, rs[e].anchors[0], rs[e].command.Target(), EffectiveSources(snap, rs), EffectiveSources(snap, qs));
  }

  lemma PartedSplits(snap: Snapshot, table: SourceTable)
    requires Parted(snap, table)
    ensures SplitsRecords(snap, table)
  {
  }

  /** A binding stays exactly when its raw binding stays and it is contested as it was; only corrections are contested. */
  lemma MarkedStays(snap: Snapshot, rs: Policies, qs: Policies, e: DecisionId)
    requires Accepted(snap, rs) && Accepted(snap, qs)
    requires e in PlainIds(rs) && e in PlainIds(qs) && rs[e] == qs[e]
    requires RawIn(snap, rs, e).status != Conflict
    requires RawIn(snap, qs, e) != RawIn(snap, rs, e) ==> RawIn(snap, qs, e).candidate != RawIn(snap, rs, e).candidate
    ensures BindingIn(snap, qs, e) == BindingIn(snap, rs, e) <==>
      RawIn(snap, qs, e) == RawIn(snap, rs, e) && (Contested(snap, qs, e) <==> Contested(snap, rs, e))
    ensures rs[e].command.ProtectTarget? ==> !Contested(snap, rs, e) && !Contested(snap, qs, e)
  {
    hide ValidClassification, ValidPolicies, RawIn, BindingIn;
    PlainBindingIs(snap, rs, e);
    PlainBindingIs(snap, qs, e);
  }

  /** What a structural decision leaves of the binding of a correction or protection. */
  ghost predicate StaysWhenFree(snap: Snapshot, rs: Policies, qs: Policies, c: Command, e: DecisionId)
    requires Accepted(snap, rs) && Accepted(snap, qs) && e in PlainIds(rs) && e in PlainIds(qs)
  {
    var free := RawIn(snap, rs, e).candidate.messages !! Taken(snap, c);
    && (RawIn(snap, qs, e) == RawIn(snap, rs, e) <==> free)
    && (rs[e].command.ProtectTarget? ==> (BindingIn(snap, qs, e) == BindingIn(snap, rs, e) <==> free))
    && (BindingIn(snap, qs, e) == BindingIn(snap, rs, e) <==> free && (Contested(snap, qs, e) <==> Contested(snap, rs, e)))
  }

  lemma RemainingAccepted(snap: Snapshot, ps: Policies, c: Command, supersedes: set<DecisionId>)
    requires Prepare(snap, ps, c, supersedes).Ok?
    ensures Accepted(snap, Remaining(ps, supersedes))
  {
    hide ValidClassification, ValidPolicies, AllBindings, Prepare, OccupiedBy, Decide, DecidedFor, Observe;
    var observed := PrepareUnfolds(snap, ps, c, supersedes);
  }

  lemma FreeStays(snap: Snapshot, rs: Policies, qs: Policies, d: DecisionId, e: DecisionId)
    requires Accepted(snap, rs) && Accepted(snap, qs)
    requires d in qs && d !in rs && qs == rs[d := qs[d]] && qs[d].command.Structural()
    requires StatusOf(snap, qs, d) == Some(Exact)
    requires e in PlainIds(rs) && e in PlainIds(qs) && ObservesItself(rs[e])
    ensures StaysWhenFree(snap, rs, qs, qs[d].command, e)
  {
    hide ValidClassification, ValidPolicies, RawIn, StatusOf, BindingIn, ObservesItself, Contested, Taken;
    RawStays(snap, rs, qs, d, e);
    MarkedStays(snap, rs, qs, e);
  }

  /**
   What an accepted merge or partition does to an active correction or
   protection that observed its own target. Its raw binding stays exactly when it
   reached none of the messages that are taken. A protection is bound as it was
   exactly then; a correction is bound as it was exactly when, besides, it is
   contested as it was.
   */
  lemma StructuralDisturbs(snap: Snapshot, ps: Policies, c: Command, supersedes: set<DecisionId>, d: DecisionId,
                           qs: Policies, e: DecisionId)
    requires Prepare(snap, ps, c, supersedes).Ok? && d !in ps && c.Structural()
    requires qs == Remaining(ps, supersedes)[d := Policy(c, Prepare(snap, ps, c, supersedes).value)]
    requires e in PlainIds(Remaining(ps, supersedes)) && ObservesItself(ps[e])
    ensures Accepted(snap, Remaining(ps, supersedes)) && Accepted(snap, qs) && e in PlainIds(qs)
    ensures StaysWhenFree(snap, Remaining(ps, supersedes), qs, c, e)
  {
    hide ValidClassification, ValidPolicies, Prepare, StatusOf, ObservesItself, StaysWhenFree;
    var rs := Remaining(ps, supersedes);
    RemainingAccepted(snap, ps, c, supersedes);
    PreparePredictsApply(snap, ps, c, supersedes, d, qs);
    FreeStays(snap, rs, qs, d, e);
  }

  /** Every prepared correction and protection observed its own target. */
  lemma PreparedObservesItself(snap: Snapshot, ps: Policies, c: Command, supersedes: set<DecisionId>)
    requires Prepare(snap, ps, c, supersedes).Ok? && !c.Structural()
    ensures ObservesItself(Policy(c, Prepare(snap, ps, c, supersedes).value))
  {
    hide ValidClassification, ValidPolicies, AllBindings, Prepare, OccupiedBy, Decide, DecidedFor;
    var observed := PrepareUnfolds(snap, ps, c, supersedes);
  }
}
