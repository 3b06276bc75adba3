/**
 The policy engine as the program runs it: one mutable view whose tables of
 sources, bindings, flows and protections are rewritten policy by policy.
 Every method is proved against the order-free specification.
 */
module PolicyEngine {
  import opened Basics
  import opened MailModel
  import opened PolicyModel
  import opened StructuralPolicy
  import opened StructuralSafety
  import opened StructuralFold
  import opened EffectiveFlows
  import opened PolicyBindings
  import opened Corrections
  import opened Protection
  import opened PolicyApplication
  import opened ProtectionTheorems
  import opened CorrectionSteps
  import opened BindingReach

  /** The order in which some decisions are visited: each exactly once. */
  ghost predicate Visits(order: seq<DecisionId>, ids: set<DecisionId>) {
    Distinct(order) && Elements(order) == ids
  }

  class EffectiveView {
    const snap: Snapshot
    const policies: Policies
    var sources: SourceTable
    var bindings: map<DecisionId, Binding>
    var flows: FlowTable
    var toSource: map<MessageId, SourceSelector>
    var toFlow: map<MessageId, FlowSelector>
    /** The decisions to show on each message. */
    var marks: map<MessageId, set<DecisionId>>

    ghost predicate Valid() {
      Accepted(snap, policies)
    }

    /** Starts from one effective source for each automatic source. */
    constructor (snap: Snapshot, policies: Policies)
      requires Accepted(snap, policies)
      ensures Valid() && this.snap == snap && this.policies == policies
      ensures sources == Baseline(snap) && bindings == map[]
    {
      this.snap, this.policies := snap, policies;
      flows, toSource, toFlow, bindings, marks := map[], map[], map[], map[], map[];
      sources := map[];
      new;
      hide ValidClassification, StateOf;
      var todo := snap.classified.sources.Keys;
      while todo != {}
        invariant todo <= snap.classified.sources.Keys
        invariant bindings == map[]
        invariant forall k :: k in sources <==>
          exists s <- snap.classified.sources :: s !in todo && k == Automatic(snap.classified.sources[s].descriptor)
        invariant forall k <- sources :: sources[k] == StateOf(snap, k, {})
      {
        var s :| s in todo;
        todo := todo - {s};
        var k := Automatic(snap.classified.sources[s].descriptor);
        BaselineState(snap, s);
        sources := sources[k := MakeState(snap, k, snap.classified.sources[s].messages, {s}, {})];
      }
      assert sources.Keys == BaselineKeys(snap);
    }

    /** Binds every structural policy against the automatic sources. */
    method BindStructural(order: seq<DecisionId>)
      requires Valid() && Visits(order, StructuralIds(policies)) && sources == Baseline(snap)
      modifies this`bindings
      ensures bindings == RawStructural(snap, policies)
    {
      hide ValidClassification, StructuralBinding, Baseline, ValidPolicy;
      bindings := map[];
      for i := 0 to |order|
        invariant forall d :: d in bindings <==> d in order[..i]
        invariant forall d <- bindings ::
          d in StructuralIds(policies) && bindings[d] == StructuralBinding(snap, policies[d], Baseline(snap))
      {
        var d := order[i];
        assert d in Elements(order);
        assert d in StructuralIds(policies) && ValidPolicy(policies[d]);
        bindings := bindings[d := StructuralBinding(snap, policies[d], sources)];
      }
      assert order[..|order|] == order;
      assert forall d :: d in bindings <==> d in Elements(order);
      ghost var raw := RawStructural(snap, policies);
      assert raw.Keys == StructuralIds(policies) && bindings.Keys == StructuralIds(policies);
      forall d | d in raw ensures raw[d] == bindings[d] {
      }
    }

    /** Marks every pair of overlapping structural policies. */
    method MarkStructuralConflicts(order: seq<DecisionId>)
      requires Valid() && Visits(order, StructuralIds(policies)) && bindings.Keys == StructuralIds(policies)
      modifies this`bindings
      ensures bindings == MarkStructural(policies, old(bindings))
    {
      hide ValidClassification, ValidPolicies, KnownOverlap, MarkStructural;
      var raw, ps := bindings, policies;
      KnownOverlapSymmetric(ps, raw);
      var conflicting := CollectOverlaps(order, (d, e) => KnownOverlap(ps, raw, d, e));
      ConflictsCollected(ps, raw, order, conflicting);
      bindings := map d | d in bindings :: if d in conflicting then bindings[d].(status := Conflict) else bindings[d];
    }

    /** Replaces the participants of a merge by their union. It fails exactly when one is missing. */
    method ApplyMerge(d: DecisionId) returns (ok: bool)
      requires Valid() && d in policies && policies[d].command.MergeSources?
      modifies this`sources
      ensures ok <==> forall x <- policies[d].command.participants :: Automatic(x) in old(sources)
      ensures !ok ==> sources == old(sources)
      ensures ok ==> forall k :: k in sources <==>
        (k in old(sources) && k !in ConsumedKeys(policies[d].command)) || k in Products(policies[d].command)
      ensures ok ==> forall k <- sources :: k !in Products(policies[d].command) ==> sources[k] == old(sources)[k]
      ensures ok ==> var k := Merged(Elements(policies[d].command.participants));
        k in sources && sources[k] == MergedState(snap, policies[d].command, old(sources), d)
    {
      hide ValidClassification, ValidPolicies, MakeState;
      var c := policies[d].command;
      var ds := c.participants;
      var ms: set<MessageId>, ids: set<SourceId> := {}, {};
      for i := 0 to |ds|
        invariant sources == old(sources)
        invariant forall x <- ds[..i] :: Automatic(x) in sources
        invariant ms == JoinedMessages(ds[..i], sources) && ids == JoinedIds(ds[..i], sources)
      {
        var participant := Automatic(ds[i]);
        if participant !in sources {
          assert ds[i] in ds;
          return false;
        }
        JoinedStep(ds, sources, i);
        ms := ms + sources[participant].messages;
        ids := ids + sources[participant].automatic;
      }
      assert ds[..|ds|] == ds;
      var merged := MakeState(snap, Merged(Elements(ds)), ms, ids, {d});
      sources := (map k | k in sources && k !in ConsumedKeys(c) :: sources[k])[Merged(Elements(ds)) := merged];
      return true;
    }

    /** Replaces a source by its groups. It fails exactly when the source is missing or its groups do not resolve. */
    method ApplyPartition(d: DecisionId) returns (ok: bool)
      requires Valid() && d in policies && policies[d].command.PartitionSource?
      modifies this`sources
      ensures ok <==>
        && Automatic(policies[d].command.target) in old(sources)
        && GroupsResolve(snap, policies[d].command.groups, old(sources)[Automatic(policies[d].command.target)].messages)
      ensures !ok ==> sources == old(sources)
      ensures ok ==> forall k :: k in sources <==>
        (k in old(sources) && k !in ConsumedKeys(policies[d].command)) || k in Products(policies[d].command)
      ensures ok ==> forall k <- sources :: k !in Products(policies[d].command) ==> sources[k] == old(sources)[k]
      ensures ok ==> forall i :: 0 <= i < |policies[d].command.groups| ==>
        var c := policies[d].command;
        && GroupKey(c, i) in sources
        && sources[GroupKey(c, i)] == GroupState(snap, c, i, old(sources)[Automatic(c.target)], d)
    {
      hide ValidClassification, MakeState, GroupsResolve, GroupMessages;
      var c := policies[d].command;
      var target := Automatic(c.target);
      if target !in sources {
        return false;
      }
      var st := sources[target];
      var resolved := PartitionGroups(snap, c.groups, st.messages);
      if resolved == None {
        return false;
      }
      assert ValidPolicy(policies[d]);
      forall i, j | 0 <= i < |c.groups| && 0 <= j < |c.groups| && GroupKey(c, i) == GroupKey(c, j) ensures i == j {
        GroupKeysDistinct(c, i, j);
      }
      forall k ensures k in Products(c) <==> exists i :: 0 <= i < |c.groups| && k == GroupKey(c, i) {
        ProductsAreGroups(c, k);
      }
      var rest := map k | k in sources && k != target :: sources[k];
      sources := rest;
      for i := 0 to |c.groups|
        invariant forall k :: k in sources <==> k in rest || exists j :: 0 <= j < i && k == GroupKey(c, j)
        invariant forall k <- rest :: (forall j :: 0 <= j < i ==> k != GroupKey(c, j)) ==> sources[k] == rest[k]
        invariant forall j :: 0 <= j < i ==> sources[GroupKey(c, j)] == GroupState(snap, c, j, st, d)
      {
        var k := GroupKey(c, i);
        sources := sources[k := MakeState(snap, k, resolved.value[i], st.automatic, {d})];
      }
      return true;
    }

    /** One more surviving policy: its targets are still there, whatever came before. */
    method ApplyOne(d: DecisionId, ghost done: set<DecisionId>) returns (ok: bool)
      requires Valid() && d in policies && d !in done && Applicable(snap, policies, done + {d})
      requires sources == TableOf(snap, policies, done)
      modifies this`sources
      ensures ok && sources == TableOf(snap, policies, done + {d})
    {
      hide ValidClassification, ValidPolicies, Applicable, TableOf, StateOf, MergedState, GroupState, GroupsResolve;
      ghost var before := sources;
      var c := policies[d].command;
      NextTargets(snap, policies, done, d);
      if c.MergeSources? {
        ok := ApplyMerge(d);
        MergedStateIsProduct(snap, c, before, d);
      } else {
        ok := ApplyPartition(d);
        GroupsAreProducts(snap, c, before, sources, d);
      }
      TableStep(snap, policies, done, d, sources);
    }

    /**
     Applies the surviving structural policies in any order. No target is ever
     missing, the sources split the records after every step (`steps` are the
     tables in between), and the table reached does not depend on the order.
     */
    method ApplyStructural(order: seq<DecisionId>) returns (ok: bool, ghost steps: seq<SourceTable>)
      requires Valid() && Visits(order, StructuralIds(policies))
      requires sources == Baseline(snap) && bindings == StructuralBindings(snap, policies)
      modifies this`sources
      ensures ok && sources == EffectiveSources(snap, policies)
      ensures |steps| == |order| + 1 && steps[0] == old(sources) && steps[|order|] == sources
      ensures forall i :: 0 <= i <= |order| ==>
        SplitsRecords(snap, steps[i]) && steps[i] == TableOf(snap, policies, Survivors(snap, policies, order[..i]))
    {
      hide ValidClassification, ValidPolicies, StructuralBindings, TableOf, Applicable, SplitsRecords;
      ghost var done: set<DecisionId> := {};
      NothingApplied(snap, policies);
      ApplyingIsFiltered(snap, policies);
      steps := [sources];
      for i := 0 to |order|
        invariant done == Survivors(snap, policies, order[..i])
        invariant sources == TableOf(snap, policies, done)
        invariant SplitsRecords(snap, sources)
        invariant |steps| == i + 1 && steps[0] == old(sources) && steps[i] == sources
        invariant forall j :: 0 <= j <= i ==>
          SplitsRecords(snap, steps[j]) && steps[j] == TableOf(snap, policies, Survivors(snap, policies, order[..j]))
      {
        var d := order[i];
        assert d in Elements(order);
        assert forall x :: x in order[..i + 1] <==> x in order[..i] || x == d;
        if bindings[d].status.Applies() {
          assert d in Applying(snap, policies);
          forall x | x in done + {d} ensures x in Applying(snap, policies) {
          }
          SomeSurvivors(snap, policies, done + {d});
          ok := ApplyOne(d, done);
          if !ok {
            return false, steps;
          }
          done := done + {d};
        }
        steps := steps + [sources];
      }
      assert order[..|order|] == order;
      AllApplied(snap, policies, order, done);
      ok := true;
    }

    ghost function Current(): View
      reads this
    {
      View(sources, flows, toSource, toFlow)
    }

    /** Rebuilds the flows; the coverage and duplicate checks cannot fail here. */
    method Rebuild() returns (ok: bool)
      requires Valid() && sources == EffectiveSources(snap, policies)
      modifies this`flows, this`toSource, this`toFlow
      ensures ok && Current() == ViewFor(snap, policies)
    {
      hide ValidClassification, ValidPolicies, EffectiveSources, SplitsRecords, FlowsOf, MessageSource, FlowSelectorFor;
      SourcesSplit(snap, policies);
      ok, flows, toSource, toFlow := EffectiveFlows.BuildFlows(snap, sources);
    }

    /** Binds every other policy against the effective view. */
    method BindPlain(order: seq<DecisionId>)
      requires Valid() && Visits(order, PlainIds(policies))
      requires Current() == ViewFor(snap, policies) && Ready(snap, Current())
      requires bindings.Keys !! PlainIds(policies)
      modifies this`bindings
      ensures bindings == old(bindings) + RawPlain(snap, policies, Current())
    {
      hide ValidClassification, ResolveTarget, ViewFor;
      ghost var before, view := bindings, Current();
      for i := 0 to |order|
        invariant forall d :: d in bindings <==> d in before || d in order[..i]
        invariant forall d <- bindings :: d !in PlainIds(policies) ==> d in before && bindings[d] == before[d]
        invariant forall d <- bindings :: d in PlainIds(policies) ==>
          bindings[d] == ResolveTarget(snap, policies[d].anchors[0], policies[d].command.Target(), view)
      {
        var d := order[i];
        assert d in Elements(order);
        assert ValidPolicy(policies[d]);
        bindings := bindings[d := ResolveTarget(snap, policies[d].anchors[0], policies[d].command.Target(),
                                                View(sources, flows, toSource, toFlow))];
      }
      assert order[..|order|] == order;
      assert forall d :: d in order <==> d in Elements(order);
      ghost var raw := RawPlain(snap, policies, view);
      assert raw.Keys == PlainIds(policies);
      forall d ensures d in bindings <==> d in before + raw {
      }
      forall d | d in bindings ensures bindings[d] == (before + raw)[d] {
      }
    }

    /** Marks every pair of corrections that compete for a field of a message. */
    method MarkCorrectionConflicts(order: seq<DecisionId>)
      requires Valid() && Visits(order, PlainIds(policies))
      requires Ready(snap, ViewFor(snap, policies))
      requires bindings == StructuralBindings(snap, policies) + RawPlain(snap, policies, ViewFor(snap, policies))
      modifies this`bindings
      ensures bindings == AllBindings(snap, policies)
    {
      hide ValidClassification, ValidPolicies, KnownCompetition, MarkCorrections, StructuralBindings, RawPlain, ViewFor, AllBindings;
      PlainKeys(snap, policies);
      var ps, current := policies, bindings;
      ghost var raw := RawPlain(snap, policies, ViewFor(snap, policies));
      KnownCompetitionSymmetric(ps, current);
      var conflicting := CollectOverlaps(order, (d, e) => KnownCompetition(ps, current, d, e));
      CompetitionRestricted(ps, current, raw);
      CompetitorsCollected(ps, raw, order, conflicting);
      bindings := map d | d in bindings :: if d in conflicting then bindings[d].(status := Conflict) else bindings[d];
      BindingsJoin(snap, policies);
      MarkedTogether(ps, StructuralBindings(snap, policies), raw, conflicting);
    }

    /** Writes one surviving policy into the view. A missing target is an error that never occurs. */
    method ApplyPlainPolicy(d: DecisionId) returns (ok: bool)
      requires Valid() && d in policies && !policies[d].command.Structural() && d in bindings && bindings[d].status.Applies()
      requires bindings[d].candidate.messages <= marks.Keys
      modifies this`sources, this`flows, this`marks
      ensures var t := policies[d].command.Target();
        ok <==> policies[d].command.ProtectTarget?
                || (t.OnSource? && t.source in old(sources)) || (t.OnFlow? && t.flow in old(flows))
      ensures ok ==> sources.Keys == old(sources).Keys && flows.Keys == old(flows).Keys && marks.Keys == old(marks).Keys
      ensures ok ==> forall k <- sources :: sources[k] == SourceWritten(policies, bindings, d, k, old(sources)[k])
      ensures ok ==> forall fs <- flows :: flows[fs] == FlowWritten(policies, bindings, d, fs, old(flows)[fs])
      ensures ok ==> forall m <- marks ::
        marks[m] == if d in ProtectedBy(policies, bindings, m) then old(marks)[m] + {d} else old(marks)[m]
    {
      hide ValidClassification, ValidPolicies;
      match policies[d].command {
        case SetSourceDisplayName(k, name) =>
          if k !in sources { return false; }
          sources := sources[k := sources[k].(effectiveName := name, decisions := sources[k].decisions + {d})];
        case SetSourceRubro(k, rubro) =>
          if k !in sources { return false; }
          sources := sources[k := sources[k].(effectiveRubro := rubro, decisions := sources[k].decisions + {d})];
        case SetFlowDisplayName(fs, name) =>
          if fs !in flows { return false; }
          flows := flows[fs := flows[fs].(effectiveName := name, decisions := flows[fs].decisions + {d})];
        case SetFlowIntention(fs, intention) =>
          if fs !in flows { return false; }
          flows := flows[fs := flows[fs].(effectiveIntent := intention, decisions := flows[fs].decisions + {d})];
        case ProtectTarget(_) =>
          Mark(bindings[d].candidate.messages, d);
      }
      return true;
    }

    /**
     Applies the surviving corrections and protections in any order: no target
     is missing, and what is written does not depend on the order.
     */
    method ApplyPlain(order: seq<DecisionId>) returns (ok: bool)
      requires Valid() && Visits(order, PlainIds(policies))
      requires Current() == ViewFor(snap, policies) && bindings == AllBindings(snap, policies)
      modifies this`sources, this`flows, this`marks
      ensures ok
      ensures sources == CorrectedSources(policies, bindings, PlainIds(policies), ViewFor(snap, policies).sources)
      ensures flows == CorrectedFlows(policies, bindings, PlainIds(policies), ViewFor(snap, policies).flows)
      ensures marks.Keys == snap.records.Keys && forall m <- marks :: marks[m] == ProtectedBy(policies, bindings, m)
    {
      hide ValidClassification, ValidPolicies, AllBindings, ViewFor, CorrectedSource, CorrectedFlow, SingleWriters,
        SourceWritten, FlowWritten, ProtectedBy;
      ghost var view := ViewFor(snap, policies);
      ghost var done: set<DecisionId> := {};
      marks := map m | m in snap.records :: {};
      NothingCorrected(policies, bindings, view.sources, view.flows);
      SurvivorsDoNotCompete(snap, policies);
      BindingKeys(snap, policies);
      for i := 0 to |order|
        invariant done <= Elements(order[..i])
        invariant forall d <- order[..i] :: d in bindings && (bindings[d].status.Applies() ==> d in done)
        invariant sources == CorrectedSources(policies, bindings, done, view.sources)
        invariant flows == CorrectedFlows(policies, bindings, done, view.flows)
        invariant marks.Keys == snap.records.Keys && forall m <- marks :: marks[m] == ProtectedBy(policies, bindings, m) * done
      {
        var d := order[i];
        assert d in Elements(order);
        NotBefore(order, i);
        assert forall x :: x in order[..i + 1] <==> x in order[..i] || x == d;
        if bindings[d].status.Applies() {
          TargetFound(snap, policies, d);
          BindingsReach(snap, policies, d);
          TargetKinds(policies[d].command);
          ok := ApplyPlainPolicy(d);
          if !ok {
            return false;
          }
          SourcesStep(policies, bindings, done, d, view.sources, sources);
          FlowsStep(policies, bindings, done, d, view.flows, flows);
          done := done + {d};
        }
      }
      assert order[..|order|] == order;
      CorrectionsComplete(snap, policies, done);
      forall m | m in marks ensures marks[m] == ProtectedBy(policies, bindings, m) {
        ProtectorsComplete(policies, bindings, done, m);
      }
      ok := true;
    }

    /** Shows the policies that wait for a review on the messages they reach. */
    method MarkUnsettled(order: seq<DecisionId>)
      requires Valid() && Visits(order, policies.Keys) && bindings == AllBindings(snap, policies)
      requires marks.Keys == snap.records.Keys
      modifies this`marks
      ensures marks.Keys == old(marks).Keys
      ensures forall m <- marks :: marks[m] == old(marks)[m] + UnsettledOn(bindings, m)
    {
      hide ValidClassification, ValidPolicies, AllBindings;
      BindingKeys(snap, policies);
      for i := 0 to |order|
        invariant marks.Keys == snap.records.Keys
        invariant forall m <- marks :: marks[m] == old(marks)[m] + UnsettledOn(bindings, m) * Elements(order[..i])
      {
        var d := order[i];
        assert d in Elements(order);
        assert Elements(order[..i + 1]) == Elements(order[..i]) + {d};
        forall m | m in marks
          ensures UnsettledOn(bindings, m) * Elements(order[..i + 1])
               == UnsettledOn(bindings, m) * Elements(order[..i]) + if d in UnsettledOn(bindings, m) then {d} else {}
        {
        }
        if !bindings[d].status.Applies() && bindings[d].status != Orphaned {
          BindingsReach(snap, policies, d);
          Mark(bindings[d].candidate.messages, d);
        }
      }
      assert order[..|order|] == order;
      forall m | m in marks ensures marks[m] == old(marks)[m] + UnsettledOn(bindings, m) {
        assert UnsettledOn(bindings, m) * Elements(order) == UnsettledOn(bindings, m);
      }
    }

    /** Shows a decision on some messages. */
    method Mark(messages: set<MessageId>, d: DecisionId)
      requires messages <= marks.Keys
      modifies this`marks
      ensures marks.Keys == old(marks).Keys
      ensures forall m <- marks :: marks[m] == if m in messages then old(marks)[m] + {d} else old(marks)[m]
    {
      var todo := messages;
      while todo != {}
        invariant todo <= messages && marks.Keys == old(marks).Keys
        invariant forall m <- marks :: marks[m] == if m in messages && m !in todo then old(marks)[m] + {d} else old(marks)[m]
      {
        ghost var some := SomeMember(todo);
        var m :| m in todo;
        todo := todo - {m};
        marks := marks[m := marks[m] + {d}];
      }
    }
  }

  lemma NotBefore(order: seq<DecisionId>, i: nat)
    requires Distinct(order) && i < |order|
    ensures order[i] !in order[..i]
  {
  }

  /** A command that is neither structural nor a protection targets a source or a flow. */
  lemma TargetKinds(c: Command)
    requires !c.Structural()
    ensures c.ProtectTarget? || c.Target().OnSource? || c.Target().OnFlow?
  {
  }

  /** Only applying decisions write, so applying those is applying all. */
  lemma CorrectionsComplete(snap: Snapshot, ps: Policies, done: set<DecisionId>)
    requires Accepted(snap, ps) && done <= PlainIds(ps)
    requires forall d <- PlainIds(ps) :: d in AllBindings(snap, ps) && (AllBindings(snap, ps)[d].status.Applies() ==> d in done)
    ensures var b, view := AllBindings(snap, ps), ViewFor(snap, ps);
      && CorrectedSources(ps, b, done, view.sources) == CorrectedSources(ps, b, PlainIds(ps), view.sources)
      && CorrectedFlows(ps, b, done, view.flows) == CorrectedFlows(ps, b, PlainIds(ps), view.flows)
  {
    hide ValidClassification, ValidPolicies, AllBindings, ViewFor;
    var b := AllBindings(snap, ps);
    forall field, target
      ensures WritersIn(ps, b, done, field, target) == WritersIn(ps, b, PlainIds(ps), field, target)
    {
      forall d | d in Writers(ps, b, field, target) ensures d in done && d in PlainIds(ps) {
        assert d in PlainIds(ps);
      }
    }
  }

  lemma ProtectorsComplete(ps: Policies, b: map<DecisionId, Binding>, done: set<DecisionId>, m: MessageId)
    requires b.Keys == ps.Keys && forall d <- PlainIds(ps) :: b[d].status.Applies() ==> d in done
    ensures ProtectedBy(ps, b, m) * done == ProtectedBy(ps, b, m)
  {
    forall d | d in ProtectedBy(ps, b, m) ensures d in done {
      assert d in PlainIds(ps);
    }
  }

  /** The overlap of two known decisions that are not structural. */
  predicate KnownCompetition(ps: Policies, raw: map<DecisionId, Binding>, d: DecisionId, e: DecisionId) {
    d in ps && e in ps && d in raw && e in raw && CorrectionOverlap(ps, raw, d, e)
  }

  lemma KnownCompetitionSymmetric(ps: Policies, raw: map<DecisionId, Binding>)
    ensures forall d, e :: KnownCompetition(ps, raw, d, e) == KnownCompetition(ps, raw, e, d)
  {
  }

  lemma PlainKeys(snap: Snapshot, ps: Policies)
    requires Accepted(snap, ps) && Ready(snap, ViewFor(snap, ps))
    ensures RawPlain(snap, ps, ViewFor(snap, ps)).Keys == PlainIds(ps)
    ensures StructuralBindings(snap, ps).Keys == StructuralIds(ps)
    ensures StructuralIds(ps) !! PlainIds(ps)
  {
    hide ValidClassification, ValidPolicies, StructuralBindings, ResolveTarget, ViewFor;
    BindingKeys(snap, ps);
    var raw := RawPlain(snap, ps, ViewFor(snap, ps));
    assert raw.Keys == PlainIds(ps);
  }

  lemma CompetitionRestricted(ps: Policies, all: map<DecisionId, Binding>, raw: map<DecisionId, Binding>)
    requires raw.Keys <= all.Keys && forall d <- raw :: all[d] == raw[d]
    ensures forall d, e :: d in raw && e in raw ==> KnownCompetition(ps, all, d, e) == KnownCompetition(ps, raw, d, e)
  {
  }

  lemma CompetitorsCollected(ps: Policies, raw: map<DecisionId, Binding>, order: seq<DecisionId>, marked: set<DecisionId>)
    requires raw.Keys <= ps.Keys && Elements(order) == raw.Keys
    requires forall d :: d in marked <==> d in order && exists e <- order :: e != d && KnownCompetition(ps, raw, d, e)
    ensures MarkCorrections(ps, raw) == map d | d in raw :: if d in marked then raw[d].(status := Conflict) else raw[d]
    ensures marked <= raw.Keys
  {
    hide CorrectionOverlap;
    forall d | d in raw ensures d in marked <==> InCorrectionConflict(ps, raw, d) {
      assert d in Elements(order);
      if InCorrectionConflict(ps, raw, d) {
        var e :| e in raw && e != d && CorrectionOverlap(ps, raw, d, e);
        assert e in Elements(order) && KnownCompetition(ps, raw, d, e);
      }
      if d in marked {
        var e :| e in order && e != d && KnownCompetition(ps, raw, d, e);
        assert CorrectionOverlap(ps, raw, d, e);
      }
    }
    forall d | d in marked ensures d in raw {
      assert d in Elements(order);
    }
  }

  /** Marking after joining the two kinds of bindings marks the plain ones alone. */
  lemma MarkedTogether(ps: Policies, structural: map<DecisionId, Binding>, raw: map<DecisionId, Binding>, marked: set<DecisionId>)
    requires structural.Keys !! raw.Keys && marked <= raw.Keys
    ensures (map d | d in structural + raw :: if d in marked then (structural + raw)[d].(status := Conflict) else (structural + raw)[d])
         == structural + (map d | d in raw :: if d in marked then raw[d].(status := Conflict) else raw[d])
  {
  }

  /** What the next policy finds: its targets, untouched, and groups that still resolve. */
  lemma NextTargets(snap: Snapshot, ps: Policies, done: set<DecisionId>, d: DecisionId)
    requires snap.Valid() && Applicable(snap, ps, done + {d}) && d !in done
    ensures d in ps && ps[d].command.Structural() && ps[d].command.Valid()
    ensures forall x <- StructuralDescriptors(ps[d].command) ::
      var table := TableOf(snap, ps, done);
      && Automatic(x) in table
      && table[Automatic(x)].messages == MessagesOf(snap, Automatic(x))
      && table[Automatic(x)].automatic == AutomaticIds(snap, Automatic(x))
    ensures ps[d].command.PartitionSource? ==>
      GroupsResolve(snap, ps[d].command.groups, MessagesOf(snap, Automatic(ps[d].command.target)))
  {
    hide ValidClassification, TableOf, MessagesOf, AutomaticIds, GroupsResolve;
    assert d in done + {d};
    forall x | x in StructuralDescriptors(ps[d].command)
      ensures var table := TableOf(snap, ps, done);
        && Automatic(x) in table
        && table[Automatic(x)].messages == MessagesOf(snap, Automatic(x))
        && table[Automatic(x)].automatic == AutomaticIds(snap, Automatic(x))
    {
      TargetsUntouched(snap, ps, done, d, x);
    }
  }

  lemma GroupsAreProducts(snap: Snapshot, c: Command, before: SourceTable, after: SourceTable, d: DecisionId)
    requires snap.Valid() && c.PartitionSource? && Automatic(c.target) in before
    requires before[Automatic(c.target)].messages == MessagesOf(snap, Automatic(c.target))
    requires before[Automatic(c.target)].automatic == AutomaticIds(snap, Automatic(c.target))
    requires forall i :: 0 <= i < |c.groups| ==>
      GroupKey(c, i) in after && after[GroupKey(c, i)] == GroupState(snap, c, i, before[Automatic(c.target)], d)
    ensures forall k <- after :: k in Products(c) ==> after[k] == StateOf(snap, k, {d})
  {
    hide ValidClassification, GroupState, StateOf, GroupKey, Products;
    forall k | k in after && k in Products(c) ensures after[k] == StateOf(snap, k, {d}) {
      ProductsAreGroups(c, k);
      var i :| 0 <= i < |c.groups| && k == GroupKey(c, i);
      GroupStateIsProduct(snap, c, i, before[Automatic(c.target)], d);
    }
  }

  lemma NothingApplied(snap: Snapshot, ps: Policies)
    requires Accepted(snap, ps)
    ensures Baseline(snap) == TableOf(snap, ps, {})
    ensures SplitsRecords(snap, Baseline(snap))
  {
    hide ValidClassification, ValidPolicies, StateOf;
    assert TableKeys(snap, ps, {}) == BaselineKeys(snap);
    assert forall k :: Deciders(ps, {}, k) == {};
    TableSplitsMessages(snap, ps, {});
  }

  lemma ApplyingIsFiltered(snap: Snapshot, ps: Policies)
    requires Accepted(snap, ps)
    ensures StructuralBindings(snap, ps).Keys == StructuralIds(ps)
    ensures forall d <- StructuralIds(ps) :: d in Applying(snap, ps) <==> StructuralBindings(snap, ps)[d].status.Applies()
  {
    hide ValidClassification, ValidPolicies, StructuralBindings;
    BindingKeys(snap, ps);
  }

  /** Any part of the surviving policies can be applied, and splits the records. */
  lemma SomeSurvivors(snap: Snapshot, ps: Policies, some: set<DecisionId>)
    requires Accepted(snap, ps) && some <= Applying(snap, ps)
    ensures Applicable(snap, ps, some)
    ensures SplitsRecords(snap, TableOf(snap, ps, some))
  {
    hide ValidClassification, ValidPolicies, Applying, TableOf, GroupsResolve;
    SurvivorsApplicable(snap, ps);
    TableSplitsMessages(snap, ps, some);
  }

  /** The surviving policies among some. */
  ghost function Survivors(snap: Snapshot, ps: Policies, some: seq<DecisionId>): set<DecisionId>
    requires Accepted(snap, ps)
  {
    set d | d in some && d in Applying(snap, ps)
  }

  lemma AllApplied(snap: Snapshot, ps: Policies, order: seq<DecisionId>, done: set<DecisionId>)
    requires Accepted(snap, ps) && Visits(order, StructuralIds(ps))
    requires forall d :: d in done <==> d in order && d in Applying(snap, ps)
    ensures done == Applying(snap, ps)
  {
    hide ValidClassification, ValidPolicies, StructuralBindings;
    BindingKeys(snap, ps);
    assert Applying(snap, ps) <= StructuralIds(ps);
    forall d | d in Applying(snap, ps) ensures d in done {
      assert d in Elements(order);
    }
    forall d | d in done ensures d in Applying(snap, ps) {
    }
  }

  /** Every marked decision overlaps another one. */
  ghost predicate MarksSound(order: seq<DecisionId>, overlap: (DecisionId, DecisionId) -> bool, marked: set<DecisionId>) {
    forall d <- marked :: d in order && exists e <- order :: e != d && overlap(d, e)
  }

  /** Both sides of every overlapping pair compared so far are marked. */
  ghost predicate MarkedUpTo(order: seq<DecisionId>, overlap: (DecisionId, DecisionId) -> bool, marked: set<DecisionId>, i: nat, j: nat) {
    forall a, b :: 0 <= a < b < |order| && (a < i || (a == i && b < j)) && overlap(order[a], order[b]) ==>
      order[a] in marked && order[b] in marked
  }

  /** Compares each decision with the later ones and collects both sides of every overlap. */
  method CollectOverlaps(order: seq<DecisionId>, overlap: (DecisionId, DecisionId) -> bool) returns (marked: set<DecisionId>)
    requires Distinct(order)
    requires forall d, e :: overlap(d, e) == overlap(e, d)
    ensures forall d :: d in marked <==> d in order && exists e <- order :: e != d && overlap(d, e)
  {
    hide MarksSound, MarkedUpTo;
    marked := {};
    NothingMarked(order, overlap);
    for i := 0 to |order|
      invariant MarksSound(order, overlap, marked) && MarkedUpTo(order, overlap, marked, i, i + 1)
    {
      for j := i + 1 to |order|
        invariant MarksSound(order, overlap, marked) && MarkedUpTo(order, overlap, marked, i, j)
      {
        var left, right := order[i], order[j];
        assert overlap(left, right) == overlap(right, left);
        ComparePair(order, overlap, marked, i, j);
        if overlap(left, right) {
          marked := marked + {left, right};
        }
      }
      NextRow(order, overlap, marked, i);
    }
    AllCompared(order, overlap, marked);
  }

  lemma NothingMarked(order: seq<DecisionId>, overlap: (DecisionId, DecisionId) -> bool)
    ensures MarksSound(order, overlap, {}) && MarkedUpTo(order, overlap, {}, 0, 1)
  {
  }

  lemma ComparePair(order: seq<DecisionId>, overlap: (DecisionId, DecisionId) -> bool, marked: set<DecisionId>, i: nat, j: nat)
    requires Distinct(order) && i < j < |order| && overlap(order[j], order[i]) == overlap(order[i], order[j])
    requires MarksSound(order, overlap, marked) && MarkedUpTo(order, overlap, marked, i, j)
    ensures var next := if overlap(order[i], order[j]) then marked + {order[i], order[j]} else marked;
      MarksSound(order, overlap, next) && MarkedUpTo(order, overlap, next, i, j + 1)
  {
  }

  lemma NextRow(order: seq<DecisionId>, overlap: (DecisionId, DecisionId) -> bool, marked: set<DecisionId>, i: nat)
    requires MarkedUpTo(order, overlap, marked, i, |order|)
    ensures MarkedUpTo(order, overlap, marked, i + 1, i + 2)
  {
  }

  lemma AllCompared(order: seq<DecisionId>, overlap: (DecisionId, DecisionId) -> bool, marked: set<DecisionId>)
    requires Distinct(order) && forall d, e :: overlap(d, e) == overlap(e, d)
    requires MarksSound(order, overlap, marked) && MarkedUpTo(order, overlap, marked, |order|, |order| + 1)
    ensures forall d :: d in marked <==> d in order && exists e <- order :: e != d && overlap(d, e)
  {
    forall d, e | d in order && e in order && e != d && overlap(d, e) ensures d in marked {
      var a :| 0 <= a < |order| && order[a] == d;
      var b :| 0 <= b < |order| && order[b] == e;
      assert overlap(e, d) == overlap(d, e);
      if a < b {
        assert overlap(order[a], order[b]);
      } else {
        assert overlap(order[b], order[a]);
      }
    }
  }

  lemma BaselineState(snap: Snapshot, s: SourceId)
    requires snap.Valid() && s in snap.classified.sources
    ensures var k := Automatic(snap.classified.sources[s].descriptor);
      MakeState(snap, k, snap.classified.sources[s].messages, {s}, {}) == StateOf(snap, k, {})
  {
    hide ValidClassification;
    AutomaticState(snap, s);
  }

  /** The overlap of two known decisions; the pairs are compared in one direction only. */
  predicate KnownOverlap(ps: Policies, raw: map<DecisionId, Binding>, d: DecisionId, e: DecisionId) {
    d in ps && e in ps && d in raw && e in raw && StructuralOverlap(ps, raw, d, e)
  }

  lemma KnownOverlapSymmetric(ps: Policies, raw: map<DecisionId, Binding>)
    ensures forall d, e :: KnownOverlap(ps, raw, d, e) == KnownOverlap(ps, raw, e, d)
  {
    forall d, e | d in ps && e in ps && d in raw && e in raw
      ensures StructuralOverlap(ps, raw, d, e) == StructuralOverlap(ps, raw, e, d)
    {
      OverlapSymmetric(ps, raw, d, e);
    }
  }

  /** Collecting the overlapping pairs finds exactly the decisions in conflict. */
  lemma ConflictsCollected(ps: Policies, raw: map<DecisionId, Binding>, order: seq<DecisionId>, marked: set<DecisionId>)
    requires raw.Keys <= ps.Keys && Elements(order) == raw.Keys
    requires forall d :: d in marked <==> d in order && exists e <- order :: e != d && KnownOverlap(ps, raw, d, e)
    ensures MarkStructural(ps, raw) == map d | d in raw :: if d in marked then raw[d].(status := Conflict) else raw[d]
  {
    hide StructuralOverlap;
    forall d | d in raw ensures d in marked <==> InStructuralConflict(ps, raw, d) {
      assert d in Elements(order);
      if InStructuralConflict(ps, raw, d) {
        var e :| e in raw && e != d && StructuralOverlap(ps, raw, d, e);
        assert e in Elements(order) && KnownOverlap(ps, raw, d, e);
      }
      if d in marked {
        var e :| e in order && e != d && KnownOverlap(ps, raw, d, e);
        assert StructuralOverlap(ps, raw, d, e);
      }
    }
  }
}
