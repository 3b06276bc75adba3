/** Effective flows: the automatic flows cut along the effective sources. */
module EffectiveFlows {
  import opened Basics
  import opened MailModel
  import opened PolicyModel
  import opened StructuralPolicy
  import opened StructuralSafety

  datatype FlowState = FlowState(
    automatic: FlowId,
    messages: set<MessageId>,
    automaticName: string,
    effectiveName: string,
    automaticIntent: Intent,
    effectiveIntent: Intent,
    subscription: Subscription,
    automaticConfidence: Confidence,
    effectiveConfidence: Confidence,
    decisions: set<DecisionId>,
    structural: set<DecisionId>)

  type FlowTable = map<FlowSelector, FlowState>

  /** The sources of a table cover the records and never share one. */
  ghost predicate SplitsRecords(snap: Snapshot, table: SourceTable) {
    && (forall m <- snap.records :: exists k <- table :: m in table[k].messages)
    && (forall k, l :: k in table && l in table && k != l ==> table[k].messages !! table[l].messages)
    && (forall k <- table :: table[k].messages <= snap.records.Keys)
  }

  /** An automatic flow restricted to an effective source, keeping its conservative confidence. */
  function MakeFlow(snap: Snapshot, f: FlowId, st: SourceState): FlowState
    requires f in snap.classified.flows
  {
    var flow := snap.classified.flows[f];
    FlowState(f, flow.messages * st.messages, flow.name, flow.name, flow.intent, flow.intent,
              flow.subscription, flow.confidence, flow.confidence, st.decisions, st.structural)
  }

  function FlowKeys(snap: Snapshot, table: SourceTable): set<FlowSelector> {
    set k, f | k in table && f in snap.classified.flows && snap.classified.flows[f].messages * table[k].messages != {}
      :: FlowSelector(snap.classified.flows[f].descriptor, k)
  }

  /** The automatic flow with a descriptor; descriptors are unique. */
  function FlowWith(snap: Snapshot, fd: FlowDescriptor): (f: FlowId)
    requires snap.Valid()
    requires exists f <- snap.classified.flows :: snap.classified.flows[f].descriptor == fd
    ensures f in snap.classified.flows && snap.classified.flows[f].descriptor == fd
  {
    var f :| f in snap.classified.flows && snap.classified.flows[f].descriptor == fd;
    f
  }

  /** The effective flows of a table of sources. */
  function FlowsOf(snap: Snapshot, table: SourceTable): FlowTable
    requires snap.Valid()
  {
    map fs | fs in FlowKeys(snap, table) :: MakeFlow(snap, FlowWith(snap, fs.flow), table[fs.source])
  }

  /** The selectors of the effective source and flow a message ends in. */
  function MessageSource(table: SourceTable, m: MessageId): (k: SourceSelector)
    requires exists k <- table :: m in table[k].messages
    requires forall k, l :: k in table && l in table && m in table[k].messages && m in table[l].messages ==> k == l
    ensures k in table && m in table[k].messages
  {
    var k :| k in table && m in table[k].messages;
    k
  }

  function FlowSelectorFor(snap: Snapshot, table: SourceTable, m: MessageId): (fs: FlowSelector)
    requires snap.Valid() && m in snap.records
    requires exists k <- table :: m in table[k].messages
    requires forall k, l :: k in table && l in table && m in table[k].messages && m in table[l].messages ==> k == l
  {
    FlowSelector(snap.classified.flows[FlowIdOf(snap.classified, m)].descriptor, MessageSource(table, m))
  }

  /** The effective source of every message. */
  function SourceMap(snap: Snapshot, table: SourceTable): map<MessageId, SourceSelector>
    requires SplitsRecords(snap, table)
  {
    map m | m in snap.records :: MessageSource(table, m)
  }

  /** The effective flow of every message. */
  function FlowMap(snap: Snapshot, table: SourceTable): map<MessageId, FlowSelector>
    requires snap.Valid() && SplitsRecords(snap, table)
  {
    map m | m in snap.records :: FlowSelectorFor(snap, table, m)
  }

  /** A flow is in the result exactly when it is a non-empty intersection. */
  lemma FlowsAreIntersections(snap: Snapshot, table: SourceTable, f: FlowId, k: SourceSelector)
    requires snap.Valid() && f in snap.classified.flows && k in table
    ensures var fs := FlowSelector(snap.classified.flows[f].descriptor, k);
            var flows := FlowsOf(snap, table);
            && (fs in flows <==> snap.classified.flows[f].messages * table[k].messages != {})
            && (fs in flows ==> flows[fs].messages == snap.classified.flows[f].messages * table[k].messages
                                && flows[fs].automatic == f)
  {
    var fs := FlowSelector(snap.classified.flows[f].descriptor, k);
    if fs in FlowKeys(snap, table) {
      var g :| g in snap.classified.flows && snap.classified.flows[g].messages * table[k].messages != {}
               && FlowSelector(snap.classified.flows[g].descriptor, k) == fs;
      assert g == f;
      assert FlowWith(snap, fs.flow) == f;
    }
  }

  /** Every message is in exactly one effective flow, which lies inside its effective source. */
  lemma FlowsSplitMessages(snap: Snapshot, table: SourceTable, m: MessageId)
    requires snap.Valid() && SplitsRecords(snap, table) && m in snap.records
    ensures FlowSelectorFor(snap, table, m) in FlowsOf(snap, table)
    ensures m in FlowsOf(snap, table)[FlowSelectorFor(snap, table, m)].messages
    ensures forall fs :: fs in FlowsOf(snap, table) && m in FlowsOf(snap, table)[fs].messages
              ==> fs == FlowSelectorFor(snap, table, m)
  {
    var k := MessageSource(table, m);
    var f := FlowIdOf(snap.classified, m);
    assert m in snap.classified.flows[f].messages;
    assert m in snap.classified.flows[f].messages * table[k].messages;
    FlowsAreIntersections(snap, table, f, k);
    var flows := FlowsOf(snap, table);
    forall fs | fs in flows && m in flows[fs].messages ensures fs == FlowSelectorFor(snap, table, m) {
      assert m in table[fs.source].messages;
      assert fs.source == k;
      var g := FlowWith(snap, fs.flow);
      assert m in snap.classified.flows[g].messages;
    }
  }

  /** Cutting a flow never makes its confidence better than the flow's or than any member's. */
  lemma FlowConfidenceConservative(snap: Snapshot, table: SourceTable, fs: FlowSelector)
    requires snap.Valid() && fs in FlowsOf(snap, table)
    ensures var st := FlowsOf(snap, table)[fs];
            && st.messages != {}
            && st.effectiveConfidence == snap.classified.flows[st.automatic].confidence
            && forall m <- st.messages ::
                 m in snap.classified.messages
                 && snap.classified.messages[m].confidence.Rank() <= st.effectiveConfidence.Rank()
  {
    var g :| g in snap.classified.flows && snap.classified.flows[g].messages * table[fs.source].messages != {}
             && snap.classified.flows[g].descriptor == fs.flow;
    assert FlowWith(snap, fs.flow) == g;
  }

  // --------------------------------------------------- the rebuilding loop

  predicate Crosses(snap: Snapshot, f: FlowId, st: SourceState)
    requires f in snap.classified.flows
  {
    snap.classified.flows[f].messages * st.messages != {}
  }

  function FragmentSelector(snap: Snapshot, f: FlowId, k: SourceSelector): FlowSelector
    requires f in snap.classified.flows
  {
    FlowSelector(snap.classified.flows[f].descriptor, k)
  }

  /** The fragments of some automatic flows in one source. */
  function FragmentMap(snap: Snapshot, k: SourceSelector, st: SourceState, fs: set<FlowId>): FlowTable
    requires snap.Valid()
  {
    map x | x in (set f | f in fs && f in snap.classified.flows && Crosses(snap, f, st) :: FragmentSelector(snap, f, k))
      :: MakeFlow(snap, FlowWith(snap, x.flow), st)
  }

  /** Where the messages of some automatic flows go inside one source. */
  function PlaceMap(snap: Snapshot, k: SourceSelector, st: SourceState, fs: set<FlowId>): map<MessageId, FlowSelector>
    requires snap.Valid()
  {
    map m | m in st.messages && m in snap.records && FlowIdOf(snap.classified, m) in fs
      :: FragmentSelector(snap, FlowIdOf(snap.classified, m), k)
  }

  lemma FlowWithSelf(snap: Snapshot, f: FlowId)
    requires snap.Valid() && f in snap.classified.flows
    ensures FlowWith(snap, snap.classified.flows[f].descriptor) == f
  {
  }

  lemma MemberOfFlow(snap: Snapshot, f: FlowId)
    requires snap.Valid() && f in snap.classified.flows
    ensures forall m :: m in snap.classified.flows[f].messages <==> m in snap.records && FlowIdOf(snap.classified, m) == f
  {
  }

  lemma FragmentStep(snap: Snapshot, k: SourceSelector, st: SourceState, fs: set<FlowId>, f: FlowId)
    requires snap.Valid() && f in snap.classified.flows && f !in fs
    ensures FragmentMap(snap, k, st, fs + {f}) ==
      if Crosses(snap, f, st) then FragmentMap(snap, k, st, fs)[FragmentSelector(snap, f, k) := MakeFlow(snap, f, st)]
      else FragmentMap(snap, k, st, fs)
  {
    hide ValidClassification, Crosses, MakeFlow, FlowWith;
    FlowWithSelf(snap, f);
  }

  lemma PlaceWithin(snap: Snapshot, k: SourceSelector, st: SourceState, fs: set<FlowId>)
    requires snap.Valid()
    ensures PlaceMap(snap, k, st, fs).Keys <= st.messages
    ensures fs == {} ==> PlaceMap(snap, k, st, fs) == map[] && FragmentMap(snap, k, st, fs) == map[]
  {
    hide ValidClassification, Crosses, MakeFlow, FlowWith, FragmentSelector, FlowIdOf;
  }

  lemma PlaceStep(snap: Snapshot, k: SourceSelector, st: SourceState, fs: set<FlowId>, f: FlowId)
    requires snap.Valid() && f in snap.classified.flows && f !in fs
    ensures var members := snap.classified.flows[f].messages * st.messages;
      && PlaceMap(snap, k, st, fs + {f}) == PlaceMap(snap, k, st, fs) + (map m | m in members :: FragmentSelector(snap, f, k))
      && members !! PlaceMap(snap, k, st, fs).Keys
  {
    hide ValidClassification, FragmentSelector, FlowIdOf;
    MemberOfFlow(snap, f);
    var members := snap.classified.flows[f].messages * st.messages;
    var before, grown := PlaceMap(snap, k, st, fs), PlaceMap(snap, k, st, fs + {f});
    var joined := before + (map m | m in members :: FragmentSelector(snap, f, k));
    forall m ensures m in grown <==> m in joined {
    }
    forall m | m in grown ensures grown[m] == joined[m] {
      PlacedWhere(snap, k, st, fs, m);
      PlacedWhere(snap, k, st, fs + {f}, m);
    }
  }

  lemma PlacedWhere(snap: Snapshot, k: SourceSelector, st: SourceState, fs: set<FlowId>, m: MessageId)
    requires snap.Valid()
    ensures m in PlaceMap(snap, k, st, fs) <==> m in st.messages && m in snap.records && FlowIdOf(snap.classified, m) in fs
    ensures m in PlaceMap(snap, k, st, fs) ==>
      PlaceMap(snap, k, st, fs)[m] == FragmentSelector(snap, FlowIdOf(snap.classified, m), k)
  {
    hide ValidClassification, FragmentSelector, FlowIdOf;
  }

  /** Cuts every automatic flow along one effective source, refusing to place a message twice. */
  method CutSource(snap: Snapshot, k: SourceSelector, st: SourceState, flows: FlowTable,
                   toFlow: map<MessageId, FlowSelector>)
    returns (ok: bool, flows': FlowTable, toFlow': map<MessageId, FlowSelector>)
    requires snap.Valid()
    requires toFlow.Keys !! st.messages
    ensures ok
    ensures flows' == flows + FragmentMap(snap, k, st, snap.classified.flows.Keys)
    ensures toFlow' == toFlow + PlaceMap(snap, k, st, snap.classified.flows.Keys)
  {
    hide ValidClassification, FragmentMap, PlaceMap, FragmentSelector, MakeFlow;
    PlaceWithin(snap, k, st, {});
    flows', toFlow' := flows, toFlow;
    var todo := snap.classified.flows.Keys;
    var done: set<FlowId> := {};
    while todo != {}
      invariant done !! todo && done + todo == snap.classified.flows.Keys
      invariant flows' == flows + FragmentMap(snap, k, st, done)
      invariant toFlow' == toFlow + PlaceMap(snap, k, st, done)
    {
      var f :| f in todo;
      ghost var before := done;
      FragmentStep(snap, k, st, done, f);
      PlaceStep(snap, k, st, done, f);
      PlaceWithin(snap, k, st, done);
      todo, done := todo - {f}, done + {f};
      var members := snap.classified.flows[f].messages * st.messages;
      UpdateAfterUnion(flows, FragmentMap(snap, k, st, before), FragmentSelector(snap, f, k), MakeFlow(snap, f, st));
      UnionAssociative(toFlow, PlaceMap(snap, k, st, before), map m | m in members :: FragmentSelector(snap, f, k));
      if members != {} {
        var fs := FragmentSelector(snap, f, k);
        flows' := flows'[fs := MakeFlow(snap, f, st)];
        if !(members !! toFlow'.Keys) {
          var m := SomeCommon(members, toFlow'.Keys);
          assert false;
          return false, flows', toFlow';
        }
        toFlow' := toFlow' + map m | m in members :: fs;
      }
    }
    assert done == snap.classified.flows.Keys;
    return true, flows', toFlow';
  }

  /** The sources of a table already visited. */
  function Visited(sources: SourceTable, done: set<SourceSelector>): SourceTable {
    map k | k in sources && k in done :: sources[k]
  }

  lemma KeysGrow(snap: Snapshot, sources: SourceTable, done: set<SourceSelector>, k: SourceSelector, fs: FlowSelector)
    requires snap.Valid() && k in sources && k !in done
    ensures fs in FlowKeys(snap, Visited(sources, done + {k})) <==>
      fs in FlowKeys(snap, Visited(sources, done))
      || fs in FragmentMap(snap, k, sources[k], snap.classified.flows.Keys)
    ensures fs in FlowKeys(snap, Visited(sources, done)) ==> fs.source in done
    ensures fs in FragmentMap(snap, k, sources[k], snap.classified.flows.Keys) ==> fs.source == k
  {
    hide ValidClassification, MakeFlow, FlowWith;
    var after := Visited(sources, done + {k});
    if fs in FlowKeys(snap, after) {
      var f :| f in snap.classified.flows && snap.classified.flows[f].messages * after[fs.source].messages != {}
               && fs == FlowSelector(snap.classified.flows[f].descriptor, fs.source);
      if fs.source == k {
        assert Crosses(snap, f, sources[k]);
      } else {
        assert snap.classified.flows[f].messages * Visited(sources, done)[fs.source].messages != {};
      }
    }
    if fs in FragmentMap(snap, k, sources[k], snap.classified.flows.Keys) {
      var f :| f in snap.classified.flows && Crosses(snap, f, sources[k]) && fs == FragmentSelector(snap, f, k);
      assert snap.classified.flows[f].messages * after[k].messages != {};
    }
    if fs in FlowKeys(snap, Visited(sources, done)) {
      var f :| f in snap.classified.flows && snap.classified.flows[f].messages * Visited(sources, done)[fs.source].messages != {}
               && fs == FlowSelector(snap.classified.flows[f].descriptor, fs.source);
      assert snap.classified.flows[f].messages * after[fs.source].messages != {};
    }
  }

  lemma FlowsGrow(snap: Snapshot, sources: SourceTable, done: set<SourceSelector>, k: SourceSelector)
    requires snap.Valid() && k in sources && k !in done
    ensures FlowsOf(snap, Visited(sources, done + {k}))
         == FlowsOf(snap, Visited(sources, done)) + FragmentMap(snap, k, sources[k], snap.classified.flows.Keys)
  {
    hide ValidClassification, MakeFlow, FlowWith, FlowKeys;
    var grown := FlowsOf(snap, Visited(sources, done + {k}));
    var joined := FlowsOf(snap, Visited(sources, done)) + FragmentMap(snap, k, sources[k], snap.classified.flows.Keys);
    forall fs ensures fs in grown <==> fs in joined {
      KeysGrow(snap, sources, done, k, fs);
    }
    forall fs | fs in grown ensures grown[fs] == joined[fs] {
      KeysGrow(snap, sources, done, k, fs);
    }
  }

  lemma PlacesGrow(snap: Snapshot, sources: SourceTable, toSource: map<MessageId, SourceSelector>, k: SourceSelector)
    requires snap.Valid() && k in sources && sources[k].messages !! toSource.Keys
    ensures PlacesOf(snap, toSource).Keys !! sources[k].messages
    ensures PlacesOf(snap, toSource + map m | m in sources[k].messages :: k)
         == PlacesOf(snap, toSource) + PlaceMap(snap, k, sources[k], snap.classified.flows.Keys)
  {
    hide ValidClassification;
  }

  /** The flow of every placed message. */
  function PlacesOf(snap: Snapshot, toSource: map<MessageId, SourceSelector>): map<MessageId, FlowSelector>
    requires snap.Valid()
  {
    map m | m in toSource && m in snap.records :: FragmentSelector(snap, FlowIdOf(snap.classified, m), toSource[m])
  }

  /**
   Rebuilds the effective flows and the message-to-source and message-to-flow
   maps. It refuses exactly the tables that do not split the records.
   */
  method BuildFlows(snap: Snapshot, sources: SourceTable)
    returns (ok: bool, flows: FlowTable, toSource: map<MessageId, SourceSelector>, toFlow: map<MessageId, FlowSelector>)
    requires snap.Valid()
    ensures ok <==> SplitsRecords(snap, sources)
    ensures ok ==> flows == FlowsOf(snap, sources)
    ensures ok ==> toSource == SourceMap(snap, sources)
    ensures ok ==> toFlow == FlowMap(snap, sources)
  {
    hide ValidClassification, FlowsOf, PlacesOf, FragmentMap, PlaceMap;
    flows, toSource, toFlow := map[], map[], map[];
    var todo := sources.Keys;
    ghost var done: set<SourceSelector> := {};
    NothingVisited(snap, sources);
    while todo != {}
      invariant done !! todo && done + todo == sources.Keys
      invariant forall m <- toSource :: toSource[m] in done && m in sources[toSource[m]].messages
      invariant forall k, m :: k in done && m in sources[k].messages ==> m in toSource && toSource[m] == k
      invariant flows == FlowsOf(snap, Visited(sources, done))
      invariant toFlow == PlacesOf(snap, toSource)
    {
      var k :| k in todo;
      if !(sources[k].messages !! toSource.Keys) {
        SharedMessageNotSplit(snap, sources, toSource, k);
        return false, flows, toSource, toFlow;
      }
      FlowsGrow(snap, sources, done, k);
      PlacesGrow(snap, sources, toSource, k);
      todo, done := todo - {k}, done + {k};
      toSource := toSource + map m | m in sources[k].messages :: k;
      var fine;
      fine, flows, toFlow := CutSource(snap, k, sources[k], flows, toFlow);
    }
    assert Visited(sources, done) == sources;
    if toSource.Keys != snap.records.Keys || toFlow.Keys != snap.records.Keys {
      NotSplit(snap, sources, toSource);
      return false, flows, toSource, toFlow;
    }
    AllPlaced(snap, sources, toSource);
    return true, flows, toSource, toFlow;
  }

  lemma NothingVisited(snap: Snapshot, sources: SourceTable)
    requires snap.Valid()
    ensures FlowsOf(snap, Visited(sources, {})) == map[]
    ensures PlacesOf(snap, map[]) == map[]
  {
    hide ValidClassification;
  }

  lemma SharedMessageNotSplit(snap: Snapshot, sources: SourceTable, toSource: map<MessageId, SourceSelector>, k: SourceSelector)
    requires forall m <- toSource :: toSource[m] in sources && toSource[m] != k && m in sources[toSource[m]].messages
    requires k in sources && !(sources[k].messages !! toSource.Keys)
    ensures !SplitsRecords(snap, sources)
  {
    var m := SomeCommon(sources[k].messages, toSource.Keys);
    assert !(sources[k].messages !! sources[toSource[m]].messages);
  }

  lemma NotSplit(snap: Snapshot, sources: SourceTable, toSource: map<MessageId, SourceSelector>)
    requires snap.Valid()
    requires forall m <- toSource :: toSource[m] in sources && m in sources[toSource[m]].messages
    requires forall k, m :: k in sources && m in sources[k].messages ==> m in toSource
    requires toSource.Keys != snap.records.Keys || PlacesOf(snap, toSource).Keys != snap.records.Keys
    ensures !SplitsRecords(snap, sources)
  {
    hide ValidClassification, FragmentSelector;
    if !(toSource.Keys <= snap.records.Keys) {
      var m := SomeMissing(toSource.Keys, snap.records.Keys);
      assert !(sources[toSource[m]].messages <= snap.records.Keys);
    } else if !(snap.records.Keys <= toSource.Keys) {
      var m := SomeMissing(snap.records.Keys, toSource.Keys);
    }
  }

  lemma SameSource(sources: SourceTable, toSource: map<MessageId, SourceSelector>, k: SourceSelector, l: SourceSelector, m: MessageId)
    requires forall k, m :: k in sources && m in sources[k].messages ==> m in toSource && toSource[m] == k
    requires k in sources && l in sources && m in sources[k].messages && m in sources[l].messages
    ensures k == l
  {
    assert toSource[m] == k;
  }

  lemma AllPlaced(snap: Snapshot, sources: SourceTable, toSource: map<MessageId, SourceSelector>)
    requires snap.Valid() && toSource.Keys == snap.records.Keys
    requires forall m <- toSource :: toSource[m] in sources && m in sources[toSource[m]].messages
    requires forall k, m :: k in sources && m in sources[k].messages ==> m in toSource && toSource[m] == k
    ensures SplitsRecords(snap, sources)
    ensures toSource == SourceMap(snap, sources)
    ensures PlacesOf(snap, toSource) == FlowMap(snap, sources)
  {
    hide ValidClassification, SplitsRecords, PlacesOf, SourceMap, FlowMap;
    TableSplits(snap, sources, toSource);
    MapsAgree(snap, sources, toSource);
  }

  lemma MapsAgree(snap: Snapshot, sources: SourceTable, toSource: map<MessageId, SourceSelector>)
    requires snap.Valid() && SplitsRecords(snap, sources) && toSource.Keys == snap.records.Keys
    requires forall m <- snap.records :: toSource[m] in sources && m in sources[toSource[m]].messages
    ensures toSource == SourceMap(snap, sources)
    ensures PlacesOf(snap, toSource) == FlowMap(snap, sources)
  {
    hide ValidClassification, SplitsRecords, FlowIdOf, FragmentSelector, MessageSource, FlowSelectorFor;
    assert toSource.Keys == SourceMap(snap, sources).Keys;
    assert PlacesOf(snap, toSource).Keys == FlowMap(snap, sources).Keys;
    forall m | m in snap.records
      ensures toSource[m] == SourceMap(snap, sources)[m]
      ensures PlacesOf(snap, toSource)[m] == FlowMap(snap, sources)[m]
    {
      PlacedAt(snap, sources, m, toSource[m]);
    }
  }

  /** The source that holds a message is the one it is mapped to. */
  lemma PlacedAt(snap: Snapshot, sources: SourceTable, m: MessageId, k: SourceSelector)
    requires snap.Valid() && SplitsRecords(snap, sources) && m in snap.records && k in sources && m in sources[k].messages
    ensures SourceMap(snap, sources)[m] == k
    ensures FlowMap(snap, sources)[m] == FragmentSelector(snap, FlowIdOf(snap.classified, m), k)
  {
    hide ValidClassification;
  }

  lemma TableSplits(snap: Snapshot, sources: SourceTable, toSource: map<MessageId, SourceSelector>)
    requires toSource.Keys == snap.records.Keys
    requires forall m <- toSource :: toSource[m] in sources && m in sources[toSource[m]].messages
    requires forall k, m :: k in sources && m in sources[k].messages ==> m in toSource && toSource[m] == k
    ensures SplitsRecords(snap, sources)
  {
    forall k, l | k in sources && l in sources && k != l ensures sources[k].messages !! sources[l].messages {
      if !(sources[k].messages !! sources[l].messages) {
        var m := SomeCommon(sources[k].messages, sources[l].messages);
        SameSource(sources, toSource, k, l, m);
      }
    }
    forall m | m in snap.records ensures exists k <- sources :: m in sources[k].messages {
      assert m in toSource.Keys;
      assert m in sources[toSource[m]].messages;
    }
    forall k | k in sources ensures sources[k].messages <= snap.records.Keys {
      assert forall m <- sources[k].messages :: m in toSource.Keys;
    }
  }
}
