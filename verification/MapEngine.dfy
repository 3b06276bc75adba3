/** The loops that compose the map, against its specification. */
module MapEngine {
  import opened Basics
  import opened MailModel
  import opened PolicyModel
  import opened StructuralPolicy
  import opened EffectiveFlows
  import opened Protection
  import opened PolicyResult
  import opened CleanupScope
  import opened Sums
  import opened MapComposition

  datatype MapError = CompositionMismatch

  function Add(c: Composition, t: Totals, m: MessageId): Totals {
    Totals(t.messages + WeightOf(c, Messages, m), t.bytes + WeightOf(c, Bytes, m), t.shielded + WeightOf(c, Shielded, m),
           t.review + WeightOf(c, Review, m), t.hardExcluded + WeightOf(c, HardOnes, m))
  }

  lemma AddCounts(c: Composition, ms: set<MessageId>, t: Totals, m: MessageId)
    requires CountsMembers(c, ms, t) && m !in ms
    ensures CountsMembers(c, ms + {m}, Add(c, t, m))
  {
    hide SumOver, WeightOf;
    forall me: Measure ensures Add(c, t, m).Get(me) == SumOver(ms + {m}, Weight(c, me)) {
      SumStep(ms + {m}, Weight(c, me), m);
      assert ms + {m} - {m} == ms;
    }
  }

  /** Adds up the counters of some messages. */
  method Tally(c: Composition, ms: set<MessageId>) returns (t: Totals)
    ensures CountsMembers(c, ms, t)
  {
    hide WeightOf;
    t := Totals(0, 0, 0, 0, 0);
    var todo := ms;
    ghost var done: set<MessageId> := {};
    while todo != {}
      invariant todo !! done && todo + done == ms
      invariant CountsMembers(c, done, t)
    {
      ghost var some := SomeMember(todo);
      var m :| m in todo;
      AddCounts(c, done, t, m);
      todo, done := todo - {m}, done + {m};
      t := Add(c, t, m);
    }
    assert done == ms;
  }

  lemma MonthStep(c: Composition, month: Instant -> Month, ms: set<MessageId>, volume: map<Month, Volume>, m: MessageId)
    requires MonthlyOf(c, month, ms, volume) && m !in ms
    ensures var x := month(ReceivedAt(c, m));
      var before := if x in volume then volume[x] else Volume(0, 0);
      MonthlyOf(c, month, ms + {m},
                volume[x := Volume(before.messages + WeightOf(c, Messages, m), before.bytes + WeightOf(c, Bytes, m))])
  {
    hide WeightOf, SumOver;
    var x := month(ReceivedAt(c, m));
    forall y | y != x ensures InMonth(c, month, ms + {m})(y) == InMonth(c, month, ms)(y) {
    }
    assert InMonth(c, month, ms + {m})(x) == InMonth(c, month, ms)(x) + {m};
    SumStep(InMonth(c, month, ms + {m})(x), Weight(c, Messages), m);
    SumStep(InMonth(c, month, ms + {m})(x), Weight(c, Bytes), m);
    assert InMonth(c, month, ms + {m})(x) - {m} == InMonth(c, month, ms)(x);
    if x !in volume {
      assert InMonth(c, month, ms)(x) == {};
      SumEmpty(Weight(c, Messages));
      SumEmpty(Weight(c, Bytes));
    }
  }

  lemma SumEmpty(f: MessageId -> int)
    ensures SumOver({}, f) == 0
  {
  }

  /** The messages and bytes of each month, accumulated record by record. */
  method MonthlyVolume(c: Composition, month: Instant -> Month, ms: set<MessageId>) returns (volume: map<Month, Volume>)
    ensures MonthlyOf(c, month, ms, volume)
  {
    hide WeightOf, MonthlyOf;
    volume := map[];
    var todo := ms;
    ghost var done: set<MessageId> := {};
    NoMonths(c, month);
    while todo != {}
      invariant todo !! done && todo + done == ms
      invariant MonthlyOf(c, month, done, volume)
    {
      ghost var some := SomeMember(todo);
      var m :| m in todo;
      MonthStep(c, month, done, volume, m);
      todo, done := todo - {m}, done + {m};
      var x := month(ReceivedAt(c, m));
      var before := if x in volume then volume[x] else Volume(0, 0);
      volume := volume[x := Volume(before.messages + WeightOf(c, Messages, m), before.bytes + WeightOf(c, Bytes, m))];
    }
    assert done == ms;
  }

  lemma NoMonths(c: Composition, month: Instant -> Month)
    ensures MonthlyOf(c, month, {}, map[])
  {
  }

  /** The first and the last date of some messages. */
  method Span(c: Composition, ms: set<MessageId>) returns (first: Instant, last: Instant)
    requires ms != {}
    ensures first <= last && Spans(c, ms, first, last)
  {
    ghost var some := SomeMember(ms);
    var start :| start in ms;
    first, last := ReceivedAt(c, start), ReceivedAt(c, start);
    var todo := ms - {start};
    while todo != {}
      invariant todo <= ms && first <= last
      invariant forall m <- ms - todo :: first <= ReceivedAt(c, m) <= last
      invariant (exists m <- ms :: ReceivedAt(c, m) == first) && (exists m <- ms :: ReceivedAt(c, m) == last)
    {
      some := SomeMember(todo);
      var m :| m in todo;
      todo := todo - {m};
      if ReceivedAt(c, m) < first { first := ReceivedAt(c, m); }
      if ReceivedAt(c, m) > last { last := ReceivedAt(c, m); }
    }
  }

  /** The messages of each effective source and flow. */
  method GroupMembers(o: Outcome)
    returns (bySource: map<SourceSelector, set<MessageId>>, byFlow: map<FlowSelector, set<MessageId>>)
    requires ValidOutcome(o)
    ensures forall k <- o.sources :: k in bySource && bySource[k] == o.sources[k].messages
    ensures forall fs <- o.flows :: fs in byFlow && byFlow[fs] == o.flows[fs].messages
  {
    hide ValidOutcome;
    bySource, byFlow := map[], map[];
    var todo := o.messages.Keys;
    while todo != {}
      invariant todo <= o.messages.Keys
      invariant forall k, m :: k in bySource && m in bySource[k] <==> m in o.messages && m !in todo && o.messages[m].source == k
      invariant forall fs, m :: fs in byFlow && m in byFlow[fs] <==> m in o.messages && m !in todo && o.messages[m].flow == fs
    {
      ghost var some := SomeMember(todo);
      var m :| m in todo;
      todo := todo - {m};
      var k, fs := o.messages[m].source, o.messages[m].flow;
      bySource := bySource[k := (if k in bySource then bySource[k] else {}) + {m}];
      byFlow := byFlow[fs := (if fs in byFlow then byFlow[fs] else {}) + {m}];
    }
    forall k | k in o.sources ensures k in bySource && bySource[k] == o.sources[k].messages {
      SourceMembership(o, k);
      var m := SomeMember(o.sources[k].messages);
      assert k in bySource && m in bySource[k];
      forall x ensures x in bySource[k] <==> x in o.sources[k].messages {
        assert k in bySource && x in bySource[k] <==> x in o.messages && o.messages[x].source == k;
      }
    }
    forall fs | fs in o.flows ensures fs in byFlow && byFlow[fs] == o.flows[fs].messages {
      FlowMembership(o, fs);
      var m := SomeMember(o.flows[fs].messages);
      assert fs in byFlow && m in byFlow[fs];
      forall x ensures x in byFlow[fs] <==> x in o.flows[fs].messages {
        assert fs in byFlow && x in byFlow[fs] <==> x in o.messages && o.messages[x].flow == fs;
      }
    }
  }

  ghost predicate FlowsCounted(c: Composition, flows: map<FlowSelector, MapFlow>) {
    forall fs <- flows ::
      && fs in c.outcome.flows && flows[fs].source == c.outcome.flows[fs].source && flows[fs].firstSeen <= flows[fs].lastSeen
      && Spans(c, c.outcome.flows[fs].messages, flows[fs].firstSeen, flows[fs].lastSeen)
      && CountsMembers(c, c.outcome.flows[fs].messages, flows[fs].totals)
  }

  ghost predicate SourcesCounted(c: Composition, month: Instant -> Month, sources: map<SourceSelector, MapSource>) {
    forall k <- sources ::
      && k in c.outcome.sources && sources[k].flows == c.outcome.sources[k].flows && sources[k].firstSeen <= sources[k].lastSeen
      && Spans(c, c.outcome.sources[k].messages, sources[k].firstSeen, sources[k].lastSeen)
      && CountsMembers(c, c.outcome.sources[k].messages, sources[k].totals)
      && MonthlyOf(c, month, c.outcome.sources[k].messages, sources[k].monthly)
  }

  /** Projects every flow; a flow without members is an error that never occurs. */
  method ComposeFlows(c: Composition, byFlow: map<FlowSelector, set<MessageId>>)
    returns (ok: bool, flows: map<FlowSelector, MapFlow>)
    requires ValidOutcome(c.outcome)
    requires forall fs <- c.outcome.flows :: fs in byFlow && byFlow[fs] == c.outcome.flows[fs].messages
    ensures ok && flows.Keys == c.outcome.flows.Keys && FlowsCounted(c, flows)
  {
    hide ValidOutcome, CountsMembers, Spans;
    flows := map[];
    var todo := c.outcome.flows.Keys;
    while todo != {}
      invariant todo <= c.outcome.flows.Keys && flows.Keys == c.outcome.flows.Keys - todo
      invariant FlowsCounted(c, flows)
    {
      ghost var some := SomeMember(todo);
      var fs :| fs in todo;
      todo := todo - {fs};
      FlowMembership(c.outcome, fs);
      if fs !in byFlow || byFlow[fs] == {} {
        assert false;
        return false, flows;
      }
      var totals := Tally(c, byFlow[fs]);
      var first, last := Span(c, byFlow[fs]);
      flows := flows[fs := MapFlow(c.outcome.flows[fs].source, totals, first, last)];
    }
    ok := true;
  }

  /** Projects every source with its flows and its months; a source without members is an error that never occurs. */
  method ComposeSources(c: Composition, month: Instant -> Month, bySource: map<SourceSelector, set<MessageId>>,
                        flows: map<FlowSelector, MapFlow>)
    returns (ok: bool, sources: map<SourceSelector, MapSource>)
    requires ValidOutcome(c.outcome)
    requires forall k <- c.outcome.sources :: k in bySource && bySource[k] == c.outcome.sources[k].messages
    requires flows.Keys == c.outcome.flows.Keys && forall fs <- flows :: flows[fs].source == c.outcome.flows[fs].source
    ensures ok && sources.Keys == c.outcome.sources.Keys && SourcesCounted(c, month, sources)
  {
    hide ValidOutcome, CountsMembers, MonthlyOf, Spans;
    sources := map[];
    var todo := c.outcome.sources.Keys;
    while todo != {}
      invariant todo <= c.outcome.sources.Keys && sources.Keys == c.outcome.sources.Keys - todo
      invariant SourcesCounted(c, month, sources)
    {
      ghost var some := SomeMember(todo);
      var k :| k in todo;
      todo := todo - {k};
      SourceMembership(c.outcome, k);
      if k !in bySource || bySource[k] == {} {
        assert false;
        return false, sources;
      }
      var totals := Tally(c, bySource[k]);
      var first, last := Span(c, bySource[k]);
      var monthly := MonthlyVolume(c, month, bySource[k]);
      var members := set fs | fs in flows && flows[fs].source == k;
      assert members == c.outcome.sources[k].flows;
      sources := sources[k := MapSource(totals, members, first, last, monthly)];
    }
    ok := true;
  }

  /** Composes the map. It never fails on a coherent composition, and all its counters agree. */
  method Compose(c: Composition, month: Instant -> Month) returns (r: Result<Projection, MapError>)
    requires c.Coherent()
    ensures r.Ok? && Counts(c, month, r.value) && Conserves(r.value)
    ensures forall fs <- r.value.flows :: fs in c.outcome.flows && Tells(c, c.outcome.flows[fs].messages, r.value.flows[fs].totals)
    ensures forall k <- r.value.sources :: k in c.outcome.sources && Tells(c, c.outcome.sources[k].messages, r.value.sources[k].totals)
    ensures Tells(c, c.outcome.messages.Keys, r.value.summary)
  {
    hide ValidClassification, ValidOutcome, Consistent, MonthlyOf, CountsMembers, Conserves, Spans, Tells;
    var bySource, byFlow := GroupMembers(c.outcome);
    var ok, flows := ComposeFlows(c, byFlow);
    if !ok {
      return Err(CompositionMismatch);
    }
    var sources;
    ok, sources := ComposeSources(c, month, bySource, flows);
    if !ok {
      return Err(CompositionMismatch);
    }
    var summary := Tally(c, c.outcome.messages.Keys);
    var p := Projection(flows, sources, summary, |c.outcome.sources|, |c.outcome.flows|);
    ProjectionConserves(c, month, p);
    ProjectionTells(c, month, p);
    return Ok(p);
  }
}
