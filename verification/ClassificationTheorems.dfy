/** The classifier's result satisfies every check of its constructor. */
module ClassificationTheorems {
  import opened Basics
  import opened MailModel
  import opened ClassificationModel

  // ----------------------------------------------------------------- groups

  lemma SameGroup(rs: Records, m: MessageId, n: MessageId)
    requires m in rs && n in GroupOf(rs, m)
    ensures n in rs && GroupOf(rs, n) == GroupOf(rs, m)
  {
    hide IdentityFor;
  }

  /** An address belongs to one group only. */
  lemma AddressGroup(rs: Records, m: MessageId, n: MessageId, a: Address)
    requires m in rs && n in rs && a in AddressesOf(rs, GroupOf(rs, m)) && a in AddressesOf(rs, GroupOf(rs, n))
    ensures GroupOf(rs, m) == GroupOf(rs, n)
  {
    hide IdentityFor;
    var x :| x in GroupOf(rs, m) && x in rs && rs[x].sender == Some(a);
    var y :| y in GroupOf(rs, n) && y in rs && rs[y].sender == Some(a);
    assert CandidateOf(rs, x) == CandidateOf(rs, y);
    SameGroup(rs, m, x);
    SameGroup(rs, n, y);
  }

  /** A message without a sender is a group of its own, and the only kind without addresses. */
  lemma SenderlessAlone(rs: Records, m: MessageId)
    requires m in rs
    ensures rs[m].sender == None ==> GroupOf(rs, m) == {m}
    ensures AddressesOf(rs, GroupOf(rs, m)) == {} <==> rs[m].sender == None
  {
    if rs[m].sender == None {
      assert m in CandidateGroup(rs, NoSender(m));
      assert IdentityOf(rs, m) == Alone(NoSender(m));
      forall n | n in GroupOf(rs, m) ensures n == m {
        IdentityTells(rs, n);
      }
      assert GroupOf(rs, m) == {m};
    } else {
      assert rs[m].sender.value in AddressesOf(rs, GroupOf(rs, m));
    }
  }

  lemma IdentityTells(rs: Records, n: MessageId)
    requires n in rs && IdentityOf(rs, n).Alone?
    ensures IdentityOf(rs, n) == Alone(CandidateOf(rs, n))
  {
  }

  /** The identifier of a source determines its group. */
  lemma SourceIdDetermines(rs: Records, m: MessageId, n: MessageId)
    requires m in rs && n in rs && SourceIdFor(rs, GroupOf(rs, m)) == SourceIdFor(rs, GroupOf(rs, n))
    ensures GroupOf(rs, m) == GroupOf(rs, n)
  {
    SenderlessAlone(rs, m);
    SenderlessAlone(rs, n);
    hide IdentityFor, GroupOf;
    if AddressesOf(rs, GroupOf(rs, m)) != {} {
      AddressGroup(rs, m, n, SourceIdFor(rs, GroupOf(rs, m)).first);
    }
  }

  /** So does its descriptor. */
  lemma DescriptorDetermines(rs: Records, m: MessageId, n: MessageId)
    requires m in rs && n in rs && DescriptorFor(rs, GroupOf(rs, m)) == DescriptorFor(rs, GroupOf(rs, n))
    ensures GroupOf(rs, m) == GroupOf(rs, n)
  {
    SenderlessAlone(rs, m);
    SenderlessAlone(rs, n);
    hide IdentityFor, GroupOf;
    if AddressesOf(rs, GroupOf(rs, m)) != {} {
      var a := SomeMember(AddressesOf(rs, GroupOf(rs, m)));
      AddressGroup(rs, m, n, a);
    }
  }

  // ------------------------------------------------------------------ flows

  /** Messages of one flow share their source, their descriptor and their intention. */
  lemma FlowDetermines(rs: Records, rules: Rules, m: MessageId, n: MessageId)
    requires m in rs && n in rs && FlowOf(rs, rules, m) == FlowOf(rs, rules, n)
    ensures GroupOf(rs, m) == GroupOf(rs, n)
    ensures ReadingOf(rs, rules, m).source == ReadingOf(rs, rules, n).source
    ensures rs[m].intent == rs[n].intent
    ensures FlowDescriptorOf(rs[m], ReadingOf(rs, rules, m), m) == FlowDescriptorOf(rs[n], ReadingOf(rs, rules, n), n)
  {
    hide GroupOf, DescriptorFor, SourceIdFor, MessageConfidence, MergeableName, CandidateGroup;
    SourceIdDetermines(rs, m, n);
  }

  /** The descriptor of a flow determines it. */
  lemma FlowDescriptorDetermines(rs: Records, rules: Rules, m: MessageId, n: MessageId)
    requires m in rs && n in rs
    requires FlowDescriptorOf(rs[m], ReadingOf(rs, rules, m), m) == FlowDescriptorOf(rs[n], ReadingOf(rs, rules, n), n)
    ensures FlowOf(rs, rules, m) == FlowOf(rs, rules, n)
  {
    hide GroupOf, DescriptorFor, SourceIdFor, MessageConfidence, MergeableName, CandidateGroup;
    DescriptorDetermines(rs, m, n);
  }

  // ---------------------------------------------------------------- entries

  lemma SourceEntry(rs: Records, rules: Rules, m: MessageId)
    requires m in rs
    ensures var c, s := Classified(rs, rules), ReadingOf(rs, rules, m).source;
      s in c.sources && c.sources[s] == SourceResult(rs, rules, m)
  {
    var s := ReadingOf(rs, rules, m).source;
    assert SourceMap(rs, rules)[m] == s;
    var k := KeyFor(SourceMap(rs, rules), s);
    SourceIdDetermines(rs, k, m);
    hide GroupOf, DescriptorFor, SourceIdFor, MessageConfidence, MergeableName, CandidateGroup, FlowOf;
  }

  lemma FlowEntry(rs: Records, rules: Rules, m: MessageId)
    requires m in rs
    ensures var c, f := Classified(rs, rules), FlowOf(rs, rules, m);
      f in c.flows && c.flows[f] == FlowResult(rs, rules, m)
  {
    hide GroupOf, DescriptorFor, SourceIdFor, MessageConfidence, MergeableName, CandidateGroup, FlowDescriptorOf, KeyOf;
    var f := FlowOf(rs, rules, m);
    assert FlowMap(rs, rules)[m] == f;
    var k := KeyFor(FlowMap(rs, rules), f);
    FlowDetermines(rs, rules, k, m);
  }

  /** Every source and flow of the result has a member. */
  lemma EntryMember(rs: Records, rules: Rules)
    ensures forall s <- Classified(rs, rules).sources :: exists m <- rs :: ReadingOf(rs, rules, m).source == s
    ensures forall f <- Classified(rs, rules).flows :: exists m <- rs :: FlowOf(rs, rules, m) == f
  {
    hide ReadingOf, FlowOf, SourceResult, FlowResult, MessageResult;
    forall s | s in Classified(rs, rules).sources ensures exists m <- rs :: ReadingOf(rs, rules, m).source == s {
      var k := KeyFor(SourceMap(rs, rules), s);
      assert SourceMap(rs, rules)[k] == s;
    }
    forall f | f in Classified(rs, rules).flows ensures exists m <- rs :: FlowOf(rs, rules, m) == f {
      var k := KeyFor(FlowMap(rs, rules), f);
      assert FlowMap(rs, rules)[k] == f;
    }
  }

  // --------------------------------------------------------------- validity

  lemma ConfidenceConservative(rs: Records, rules: Rules, ms: set<MessageId>, m: MessageId)
    requires m in ms && m in rs
    ensures ReadingOf(rs, rules, m).confidence.Rank() <= GroupConfidence(rs, rules, ms).Rank()
  {
    hide ReadingOf;
    assert ReadingOf(rs, rules, m).confidence in set x | x in ms && x in rs :: ReadingOf(rs, rules, x).confidence;
  }

  lemma MessageEntry(rs: Records, rules: Rules, m: MessageId)
    requires m in rs
    ensures var c := Classified(rs, rules);
      && c.messages.Keys == rs.Keys
      && c.messages[m] == MessageResult(rs, rules, m)
      && c.messages[m].source == ReadingOf(rs, rules, m).source && c.messages[m].flow == FlowOf(rs, rules, m)
  {
    hide ReadingOf, FlowOf, SourceResult, FlowResult;
  }

  lemma MessageReferences(rs: Records, rules: Rules, m: MessageId)
    requires m in rs
    ensures var c := Classified(rs, rules);
      && m in c.messages && c.messages[m].source in c.sources && c.messages[m].flow in c.flows
      && c.flows[c.messages[m].flow].source == c.messages[m].source
  {
    MessageEntry(rs, rules, m);
    SourceEntry(rs, rules, m);
    FlowEntry(rs, rules, m);
    hide Classified, ReadingOf, FlowOf, SourceResult, FlowMembers, GroupConfidence, FlowDescriptorOf, AggregateSubscription;
  }

  lemma FlowReferences(rs: Records, rules: Rules, f: FlowId)
    requires f in Classified(rs, rules).flows
    ensures Classified(rs, rules).flows[f].source in Classified(rs, rules).sources
  {
    EntryMember(rs, rules);
    var m :| m in rs && FlowOf(rs, rules, m) == f;
    FlowEntry(rs, rules, m);
    SourceEntry(rs, rules, m);
    hide Classified, ReadingOf, FlowOf, SourceResult, FlowMembers, GroupConfidence, FlowDescriptorOf, AggregateSubscription;
  }

  lemma ResultKeys(rs: Records, rules: Rules)
    ensures Classified(rs, rules).messages.Keys == rs.Keys
  {
    hide MessageResult, SourceResult, FlowResult, SourceMap, FlowMap;
  }

  lemma ReferencesHold(rs: Records, rules: Rules)
    ensures ReferencesKnown(Classified(rs, rules))
  {
    hide Classified;
    var c := Classified(rs, rules);
    ResultKeys(rs, rules);
    forall m | m in c.messages
      ensures c.messages[m].source in c.sources && c.messages[m].flow in c.flows
      ensures c.flows[c.messages[m].flow].source == c.messages[m].source
    {
      MessageReferences(rs, rules, m);
    }
    forall f | f in c.flows ensures c.flows[f].source in c.sources {
      FlowReferences(rs, rules, f);
    }
  }

  lemma DescriptorsHold(rs: Records, rules: Rules)
    ensures DescriptorsUnique(Classified(rs, rules))
  {
    hide ReadingOf, FlowOf, GroupOf, GroupConfidence, FlowMembers, FlowDescriptorOf, DescriptorFor;
    var c := Classified(rs, rules);
    EntryMember(rs, rules);
    forall s, t | s in c.sources && t in c.sources && c.sources[s].descriptor == c.sources[t].descriptor ensures s == t {
      var m :| m in rs && ReadingOf(rs, rules, m).source == s;
      var n :| n in rs && ReadingOf(rs, rules, n).source == t;
      SourceEntry(rs, rules, m);
      SourceEntry(rs, rules, n);
      DescriptorDetermines(rs, m, n);
      SourceOfGroup(rs, rules, m);
      SourceOfGroup(rs, rules, n);
    }
    forall f, g | f in c.flows && g in c.flows && c.flows[f].descriptor == c.flows[g].descriptor ensures f == g {
      var m :| m in rs && FlowOf(rs, rules, m) == f;
      var n :| n in rs && FlowOf(rs, rules, n) == g;
      FlowEntry(rs, rules, m);
      FlowEntry(rs, rules, n);
      FlowDescriptorDetermines(rs, rules, m, n);
    }
  }

  lemma SourceOfGroup(rs: Records, rules: Rules, m: MessageId)
    requires m in rs
    ensures ReadingOf(rs, rules, m).source == SourceIdFor(rs, GroupOf(rs, m))
    ensures ReadingOf(rs, rules, m).descriptor == DescriptorFor(rs, GroupOf(rs, m))
    ensures ReadingOf(rs, rules, m).intent == rs[m].intent
  {
  }

  /** The shape of one flow: its descriptor names its source, its intention and, when isolated, its only member. */
  lemma FlowShape(rs: Records, rules: Rules, m: MessageId)
    requires m in rs
    ensures var d, ms := FlowDescriptorOf(rs[m], ReadingOf(rs, rules, m), m), FlowMembers(rs, rules, FlowOf(rs, rules, m));
      && d.source == DescriptorFor(rs, GroupOf(rs, m)) && d.intent == rs[m].intent && m in ms
      && (d.IsolatedFlow? ==> ms == {d.isolated})
  {
    hide GroupOf, DescriptorFor, SourceIdFor, MessageConfidence, MergeableName, CandidateGroup;
  }

  lemma FlowHolds(rs: Records, rules: Rules, f: FlowId)
    requires f in Classified(rs, rules).flows
    ensures Classified(rs, rules).flows[f].source in Classified(rs, rules).sources && FlowComplete(Classified(rs, rules), f)
  {
    hide ReadingOf, FlowOf, GroupOf, GroupConfidence, FlowDescriptorOf, DescriptorFor, SourceIdFor, Classified, AggregateSubscription;
    var c := Classified(rs, rules);
    EntryMember(rs, rules);
    ResultKeys(rs, rules);
    var k :| k in rs && FlowOf(rs, rules, k) == f;
    forall m ensures m in FlowMembers(rs, rules, f) <==> m in c.messages && c.messages[m].flow == f {
      if m in rs { MessageEntry(rs, rules, m); }
    }
    FlowEntry(rs, rules, k);
    SourceEntry(rs, rules, k);
    FlowShape(rs, rules, k);
    SourceOfGroup(rs, rules, k);
    forall m | m in FlowMembers(rs, rules, f)
      ensures m in c.messages && c.messages[m].intent == c.flows[f].intent
      ensures c.messages[m].confidence.Rank() <= c.flows[f].confidence.Rank()
    {
      MessageEntry(rs, rules, m);
      FlowDetermines(rs, rules, k, m);
      SourceOfGroup(rs, rules, m);
      ConfidenceConservative(rs, rules, FlowMembers(rs, rules, f), m);
    }
  }

  lemma SourceHolds(rs: Records, rules: Rules, s: SourceId)
    requires s in Classified(rs, rules).sources
    ensures SourceComplete(Classified(rs, rules), s)
  {
    hide ReadingOf, FlowOf, GroupOf, GroupConfidence, SourceIdFor, Classified;
    var c := Classified(rs, rules);
    EntryMember(rs, rules);
    ResultKeys(rs, rules);
    var k :| k in rs && ReadingOf(rs, rules, k).source == s;
    SourceEntry(rs, rules, k);
    SenderlessAlone(rs, k);
    SourceFlowsHold(rs, rules, s);
    forall m ensures m in GroupOf(rs, k) <==> m in c.messages && c.messages[m].source == s {
      if m in rs {
        MessageEntry(rs, rules, m);
        SourceOfGroup(rs, rules, m);
        SourceOfGroup(rs, rules, k);
        if m in GroupOf(rs, k) { SameGroup(rs, k, m); }
        if ReadingOf(rs, rules, m).source == s { SourceIdDetermines(rs, m, k); }
      }
    }
    forall m | m in GroupOf(rs, k) ensures c.messages[m].confidence.Rank() <= c.sources[s].confidence.Rank() {
      MessageEntry(rs, rules, m);
      ConfidenceConservative(rs, rules, GroupOf(rs, k), m);
    }
  }

  lemma SourceFlowsHold(rs: Records, rules: Rules, s: SourceId)
    requires s in Classified(rs, rules).sources
    ensures var c := Classified(rs, rules);
      c.sources[s].flows == (set f | f in c.flows && c.flows[f].source == s)
  {
    hide ReadingOf, FlowOf, GroupOf, GroupConfidence, SourceIdFor, FlowDescriptorOf, FlowMembers, DescriptorFor;
    var c := Classified(rs, rules);
    EntryMember(rs, rules);
    var k :| k in rs && ReadingOf(rs, rules, k).source == s;
    SourceEntry(rs, rules, k);
    SourceOfGroup(rs, rules, k);
    forall f ensures f in c.sources[s].flows <==> f in c.flows && c.flows[f].source == s {
      if f in c.sources[s].flows {
        var m :| m in GroupOf(rs, k) && m in rs && FlowOf(rs, rules, m) == f;
        SameGroup(rs, k, m);
        SourceOfGroup(rs, rules, m);
        FlowEntry(rs, rules, m);
      }
      if f in c.flows && c.flows[f].source == s {
        var m :| m in rs && FlowOf(rs, rules, m) == f;
        FlowEntry(rs, rules, m);
        SourceOfGroup(rs, rules, m);
        SourceIdDetermines(rs, m, k);
      }
    }
  }

  /** For any normalised records the result passes every check of its constructor. */
  lemma ClassifiedIsValid(rs: Records, rules: Rules)
    ensures ValidClassification(Classified(rs, rules))
    ensures Classified(rs, rules).messages.Keys == rs.Keys
  {
    ReferencesHold(rs, rules);
    DescriptorsHold(rs, rules);
    ResultKeys(rs, rules);
    hide Classified, ReferencesKnown, DescriptorsUnique, FlowMap, SourceMap, MessageResult, SourceResult, FlowResult, FlowComplete, SourceComplete;
    var c := Classified(rs, rules);
    forall f | f in c.flows ensures c.flows[f].source in c.sources && FlowComplete(c, f) {
      FlowHolds(rs, rules, f);
    }
    forall s | s in c.sources ensures SourceComplete(c, s) {
      SourceHolds(rs, rules, s);
    }
  }
}
