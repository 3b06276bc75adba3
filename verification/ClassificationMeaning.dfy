/** Which messages the classifier puts together and how sure it is, told from the records. */
module ClassificationMeaning {
  import opened Basics
  import opened MailModel
  import opened ClassificationModel
  import opened ClassificationTheorems

  // ---------------------------------------------------------------- sources

  /** A message whose authentication supports the address it shows, under a name. */
  predicate Supports(r: NormalRecord, name: NameKey) {
    && r.sender.Some? && r.name == Some(name)
    && r.dkim == AuthPass && r.dmarc == AuthPass && r.coherent && !r.domainConflict
  }

  /** Every message of an address supports it, all under the same name. */
  ghost predicate SupportedAddress(rs: Records, a: Address, name: NameKey) {
    forall x <- rs :: rs[x].sender == Some(a) ==> Supports(rs[x], name)
  }

  /** Every message of an address is of one domain. */
  ghost predicate OfDomain(rs: Records, a: Address, domain: Domain) {
    forall x <- rs :: rs[x].sender == Some(a) ==> rs[x].domain == Some(domain)
  }

  /** Two addresses that show the same supported name in the same domain. */
  ghost predicate Joined(rs: Records, a: Address, b: Address) {
    exists name, domain ::
      && SupportedAddress(rs, a, name) && SupportedAddress(rs, b, name)
      && OfDomain(rs, a, domain) && OfDomain(rs, b, domain)
  }

  /** Two messages that belong to one source: one message, one address, or two joined addresses. */
  ghost predicate Together(rs: Records, m: MessageId, n: MessageId)
    requires m in rs && n in rs
  {
    || m == n
    || (rs[m].sender.Some? && rs[n].sender.Some?
        && (rs[m].sender == rs[n].sender || Joined(rs, rs[m].sender.value, rs[n].sender.value)))
  }

  lemma NameMeans(rs: Records, m: MessageId, a: Address)
    requires m in rs && rs[m].sender == Some(a)
    ensures forall name :: MergeableName(rs, CandidateGroup(rs, FromAddress(a))) == Some(name) <==> SupportedAddress(rs, a, name)
  {
    var ms := CandidateGroup(rs, FromAddress(a));
    assert m in ms;
    assert rs[m].name in NamesOf(rs, ms);
    forall name | SupportedAddress(rs, a, name) ensures MergeableName(rs, ms) == Some(name) {
      forall x | x in ms ensures rs[x].name == Some(name) && rs[x].Trusted() {
      }
      assert NamesOf(rs, ms) == {Some(name)};
    }
    if MergeableName(rs, ms).Some? {
      var name := MergeableName(rs, ms).value;
      forall x | x in rs && rs[x].sender == Some(a) ensures Supports(rs[x], name) {
        assert x in ms;
        assert rs[x].name in NamesOf(rs, ms);
      }
    }
  }

  lemma DomainMeans(rs: Records, m: MessageId, a: Address)
    requires m in rs && rs[m].sender == Some(a)
    ensures var domains := DomainsOf(rs, CandidateGroup(rs, FromAddress(a)));
      forall d :: domains == {Some(d)} <==> OfDomain(rs, a, d)
  {
    var ms := CandidateGroup(rs, FromAddress(a));
    var domains := DomainsOf(rs, ms);
    assert m in ms && rs[m].domain in domains;
    forall d | domains == {Some(d)} ensures OfDomain(rs, a, d) {
      forall x | x in rs && rs[x].sender == Some(a) ensures rs[x].domain == Some(d) {
        assert x in ms && rs[x].domain in domains;
      }
    }
    forall d | OfDomain(rs, a, d) ensures domains == {Some(d)} {
    }
  }

  /** The identity of an address: its supported name and its domain, when it has both; and else itself. */
  lemma IdentityMeans(rs: Records, m: MessageId, a: Address)
    requires m in rs && rs[m].sender == Some(a)
    ensures forall name, domain ::
      IdentityFor(rs, FromAddress(a)) == NameDomain(name, domain) <==> SupportedAddress(rs, a, name) && OfDomain(rs, a, domain)
    ensures IdentityFor(rs, FromAddress(a)).Alone? ==> IdentityFor(rs, FromAddress(a)) == Alone(FromAddress(a))
  {
    hide MergeableName, CandidateGroup, SupportedAddress, OfDomain;
    NameMeans(rs, m, a);
    DomainMeans(rs, m, a);
    var domains := DomainsOf(rs, CandidateGroup(rs, FromAddress(a)));
    OneOption(domains);
  }

  lemma OneOption<T>(s: set<Option<T>>)
    ensures |s| == 1 && None !in s <==> exists x :: s == {Some(x)}
  {
    if |s| == 1 && None !in s {
      SingletonUnique(s);
      var o :| o in s;
      assert s == {Some(o.value)};
    }
  }

  lemma SameIdentity(rs: Records, m: MessageId, n: MessageId)
    requires m in rs && n in rs
    ensures IdentityOf(rs, m) == IdentityOf(rs, n) <==> Together(rs, m, n)
  {
    hide IdentityFor, SupportedAddress, OfDomain;
    SenderlessIdentity(rs, m);
    SenderlessIdentity(rs, n);
    if rs[m].sender.Some? { IdentityMeans(rs, m, rs[m].sender.value); }
    if rs[n].sender.Some? { IdentityMeans(rs, n, rs[n].sender.value); }
  }

  lemma SenderlessIdentity(rs: Records, m: MessageId)
    requires m in rs
    ensures rs[m].sender == None ==> IdentityOf(rs, m) == Alone(NoSender(m))
  {
    if rs[m].sender == None {
      assert m in CandidateGroup(rs, NoSender(m));
    }
  }

  /**
   Two messages share a source exactly when they are one message, come from one
   address, or come from two addresses all of whose messages are authenticated
   for the same name in the same domain.
   */
  lemma SourcesExactly(rs: Records, rules: Rules, m: MessageId, n: MessageId)
    requires m in rs && n in rs
    ensures var c := Classified(rs, rules);
      && m in c.messages && n in c.messages
      && (c.messages[m].source == c.messages[n].source <==> Together(rs, m, n))
  {
    hide Classified, ReadingOf, FlowOf, IdentityOf, Together, DescriptorFor, SourceIdFor;
    MessageEntry(rs, rules, m);
    MessageEntry(rs, rules, n);
    SourceOfGroup(rs, rules, m);
    SourceOfGroup(rs, rules, n);
    SameIdentity(rs, m, n);
    GroupsAgree(rs, m, n);
    if SourceIdFor(rs, GroupOf(rs, m)) == SourceIdFor(rs, GroupOf(rs, n)) {
      SourceIdDetermines(rs, m, n);
    }
  }

  lemma GroupsAgree(rs: Records, m: MessageId, n: MessageId)
    requires m in rs && n in rs
    ensures GroupOf(rs, m) == GroupOf(rs, n) <==> IdentityOf(rs, m) == IdentityOf(rs, n)
  {
    hide IdentityFor;
    assert m in GroupOf(rs, m);
  }

  // ------------------------------------------------------------------ flows

  /** Two messages of one source that belong to one flow: of one list, or of no list and one sender. */
  predicate SameStream(r: NormalRecord, s: NormalRecord) {
    if r.list.Some? || s.list.Some? then r.list == s.list else r.sender == s.sender
  }

  /**
   Two messages share a flow exactly when they are one message, or share source
   and intention, neither is contradictory nor without a sender, and they are of
   the same list, or of no list and from the same sender.
   */
  lemma FlowsExactly(rs: Records, rules: Rules, m: MessageId, n: MessageId)
    requires m in rs && n in rs
    ensures var c := Classified(rs, rules);
      && m in c.messages && n in c.messages
      && (c.messages[m].flow == c.messages[n].flow <==>
            || m == n
            || (&& c.messages[m].source == c.messages[n].source && rs[m].intent == rs[n].intent
                && c.messages[m].confidence != Contradictory && c.messages[n].confidence != Contradictory
                && rs[m].sender.Some? && rs[n].sender.Some? && SameStream(rs[m], rs[n])))
  {
    hide Classified, MessageConfidence, GroupOf, DescriptorFor, SourceIdFor, MergeableName, CandidateGroup;
    MessageEntry(rs, rules, m);
    MessageEntry(rs, rules, n);
  }

  // ------------------------------------------------------------- what is read

  /** What is read from a record goes into the result as it is. */
  lemma ReadAsIs(rs: Records, rules: Rules, m: MessageId)
    requires m in rs
    ensures var c := Classified(rs, rules);
      && m in c.messages && c.messages[m].source in c.sources
      && c.messages[m].intent == rs[m].intent && c.messages[m].subscription == rs[m].subscription
      && c.messages[m].rubro == rules.rubro(c.sources[c.messages[m].source].messages)
      && c.sources[c.messages[m].source].rubro == c.messages[m].rubro
      && c.sources[c.messages[m].source].name == rules.title(c.sources[c.messages[m].source].messages)
  {
    hide Classified, MessageConfidence, DescriptorFor, SourceIdFor, MergeableName, CandidateGroup, IdentityFor, GroupConfidence;
    MessageEntry(rs, rules, m);
    SourceEntry(rs, rules, m);
  }

  /** A source is described by exactly the addresses of its messages, and identified by the first of them. */
  lemma DescriptorsExactly(rs: Records, rules: Rules, m: MessageId)
    requires m in rs
    ensures var c := Classified(rs, rules);
      && m in c.messages && c.messages[m].source in c.sources
      && var s := c.sources[c.messages[m].source];
         && (forall n :: n in s.messages <==> n in rs && Together(rs, m, n))
         && (rs[m].sender == None ==> s.descriptor == IsolatedSource(m) && c.messages[m].source == MissingSender(m))
         && (rs[m].sender.Some? ==>
               && s.descriptor.Senders?
               && (forall a :: a in s.descriptor.addresses <==> exists n <- s.messages :: n in rs && rs[n].sender == Some(a))
               && c.messages[m].source.SenderAnchored? && c.messages[m].source.first in s.descriptor.addresses
               && forall a <- s.descriptor.addresses :: c.messages[m].source.first <= a)
  {
    hide Classified, MessageConfidence, MergeableName, CandidateGroup, IdentityOf, GroupConfidence, Together;
    MessageEntry(rs, rules, m);
    SourceEntry(rs, rules, m);
    SourceOfGroup(rs, rules, m);
    SenderlessAlone(rs, m);
    forall n | n in rs ensures n in GroupOf(rs, m) <==> Together(rs, m, n) {
      SameIdentity(rs, m, n);
    }
  }

  /** A flow is described by its list and intention, by its sender and intention, or by its only message. */
  lemma FlowDescribed(rs: Records, rules: Rules, m: MessageId)
    requires m in rs
    ensures var c := Classified(rs, rules);
      && m in c.messages && c.messages[m].flow in c.flows && c.messages[m].source in c.sources
      && var f, d := c.flows[c.messages[m].flow], c.sources[c.messages[m].source].descriptor;
         && f.name == rules.flowTitle(rs[m].intent) && f.intent == rs[m].intent
         && f.descriptor ==
            if c.messages[m].confidence == Contradictory || rs[m].sender == None then IsolatedFlow(d, m, rs[m].intent)
            else if rs[m].list.Some? then ListIntent(d, rs[m].list.value, rs[m].intent)
            else SenderIntent(d, rs[m].sender.value, rs[m].intent)
  {
    hide Classified, MessageConfidence, DescriptorFor, SourceIdFor, MergeableName, CandidateGroup, GroupOf, GroupConfidence, FlowMembers,
      AggregateSubscription;
    MessageEntry(rs, rules, m);
    SourceEntry(rs, rules, m);
    FlowEntry(rs, rules, m);
  }

  // ------------------------------------------------------------- confidence

  /** Signals of a record that contradict each other. */
  predicate Conflicting(r: NormalRecord) {
    || r.domainConflict || r.listUntrusted || r.unsubscribeUntrusted || r.unsubscribeConflict
    || ((r.listHeader || r.unsubscribe) && (r.dkim == AuthFail || r.dmarc == AuthFail))
    || (r.promotionalCategory && (r.intent == Security || r.intent == Document))
  }

  /** The address of a message is supported under one name by all its messages. */
  ghost predicate Supported(rs: Records, m: MessageId)
    requires m in rs
  {
    rs[m].sender.Some? && exists name :: SupportedAddress(rs, rs[m].sender.value, name)
  }

  /** One more signal beside the authentication. */
  predicate Confirmed(r: NormalRecord) {
    r.spam || r.intent == Security || r.intent == Document || (r.list.Some? && r.unsubscribe)
  }

  lemma IsolatedMeans(rs: Records, m: MessageId)
    requires m in rs
    ensures MergeableName(rs, CandidateGroup(rs, CandidateOf(rs, m))) == None <==> !Supported(rs, m)
    ensures Supported(rs, m) ==> rs[m].AuthPassed() && rs[m].coherent && rs[m].name.Some?
  {
    hide SupportedAddress, MergeableName;
    if rs[m].sender.Some? {
      NameMeans(rs, m, rs[m].sender.value);
      var found := MergeableName(rs, CandidateGroup(rs, FromAddress(rs[m].sender.value)));
      if found.Some? {
        assert SupportedAddress(rs, rs[m].sender.value, found.value);
        SupportsItself(rs, m, found.value);
      }
    } else {
      SenderlessName(rs, m);
    }
  }

  lemma SupportsItself(rs: Records, m: MessageId, name: NameKey)
    requires m in rs && rs[m].sender.Some? && SupportedAddress(rs, rs[m].sender.value, name)
    ensures Supports(rs[m], name)
  {
  }

  lemma SenderlessName(rs: Records, m: MessageId)
    requires m in rs && rs[m].sender == None
    ensures MergeableName(rs, CandidateGroup(rs, NoSender(m))) == None
  {
    assert m in CandidateGroup(rs, NoSender(m));
  }

  /**
   How sure the classifier is of a message. Conflicting signals are contradictory;
   otherwise a message whose address is not supported under one name is low, and
   the others are medium, or high with one more signal, unless nothing at all was
   read from them.
   */
  lemma ConfidenceExactly(rs: Records, rules: Rules, m: MessageId)
    requires m in rs
    ensures var c := Classified(rs, rules);
      && m in c.messages
      && var message := c.messages[m];
         message.confidence ==
           if Conflicting(rs[m]) then Contradictory
           else if !Supported(rs, m) then Low
           else if Confirmed(rs[m])
                   && !(message.intent == UnknownIntent && message.rubro == UnknownRubro && message.subscription == UnknownSubscription)
           then High
           else Medium
  {
    hide Classified, GroupOf, DescriptorFor, SourceIdFor, MergeableName, CandidateGroup, FlowOf, Supported;
    MessageEntry(rs, rules, m);
    IsolatedMeans(rs, m);
    Signals(rs[m], rules.rubro(GroupOf(rs, m)));
  }

  lemma Signals(r: NormalRecord, rubro: Rubro)
    ensures MessageConfidence(r, rubro, true) == if Conflicting(r) then Contradictory else Low
    ensures r.AuthPassed() && r.coherent ==>
      MessageConfidence(r, rubro, false) ==
        if Conflicting(r) then Contradictory
        else if Confirmed(r) && !(r.intent == UnknownIntent && rubro == UnknownRubro && r.subscription == UnknownSubscription) then High
        else Medium
  {
    CountFour(r.AuthPassed() && r.coherent, r.spam, r.intent in {Security, Document}, r.list.Some? && r.unsubscribe);
    hide Count;
  }

  lemma CountFour(a: bool, b: bool, c: bool, d: bool)
    ensures Count([a, b, c, d]) == (if a then 1 else 0) + (if b then 1 else 0) + (if c then 1 else 0) + (if d then 1 else 0)
  {
    CountOne(a, [b, c, d]);
    CountOne(b, [c, d]);
    CountOne(c, [d]);
    CountOne(d, []);
    assert [a] + [b, c, d] == [a, b, c, d] && [b] + [c, d] == [b, c, d] && [c] + [d] == [c, d] && [d] + [] == [d];
  }

  lemma CountOne(a: bool, rest: seq<bool>)
    ensures Count([a] + rest) == (if a then 1 else 0) + Count(rest)
  {
    assert ([a] + rest)[1..] == rest;
  }

  /** One authentication method passes for a member and fails for another. */
  ghost predicate Disagrees(rs: Records, ms: set<MessageId>) {
    || (exists a, b :: a in ms && b in ms && a in rs && b in rs && rs[a].dkim == AuthPass && rs[b].dkim == AuthFail)
    || (exists a, b :: a in ms && b in ms && a in rs && b in rs && rs[a].dmarc == AuthPass && rs[b].dmarc == AuthFail)
  }

  /** The confidence of a group: contradictory when the authentication of its members disagrees, and else that of its worst member. */
  lemma GroupConfidenceExactly(rs: Records, rules: Rules, ms: set<MessageId>, m: MessageId)
    requires m in ms && ms <= rs.Keys
    ensures var c, confidence := Classified(rs, rules), GroupConfidence(rs, rules, ms);
      && c.messages.Keys == rs.Keys
      && (Disagrees(rs, ms) ==> confidence == Contradictory)
      && (!Disagrees(rs, ms) ==>
            && (exists n <- ms :: c.messages[n].confidence == confidence)
            && forall n <- ms :: c.messages[n].confidence.Rank() <= confidence.Rank())
  {
    hide Classified, ReadingOf, FlowOf;
    ResultKeys(rs, rules);
    var values := set n | n in ms && n in rs :: ReadingOf(rs, rules, n).confidence;
    assert ReadingOf(rs, rules, m).confidence in values;
    forall n | n in ms ensures Classified(rs, rules).messages[n].confidence == ReadingOf(rs, rules, n).confidence {
      MessageEntry(rs, rules, n);
      ConfidenceRead(rs, rules, n);
    }
    assert AuthConflict(rs, ms) <==> Disagrees(rs, ms);
  }

  lemma ConfidenceRead(rs: Records, rules: Rules, n: MessageId)
    requires n in rs
    ensures MessageResult(rs, rules, n).confidence == ReadingOf(rs, rules, n).confidence
  {
    hide ReadingOf, FlowOf;
  }

  /** Both for the sources and for the flows of the result. */
  lemma ResultConfidence(rs: Records, rules: Rules, m: MessageId)
    requires m in rs
    ensures var c := Classified(rs, rules);
      && m in c.messages && c.messages[m].source in c.sources && c.messages[m].flow in c.flows
      && c.sources[c.messages[m].source].confidence == GroupConfidence(rs, rules, c.sources[c.messages[m].source].messages)
      && c.flows[c.messages[m].flow].confidence == GroupConfidence(rs, rules, c.flows[c.messages[m].flow].messages)
      && m in c.sources[c.messages[m].source].messages && m in c.flows[c.messages[m].flow].messages
  {
    hide Classified, ReadingOf, IdentityOf, GroupConfidence, FlowDescriptorOf, DescriptorFor, AggregateSubscription;
    MessageEntry(rs, rules, m);
    SourceEntry(rs, rules, m);
    FlowEntry(rs, rules, m);
  }

  /** The subscription of a flow: a possible breach of any member, else what all agree on, else probable among confirmed and probable. */
  lemma SubscriptionExactly(rs: Records, rules: Rules, m: MessageId)
    requires m in rs
    ensures var c := Classified(rs, rules);
      && m in c.messages && c.messages[m].flow in c.flows
      && var f := c.flows[c.messages[m].flow];
         && f.messages <= rs.Keys && m in f.messages
         && f.subscription ==
            if exists n <- f.messages :: rs[n].subscription == PossibleBreach then PossibleBreach
            else if forall n <- f.messages :: rs[n].subscription == rs[m].subscription then rs[m].subscription
            else if forall n <- f.messages :: rs[n].subscription == Subscription.Confirmed || rs[n].subscription == Probable then Probable
            else UnknownSubscription
  {
    hide Classified, ReadingOf, GroupConfidence, FlowDescriptorOf, DescriptorFor, FlowOf, GroupOf, AggregateSubscription;
    MessageEntry(rs, rules, m);
    FlowEntry(rs, rules, m);
    JointSubscription(rs, FlowMembers(rs, rules, FlowOf(rs, rules, m)), m);
  }

  /** What a group of messages is taken to be subscribed to. */
  lemma JointSubscription(rs: Records, ms: set<MessageId>, m: MessageId)
    requires m in ms && ms <= rs.Keys
    ensures AggregateSubscription(set x | x in ms && x in rs :: rs[x].subscription) ==
      if exists n <- ms :: rs[n].subscription == PossibleBreach then PossibleBreach
      else if forall n <- ms :: rs[n].subscription == rs[m].subscription then rs[m].subscription
      else if forall n <- ms :: rs[n].subscription == Subscription.Confirmed || rs[n].subscription == Probable then Probable
      else UnknownSubscription
  {
    SubscriptionsMean(rs, ms, m, set x | x in ms && x in rs :: rs[x].subscription);
  }

  lemma SubscriptionsMean(rs: Records, ms: set<MessageId>, m: MessageId, values: set<Subscription>)
    requires m in ms && ms <= rs.Keys && values == set x | x in ms && x in rs :: rs[x].subscription
    ensures PossibleBreach in values <==> exists n <- ms :: rs[n].subscription == PossibleBreach
    ensures values <= {Subscription.Confirmed, Probable} <==>
      forall n <- ms :: rs[n].subscription == Subscription.Confirmed || rs[n].subscription == Probable
    ensures |values| == 1 <==> forall n <- ms :: rs[n].subscription == rs[m].subscription
    ensures |values| == 1 ==> values == {rs[m].subscription}
  {
    assert rs[m].subscription in values;
    forall n | n in ms ensures rs[n].subscription in values {
    }
    if |values| == 1 {
      SingletonUnique(values);
    }
    if forall n <- ms :: rs[n].subscription == rs[m].subscription {
      assert values == {rs[m].subscription};
    }
  }
}
