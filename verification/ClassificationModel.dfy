/**
 The classifier's grouping: messages into sources, sources into flows. Records
 are already normalised; what the text rules read from a message is data, and
 the rules that name things are parameters.
 */
module ClassificationModel {
  import opened Basics
  import opened MailModel

  type NameKey = int
  type Domain = int

  datatype AuthResult = AuthPass | AuthFail | AuthOther

  /** A normalised record: identity, authentication, list headers, and what the intent rules read from it. */
  datatype NormalRecord = NormalRecord(
    sender: Option<Address>,
    name: Option<NameKey>,
    domain: Option<Domain>,
    dkim: AuthResult,
    dmarc: AuthResult,
    coherent: bool,
    domainConflict: bool,
    list: Option<ListId>,
    listHeader: bool,
    listUntrusted: bool,
    unsubscribe: bool,
    unsubscribeUntrusted: bool,
    unsubscribeConflict: bool,
    spam: bool,
    category: bool,
    promotionalCategory: bool,
    intent: Intent,
    subscription: Subscription)
  {
    predicate AuthPassed() {
      dkim == AuthPass && dmarc == AuthPass
    }

    predicate AuthFailed() {
      dkim == AuthFail || dmarc == AuthFail
    }

    /** A record whose visible identity its authentication supports. */
    predicate Trusted() {
      sender.Some? && AuthPassed() && coherent && !AuthFailed() && !domainConflict
    }
  }

  type Records = map<MessageId, NormalRecord>

  /** The naming rules, which look only at which messages are grouped. */
  datatype Rules = Rules(rubro: set<MessageId> -> Rubro, title: set<MessageId> -> string, flowTitle: Intent -> string)

  // ---------------------------------------------------------------- sources

  /** Messages of one address belong together; a message without an address stands alone. */
  datatype Candidate = FromAddress(address: Address) | NoSender(message: MessageId)

  datatype Identity = NameDomain(name: NameKey, domain: Domain) | Alone(candidate: Candidate)

  function CandidateOf(rs: Records, m: MessageId): Candidate
    requires m in rs
  {
    match rs[m].sender
    case None => NoSender(m)
    case Some(a) => FromAddress(a)
  }

  function CandidateGroup(rs: Records, c: Candidate): set<MessageId> {
    set m | m in rs && CandidateOf(rs, m) == c
  }

  function NamesOf(rs: Records, ms: set<MessageId>): set<Option<NameKey>> {
    set m | m in ms && m in rs :: rs[m].name
  }

  function DomainsOf(rs: Records, ms: set<MessageId>): set<Option<Domain>> {
    set m | m in ms && m in rs :: rs[m].domain
  }

  /** The one name of some trusted messages; none when they differ or are not all trusted. */
  function MergeableName(rs: Records, ms: set<MessageId>): (name: Option<NameKey>)
    ensures name.Some? ==> NamesOf(rs, ms) == {name} && forall m <- ms :: m in rs ==> rs[m].Trusted()
  {
    var names := NamesOf(rs, ms);
    if |names| != 1 || None in names || exists m <- ms :: m in rs && !rs[m].Trusted() then None
    else
      SingletonUnique(names);
      var name :| name in names;
      assert names == {name};
      name
  }

  /** Addresses join when they share a trusted name and a domain; otherwise each stays alone. */
  function IdentityFor(rs: Records, c: Candidate): Identity {
    var ms := CandidateGroup(rs, c);
    var name, domains := MergeableName(rs, ms), DomainsOf(rs, ms);
    if name == None || |domains| != 1 || None in domains then Alone(c)
    else
      SingletonUnique(domains);
      var domain :| domain in domains;
      NameDomain(name.value, domain.value)
  }

  function IdentityOf(rs: Records, m: MessageId): Identity
    requires m in rs
  {
    IdentityFor(rs, CandidateOf(rs, m))
  }

  function SourceGroup(rs: Records, id: Identity): set<MessageId> {
    set m | m in rs && IdentityOf(rs, m) == id
  }

  function AddressesOf(rs: Records, ms: set<MessageId>): set<Address> {
    set m | m in ms && m in rs && rs[m].sender.Some? :: rs[m].sender.value
  }

  function DescriptorFor(rs: Records, ms: set<MessageId>): SourceDescriptor
    requires ms != {}
  {
    var addresses := AddressesOf(rs, ms);
    if addresses != {} then Senders(addresses) else IsolatedSource(First(ms))
  }

  function SourceIdFor(rs: Records, ms: set<MessageId>): SourceId
    requires ms != {}
  {
    var addresses := AddressesOf(rs, ms);
    if addresses != {} then SenderAnchored(First(addresses)) else MissingSender(First(ms))
  }

  /** The source group of a message. */
  function GroupOf(rs: Records, m: MessageId): (ms: set<MessageId>)
    requires m in rs
    ensures m in ms && ms <= rs.Keys
  {
    SourceGroup(rs, IdentityOf(rs, m))
  }

  // ------------------------------------------------------------- confidence

  function Count(flags: seq<bool>): nat {
    if flags == [] then 0 else (if flags[0] then 1 else 0) + Count(flags[1..])
  }

  predicate Contradicts(r: NormalRecord) {
    || r.domainConflict || r.listUntrusted || r.unsubscribeUntrusted || r.unsubscribeConflict
    || ((r.listHeader || r.unsubscribe) && r.AuthFailed())
    || (r.promotionalCategory && r.intent in {Security, Document})
  }

  function MessageConfidence(r: NormalRecord, rubro: Rubro, isolated: bool): Confidence {
    if Contradicts(r) then Contradictory
    else if isolated then Low
    else
      var strong := Count([r.AuthPassed() && r.coherent, r.spam, r.intent in {Security, Document}, r.list.Some? && r.unsubscribe]);
      var medium := Count([r.intent in {Operational, Notification, Editorial, Promotional}, r.subscription == Probable, r.unsubscribe]);
      var weak := Count([r.name.Some?, r.sender.Some?, r.category]);
      var base := if strong >= 2 then High else if strong == 1 || medium >= 2 || weak >= 2 then Medium else Low;
      if base == High && r.intent == UnknownIntent && rubro == UnknownRubro && r.subscription == UnknownSubscription then Medium
      else base
  }

  // ------------------------------------------------------------------ flows

  /** A classified message before it is given a flow. */
  datatype Reading = Reading(
    source: SourceId,
    descriptor: SourceDescriptor,
    rubro: Rubro,
    intent: Intent,
    subscription: Subscription,
    confidence: Confidence)

  function ReadingOf(rs: Records, rules: Rules, m: MessageId): Reading
    requires m in rs
  {
    var group := GroupOf(rs, m);
    var rubro := rules.rubro(group);
    Reading(SourceIdFor(rs, group), DescriptorFor(rs, group), rubro, rs[m].intent, rs[m].subscription,
          MessageConfidence(rs[m], rubro, MergeableName(rs, CandidateGroup(rs, CandidateOf(rs, m))) == None))
  }

  /** What separates a message's flow from the others of its source. */
  function KeyOf(r: NormalRecord, d: Reading, m: MessageId): FlowKey {
    if d.confidence == Contradictory || r.sender == None then ByMessage(m)
    else if r.list.Some? then ByList(r.list.value, d.intent)
    else BySender(r.sender.value, d.intent)
  }

  function FlowDescriptorOf(r: NormalRecord, d: Reading, m: MessageId): FlowDescriptor {
    match KeyOf(r, d, m)
    case ByMessage(x) => IsolatedFlow(d.descriptor, x, d.intent)
    case ByList(l, i) => ListIntent(d.descriptor, l, i)
    case BySender(a, i) => SenderIntent(d.descriptor, a, i)
  }

  function FlowOf(rs: Records, rules: Rules, m: MessageId): FlowId
    requires m in rs
  {
    var d := ReadingOf(rs, rules, m);
    FlowId(d.source, KeyOf(rs[m], d, m))
  }

  function FlowMembers(rs: Records, rules: Rules, f: FlowId): set<MessageId> {
    set m | m in rs && FlowOf(rs, rules, m) == f
  }

  /** Passes and failures of one authentication method inside a group. */
  predicate AuthConflict(rs: Records, ms: set<MessageId>) {
    || ((exists m <- ms :: m in rs && rs[m].dkim == AuthPass) && (exists m <- ms :: m in rs && rs[m].dkim == AuthFail))
    || ((exists m <- ms :: m in rs && rs[m].dmarc == AuthPass) && (exists m <- ms :: m in rs && rs[m].dmarc == AuthFail))
  }

  /** The worst confidence of some members; contradictory when their authentication conflicts. */
  function GroupConfidence(rs: Records, rules: Rules, ms: set<MessageId>): Confidence {
    var values := set m | m in ms && m in rs :: ReadingOf(rs, rules, m).confidence;
    if AuthConflict(rs, ms) || values == {} then Contradictory else WorstConfidence(values)
  }

  function AggregateSubscription(values: set<Subscription>): Subscription {
    if PossibleBreach in values then PossibleBreach
    else if |values| == 1 then
      SingletonUnique(values);
      var v :| v in values;
      v
    else if values <= {Confirmed, Probable} then Probable
    else UnknownSubscription
  }

  // ----------------------------------------------------------------- result

  function MessageResult(rs: Records, rules: Rules, m: MessageId): ClassifiedMessage
    requires m in rs
  {
    var d := ReadingOf(rs, rules, m);
    ClassifiedMessage(d.source, FlowOf(rs, rules, m), d.rubro, d.intent, d.subscription, d.confidence)
  }

  /** A flow as its members describe it; any member would give the same description. */
  function FlowResult(rs: Records, rules: Rules, m: MessageId): ClassifiedFlow
    requires m in rs
  {
    var d, ms := ReadingOf(rs, rules, m), FlowMembers(rs, rules, FlowOf(rs, rules, m));
    ClassifiedFlow(d.source, FlowDescriptorOf(rs[m], d, m), rules.flowTitle(d.intent), ms, d.intent,
                   AggregateSubscription(set x | x in ms && x in rs :: rs[x].subscription), GroupConfidence(rs, rules, ms))
  }

  function SourceResult(rs: Records, rules: Rules, m: MessageId): ClassifiedSource
    requires m in rs
  {
    var ms := GroupOf(rs, m);
    ClassifiedSource(DescriptorFor(rs, ms), rules.title(ms), ms, (set x | x in ms && x in rs :: FlowOf(rs, rules, x)),
                     rules.rubro(ms), GroupConfidence(rs, rules, ms))
  }

  function FlowMap(rs: Records, rules: Rules): map<MessageId, FlowId> {
    map m | m in rs :: FlowOf(rs, rules, m)
  }

  function SourceMap(rs: Records, rules: Rules): map<MessageId, SourceId> {
    map m | m in rs :: ReadingOf(rs, rules, m).source
  }

  /** The classification of some records: a function of the set of records, not of their order. */
  ghost function Classified(rs: Records, rules: Rules): Classification {
    Classification(
      map m | m in rs :: MessageResult(rs, rules, m),
      map s | s in SourceMap(rs, rules).Values && KeyFor(SourceMap(rs, rules), s) in rs ::
        SourceResult(rs, rules, KeyFor(SourceMap(rs, rules), s)),
      map f | f in FlowMap(rs, rules).Values && KeyFor(FlowMap(rs, rules), f) in rs ::
        FlowResult(rs, rules, KeyFor(FlowMap(rs, rules), f)))
  }
}
