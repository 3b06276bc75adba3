/**
 The records, the automatic classification and its result invariants.

 Opaque identifiers (message, thread, address, list and policy identifiers) are
 integers: only their equality and their order are ever used. Every identifier
 that the source derives with SHA-256 is a datatype value built from the
 canonical key that is hashed, so that equal identifiers have equal keys.
 A canonical tuple (sorted, without duplicates) is the set of its items.
 */
module MailModel {
  import opened Basics

  type MessageId = int
  type ThreadId = int
  type Address = int
  type ListId = int

  datatype Rubro =
    | Media | Software | Commerce | Finance | Work | Health
    | Travel | Social | Household | PersonalRubro | UnknownRubro

  datatype Intent =
    | Security | Document | Operational | Notification | Editorial
    | Promotional | Personal | Suspicious | UnknownIntent

  datatype Subscription =
    | Confirmed | Probable | NotApplicable | Requested | PossibleBreach | UnknownSubscription

  datatype Confidence = High | Medium | Low | Contradictory {
    /** Position in the order from best to worst. */
    function Rank(): nat {
      match this
      case High => 0
      case Medium => 1
      case Low => 2
      case Contradictory => 3
    }
  }

  datatype Label =
    | Sent | Draft | Trash | Starred | Important | Spam | Unread
    | Inbox | TabPersonal | TabSocial | TabPromotions | TabUpdates | TabForums
    | Custom(id: int)

  datatype Record = Record(
    thread: ThreadId,
    receivedAt: int,
    sender: Option<Address>,
    labels: set<Label>,
    size: nat)

  datatype SourceDescriptor =
    | Senders(addresses: set<Address>)
    | IsolatedSource(message: MessageId)

  datatype FlowDescriptor =
    | ListIntent(source: SourceDescriptor, list: ListId, intent: Intent)
    | SenderIntent(source: SourceDescriptor, sender: Address, intent: Intent)
    | IsolatedFlow(source: SourceDescriptor, isolated: MessageId, intent: Intent)

  /** The stable identifier of a source: a digest of its first address, or of its only message. */
  datatype SourceId = SenderAnchored(first: Address) | MissingSender(message: MessageId)

  /** What separates the flows of one source. */
  datatype FlowKey =
    | ByList(list: ListId, intent: Intent)
    | BySender(sender: Address, intent: Intent)
    | ByMessage(message: MessageId)

  datatype FlowId = FlowId(source: SourceId, key: FlowKey)

  datatype ClassifiedMessage = ClassifiedMessage(
    source: SourceId,
    flow: FlowId,
    rubro: Rubro,
    intent: Intent,
    subscription: Subscription,
    confidence: Confidence)

  datatype ClassifiedSource = ClassifiedSource(
    descriptor: SourceDescriptor,
    name: string,
    messages: set<MessageId>,
    flows: set<FlowId>,
    rubro: Rubro,
    confidence: Confidence)

  datatype ClassifiedFlow = ClassifiedFlow(
    source: SourceId,
    descriptor: FlowDescriptor,
    name: string,
    messages: set<MessageId>,
    intent: Intent,
    subscription: Subscription,
    confidence: Confidence)

  datatype Classification = Classification(
    messages: map<MessageId, ClassifiedMessage>,
    sources: map<SourceId, ClassifiedSource>,
    flows: map<FlowId, ClassifiedFlow>)

  ghost predicate ReferencesKnown(c: Classification) {
    && (forall m <- c.messages :: c.messages[m].source in c.sources && c.messages[m].flow in c.flows)
    && (forall m <- c.messages :: c.flows[c.messages[m].flow].source == c.messages[m].source)
    && (forall f <- c.flows :: c.flows[f].source in c.sources)
  }

  ghost predicate DescriptorsUnique(c: Classification) {
    && (forall s, t :: s in c.sources && t in c.sources && c.sources[s].descriptor == c.sources[t].descriptor ==> s == t)
    && (forall f, g :: f in c.flows && g in c.flows && c.flows[f].descriptor == c.flows[g].descriptor ==> f == g)
  }

  ghost predicate FlowComplete(c: Classification, f: FlowId)
    requires f in c.flows && c.flows[f].source in c.sources
  {
    && c.flows[f].messages == (set m | m in c.messages && c.messages[m].flow == f)
    && c.flows[f].messages != {}
    && c.flows[f].descriptor.source == c.sources[c.flows[f].source].descriptor
    && c.flows[f].descriptor.intent == c.flows[f].intent
    && (c.flows[f].descriptor.IsolatedFlow? ==> c.flows[f].messages == {c.flows[f].descriptor.isolated})
    && (forall m <- c.flows[f].messages ::
          c.messages[m].intent == c.flows[f].intent
          && c.messages[m].confidence.Rank() <= c.flows[f].confidence.Rank())
  }

  ghost predicate FlowsComplete(c: Classification)
    requires ReferencesKnown(c)
  {
    forall f <- c.flows :: FlowComplete(c, f)
  }

  ghost predicate SourceComplete(c: Classification, s: SourceId)
    requires s in c.sources
  {
    && c.sources[s].messages == (set m | m in c.messages && c.messages[m].source == s)
    && c.sources[s].flows == (set f | f in c.flows && c.flows[f].source == s)
    && c.sources[s].messages != {}
    && (c.sources[s].descriptor.IsolatedSource? ==> c.sources[s].messages == {c.sources[s].descriptor.message})
    && (c.sources[s].descriptor.Senders? ==> c.sources[s].descriptor.addresses != {})
    && (forall m <- c.sources[s].messages ::
          c.messages[m].confidence.Rank() <= c.sources[s].confidence.Rank())
  }

  ghost predicate SourcesComplete(c: Classification) {
    forall s <- c.sources :: SourceComplete(c, s)
  }

  /** Every check of the classification result constructor. */
  ghost predicate ValidClassification(c: Classification) {
    && ReferencesKnown(c)
    && DescriptorsUnique(c)
    && FlowsComplete(c)
    && SourcesComplete(c)
  }

  /** One coherent picture: the indexed records and their classification. */
  datatype Snapshot = Snapshot(records: map<MessageId, Record>, classified: Classification) {
    ghost predicate Valid() {
      && records.Keys == classified.messages.Keys
      && ValidClassification(classified)
    }
  }

  /** The source, flow and descriptor references of a message. */
  function DescriptorOf(c: Classification, m: MessageId): SourceDescriptor
    requires ValidClassification(c) && m in c.messages
  {
    c.sources[c.messages[m].source].descriptor
  }

  function FlowIdOf(c: Classification, m: MessageId): (f: FlowId)
    requires ValidClassification(c) && m in c.messages
    ensures f in c.flows
    ensures m in c.flows[f].messages
  {
    c.messages[m].flow
  }

  function SourceIdsOf(c: Classification, ms: set<MessageId>): set<SourceId> {
    set m | m in ms && m in c.messages :: c.messages[m].source
  }

  function FlowIdsOf(c: Classification, ms: set<MessageId>): set<FlowId> {
    set m | m in ms && m in c.messages :: c.messages[m].flow
  }

  /** The common rubro of some messages, or the unknown one. */
  function CommonRubro(rubros: set<Rubro>): (r: Rubro)
    ensures rubros == {r} || (r == UnknownRubro && forall x :: rubros != {x})
  {
    if |rubros| == 1 then
      SingletonUnique(rubros);
      var r :| r in rubros;
      assert rubros == {r};
      r
    else
      UnknownRubro
  }

  lemma SingletonUnique<T>(s: set<T>)
    requires |s| == 1
    ensures forall x, y :: x in s && y in s ==> x == y
  {
    forall x, y | x in s && y in s ensures x == y {
      assert |s - {x}| == 0;
      assert y !in s - {x};
    }
  }

  /** The worst of some confidences: the source takes the maximum rank. */
  function WorstConfidence(values: set<Confidence>): (worst: Confidence)
    requires values != {}
    ensures worst in values
    ensures forall v <- values :: v.Rank() <= worst.Rank()
  {
    if Contradictory in values then Contradictory
    else if Low in values then Low
    else if Medium in values then Medium
    else
      assert High in values by { var v :| v in values; assert v.High?; }
      High
  }
}
