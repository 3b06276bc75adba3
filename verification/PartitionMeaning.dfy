/** When the groups of a partition fit its source, told from the records and the classification. */
module PartitionMeaning {
  import opened Basics
  import opened MailModel
  import opened PolicyModel
  import opened StructuralPolicy

  /** A message from a sender that its automatic source knows. */
  ghost predicate SentBy(snap: Snapshot, a: Address, m: MessageId) {
    && m in snap.records && m in snap.classified.messages && snap.classified.messages[m].source in snap.classified.sources
    && snap.records[m].sender == Some(a)
    && var d := snap.classified.sources[snap.classified.messages[m].source].descriptor;
       d.Senders? && a in d.addresses
  }

  /** A message that a partition anchor names: by its sender, by its automatic flow or by itself. */
  ghost predicate NamedBy(snap: Snapshot, a: PartitionAnchor, m: MessageId) {
    && m in snap.records && m in snap.classified.messages
    && snap.classified.messages[m].source in snap.classified.sources && snap.classified.messages[m].flow in snap.classified.flows
    && match a
       case SenderAnchor(s) => SentBy(snap, s, m)
       case FlowAnchor(fd) => snap.classified.flows[snap.classified.messages[m].flow].descriptor == fd
       case MessageAnchor(x) => m == x
  }

  lemma MatchesMeans(snap: Snapshot, a: PartitionAnchor, m: MessageId)
    requires snap.Valid() && m in snap.records
    ensures Matches(snap, a, m) <==> NamedBy(snap, a, m)
  {
    if a.FlowAnchor? {
      if Matches(snap, a, m) {
        var f :| f in snap.classified.flows && snap.classified.flows[f].descriptor == a.flow && m in snap.classified.flows[f].messages;
        assert snap.classified.messages[m].flow == f;
      }
      if NamedBy(snap, a, m) {
        assert m in snap.classified.flows[snap.classified.messages[m].flow].messages;
      }
    }
  }

  /** A message of an automatic source. */
  ghost predicate OfAutomatic(snap: Snapshot, x: SourceDescriptor, m: MessageId) {
    && m in snap.records && m in snap.classified.messages && snap.classified.messages[m].source in snap.classified.sources
    && snap.classified.sources[snap.classified.messages[m].source].descriptor == x
  }

  lemma OfAutomaticMeans(snap: Snapshot, x: SourceDescriptor, m: MessageId)
    requires snap.Valid()
    ensures m in MessagesOf(snap, Automatic(x)) <==> OfAutomatic(snap, x, m)
  {
  }

  /** What an anchor names of an automatic source. */
  ghost function NamedIn(snap: Snapshot, x: SourceDescriptor, a: PartitionAnchor): set<MessageId> {
    set m | m in snap.records && OfAutomatic(snap, x, m) && NamedBy(snap, a, m)
  }

  lemma AnchorMessagesMean(snap: Snapshot, x: SourceDescriptor, a: PartitionAnchor, m: MessageId)
    requires snap.Valid()
    ensures m in AnchorMessages(snap, a, MessagesOf(snap, Automatic(x))) <==> OfAutomatic(snap, x, m) && NamedBy(snap, a, m)
  {
    hide ValidClassification, Matches, NamedBy, MessagesOf;
    OfAutomaticMeans(snap, x, m);
    if m in snap.records {
      MatchesMeans(snap, a, m);
    }
  }

  // ---------------------------------------------------------------- groups

  /** Position `j` of group `i` names the message. */
  ghost predicate NamedAt(snap: Snapshot, groups: seq<seq<PartitionAnchor>>, i: int, j: int, m: MessageId) {
    0 <= i < |groups| && 0 <= j < |groups[i]| && NamedBy(snap, groups[i][j], m)
  }

  /** A message that may be named by itself: no sender is known of it, and it is alone in its automatic flow. */
  ghost predicate OneByOne(snap: Snapshot, m: MessageId) {
    && m in snap.records && m in snap.classified.messages && snap.classified.messages[m].flow in snap.classified.flows
    && (forall a :: !SentBy(snap, a, m))
    && snap.classified.flows[snap.classified.messages[m].flow].descriptor.IsolatedFlow?
  }

  /**
   The groups fit a source: each of its messages is named at exactly one position,
   every position names one of them, and only those that may be are named one by
   one.
   */
  ghost predicate GroupsFit(snap: Snapshot, x: SourceDescriptor, groups: seq<seq<PartitionAnchor>>) {
    && Covered(snap, x, groups) && NamedOnce(snap, x, groups)
    && (forall i, j :: 0 <= i < |groups| && 0 <= j < |groups[i]| ==> NamesSome(snap, x, groups[i][j]))
    && (forall i, j :: 0 <= i < |groups| && 0 <= j < |groups[i]| && groups[i][j].MessageAnchor? ==> OneByOne(snap, groups[i][j].message))
  }

  ghost predicate Covered(snap: Snapshot, x: SourceDescriptor, groups: seq<seq<PartitionAnchor>>) {
    forall m :: OfAutomatic(snap, x, m) ==> exists i, j :: NamedAt(snap, groups, i, j, m)
  }

  ghost predicate NamedOnce(snap: Snapshot, x: SourceDescriptor, groups: seq<seq<PartitionAnchor>>) {
    forall m, i, j, k, l :: OfAutomatic(snap, x, m) && NamedAt(snap, groups, i, j, m) && NamedAt(snap, groups, k, l, m) ==>
      i == k && j == l
  }

  ghost predicate NamesSome(snap: Snapshot, x: SourceDescriptor, a: PartitionAnchor) {
    exists m :: OfAutomatic(snap, x, m) && NamedBy(snap, a, m)
  }

  lemma FallbackMeans(snap: Snapshot, a: PartitionAnchor)
    requires snap.Valid()
    ensures FallbackOnly(snap, a) <==> !a.MessageAnchor? || OneByOne(snap, a.message)
  {
    if a.MessageAnchor? && a.message in snap.records && CanonicalSender(snap, a.message).Some? {
      assert SentBy(snap, CanonicalSender(snap, a.message).value, a.message);
    }
  }

  lemma NamesSomeMeans(snap: Snapshot, x: SourceDescriptor, a: PartitionAnchor)
    requires snap.Valid()
    ensures AnchorMessages(snap, a, MessagesOf(snap, Automatic(x))) != {} <==> NamesSome(snap, x, a)
  {
    hide ValidClassification, MessagesOf, AnchorMessages, OfAutomatic, NamedBy;
    var named := AnchorMessages(snap, a, MessagesOf(snap, Automatic(x)));
    forall m ensures m in named <==> OfAutomatic(snap, x, m) && NamedBy(snap, a, m) {
      AnchorMessagesMean(snap, x, a, m);
    }
    if named != {} {
      var m := SomeMember(named);
    }
  }

  lemma GroupMessagesMean(snap: Snapshot, x: SourceDescriptor, groups: seq<seq<PartitionAnchor>>, i: nat, m: MessageId)
    requires snap.Valid() && i < |groups|
    ensures m in GroupMessages(snap, groups[i], MessagesOf(snap, Automatic(x))) <==>
      OfAutomatic(snap, x, m) && exists j :: NamedAt(snap, groups, i, j, m)
  {
    hide ValidClassification, MessagesOf, AnchorMessages, OfAutomatic, NamedBy;
    var ms := MessagesOf(snap, Automatic(x));
    OfAutomaticMeans(snap, x, m);
    forall j | 0 <= j < |groups[i]|
      ensures m in AnchorMessages(snap, groups[i][j], ms) <==> OfAutomatic(snap, x, m) && NamedBy(snap, groups[i][j], m)
    {
      AnchorMessagesMean(snap, x, groups[i][j], m);
    }
    if m in GroupMessages(snap, groups[i], ms) {
      var a :| a in groups[i] && m in AnchorMessages(snap, a, ms);
      var j :| 0 <= j < |groups[i]| && groups[i][j] == a;
      assert NamedAt(snap, groups, i, j, m);
    }
    if j :| OfAutomatic(snap, x, m) && NamedAt(snap, groups, i, j, m) {
      assert groups[i][j] in groups[i];
    }
  }

  /** The three checks of a partition, against the messages of its source, are that its groups fit. */
  lemma GroupsFitMeans(snap: Snapshot, x: SourceDescriptor, groups: seq<seq<PartitionAnchor>>)
    requires snap.Valid() && forall g <- groups :: g != []
    ensures var ms := MessagesOf(snap, Automatic(x));
      GroupsFit(snap, x, groups) <==>
        && (forall g <- groups, a <- g :: FallbackOnly(snap, a))
        && GroupsResolve(snap, groups, ms)
        && (forall g <- groups, a <- g :: AnchorMessages(snap, a, ms) != {})
  {
    hide ValidClassification, MessagesOf, AnchorMessages, OfAutomatic, NamedBy, GroupMessages, FallbackOnly, OneByOne, NamesSome, GroupsResolve,
      Covered, NamedOnce;
    var ms := MessagesOf(snap, Automatic(x));
    forall a ensures AnchorMessages(snap, a, ms) != {} <==> NamesSome(snap, x, a) {
      NamesSomeMeans(snap, x, a);
    }
    forall a ensures FallbackOnly(snap, a) <==> !a.MessageAnchor? || OneByOne(snap, a.message) {
      FallbackMeans(snap, a);
    }
    ByPosition(groups, a => FallbackOnly(snap, a));
    ByPosition(groups, a => AnchorMessages(snap, a, ms) != {});
    if forall g <- groups, a <- g :: AnchorMessages(snap, a, ms) != {} {
      ResolveMeans(snap, x, groups);
    }
  }

  lemma ByPosition(groups: seq<seq<PartitionAnchor>>, p: PartitionAnchor -> bool)
    ensures (forall g <- groups, a <- g :: p(a)) <==> forall i, j :: 0 <= i < |groups| && 0 <= j < |groups[i]| ==> p(groups[i][j])
  {
    if forall g <- groups, a <- g :: p(a) {
      forall i, j | 0 <= i < |groups| && 0 <= j < |groups[i]| ensures p(groups[i][j]) {
        assert groups[i] in groups && groups[i][j] in groups[i];
      }
    }
    if forall i, j :: 0 <= i < |groups| && 0 <= j < |groups[i]| ==> p(groups[i][j]) {
      forall g, a | g in groups && a in g ensures p(a) {
        var i :| 0 <= i < |groups| && groups[i] == g;
        var j :| 0 <= j < |groups[i]| && groups[i][j] == a;
      }
    }
  }

  /** With an anchor that names something in every group, the groups resolve exactly when each message is named at one position. */
  lemma ResolveMeans(snap: Snapshot, x: SourceDescriptor, groups: seq<seq<PartitionAnchor>>)
    requires snap.Valid() && forall g <- groups :: g != []
    requires forall g <- groups, a <- g :: AnchorMessages(snap, a, MessagesOf(snap, Automatic(x))) != {}
    ensures GroupsResolve(snap, groups, MessagesOf(snap, Automatic(x))) <==> Covered(snap, x, groups) && NamedOnce(snap, x, groups)
  {
    hide ValidClassification, MessagesOf, AnchorMessages, OfAutomatic, NamedBy, GroupMessages, GroupUnambiguous, NamedAt;
    var ms := MessagesOf(snap, Automatic(x));
    forall i, m | 0 <= i < |groups|
      ensures m in GroupMessages(snap, groups[i], ms) <==> OfAutomatic(snap, x, m) && exists j :: NamedAt(snap, groups, i, j, m)
    {
      GroupMessagesMean(snap, x, groups, i, m);
    }
    forall m ensures m in ms <==> OfAutomatic(snap, x, m) {
      OfAutomaticMeans(snap, x, m);
    }
    CoveredMeans(snap, x, groups, ms);
    if GroupsResolve(snap, groups, ms) {
      ResolvedOnce(snap, x, groups, ms);
    }
    if NamedOnce(snap, x, groups) && Covered(snap, x, groups) {
      OnceResolves(snap, x, groups, ms);
    }
  }

  lemma CoveredMeans(snap: Snapshot, x: SourceDescriptor, groups: seq<seq<PartitionAnchor>>, ms: set<MessageId>)
    requires snap.Valid() && forall m :: m in ms <==> OfAutomatic(snap, x, m)
    requires Sorted(snap, x, groups, ms)
    ensures Covered(snap, x, groups) <==> forall m <- ms :: exists i :: 0 <= i < |groups| && m in GroupMessages(snap, groups[i], ms)
  {
    hide ValidClassification, OfAutomatic, NamedBy, GroupMessages;
    if Covered(snap, x, groups) {
      forall m | m in ms ensures exists i :: 0 <= i < |groups| && m in GroupMessages(snap, groups[i], ms) {
        var i, j :| NamedAt(snap, groups, i, j, m);
        assert m in GroupMessages(snap, groups[i], ms);
      }
    }
  }

  /** The groups hold what is named in them. */
  ghost predicate Sorted(snap: Snapshot, x: SourceDescriptor, groups: seq<seq<PartitionAnchor>>, ms: set<MessageId>)
    requires snap.Valid()
  {
    forall i, m :: 0 <= i < |groups| ==>
      (m in GroupMessages(snap, groups[i], ms) <==> OfAutomatic(snap, x, m) && exists j :: NamedAt(snap, groups, i, j, m))
  }

  lemma ResolvedOnce(snap: Snapshot, x: SourceDescriptor, groups: seq<seq<PartitionAnchor>>, ms: set<MessageId>)
    requires snap.Valid() && ms == MessagesOf(snap, Automatic(x)) && Sorted(snap, x, groups, ms) && GroupsResolve(snap, groups, ms)
    ensures NamedOnce(snap, x, groups)
  {
    hide ValidClassification, OfAutomatic, NamedBy, GroupMessages, AnchorMessages, MessagesOf;
    forall m, i, j, k, l | OfAutomatic(snap, x, m) && NamedAt(snap, groups, i, j, m) && NamedAt(snap, groups, k, l, m)
      ensures i == k && j == l
    {
      assert m in GroupMessages(snap, groups[i], ms) && m in GroupMessages(snap, groups[k], ms);
      assert i == k;
      AnchorMessagesMean(snap, x, groups[i][j], m);
      AnchorMessagesMean(snap, x, groups[i][l], m);
      assert GroupUnambiguous(snap, groups[i], ms);
    }
  }

  lemma OnceResolves(snap: Snapshot, x: SourceDescriptor, groups: seq<seq<PartitionAnchor>>, ms: set<MessageId>)
    requires snap.Valid() && ms == MessagesOf(snap, Automatic(x)) && Sorted(snap, x, groups, ms)
    requires forall m <- ms :: exists i :: 0 <= i < |groups| && m in GroupMessages(snap, groups[i], ms)
    requires forall g <- groups :: g != []
    requires forall g <- groups, a <- g :: AnchorMessages(snap, a, ms) != {}
    requires NamedOnce(snap, x, groups)
    ensures GroupsResolve(snap, groups, ms)
  {
    hide ValidClassification, OfAutomatic, NamedBy, AnchorMessages, MessagesOf;
    forall i | 0 <= i < |groups|
      ensures GroupUnambiguous(snap, groups[i], ms) && GroupMessages(snap, groups[i], ms) != {}
    {
      Unambiguous(snap, x, groups, i);
      assert groups[i] in groups && groups[i][0] in groups[i];
      var m := SomeMember(AnchorMessages(snap, groups[i][0], ms));
      AnchorMessagesMean(snap, x, groups[i][0], m);
      assert NamedAt(snap, groups, i, 0, m);
    }
    forall i, j | 0 <= i < j < |groups| ensures GroupMessages(snap, groups[i], ms) !! GroupMessages(snap, groups[j], ms) {
      Apart(snap, x, groups, ms, i, j);
    }
  }

  lemma Unambiguous(snap: Snapshot, x: SourceDescriptor, groups: seq<seq<PartitionAnchor>>, i: nat)
    requires snap.Valid() && i < |groups| && NamedOnce(snap, x, groups)
    ensures GroupUnambiguous(snap, groups[i], MessagesOf(snap, Automatic(x)))
  {
    hide ValidClassification, OfAutomatic, NamedBy, AnchorMessages, MessagesOf;
    var g, ms := groups[i], MessagesOf(snap, Automatic(x));
    forall j, k | 0 <= j < k < |g| ensures AnchorMessages(snap, g[j], ms) !! AnchorMessages(snap, g[k], ms) {
      forall m | m in AnchorMessages(snap, g[j], ms) ensures m !in AnchorMessages(snap, g[k], ms) {
        AnchorMessagesMean(snap, x, g[j], m);
        AnchorMessagesMean(snap, x, g[k], m);
        assert NamedAt(snap, groups, i, j, m);
        assert NamedAt(snap, groups, i, k, m) <==> NamedBy(snap, g[k], m);
      }
    }
  }

  lemma Apart(snap: Snapshot, x: SourceDescriptor, groups: seq<seq<PartitionAnchor>>, ms: set<MessageId>, i: nat, j: nat)
    requires snap.Valid() && i < j < |groups| && Sorted(snap, x, groups, ms) && NamedOnce(snap, x, groups)
    ensures GroupMessages(snap, groups[i], ms) !! GroupMessages(snap, groups[j], ms)
  {
    hide ValidClassification, OfAutomatic, NamedBy, GroupMessages, NamedAt;
    forall m | m in GroupMessages(snap, groups[i], ms) ensures m !in GroupMessages(snap, groups[j], ms) {
      assert OfAutomatic(snap, x, m) && exists k :: NamedAt(snap, groups, i, k, m);
    }
  }
}
