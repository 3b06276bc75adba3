/**
 Why the structural policies that survive conflict marking can be applied one
 after the other: their targets exist, stay disjoint, and split the messages.
 */
module StructuralSafety {
  import opened Basics
  import opened MailModel
  import opened PolicyModel
  import opened StructuralPolicy

  /** What makes a set of structural policies applicable in any order. */
  ghost predicate Applicable(snap: Snapshot, ps: Policies, applied: set<DecisionId>)
    requires snap.Valid()
  {
    && (forall d <- applied :: d in ps && ps[d].command.Structural() && ps[d].command.Valid())
    && (forall d <- applied, x <- StructuralDescriptors(ps[d].command) :: Automatic(x) in BaselineKeys(snap))
    && (forall d, e :: d in applied && e in applied && d != e ==>
          StructuralDescriptors(ps[d].command) !! StructuralDescriptors(ps[e].command))
    && (forall d <- applied :: ps[d].command.PartitionSource? ==>
          GroupsResolve(snap, ps[d].command.groups, MessagesOf(snap, Automatic(ps[d].command.target))))
  }

  /** Only a selector that is present can resolve to an applying status. */
  lemma AppliesOnlyWhenPresent(snap: Snapshot, anchor: Anchor, sel: SourceSelector, table: SourceTable)
    ensures ResolveSource(snap, anchor, sel, table).status.Applies() ==> sel in table
  {
  }

  lemma MergeTargetsPresent(snap: Snapshot, p: Policy)
    requires snap.Valid() && ValidPolicy(p) && p.command.MergeSources?
    requires MergeBinding(snap, p, Baseline(snap)).status.Applies()
    ensures forall x <- StructuralDescriptors(p.command) :: Automatic(x) in BaselineKeys(snap)
  {
    hide ValidClassification;
    var ds := p.command.participants;
    var table := Baseline(snap);
    var parts := seq(|p.anchors|, i requires 0 <= i < |p.anchors| => ResolveParticipant(snap, p.anchors[i], table));
    var statuses := seq(|parts|, i requires 0 <= i < |parts| => parts[i].status);
    CombinedApplies(statuses);
    forall x | x in StructuralDescriptors(p.command) ensures Automatic(x) in BaselineKeys(snap) {
      var i :| 0 <= i < |ds| && ds[i] == x;
      assert p.anchors[i].selector == AnchorSelectors(p.command)[i];
      assert statuses[i] in statuses;
      AppliesOnlyWhenPresent(snap, p.anchors[i], Automatic(x), table);
    }
  }

  lemma PartitionTargetPresent(snap: Snapshot, p: Policy)
    requires snap.Valid() && ValidPolicy(p) && p.command.PartitionSource?
    requires PartitionBinding(snap, p, Baseline(snap)).status.Applies()
    ensures Automatic(p.command.target) in BaselineKeys(snap)
    ensures GroupsResolve(snap, p.command.groups, MessagesOf(snap, Automatic(p.command.target)))
  {
    hide ValidClassification;
    AppliesOnlyWhenPresent(snap, p.anchors[0], Automatic(p.command.target), Baseline(snap));
  }

  lemma SharesWithItself(snap: Snapshot, x: SourceDescriptor)
    requires snap.Valid() && Automatic(x) in BaselineKeys(snap)
    ensures ShareSourceAnchor(x, x)
  {
    var s :| s in snap.classified.sources && snap.classified.sources[s].descriptor == x;
    if x.Senders? {
      assert x.addresses * x.addresses == x.addresses;
    }
  }

  /** Two policies that name one existing source are in conflict. */
  lemma SharedSourceConflicts(snap: Snapshot, ps: Policies, d: DecisionId, e: DecisionId, x: SourceDescriptor)
    requires snap.Valid() && ValidPolicies(ps)
    requires d in StructuralIds(ps) && e in StructuralIds(ps) && d != e
    requires x in StructuralDescriptors(ps[d].command) && x in StructuralDescriptors(ps[e].command)
    requires Automatic(x) in BaselineKeys(snap)
    ensures InStructuralConflict(ps, RawStructural(snap, ps), d)
  {
    hide ValidClassification;
    SharesWithItself(snap, x);
    assert HistoricalOverlap(ps[d].command, ps[e].command);
    assert StructuralOverlap(ps, RawStructural(snap, ps), d, e);
  }

  /** Policies that survive conflict marking name disjoint automatic sources that exist. */
  lemma SurvivorsApplicable(snap: Snapshot, ps: Policies)
    requires snap.Valid() && ValidPolicies(ps)
    ensures Applicable(snap, ps, Applying(snap, ps))
  {
    hide ValidClassification;
    var raw := RawStructural(snap, ps);
    var applied := Applying(snap, ps);
    forall d | d in applied
      ensures forall x <- StructuralDescriptors(ps[d].command) :: Automatic(x) in BaselineKeys(snap)
      ensures ps[d].command.PartitionSource? ==>
        GroupsResolve(snap, ps[d].command.groups, MessagesOf(snap, Automatic(ps[d].command.target)))
    {
      assert raw[d].status.Applies();
      if ps[d].command.MergeSources? {
        MergeTargetsPresent(snap, ps[d]);
      } else {
        PartitionTargetPresent(snap, ps[d]);
      }
    }
    forall d, e | d in applied && e in applied && d != e
      ensures StructuralDescriptors(ps[d].command) !! StructuralDescriptors(ps[e].command)
    {
      if !(StructuralDescriptors(ps[d].command) !! StructuralDescriptors(ps[e].command)) {
        var x := SomeCommon(StructuralDescriptors(ps[d].command), StructuralDescriptors(ps[e].command));
        SharedSourceConflicts(snap, ps, d, e, x);
      }
    }
  }

  // ------------------------------------------------ the messages stay split

  /** The messages of a partition group are those its anchors match. */
  lemma GroupSelectorMessages(snap: Snapshot, x: SourceDescriptor, group: seq<PartitionAnchor>)
    requires snap.Valid()
    ensures MessagesOf(snap, PartitionGroup(x, Elements(group)))
         == GroupMessages(snap, group, MessagesOf(snap, Automatic(x)))
  {
    hide ValidClassification;
    var whole := MessagesOf(snap, Automatic(x));
    var sel := PartitionGroup(x, Elements(group));
    forall m | m in MessagesOf(snap, sel) ensures m in GroupMessages(snap, group, whole) {
      var a :| a in sel.anchors && Matches(snap, a, m);
      assert a in group && m in AnchorMessages(snap, a, whole);
    }
    forall m | m in GroupMessages(snap, group, whole) ensures m in MessagesOf(snap, sel) {
      var a :| a in group && m in AnchorMessages(snap, a, whole);
      assert a in sel.anchors;
    }
  }

  /** A structural command whose groups split its target. */
  ghost predicate Splits(snap: Snapshot, c: Command)
    requires snap.Valid()
  {
    c.PartitionSource? ==> GroupsResolve(snap, c.groups, MessagesOf(snap, Automatic(c.target)))
  }

  lemma HoldingGroup(snap: Snapshot, groups: seq<seq<PartitionAnchor>>, allowed: set<MessageId>, m: MessageId) returns (i: nat)
    requires snap.Valid() && GroupsResolve(snap, groups, allowed) && m in allowed
    ensures i < |groups| && m in GroupMessages(snap, groups[i], allowed)
  {
    hide ValidClassification, GroupMessages, GroupUnambiguous;
    i :| 0 <= i < |groups| && m in GroupMessages(snap, groups[i], allowed);
  }

  /** Each message of a consumed source moves to a product of the policy. */
  lemma ProductHolds(snap: Snapshot, c: Command, m: MessageId) returns (k: SourceSelector)
    requires snap.Valid() && Splits(snap, c) && m in snap.records
    requires DescriptorOf(snap.classified, m) in StructuralDescriptors(c)
    ensures k in Products(c) && m in MessagesOf(snap, k)
  {
    hide ValidClassification;
    if c.MergeSources? {
      k := Merged(Elements(c.participants));
    } else {
      var whole := MessagesOf(snap, Automatic(c.target));
      assert m in whole;
      var i := HoldingGroup(snap, c.groups, whole, m);
      hide GroupsResolve, GroupMessages, MessagesOf;
      GroupSelectorMessages(snap, c.target, c.groups[i]);
      k := PartitionGroup(c.target, Elements(c.groups[i]));
    }
  }

  lemma GroupUnique(snap: Snapshot, groups: seq<seq<PartitionAnchor>>, allowed: set<MessageId>, i: nat, j: nat, m: MessageId)
    requires snap.Valid() && GroupsResolve(snap, groups, allowed)
    requires i < |groups| && j < |groups|
    requires m in GroupMessages(snap, groups[i], allowed) && m in GroupMessages(snap, groups[j], allowed)
    ensures i == j
  {
    hide ValidClassification, GroupMessages, GroupUnambiguous;
  }

  lemma GroupNonEmpty(snap: Snapshot, groups: seq<seq<PartitionAnchor>>, allowed: set<MessageId>, i: nat)
    requires snap.Valid() && GroupsResolve(snap, groups, allowed) && i < |groups|
    ensures GroupMessages(snap, groups[i], allowed) != {}
  {
    hide ValidClassification, GroupMessages, GroupUnambiguous;
  }

  /** No message is in two products of one policy. */
  lemma ProductUnique(snap: Snapshot, c: Command, m: MessageId, k: SourceSelector, l: SourceSelector)
    requires snap.Valid() && Splits(snap, c)
    requires k in Products(c) && l in Products(c) && m in MessagesOf(snap, k) && m in MessagesOf(snap, l)
    ensures k == l
  {
    hide ValidClassification, GroupsResolve, GroupMessages, MessagesOf;
    if c.PartitionSource? {
      var i :| 0 <= i < |c.groups| && k == PartitionGroup(c.target, Elements(c.groups[i]));
      var j :| 0 <= j < |c.groups| && l == PartitionGroup(c.target, Elements(c.groups[j]));
      GroupSelectorMessages(snap, c.target, c.groups[i]);
      GroupSelectorMessages(snap, c.target, c.groups[j]);
      GroupUnique(snap, c.groups, MessagesOf(snap, Automatic(c.target)), i, j, m);
    }
  }

  lemma ProductDescriptors(c: Command, k: SourceSelector)
    requires k in Products(c)
    ensures k.Descriptors() == StructuralDescriptors(c) && !k.Automatic?
  {
  }

  lemma MessageHasSource(snap: Snapshot, ps: Policies, applied: set<DecisionId>, m: MessageId)
    returns (k: SourceSelector)
    requires snap.Valid() && Applicable(snap, ps, applied) && m in snap.records
    ensures k in TableKeys(snap, ps, applied) && m in MessagesOf(snap, k)
  {
    var x := DescriptorOf(snap.classified, m);
    assert snap.classified.messages[m].source in snap.classified.sources;
    hide ValidClassification;
    if x !in Consumed(ps, applied) {
      k := Automatic(x);
    } else {
      var d :| d in applied && d in ps && x in StructuralDescriptors(ps[d].command);
      k := ProductHolds(snap, ps[d].command, m);
    }
  }

  lemma NotFromProduct(snap: Snapshot, ps: Policies, applied: set<DecisionId>, x: SourceDescriptor, k: SourceSelector)
    requires x !in Consumed(ps, applied) && k in TableKeys(snap, ps, applied) && x in k.Descriptors()
    ensures k == Automatic(x)
  {
    if k !in BaselineKeys(snap) {
      var d :| d in applied && d in ps && k in Products(ps[d].command);
      ProductDescriptors(ps[d].command, k);
    }
  }

  lemma FromProductOf(snap: Snapshot, ps: Policies, applied: set<DecisionId>, d: DecisionId,
                      x: SourceDescriptor, k: SourceSelector)
    requires snap.Valid() && Applicable(snap, ps, applied) && d in applied
    requires x in StructuralDescriptors(ps[d].command)
    requires k in TableKeys(snap, ps, applied) && x in k.Descriptors()
    ensures k in Products(ps[d].command)
  {
    hide ValidClassification;
    hide GroupsResolve;
    assert x in Consumed(ps, applied);
    var e :| e in applied && e in ps && k in Products(ps[e].command);
    ProductDescriptors(ps[e].command, k);
  }

  lemma MessageSourceUnique(snap: Snapshot, ps: Policies, applied: set<DecisionId>, m: MessageId,
                            k: SourceSelector, l: SourceSelector)
    requires snap.Valid() && Applicable(snap, ps, applied)
    requires k in TableKeys(snap, ps, applied) && m in MessagesOf(snap, k)
    requires l in TableKeys(snap, ps, applied) && m in MessagesOf(snap, l)
    ensures k == l
  {
    hide ValidClassification;
    hide GroupsResolve;
    var x := DescriptorOf(snap.classified, m);
    if x !in Consumed(ps, applied) {
      NotFromProduct(snap, ps, applied, x, k);
      NotFromProduct(snap, ps, applied, x, l);
    } else {
      var d :| d in applied && d in ps && x in StructuralDescriptors(ps[d].command);
      FromProductOf(snap, ps, applied, d, x, k);
      FromProductOf(snap, ps, applied, d, x, l);
      ProductUnique(snap, ps[d].command, m, k, l);
    }
  }

  /** The effective sources always split the classified messages into non-empty parts. */
  lemma TableSplitsMessages(snap: Snapshot, ps: Policies, applied: set<DecisionId>)
    requires snap.Valid() && Applicable(snap, ps, applied)
    ensures forall m <- snap.records :: exists k <- TableOf(snap, ps, applied) :: m in TableOf(snap, ps, applied)[k].messages
    ensures forall k, l :: k in TableOf(snap, ps, applied) && l in TableOf(snap, ps, applied) && k != l ==>
      TableOf(snap, ps, applied)[k].messages !! TableOf(snap, ps, applied)[l].messages
    ensures forall k <- TableOf(snap, ps, applied) ::
      TableOf(snap, ps, applied)[k].messages != {} && TableOf(snap, ps, applied)[k].messages <= snap.records.Keys
  {
    hide ValidClassification;
    var table := TableOf(snap, ps, applied);
    forall m | m in snap.records ensures exists k <- table :: m in table[k].messages {
      var k := MessageHasSource(snap, ps, applied, m);
      assert k in table;
    }
    forall k, l | k in table && l in table && k != l ensures table[k].messages !! table[l].messages {
      if !(table[k].messages !! table[l].messages) {
        var m := SomeCommon(table[k].messages, table[l].messages);
        MessageSourceUnique(snap, ps, applied, m, k, l);
      }
    }
    forall k | k in table ensures table[k].messages != {} {
      KeyHasMessage(snap, ps, applied, k);
    }
  }

  lemma DescriptorHasMessage(snap: Snapshot, x: SourceDescriptor)
    requires snap.Valid() && Automatic(x) in BaselineKeys(snap)
    ensures MessagesOf(snap, Automatic(x)) != {}
  {
    var s :| s in snap.classified.sources && x == snap.classified.sources[s].descriptor;
    AutomaticState(snap, s);
  }

  lemma KeyHasMessage(snap: Snapshot, ps: Policies, applied: set<DecisionId>, k: SourceSelector)
    requires snap.Valid() && Applicable(snap, ps, applied) && k in TableKeys(snap, ps, applied)
    ensures MessagesOf(snap, k) != {}
  {
    hide ValidClassification, GroupsResolve, GroupMessages;
    if k in BaselineKeys(snap) {
      DescriptorHasMessage(snap, k.source);
    } else {
      var d :| d in applied && d in ps && k in Products(ps[d].command);
      var c := ps[d].command;
      if c.MergeSources? {
        var x := c.participants[0];
        assert x in StructuralDescriptors(c);
        DescriptorHasMessage(snap, x);
        var m :| m in MessagesOf(snap, Automatic(x));
        assert m in MessagesOf(snap, k);
      } else {
        var i :| 0 <= i < |c.groups| && k == PartitionGroup(c.target, Elements(c.groups[i]));
        GroupSelectorMessages(snap, c.target, c.groups[i]);
        GroupNonEmpty(snap, c.groups, MessagesOf(snap, Automatic(c.target)), i);
      }
    }
  }
}
