/** One structural policy at a time: what a merge or a partition does to the table of sources. */
module StructuralFold {
  import opened Basics
  import opened MailModel
  import opened PolicyModel
  import opened StructuralPolicy
  import opened StructuralSafety

  /** The automatic selectors a command takes out of the table. */
  function ConsumedKeys(c: Command): set<SourceSelector> {
    set x | x in StructuralDescriptors(c) :: Automatic(x)
  }

  /** The messages of some participants, as found in a table. */
  function JoinedMessages(ds: seq<SourceDescriptor>, table: SourceTable): set<MessageId> {
    set x, m | x in ds && Automatic(x) in table && m in table[Automatic(x)].messages :: m
  }

  /** The automatic sources of some participants, as found in a table. */
  function JoinedIds(ds: seq<SourceDescriptor>, table: SourceTable): set<SourceId> {
    set x, s | x in ds && Automatic(x) in table && s in table[Automatic(x)].automatic :: s
  }

  lemma JoinedStep(ds: seq<SourceDescriptor>, table: SourceTable, i: nat)
    requires i < |ds| && Automatic(ds[i]) in table
    ensures JoinedMessages(ds[..i + 1], table) == JoinedMessages(ds[..i], table) + table[Automatic(ds[i])].messages
    ensures JoinedIds(ds[..i + 1], table) == JoinedIds(ds[..i], table) + table[Automatic(ds[i])].automatic
  {
    assert ds[..i + 1] == ds[..i] + [ds[i]];
    assert forall x :: x in ds[..i + 1] <==> x in ds[..i] || x == ds[i];
    var k := Automatic(ds[i]);
    forall m | m in table[k].messages ensures m in JoinedMessages(ds[..i + 1], table) {
      assert ds[i] in ds[..i + 1];
    }
    forall s | s in table[k].automatic ensures s in JoinedIds(ds[..i + 1], table) {
      assert ds[i] in ds[..i + 1];
    }
  }

  /** The product of a merge, computed from the participants found in the table. */
  function MergedState(snap: Snapshot, c: Command, table: SourceTable, d: DecisionId): SourceState
    requires c.MergeSources?
  {
    MakeState(snap, Merged(Elements(c.participants)), JoinedMessages(c.participants, table), JoinedIds(c.participants, table), {d})
  }

  /** The selector of one group of a partition. */
  function GroupKey(c: Command, i: nat): SourceSelector
    requires c.PartitionSource? && i < |c.groups|
  {
    PartitionGroup(c.target, Elements(c.groups[i]))
  }

  lemma ProductsAreGroups(c: Command, k: SourceSelector)
    requires c.PartitionSource?
    ensures k in Products(c) <==> exists i :: 0 <= i < |c.groups| && k == GroupKey(c, i)
  {
    if k in Products(c) {
      var g :| g in c.groups && k == PartitionGroup(c.target, Elements(g));
      var i :| 0 <= i < |c.groups| && c.groups[i] == g;
      assert k == GroupKey(c, i);
    }
  }

  /** The groups of a valid partition have selectors of their own. */
  lemma GroupKeysDistinct(c: Command, i: nat, j: nat)
    requires c.PartitionSource? && c.Valid() && i < |c.groups| && j < |c.groups| && GroupKey(c, i) == GroupKey(c, j)
    ensures i == j
  {
    assert c.groups[i] in c.groups;
    assert c.groups[i][0] in Elements(c.groups[i]);
  }

  /** The state of one partition group, computed from the partitioned source. */
  function GroupState(snap: Snapshot, c: Command, i: nat, target: SourceState, d: DecisionId): SourceState
    requires snap.Valid() && c.PartitionSource? && i < |c.groups|
  {
    MakeState(snap, GroupKey(c, i), GroupMessages(snap, c.groups[i], target.messages),
              target.automatic, {d})
  }

  lemma MergedStateIsProduct(snap: Snapshot, c: Command, table: SourceTable, d: DecisionId)
    requires snap.Valid() && c.MergeSources?
    requires forall x <- c.participants ::
      && Automatic(x) in table
      && table[Automatic(x)].messages == MessagesOf(snap, Automatic(x))
      && table[Automatic(x)].automatic == AutomaticIds(snap, Automatic(x))
    ensures MergedState(snap, c, table, d) == StateOf(snap, Merged(Elements(c.participants)), {d})
  {
    hide ValidClassification, MakeState;
    var k := Merged(Elements(c.participants));
    var ms, ids := JoinedMessages(c.participants, table), JoinedIds(c.participants, table);
    forall m | m in MessagesOf(snap, k) ensures m in ms {
      var x := DescriptorOf(snap.classified, m);
      assert m in table[Automatic(x)].messages;
    }
    forall s | s in AutomaticIds(snap, k) ensures s in ids {
      var x := snap.classified.sources[s].descriptor;
      assert s in table[Automatic(x)].automatic;
    }
    assert ms == MessagesOf(snap, k);
    assert ids == AutomaticIds(snap, k);
  }

  lemma GroupStateIsProduct(snap: Snapshot, c: Command, i: nat, target: SourceState, d: DecisionId)
    requires snap.Valid() && c.PartitionSource? && i < |c.groups|
    requires target.messages == MessagesOf(snap, Automatic(c.target)) && target.automatic == AutomaticIds(snap, Automatic(c.target))
    ensures GroupState(snap, c, i, target, d) == StateOf(snap, GroupKey(c, i), {d})
  {
    hide ValidClassification, MakeState, GroupMessages;
    GroupSelectorMessages(snap, c.target, c.groups[i]);
    assert AutomaticIds(snap, PartitionGroup(c.target, Elements(c.groups[i]))) == AutomaticIds(snap, Automatic(c.target));
  }

  /** Which selectors are in the table once one more policy is applied. */
  lemma KeysStep(snap: Snapshot, ps: Policies, applied: set<DecisionId>, d: DecisionId, k: SourceSelector)
    requires snap.Valid() && Applicable(snap, ps, applied + {d}) && d !in applied
    ensures k in TableKeys(snap, ps, applied + {d}) <==>
      (k in TableKeys(snap, ps, applied) && k !in ConsumedKeys(ps[d].command)) || k in Products(ps[d].command)
  {
    hide ValidClassification, GroupsResolve, BaselineKeys;
    var c := ps[d].command;
    BaselineIsAutomaticKeys(snap);
    assert forall x :: x in Consumed(ps, applied + {d}) <==> x in Consumed(ps, applied) || x in StructuralDescriptors(c);
    if k in Products(c) { ProductDescriptors(c, k); }
    forall e | e in applied && e in ps && k in Products(ps[e].command) ensures !k.Automatic? {
      ProductDescriptors(ps[e].command, k);
    }
  }

  lemma BaselineIsAutomaticKeys(snap: Snapshot)
    ensures forall k <- BaselineKeys(snap) :: k.Automatic?
  {
  }

  /** Who created each selector, once one more policy is applied. */
  lemma DecidersStep(snap: Snapshot, ps: Policies, applied: set<DecisionId>, d: DecisionId, k: SourceSelector)
    requires snap.Valid() && Applicable(snap, ps, applied + {d}) && d !in applied
    ensures k in Products(ps[d].command) ==> Deciders(ps, applied + {d}, k) == {d}
    ensures k !in Products(ps[d].command) ==> Deciders(ps, applied + {d}, k) == Deciders(ps, applied, k)
  {
    hide ValidClassification, GroupsResolve, BaselineKeys, Products;
    if k in Products(ps[d].command) {
      forall e | e in applied + {d} && e in ps && k in Products(ps[e].command) ensures e == d {
        SameMaker(snap, ps, applied + {d}, d, e, k);
      }
    }
  }

  /** No two policies create the same selector. */
  lemma SameMaker(snap: Snapshot, ps: Policies, applied: set<DecisionId>, d: DecisionId, e: DecisionId, k: SourceSelector)
    requires snap.Valid() && Applicable(snap, ps, applied) && d in applied && e in applied
    requires k in Products(ps[d].command) && k in Products(ps[e].command)
    ensures d == e
  {
    hide ValidClassification, GroupsResolve, BaselineKeys, Products;
    ProductDescriptors(ps[d].command, k);
    ProductDescriptors(ps[e].command, k);
    SomeDescriptor(ps[d].command);
    var x := SomeMember(k.Descriptors());
  }

  lemma SomeDescriptor(c: Command)
    requires c.Structural() && c.Valid()
    ensures StructuralDescriptors(c) != {}
  {
    if c.MergeSources? { assert c.participants[0] in StructuralDescriptors(c); }
  }

  /** The targets of the next policy are still untouched automatic sources. */
  lemma TargetsUntouched(snap: Snapshot, ps: Policies, applied: set<DecisionId>, d: DecisionId, x: SourceDescriptor)
    requires snap.Valid() && Applicable(snap, ps, applied + {d}) && d !in applied
    requires x in StructuralDescriptors(ps[d].command)
    ensures Automatic(x) in TableOf(snap, ps, applied)
    ensures TableOf(snap, ps, applied)[Automatic(x)].messages == MessagesOf(snap, Automatic(x))
    ensures TableOf(snap, ps, applied)[Automatic(x)].automatic == AutomaticIds(snap, Automatic(x))
  {
    hide ValidClassification, GroupsResolve, BaselineKeys, MessagesOf, AutomaticIds;
    forall e | e in applied && e in ps ensures x !in StructuralDescriptors(ps[e].command) {
      assert e in applied + {d} && e != d;
    }
    assert Automatic(x) in TableKeys(snap, ps, applied);
  }

  /** The table after one more policy: its targets go, its products come, the rest stays. */
  lemma TableStep(snap: Snapshot, ps: Policies, applied: set<DecisionId>, d: DecisionId, next: SourceTable)
    requires snap.Valid() && Applicable(snap, ps, applied + {d}) && d !in applied
    requires forall k :: k in next <==>
      (k in TableOf(snap, ps, applied) && k !in ConsumedKeys(ps[d].command)) || k in Products(ps[d].command)
    requires forall k <- next :: k !in Products(ps[d].command) ==> next[k] == TableOf(snap, ps, applied)[k]
    requires forall k <- next :: k in Products(ps[d].command) ==> next[k] == StateOf(snap, k, {d})
    ensures next == TableOf(snap, ps, applied + {d})
  {
    hide ValidClassification, GroupsResolve, StateOf, TableKeys, Products, Deciders, Applicable;
    forall k ensures k in next <==> k in TableKeys(snap, ps, applied + {d}) {
      KeysStep(snap, ps, applied, d, k);
    }
    forall k | k in next ensures next[k] == StateOf(snap, k, Deciders(ps, applied + {d}, k)) {
      DecidersStep(snap, ps, applied, d, k);
    }
  }
}
