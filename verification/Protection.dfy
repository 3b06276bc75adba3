/** Why each message is protected, and how a conversation protects all its members. */
module Protection {
  import opened Basics
  import opened MailModel
  import opened PolicyModel
  import opened StructuralPolicy
  import opened EffectiveFlows

  datatype Reason =
    | IsSent | IsDraft | IsTrash | IsStarred | IsImportant | ProtectedLabel
    | IsSecurity | IsDocument | IsPersonal | LowConfidence | Contradiction
    | MixedConversation | ManualPolicy | PolicyReview

  datatype Category = Ordinary | ReviewNeeded | ChosenByUser | Documentary | Critical {
    /** Position in the order from weakest to strongest. */
    function Rank(): nat {
      match this
      case Ordinary => 0
      case ReviewNeeded => 1
      case ChosenByUser => 2
      case Documentary => 3
      case Critical => 4
    }
  }

  type Reasons = map<MessageId, set<Reason>>

  function AutomaticReasons(record: Record, message: ClassifiedMessage): set<Reason> {
    (if Sent in record.labels then {IsSent} else {})
    + (if Draft in record.labels then {IsDraft} else {})
    + (if Trash in record.labels then {IsTrash} else {})
    + (if Starred in record.labels then {IsStarred} else {})
    + (if Important in record.labels then {IsImportant} else {})
    + (if message.intent == Security then {IsSecurity} else {})
    + (if message.intent == Document then {IsDocument} else {})
    + (if message.intent == Personal then {IsPersonal} else {})
    + (if message.confidence == Low then {LowConfidence} else {})
    + (if message.confidence == Contradictory then {Contradiction} else {})
  }

  function CategoryOf(reasons: set<Reason>): Category {
    if IsSecurity in reasons || IsPersonal in reasons then Critical
    else if IsDocument in reasons then Documentary
    else if reasons * {IsSent, IsDraft, IsTrash, IsStarred, IsImportant, ProtectedLabel, ManualPolicy} != {} then ChosenByUser
    else if reasons != {} then ReviewNeeded
    else Ordinary
  }

  function HardExcluded(reasons: set<Reason>): bool {
    IsSent in reasons || IsDraft in reasons || IsTrash in reasons
  }

  /** More reasons never lower the category. */
  lemma CategoryMonotone(a: set<Reason>, b: set<Reason>)
    requires a <= b
    ensures CategoryOf(a).Rank() <= CategoryOf(b).Rank()
    ensures HardExcluded(a) ==> HardExcluded(b)
  {
  }

  // ------------------------------------------------------------ conversations

  /** Some message of the thread has a reason and some message has none. */
  predicate Mixed(snap: Snapshot, reasons: Reasons, t: ThreadId) {
    && (exists m <- reasons :: m in snap.records && snap.records[m].thread == t && reasons[m] != {})
    && (exists m <- reasons :: m in snap.records && snap.records[m].thread == t && reasons[m] == {})
  }

  function MixedMark(snap: Snapshot, reasons: Reasons, m: MessageId): set<Reason>
    requires m in snap.records
  {
    if Mixed(snap, reasons, snap.records[m].thread) then {MixedConversation} else {}
  }

  /** One pass that marks every member of a mixed conversation. */
  function Spread(snap: Snapshot, reasons: Reasons): Reasons
    requires reasons.Keys <= snap.records.Keys
  {
    map m | m in reasons :: reasons[m] + MixedMark(snap, reasons, m)
  }

  /** After a pass a message has a reason exactly when some member of its thread had one before. */
  lemma SpreadCloses(snap: Snapshot, reasons: Reasons, m: MessageId)
    requires reasons.Keys <= snap.records.Keys && m in reasons
    ensures Spread(snap, reasons)[m] != {} <==>
      exists n <- reasons :: snap.records[n].thread == snap.records[m].thread && reasons[n] != {}
  {
    if reasons[m] == {} && exists n <- reasons :: snap.records[n].thread == snap.records[m].thread && reasons[n] != {} {
      assert Mixed(snap, reasons, snap.records[m].thread);
      assert MixedConversation in Spread(snap, reasons)[m];
    }
  }

  /** After a pass each thread is entirely protected or entirely unprotected. */
  lemma SpreadUniform(snap: Snapshot, reasons: Reasons, m: MessageId, n: MessageId)
    requires reasons.Keys <= snap.records.Keys && m in reasons && n in reasons
    requires snap.records[m].thread == snap.records[n].thread
    ensures Spread(snap, reasons)[m] != {} <==> Spread(snap, reasons)[n] != {}
  {
    SpreadCloses(snap, reasons, m);
    SpreadCloses(snap, reasons, n);
  }

  /** A conversation of two messages, one of which has a reason: once the other has one too, the mixed mark is gone. */
  lemma MarkVanishes(c: Classification, record: Record)
    ensures var snap := Snapshot(map[1 := record, 2 := record], c);
      var one: Reasons, both: Reasons := map[1 := {ManualPolicy}, 2 := {}], map[1 := {ManualPolicy}, 2 := {ManualPolicy}];
      && Spread(snap, one) == map[1 := {ManualPolicy, MixedConversation}, 2 := {MixedConversation}]
      && Spread(snap, both) == both
  {
    var snap := Snapshot(map[1 := record, 2 := record], c);
    var one: Reasons, both: Reasons := map[1 := {ManualPolicy}, 2 := {}], map[1 := {ManualPolicy}, 2 := {ManualPolicy}];
    assert ManualPolicy in one[1] && 1 in snap.records && snap.records[1].thread == record.thread;
    assert one[2] == {} && 2 in snap.records && snap.records[2].thread == record.thread;
    assert Mixed(snap, one, record.thread);
    assert Spread(snap, one)[1] == {ManualPolicy, MixedConversation} && Spread(snap, one)[2] == {MixedConversation};
    assert ManualPolicy in both[1] && ManualPolicy in both[2];
    assert !Mixed(snap, both, record.thread);
    assert Spread(snap, both)[1] == both[1] && Spread(snap, both)[2] == both[2];
  }

  /** A second pass changes nothing. */
  lemma SpreadIdempotent(snap: Snapshot, reasons: Reasons)
    requires reasons.Keys <= snap.records.Keys
    ensures Spread(snap, Spread(snap, reasons)) == Spread(snap, reasons)
  {
    var once := Spread(snap, reasons);
    forall m | m in once ensures Spread(snap, once)[m] == once[m] {
      if Mixed(snap, once, snap.records[m].thread) {
        var a :| a in once && a in snap.records && snap.records[a].thread == snap.records[m].thread && once[a] != {};
        var b :| b in once && b in snap.records && snap.records[b].thread == snap.records[m].thread && once[b] == {};
        SpreadUniform(snap, reasons, a, b);
      }
    }
  }

  /** The mark adds the weakest protection: it matters only when nothing else protects. */
  lemma MarkIsWeakest(reasons: set<Reason>)
    ensures HardExcluded(reasons + {MixedConversation}) == HardExcluded(reasons)
    ensures CategoryOf(reasons + {MixedConversation}) == if reasons == {} then ReviewNeeded else CategoryOf(reasons)
    ensures reasons != {} ==> CategoryOf(reasons).Rank() >= ReviewNeeded.Rank()
  {
    var user := {IsSent, IsDraft, IsTrash, IsStarred, IsImportant, ProtectedLabel, ManualPolicy};
    assert (reasons + {MixedConversation}) * user == reasons * user;
  }

  lemma MarkedOrNot(reasons: set<Reason>, mark: set<Reason>)
    requires mark <= {MixedConversation}
    ensures reasons + mark == if mark == {} then reasons else reasons + {MixedConversation}
  {
    if mark != {} {
      var r := SomeMember(mark);
      assert mark == {MixedConversation};
    }
  }

  /** Marked or not, a larger set of reasons that is non-empty when the smaller is protects at least as much. */
  lemma MarkedMonotone(a: set<Reason>, b: set<Reason>, markA: set<Reason>, markB: set<Reason>)
    requires a <= b
    requires markA <= {MixedConversation} && markB <= {MixedConversation}
    requires a + markA != {} ==> b + markB != {}
    ensures CategoryOf(a + markA).Rank() <= CategoryOf(b + markB).Rank()
    ensures HardExcluded(a + markA) ==> HardExcluded(b + markB)
  {
    MarkIsWeakest(a);
    MarkIsWeakest(b);
    CategoryMonotone(a, b);
    MarkedOrNot(a, markA);
    MarkedOrNot(b, markB);
  }

  /**
   More reasons take the mark off a conversation exactly when it was mixed and
   each of its messages now has a reason of its own.
   */
  lemma MarkVanishesWhenComplete(snap: Snapshot, fewer: Reasons, more: Reasons, m: MessageId)
    requires fewer.Keys == more.Keys && fewer.Keys <= snap.records.Keys && m in fewer
    requires forall n <- fewer :: fewer[n] <= more[n]
    ensures MixedMark(snap, fewer, m) != {} && MixedMark(snap, more, m) == {} <==>
      && Mixed(snap, fewer, snap.records[m].thread)
      && forall n <- more :: snap.records[n].thread == snap.records[m].thread ==> more[n] != {}
  {
    var t := snap.records[m].thread;
    if Mixed(snap, fewer, t) {
      var n :| n in fewer && n in snap.records && snap.records[n].thread == t && fewer[n] != {};
      var r := SomeMember(fewer[n]);
      assert r in more[n];
    }
  }

  lemma SpreadKeepsProtection(snap: Snapshot, fewer: Reasons, more: Reasons, m: MessageId)
    requires fewer.Keys == more.Keys && fewer.Keys <= snap.records.Keys && m in fewer
    requires forall n <- fewer :: fewer[n] <= more[n]
    ensures Spread(snap, fewer)[m] != {} ==> Spread(snap, more)[m] != {}
  {
    SpreadCloses(snap, fewer, m);
    SpreadCloses(snap, more, m);
    if Spread(snap, fewer)[m] != {} {
      var n :| n in fewer && snap.records[n].thread == snap.records[m].thread && fewer[n] != {};
      var r :| r in fewer[n];
      assert r in more[n];
    }
  }

  /**
   Adding reasons never lowers the protection a pass gives, although the pass
   itself may stop marking a conversation that is no longer mixed.
   */
  lemma SpreadMonotone(snap: Snapshot, fewer: Reasons, more: Reasons, m: MessageId)
    requires fewer.Keys == more.Keys && fewer.Keys <= snap.records.Keys && m in fewer
    requires forall n <- fewer :: fewer[n] <= more[n]
    ensures Spread(snap, fewer)[m] != {} ==> Spread(snap, more)[m] != {}
    ensures CategoryOf(Spread(snap, fewer)[m]).Rank() <= CategoryOf(Spread(snap, more)[m]).Rank()
    ensures HardExcluded(Spread(snap, fewer)[m]) ==> HardExcluded(Spread(snap, more)[m])
  {
    SpreadKeepsProtection(snap, fewer, more, m);
    hide Mixed, CategoryOf, HardExcluded;
    MarkedMonotone(fewer[m], more[m], MixedMark(snap, fewer, m), MixedMark(snap, more, m));
  }
}
