/** The protection of every message, accumulated pass after pass as the program does. */
module ProtectionBook {
  import opened Basics
  import opened MailModel
  import opened PolicyModel
  import opened StructuralPolicy
  import opened EffectiveFlows
  import opened PolicyBindings
  import opened Protection
  import opened PolicyApplication

  datatype Entry = Entry(automatic: set<Reason>, effective: set<Reason>, decisions: set<DecisionId>, review: bool)

  /** An entry once a reason is added. */
  function WithReason(e: Entry, reasons: set<Reason>, decisions: set<DecisionId>, review: bool): Entry {
    e.(effective := e.effective + reasons, decisions := e.decisions + decisions, review := e.review || review)
  }

  class Book {
    const snap: Snapshot
    var entries: map<MessageId, Entry>

    ghost predicate Valid()
      reads this
    {
      snap.Valid() && entries.Keys == snap.records.Keys
    }

    /** Starts from the automatic reasons of each message. */
    constructor (snap: Snapshot)
      requires snap.Valid()
      ensures Valid() && this.snap == snap
      ensures forall m <- entries :: entries[m] == Entry(BaseReasons(snap)[m], BaseReasons(snap)[m], {}, false)
    {
      this.snap := snap;
      entries := map m | m in snap.records ::
        var reasons := AutomaticReasons(snap.records[m], snap.classified.messages[m]);
        Entry(reasons, reasons, {}, false);
    }

    /** Adds to every message of a set, one by one. */
    method Add(messages: set<MessageId>, reasons: set<Reason>, decisions: set<DecisionId>, review: bool)
      requires Valid() && messages <= entries.Keys
      modifies this`entries
      ensures Valid()
      ensures forall m <- entries ::
        entries[m] == if m in messages then WithReason(old(entries)[m], reasons, decisions, review) else old(entries)[m]
    {
      hide ValidClassification;
      var todo := messages;
      while todo != {}
        invariant todo <= messages && Valid()
        invariant forall m <- entries ::
          entries[m] == if m in messages && m !in todo then WithReason(old(entries)[m], reasons, decisions, review)
                        else old(entries)[m]
      {
        ghost var some := SomeMember(todo);
        var m :| m in todo;
        todo := todo - {m};
        entries := entries[m := WithReason(entries[m], reasons, decisions, review)];
      }
    }

    /** The reasons a pass over the conversations looks at. */
    function Basis(automatic: bool): Reasons
      reads this
    {
      map m | m in entries :: BasisOf(entries[m], automatic)
    }

    /** The messages of each thread. */
    method GroupByThread() returns (byThread: map<ThreadId, set<MessageId>>)
      requires Valid()
      ensures forall t :: t in byThread <==> exists m <- snap.records :: snap.records[m].thread == t
      ensures forall t <- byThread :: byThread[t] == set m | m in snap.records && snap.records[m].thread == t
    {
      hide ValidClassification;
      byThread := map[];
      var todo := snap.records.Keys;
      while todo != {}
        invariant todo <= snap.records.Keys
        invariant forall t :: t in byThread <==> exists m <- snap.records :: m !in todo && snap.records[m].thread == t
        invariant forall t, m :: t in byThread && m in byThread[t] <==>
          m in snap.records && m !in todo && snap.records[m].thread == t
      {
        ghost var some := SomeMember(todo);
        var m :| m in todo;
        todo := todo - {m};
        var t := snap.records[m].thread;
        byThread := byThread[t := (if t in byThread then byThread[t] else {}) + {m}];
      }
      forall t | t in byThread ensures byThread[t] == set m | m in snap.records && snap.records[m].thread == t {
        forall m ensures m in byThread[t] <==> m in snap.records && snap.records[m].thread == t {
        }
      }
    }

    /** Marks every message of one conversation. */
    method MarkThread(messages: set<MessageId>, automatic: bool)
      requires Valid() && messages <= entries.Keys
      modifies this`entries
      ensures Valid()
      ensures forall m <- entries ::
        entries[m] == if m in messages then Marked(old(entries)[m], {MixedConversation}, automatic) else old(entries)[m]
    {
      hide ValidClassification, Marked;
      var todo := messages;
      while todo != {}
        invariant todo <= messages && Valid()
        invariant forall m <- entries ::
          entries[m] == if m in messages && m !in todo then Marked(old(entries)[m], {MixedConversation}, automatic)
                        else old(entries)[m]
      {
        ghost var some := SomeMember(todo);
        var m :| m in todo;
        todo := todo - {m};
        entries := entries[m := Marked(entries[m], {MixedConversation}, automatic)];
      }
    }

    /** Marks the conversations that mix messages with and without a reason. */
    method SpreadMixed(automatic: bool)
      requires Valid()
      modifies this`entries
      ensures Valid()
      ensures forall m <- entries :: entries[m] == Marked(old(entries)[m], MixedMark(snap, old(Basis(automatic)), m), automatic)
    {
      hide ValidClassification, Mixed, Marked, MixedMark, BasisOf;
      ghost var basis := Basis(automatic);
      var byThread := GroupByThread();
      var todo := byThread.Keys;
      while todo != {}
        invariant todo <= byThread.Keys && Valid()
        invariant forall m <- entries ::
          entries[m] == if snap.records[m].thread in todo then old(entries)[m]
                        else Marked(old(entries)[m], MixedMark(snap, basis, m), automatic)
      {
        ghost var some := SomeMember(todo);
        var t :| t in todo;
        var messages := byThread[t];
        assert forall m <- messages :: m in entries && BasisOf(entries[m], automatic) == basis[m];
        ThreadMixed(snap, basis, messages, t);
        MarksOfThread(snap, basis, t);
        todo := todo - {t};
        if (exists m <- messages :: BasisOf(entries[m], automatic) != {})
           && (exists m <- messages :: BasisOf(entries[m], automatic) == {})
        {
          MarkThread(messages, automatic);
        } else {
          NotMarked(automatic);
        }
      }
    }

    /** Protects the messages that some decision is shown on. */
    method AddManual(marks: map<MessageId, set<DecisionId>>)
      requires Valid() && marks.Keys == entries.Keys
      modifies this`entries
      ensures Valid()
      ensures forall m <- entries :: entries[m] == WithReason(old(entries)[m], ManualReason(marks[m]), marks[m], false)
    {
      hide ValidClassification;
      var todo := marks.Keys;
      while todo != {}
        invariant todo <= marks.Keys && Valid()
        invariant forall m <- entries ::
          entries[m] == if m in todo then old(entries)[m] else WithReason(old(entries)[m], ManualReason(marks[m]), marks[m], false)
      {
        ghost var some := SomeMember(todo);
        var m :| m in todo;
        todo := todo - {m};
        if marks[m] != {} {
          entries := entries[m := WithReason(entries[m], {ManualPolicy}, marks[m], false)];
        }
      }
    }

    /** Protects the messages that a label protection reaches. */
    method AddLabels(ps: Policies, bindings: map<DecisionId, Binding>)
      requires Valid() && ReachKnown(snap, bindings)
      modifies this`entries
      ensures Valid()
      ensures forall m <- entries :: entries[m] == WithReason(old(entries)[m], LabelReason(LabelProtectors(ps, bindings, m)), {}, false)
    {
      hide ValidClassification;
      var todo := bindings.Keys;
      ghost var done: set<DecisionId> := {};
      while todo != {}
        invariant todo + done == bindings.Keys && Valid()
        invariant forall m <- entries ::
          entries[m] == WithReason(old(entries)[m], LabelReason(LabelProtectors(ps, bindings, m) * done), {}, false)
      {
        ghost var some := SomeMember(todo);
        var d :| d in todo;
        todo, done := todo - {d}, done + {d};
        forall m ensures LabelProtectors(ps, bindings, m) * done
          == LabelProtectors(ps, bindings, m) * (done - {d}) + if d in LabelProtectors(ps, bindings, m) then {d} else {}
        {
        }
        if d in ps && bindings[d].status.Applies() && ps[d].command.ProtectTarget? && ps[d].command.protect.OnLabel? {
          Add(bindings[d].candidate.messages, {ProtectedLabel}, {}, false);
        }
      }
      assert forall m :: LabelProtectors(ps, bindings, m) * done == LabelProtectors(ps, bindings, m);
    }

    /** Protects the messages of the flows whose intention was corrected to a protected one. */
    method AddIntents(flows: FlowTable, toFlow: map<MessageId, FlowSelector>)
      requires Valid() && Placed(snap, flows, toFlow)
      modifies this`entries
      ensures Valid()
      ensures forall m <- entries :: entries[m] == WithReason(old(entries)[m], IntentReasons(flows[toFlow[m]]),
                                                             IntentDecisions(flows[toFlow[m]]), false)
    {
      hide ValidClassification, IntentReasons;
      var todo := flows.Keys;
      while todo != {}
        invariant todo <= flows.Keys && Valid()
        invariant forall m <- entries ::
          entries[m] == if toFlow[m] in todo then old(entries)[m]
                        else WithReason(old(entries)[m], IntentReasons(flows[toFlow[m]]), IntentDecisions(flows[toFlow[m]]), false)
      {
        ghost var some := SomeMember(todo);
        var fs :| fs in todo;
        todo := todo - {fs};
        if IntentReasons(flows[fs]) != {} {
          forall m | m in flows[fs].messages ensures m in entries {
          }
          Add(flows[fs].messages, IntentReasons(flows[fs]), flows[fs].decisions, false);
        }
      }
    }

    /** Protects the messages that a policy in need of review reaches. */
    method AddUnsettled(bindings: map<DecisionId, Binding>)
      requires Valid() && ReachKnown(snap, bindings)
      modifies this`entries
      ensures Valid()
      ensures forall m <- entries ::
        entries[m] == WithReason(old(entries)[m], ReviewReason(UnsettledOn(bindings, m)), UnsettledOn(bindings, m),
                                 UnsettledOn(bindings, m) != {})
    {
      hide ValidClassification;
      var todo := bindings.Keys;
      ghost var done: set<DecisionId> := {};
      while todo != {}
        invariant todo + done == bindings.Keys && Valid()
        invariant forall m <- entries :: var ds := UnsettledOn(bindings, m) * done;
          entries[m] == WithReason(old(entries)[m], ReviewReason(ds), ds, ds != {})
      {
        ghost var some := SomeMember(todo);
        var d :| d in todo;
        todo, done := todo - {d}, done + {d};
        forall m ensures UnsettledOn(bindings, m) * done
          == UnsettledOn(bindings, m) * (done - {d}) + if d in UnsettledOn(bindings, m) then {d} else {}
        {
        }
        if !bindings[d].status.Applies() && bindings[d].status != Orphaned {
          Add(bindings[d].candidate.messages, {PolicyReview}, {d}, true);
        }
      }
      assert forall m :: UnsettledOn(bindings, m) * done == UnsettledOn(bindings, m);
    }

    /** Shows the decisions of the source and the flow, and requires a review where one is due. */
    method AddReview(ps: Policies, bindings: map<DecisionId, Binding>, sources: SourceTable, flows: FlowTable,
                     toSource: map<MessageId, SourceSelector>, toFlow: map<MessageId, FlowSelector>)
      requires Valid() && toSource.Keys == entries.Keys && toFlow.Keys == entries.Keys
      requires forall m <- toSource :: toSource[m] in sources && toFlow[m] in flows
      modifies this`entries
      ensures Valid()
      ensures forall m <- entries ::
        entries[m] == Reviewed(ps, bindings, snap.classified.messages[m].confidence, old(entries)[m],
                               sources[toSource[m]].decisions + flows[toFlow[m]].decisions)
    {
      hide ValidClassification, Reviewed;
      var todo := entries.Keys;
      while todo != {}
        invariant todo <= entries.Keys && Valid()
        invariant forall m <- entries ::
          entries[m] == if m in todo then old(entries)[m]
                        else Reviewed(ps, bindings, snap.classified.messages[m].confidence, old(entries)[m],
                                      sources[toSource[m]].decisions + flows[toFlow[m]].decisions)
      {
        ghost var some := SomeMember(todo);
        var m :| m in todo;
        todo := todo - {m};
        var shown := sources[toSource[m]].decisions + flows[toFlow[m]].decisions;
        entries := entries[m := Reviewed(ps, bindings, snap.classified.messages[m].confidence, entries[m], shown)];
      }
    }

    /** The passes before the last one over the conversations, in the program's order. */
    method Gather(ps: Policies, bindings: map<DecisionId, Binding>, sources: SourceTable, flows: FlowTable,
                  toSource: map<MessageId, SourceSelector>, toFlow: map<MessageId, FlowSelector>,
                  marks: map<MessageId, set<DecisionId>>)
      requires Valid() && forall m <- entries :: entries[m] == Entry(BaseReasons(snap)[m], BaseReasons(snap)[m], {}, false)
      requires ReachKnown(snap, bindings) && Placed(snap, flows, toFlow)
      requires toSource.Keys == entries.Keys && forall m <- toSource :: toSource[m] in sources
      requires marks.Keys == entries.Keys
      modifies this`entries
      ensures Valid()
      ensures forall m <- entries ::
        entries[m] == Prepared(snap, ps, bindings, sources[toSource[m]], flows[toFlow[m]], marks[m], m)
    {
      hide ValidClassification, BaseReasons, MixedMark, IntentReasons, LabelProtectors, UnsettledOn, Reviewed, ManualReason,
        LabelReason, ReviewReason, WithReason, Marked;
      BasisIsAutomatic(snap, entries);
      SpreadMixed(true);
      AddManual(marks);
      AddLabels(ps, bindings);
      AddIntents(flows, toFlow);
      AddUnsettled(bindings);
      AddReview(ps, bindings, sources, flows, toSource, toFlow);
    }

    /** All the passes. */
    method Fill(ps: Policies, bindings: map<DecisionId, Binding>, sources: SourceTable, flows: FlowTable,
                toSource: map<MessageId, SourceSelector>, toFlow: map<MessageId, FlowSelector>,
                marks: map<MessageId, set<DecisionId>>, ghost d: Decided)
      requires Valid() && forall m <- entries :: entries[m] == Entry(BaseReasons(snap)[m], BaseReasons(snap)[m], {}, false)
      requires DecidedFor(snap, d) && ReachKnown(snap, bindings) && Placed(snap, flows, toFlow)
      requires d.bindings == bindings && d.sources == sources && d.flows == flows
      requires d.view.toSource == toSource && d.view.toFlow == toFlow
      requires marks.Keys == entries.Keys
      requires forall m <- marks :: marks[m] == ProtectedBy(ps, bindings, m) + UnsettledOn(bindings, m)
      modifies this`entries
      ensures Valid()
      ensures forall m <- entries :: Faithful(snap, ps, d, m, entries[m])
    {
      hide ValidClassification, BaseReasons, Prepared, Faithful, Placed, Linked, ProtectedBy, UnsettledOn;
      ViewKnows(snap, d);
      Gather(ps, bindings, sources, flows, toSource, toFlow, marks);
      Close(ps, d, marks);
    }

    /** The last pass over the conversations. */
    method Close(ghost ps: Policies, ghost d: Decided, ghost marks: map<MessageId, set<DecisionId>>)
      requires Valid() && DecidedFor(snap, d) && marks.Keys == entries.Keys
      requires forall m <- entries :: MarksOn(snap, ps, d, m, marks[m]) && entries[m] == PreparedFor(snap, ps, d, m, marks[m])
      modifies this`entries
      ensures Valid()
      ensures forall m <- entries :: Faithful(snap, ps, d, m, entries[m])
    {
      hide ValidClassification, MixedMark, PreparedFor, Faithful, ReasonsBefore, DecidedFor, MarksOn;
      BasisIsGathered(snap, ps, d, marks, entries);
      SpreadMixed(false);
      forall m | m in entries ensures Faithful(snap, ps, d, m, entries[m]) {
        MarkedIsFaithful(snap, ps, d, m, marks[m]);
      }
    }
  }

  lemma BasisIsGathered(snap: Snapshot, ps: Policies, d: Decided, marks: map<MessageId, set<DecisionId>>, entries: map<MessageId, Entry>)
    requires snap.Valid() && DecidedFor(snap, d) && marks.Keys == entries.Keys == snap.records.Keys
    requires forall m <- entries :: MarksOn(snap, ps, d, m, marks[m]) && entries[m] == PreparedFor(snap, ps, d, m, marks[m])
    ensures (map m | m in entries :: BasisOf(entries[m], false)) == ReasonsBefore(snap, ps, d)
  {
    hide ValidClassification, PreparedFor, ReasonsBefore, DecidedFor, MarksOn;
    var basis := map m | m in entries :: BasisOf(entries[m], false);
    assert basis.Keys == ReasonsBefore(snap, ps, d).Keys;
    forall m | m in basis ensures basis[m] == ReasonsBefore(snap, ps, d)[m] {
      PreparedReasons(snap, ps, d, m, marks[m]);
    }
  }

  lemma ViewKnows(snap: Snapshot, d: Decided)
    requires DecidedFor(snap, d)
    ensures d.view.toSource.Keys == snap.records.Keys
    ensures forall m <- d.view.toSource :: d.view.toSource[m] in d.sources
  {
  }

  /** The entry of a message before the last pass. */
  ghost function Prepared(snap: Snapshot, ps: Policies, bindings: map<DecisionId, Binding>, source: SourceState, flow: FlowState,
                          marks: set<DecisionId>, m: MessageId): Entry
    requires snap.Valid() && m in snap.records
  {
    var base := BaseReasons(snap)[m];
    var mixed := Marked(Entry(base, base, {}, false), MixedMark(snap, BaseReasons(snap), m), true);
    var manual := WithReason(mixed, ManualReason(marks), marks, false);
    var labelled := WithReason(manual, LabelReason(LabelProtectors(ps, bindings, m)), {}, false);
    var intended := WithReason(labelled, IntentReasons(flow), IntentDecisions(flow), false);
    var unsettled := UnsettledOn(bindings, m);
    var pending := WithReason(intended, ReviewReason(unsettled), unsettled, unsettled != {});
    Reviewed(ps, bindings, snap.classified.messages[m].confidence, pending, source.decisions + flow.decisions)
  }

  /** An entry that holds what the specification says of its message. */
  ghost predicate Faithful(snap: Snapshot, ps: Policies, d: Decided, m: MessageId, e: Entry)
    requires snap.Valid() && DecidedFor(snap, d) && m in snap.records
  {
    && e.automatic == AutomaticProtection(snap)[m]
    && e.effective == EffectiveProtection(snap, ps, d)[m]
    && e.decisions == DecisionsOn(snap, ps, d, m)
    && (e.review <==> ReviewRequired(snap, ps, d, m))
  }

  ghost predicate MarksOn(snap: Snapshot, ps: Policies, d: Decided, m: MessageId, marks: set<DecisionId>) {
    marks == ProtectedBy(ps, d.bindings, m) + UnsettledOn(d.bindings, m)
  }

  ghost function PreparedFor(snap: Snapshot, ps: Policies, d: Decided, m: MessageId, marks: set<DecisionId>): Entry
    requires snap.Valid() && DecidedFor(snap, d) && m in snap.records
  {
    Prepared(snap, ps, d.bindings, SourceStateOf(snap, d, m), FlowStateOf(snap, d, m), marks, m)
  }

  lemma LabelAgrees(ps: Policies, bindings: map<DecisionId, Binding>, m: MessageId)
    ensures LabelProtectors(ps, bindings, m) != {} <==> LabelProtected(ps, bindings, m)
  {
    if LabelProtected(ps, bindings, m) {
      var d :| d in bindings && d in ps && bindings[d].status.Applies() && ps[d].command.ProtectTarget?
               && ps[d].command.protect.OnLabel? && m in bindings[d].candidate.messages;
      assert d in LabelProtectors(ps, bindings, m);
    }
    if LabelProtectors(ps, bindings, m) != {} {
      var d := SomeMember(LabelProtectors(ps, bindings, m));
    }
  }

  /** The passes before the last one gather the automatic reasons and those of the policies. */
  lemma PreparedReasons(snap: Snapshot, ps: Policies, d: Decided, m: MessageId, marks: set<DecisionId>)
    requires snap.Valid() && DecidedFor(snap, d) && m in snap.records && MarksOn(snap, ps, d, m, marks)
    ensures PreparedFor(snap, ps, d, m, marks).automatic == AutomaticProtection(snap)[m]
    ensures PreparedFor(snap, ps, d, m, marks).effective == ReasonsBefore(snap, ps, d)[m]
  {
    hide ValidClassification, BaseReasons, MixedMark, ProtectedBy, UnsettledOn, IntentReasons, LabelProtectors, LabelProtected,
      Unapplied, Linked;
    LabelAgrees(ps, d.bindings, m);
  }

  lemma PreparedDecisions(snap: Snapshot, ps: Policies, d: Decided, m: MessageId, marks: set<DecisionId>)
    requires snap.Valid() && DecidedFor(snap, d) && m in snap.records && MarksOn(snap, ps, d, m, marks)
    ensures PreparedFor(snap, ps, d, m, marks).decisions == DecisionsOn(snap, ps, d, m)
    ensures PreparedFor(snap, ps, d, m, marks).review <==>
      Mixed(snap, BaseReasons(snap), snap.records[m].thread) || UnsettledOn(d.bindings, m) != {}
      || Doubtful(snap.classified.messages[m].confidence) || ShowsUnapplied(snap, ps, d, m)
  {
    hide ValidClassification, BaseReasons, Mixed, ProtectedBy, UnsettledOn, IntentReasons, LabelProtectors, Linked, Doubtful;
  }

  lemma MarkedIsFaithful(snap: Snapshot, ps: Policies, d: Decided, m: MessageId, marks: set<DecisionId>)
    requires snap.Valid() && DecidedFor(snap, d) && m in snap.records && MarksOn(snap, ps, d, m, marks)
    ensures Faithful(snap, ps, d, m,
                     Marked(PreparedFor(snap, ps, d, m, marks), MixedMark(snap, ReasonsBefore(snap, ps, d), m), false))
  {
    hide ValidClassification, BaseReasons, Mixed, UnsettledOn, PreparedFor, DecisionsOn, ShowsUnapplied, ReasonsBefore, Linked,
      AutomaticProtection;
    PreparedReasons(snap, ps, d, m, marks);
    PreparedDecisions(snap, ps, d, m, marks);
  }

  /** Every binding reaches only messages of the snapshot. */
  ghost predicate ReachKnown(snap: Snapshot, bindings: map<DecisionId, Binding>) {
    forall d <- bindings :: bindings[d].candidate.messages <= snap.records.Keys
  }

  /** Every message is in exactly the flow it is mapped to. */
  ghost predicate Placed(snap: Snapshot, flows: FlowTable, toFlow: map<MessageId, FlowSelector>) {
    && toFlow.Keys == snap.records.Keys
    && (forall m <- toFlow :: toFlow[m] in flows)
    && (forall fs, m :: fs in flows && m in flows[fs].messages <==> m in toFlow && toFlow[m] == fs)
  }

  function ManualReason(ds: set<DecisionId>): set<Reason> {
    if ds != {} then {ManualPolicy} else {}
  }

  function LabelReason(ds: set<DecisionId>): set<Reason> {
    if ds != {} then {ProtectedLabel} else {}
  }

  function ReviewReason(ds: set<DecisionId>): set<Reason> {
    if ds != {} then {PolicyReview} else {}
  }

  function LabelProtectors(ps: Policies, bindings: map<DecisionId, Binding>, m: MessageId): set<DecisionId> {
    set d | d in bindings && d in ps && bindings[d].status.Applies() && ps[d].command.ProtectTarget?
            && ps[d].command.protect.OnLabel? && m in bindings[d].candidate.messages
  }

  function IntentDecisions(st: FlowState): set<DecisionId> {
    if IntentReasons(st) != {} then st.decisions else {}
  }

  predicate Doubtful(c: Confidence) {
    c == Low || c == Contradictory
  }

  predicate Unapplied(ps: Policies, bindings: map<DecisionId, Binding>, ds: set<DecisionId>) {
    exists d <- ds :: d in ps && d in bindings && !bindings[d].status.Applies()
  }

  /** An entry once the decisions of its source and flow are shown; doubt and unapplied decisions ask for a review. */
  function Reviewed(ps: Policies, bindings: map<DecisionId, Binding>, confidence: Confidence, e: Entry, shown: set<DecisionId>): Entry {
    WithReason(e, {}, shown, Doubtful(confidence) || Unapplied(ps, bindings, e.decisions + shown))
  }

  lemma BasisIsAutomatic(snap: Snapshot, entries: map<MessageId, Entry>)
    requires snap.Valid() && entries.Keys == snap.records.Keys
    requires forall m <- entries :: entries[m].automatic == BaseReasons(snap)[m]
    ensures (map m | m in entries :: BasisOf(entries[m], true)) == BaseReasons(snap)
  {
    hide ValidClassification, BaseReasons;
    var basis := map m | m in entries :: BasisOf(entries[m], true);
    assert basis.Keys == BaseReasons(snap).Keys;
    assert forall m <- basis :: basis[m] == BaseReasons(snap)[m];
  }

  function BasisOf(e: Entry, automatic: bool): set<Reason> {
    if automatic then e.automatic else e.effective
  }

  /** An entry after a pass over the conversations. */
  function Marked(e: Entry, mark: set<Reason>, automatic: bool): Entry {
    Entry(if automatic then e.automatic + mark else e.automatic, e.effective + mark, e.decisions, e.review || mark != {})
  }

  lemma NotMarked(automatic: bool)
    ensures forall e: Entry :: Marked(e, {}, automatic) == e
  {
  }

  lemma MarksOfThread(snap: Snapshot, reasons: Reasons, t: ThreadId)
    ensures forall m <- snap.records :: snap.records[m].thread == t ==>
      MixedMark(snap, reasons, m) == if Mixed(snap, reasons, t) then {MixedConversation} else {}
  {
  }

  /** A thread is mixed when its own messages are. */
  lemma ThreadMixed(snap: Snapshot, reasons: Reasons, messages: set<MessageId>, t: ThreadId)
    requires reasons.Keys == snap.records.Keys
    requires messages == set m | m in snap.records && snap.records[m].thread == t
    ensures Mixed(snap, reasons, t) <==>
      (exists m <- messages :: reasons[m] != {}) && (exists m <- messages :: reasons[m] == {})
  {
  }
}
