/** One surviving correction at a time: why the order of the corrections does not matter. */
module CorrectionSteps {
  import opened Basics
  import opened MailModel
  import opened PolicyModel
  import opened StructuralPolicy
  import opened StructuralSafety
  import opened EffectiveFlows
  import opened PolicyBindings
  import opened Corrections
  import opened PolicyApplication
  import opened ProtectionTheorems

  /** No field of any source or flow has two surviving writers. */
  ghost predicate SingleWriters(ps: Policies, bindings: map<DecisionId, Binding>) {
    forall field, target, d, e ::
      d in Writers(ps, bindings, field, target) && e in Writers(ps, bindings, field, target) ==> d == e
  }

  /** The corrections that survive conflict marking never compete for a field. */
  lemma SurvivorsDoNotCompete(snap: Snapshot, ps: Policies)
    requires Accepted(snap, ps)
    ensures SingleWriters(ps, AllBindings(snap, ps))
  {
    hide ValidClassification, ValidPolicy, PlainBindings, StructuralBindings, AllBindings, ViewFor, Writers;
    BindingsJoin(snap, ps);
    ViewNonEmpty(snap, ps);
    var view := ViewFor(snap, ps);
    forall field, target, d, e |
      d in Writers(ps, AllBindings(snap, ps), field, target) && e in Writers(ps, AllBindings(snap, ps), field, target)
      ensures d == e
    {
      WriterIsPlain(snap, ps, field, target, d);
      WriterIsPlain(snap, ps, field, target, e);
      OneWriter(snap, ps, view, field, target, d, e);
    }
  }

  lemma PlainBindingKeys(snap: Snapshot, ps: Policies)
    requires Accepted(snap, ps)
    ensures Ready(snap, ViewFor(snap, ps))
    ensures RawPlain(snap, ps, ViewFor(snap, ps)).Keys == PlainIds(ps)
    ensures PlainBindings(snap, ps, ViewFor(snap, ps)).Keys == PlainIds(ps)
    ensures forall d <- PlainIds(ps) :: d in ps && AllBindings(snap, ps)[d] == PlainBindings(snap, ps, ViewFor(snap, ps))[d]
  {
    hide ValidClassification, ValidPolicy, StructuralBindings, AllBindings, ViewFor, ResolveTarget;
    BindingsJoin(snap, ps);
    var raw := RawPlain(snap, ps, ViewFor(snap, ps));
    assert raw.Keys == PlainIds(ps);
  }

  lemma WriterIsPlain(snap: Snapshot, ps: Policies, field: Field, target: TargetSelector, d: DecisionId)
    requires Accepted(snap, ps) && d in Writers(ps, AllBindings(snap, ps), field, target)
    ensures Ready(snap, ViewFor(snap, ps))
    ensures d in Writers(ps, PlainBindings(snap, ps, ViewFor(snap, ps)), field, target)
  {
    hide ValidClassification, ValidPolicy, PlainBindings, StructuralBindings, AllBindings, ViewFor;
    PlainBindingKeys(snap, ps);
    assert d in PlainIds(ps);
  }

  lemma ViewNonEmpty(snap: Snapshot, ps: Policies)
    requires Accepted(snap, ps)
    ensures forall k <- ViewFor(snap, ps).sources :: ViewFor(snap, ps).sources[k].messages != {}
    ensures forall fs <- ViewFor(snap, ps).flows :: ViewFor(snap, ps).flows[fs].messages != {}
  {
    hide ValidClassification, ValidPolicy, EffectiveSources, FlowsOf, SplitsRecords;
    SourcesSplit(snap, ps);
    var view := ViewFor(snap, ps);
    forall fs | fs in view.flows ensures view.flows[fs].messages != {} {
      FlowConfidenceConservative(snap, view.sources, fs);
    }
  }

  /** A surviving correction finds its target in the view. */
  lemma TargetFound(snap: Snapshot, ps: Policies, d: DecisionId)
    requires Accepted(snap, ps) && d in PlainIds(ps)
    requires d in AllBindings(snap, ps) && AllBindings(snap, ps)[d].status.Applies()
    ensures ps[d].command.Target().OnSource? ==> ps[d].command.Target().source in ViewFor(snap, ps).sources
    ensures ps[d].command.Target().OnFlow? ==> ps[d].command.Target().flow in ViewFor(snap, ps).flows
  {
    hide ValidClassification, ValidPolicy, PlainBindings, StructuralBindings, AllBindings, ViewFor, RawPlain;
    PlainBindingKeys(snap, ps);
    SurvivorPresent(snap, ps, ViewFor(snap, ps), d);
  }

  // ------------------------------------------------------------- the steps

  /** Whether a decision writes a field of a target. */
  predicate Writes(ps: Policies, bindings: map<DecisionId, Binding>, d: DecisionId, field: Field, target: TargetSelector) {
    d in Writers(ps, bindings, field, target)
  }

  lemma WritersStep(ps: Policies, b: map<DecisionId, Binding>, done: set<DecisionId>, d: DecisionId,
                    field: Field, target: TargetSelector)
    requires SingleWriters(ps, b) && d !in done
    ensures Writes(ps, b, d, field, target) ==>
      WritersIn(ps, b, done, field, target) == {} && WritersIn(ps, b, done + {d}, field, target) == {d}
    ensures !Writes(ps, b, d, field, target) ==>
      WritersIn(ps, b, done + {d}, field, target) == WritersIn(ps, b, done, field, target)
  {
    hide Writers;
    if Writes(ps, b, d, field, target) {
      forall e | e in Writers(ps, b, field, target) ensures e == d {
      }
    }
  }

  lemma TheOnlyWriter(d: DecisionId)
    ensures TheWriter({d}) == d
  {
  }

  /** A source once a decision has written what it writes there. */
  function SourceWritten(ps: Policies, b: map<DecisionId, Binding>, d: DecisionId, k: SourceSelector, st: SourceState): SourceState
    requires d in ps
  {
    if Writes(ps, b, d, SourceName, OnSource(k)) then
      st.(effectiveName := ps[d].command.name, decisions := st.decisions + {d})
    else if Writes(ps, b, d, SourceRubro, OnSource(k)) then
      st.(effectiveRubro := ps[d].command.rubro, decisions := st.decisions + {d})
    else st
  }

  /** A flow once a decision has written what it writes there. */
  function FlowWritten(ps: Policies, b: map<DecisionId, Binding>, d: DecisionId, fs: FlowSelector, st: FlowState): FlowState
    requires d in ps
  {
    if Writes(ps, b, d, FlowName, OnFlow(fs)) then
      st.(effectiveName := ps[d].command.name, decisions := st.decisions + {d})
    else if Writes(ps, b, d, FlowIntention, OnFlow(fs)) then
      st.(effectiveIntent := ps[d].command.intention, decisions := st.decisions + {d})
    else st
  }

  /** What one correction does to one source. */
  lemma SourceStep(ps: Policies, b: map<DecisionId, Binding>, done: set<DecisionId>, d: DecisionId, k: SourceSelector, st: SourceState)
    requires SingleWriters(ps, b) && d !in done && d in ps
    ensures CorrectedSource(ps, b, done + {d}, k, st) == SourceWritten(ps, b, d, k, CorrectedSource(ps, b, done, k, st))
  {
    WritersStep(ps, b, done, d, SourceName, OnSource(k));
    WritersStep(ps, b, done, d, SourceRubro, OnSource(k));
    TheOnlyWriter(d);
    hide WritersIn, TheWriter, SingleWriters;
  }

  /** What one correction does to one flow. */
  lemma FlowStep(ps: Policies, b: map<DecisionId, Binding>, done: set<DecisionId>, d: DecisionId, fs: FlowSelector, st: FlowState)
    requires SingleWriters(ps, b) && d !in done && d in ps
    ensures CorrectedFlow(ps, b, done + {d}, fs, st) == FlowWritten(ps, b, d, fs, CorrectedFlow(ps, b, done, fs, st))
  {
    WritersStep(ps, b, done, d, FlowName, OnFlow(fs));
    WritersStep(ps, b, done, d, FlowIntention, OnFlow(fs));
    TheOnlyWriter(d);
    hide WritersIn, TheWriter, SingleWriters;
  }

  /** The sources after one more correction. */
  lemma SourcesStep(ps: Policies, b: map<DecisionId, Binding>, done: set<DecisionId>, d: DecisionId, table: SourceTable,
                    next: SourceTable)
    requires SingleWriters(ps, b) && d !in done && d in ps && next.Keys == table.Keys
    requires forall k <- next :: next[k] == SourceWritten(ps, b, d, k, CorrectedSource(ps, b, done, k, table[k]))
    ensures next == CorrectedSources(ps, b, done + {d}, table)
  {
    hide CorrectedSource, SingleWriters;
    forall k | k in table ensures next[k] == CorrectedSource(ps, b, done + {d}, k, table[k]) {
      SourceStep(ps, b, done, d, k, table[k]);
    }
  }

  /** The flows after one more correction. */
  lemma FlowsStep(ps: Policies, b: map<DecisionId, Binding>, done: set<DecisionId>, d: DecisionId, flows: FlowTable,
                  next: FlowTable)
    requires SingleWriters(ps, b) && d !in done && d in ps && next.Keys == flows.Keys
    requires forall fs <- next :: next[fs] == FlowWritten(ps, b, d, fs, CorrectedFlow(ps, b, done, fs, flows[fs]))
    ensures next == CorrectedFlows(ps, b, done + {d}, flows)
  {
    hide CorrectedFlow, SingleWriters;
    forall fs | fs in flows ensures next[fs] == CorrectedFlow(ps, b, done + {d}, fs, flows[fs]) {
      FlowStep(ps, b, done, d, fs, flows[fs]);
    }
  }

  /** Before any correction, everything is as the structural policies left it. */
  lemma NothingCorrected(ps: Policies, b: map<DecisionId, Binding>, table: SourceTable, flows: FlowTable)
    ensures CorrectedSources(ps, b, {}, table) == table
    ensures CorrectedFlows(ps, b, {}, flows) == flows
  {
    hide Writers;
  }
}
