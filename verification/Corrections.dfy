/** The effective names, rubros and intentions that surviving corrections give, in any order. */
module Corrections {
  import opened Basics
  import opened MailModel
  import opened PolicyModel
  import opened StructuralPolicy
  import opened EffectiveFlows
  import opened PolicyBindings

  /** The surviving writers of a field among the decisions already applied. */
  function WritersIn(ps: Policies, bindings: map<DecisionId, Binding>, done: set<DecisionId>, field: Field,
                     target: TargetSelector): set<DecisionId>
  {
    Writers(ps, bindings, field, target) * done
  }

  /** The writer among some decisions; survivors never leave more than one. */
  ghost function TheWriter(writers: set<DecisionId>): (d: DecisionId)
    requires writers != {}
    ensures d in writers
  {
    assert exists d :: d in writers by { var some := SomeMember(writers); }
    var d :| d in writers;
    d
  }

  ghost function SourceNameBy(ps: Policies, writers: set<DecisionId>, otherwise: string): string {
    if writers != {} && TheWriter(writers) in ps && ps[TheWriter(writers)].command.SetSourceDisplayName?
    then ps[TheWriter(writers)].command.name else otherwise
  }

  ghost function SourceRubroBy(ps: Policies, writers: set<DecisionId>, otherwise: Rubro): Rubro {
    if writers != {} && TheWriter(writers) in ps && ps[TheWriter(writers)].command.SetSourceRubro?
    then ps[TheWriter(writers)].command.rubro else otherwise
  }

  ghost function FlowNameBy(ps: Policies, writers: set<DecisionId>, otherwise: string): string {
    if writers != {} && TheWriter(writers) in ps && ps[TheWriter(writers)].command.SetFlowDisplayName?
    then ps[TheWriter(writers)].command.name else otherwise
  }

  ghost function FlowIntentBy(ps: Policies, writers: set<DecisionId>, otherwise: Intent): Intent {
    if writers != {} && TheWriter(writers) in ps && ps[TheWriter(writers)].command.SetFlowIntention?
    then ps[TheWriter(writers)].command.intention else otherwise
  }

  /** A source after the corrections among `done`. */
  ghost function CorrectedSource(ps: Policies, bindings: map<DecisionId, Binding>, done: set<DecisionId>,
                                 k: SourceSelector, st: SourceState): SourceState
  {
    var names := WritersIn(ps, bindings, done, SourceName, OnSource(k));
    var rubros := WritersIn(ps, bindings, done, SourceRubro, OnSource(k));
    st.(effectiveName := SourceNameBy(ps, names, st.effectiveName),
        effectiveRubro := SourceRubroBy(ps, rubros, st.effectiveRubro),
        decisions := st.decisions + names + rubros)
  }

  /** A flow after the corrections among `done`. */
  ghost function CorrectedFlow(ps: Policies, bindings: map<DecisionId, Binding>, done: set<DecisionId>,
                               fs: FlowSelector, st: FlowState): FlowState
  {
    var names := WritersIn(ps, bindings, done, FlowName, OnFlow(fs));
    var intents := WritersIn(ps, bindings, done, FlowIntention, OnFlow(fs));
    st.(effectiveName := FlowNameBy(ps, names, st.effectiveName),
        effectiveIntent := FlowIntentBy(ps, intents, st.effectiveIntent),
        decisions := st.decisions + names + intents)
  }

  ghost function CorrectedSources(ps: Policies, bindings: map<DecisionId, Binding>, done: set<DecisionId>,
                                  table: SourceTable): SourceTable
  {
    map k | k in table :: CorrectedSource(ps, bindings, done, k, table[k])
  }

  ghost function CorrectedFlows(ps: Policies, bindings: map<DecisionId, Binding>, done: set<DecisionId>,
                                flows: FlowTable): FlowTable
  {
    map fs | fs in flows :: CorrectedFlow(ps, bindings, done, fs, flows[fs])
  }
}
