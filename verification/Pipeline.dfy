/** The stages together: classified records, applied policies, composed map, cleanup plans. */
module Pipeline {
  import opened Basics
  import opened MailModel
  import opened PolicyModel
  import opened StructuralPolicy
  import opened ClassificationModel
  import opened ClassificationTheorems
  import opened PolicyApplication
  import opened PolicyResult
  import opened CleanupScope

  /** The indexed records of a study and what the classifier reads from them. */
  ghost predicate Agree(records: map<MessageId, Record>, rs: Records) {
    records.Keys == rs.Keys && forall m <- rs :: records[m].sender == rs[m].sender
  }

  /** A classified message lies in a source that owns its sender. */
  lemma SenderOwned(rs: Records, rules: Rules, m: MessageId)
    requires m in rs && rs[m].sender.Some?
    ensures var c := Classified(rs, rules);
      && ValidClassification(c) && m in c.messages
      && DescriptorOf(c, m).Senders? && rs[m].sender.value in DescriptorOf(c, m).addresses
  {
    hide ValidClassification, IdentityFor, Classified, FlowOf;
    ClassifiedIsValid(rs, rules);
    MessageReferences(rs, rules, m);
    MessageEntry(rs, rules, m);
    SourceEntry(rs, rules, m);
    assert rs[m].sender.value in AddressesOf(rs, GroupOf(rs, m));
  }

  /**
   Classified records and valid policies always make a coherent composition in
   which every sender is known: neither the map's checks, nor the consistency
   errors of the plan's reasons, nor its unknown-sender error can occur.
   */
  lemma PipelineIsCoherent(records: map<MessageId, Record>, rs: Records, rules: Rules, ps: Policies,
                           mapRevision: int, policyRevision: int)
    requires Agree(records, rs) && ValidPolicies(ps)
    ensures var snap := Snapshot(records, Classified(rs, rules));
      && Accepted(snap, ps)
      && Composition(snap, OutcomeOf(snap, ps), mapRevision, policyRevision).Coherent()
      && SendersKnown(Composition(snap, OutcomeOf(snap, ps), mapRevision, policyRevision))
  {
    hide ValidClassification, ValidPolicies, Classified, OutcomeOf, Composition.Coherent;
    var snap := Snapshot(records, Classified(rs, rules));
    ClassifiedIsValid(rs, rules);
    ReportsAreCoherent(snap, ps, mapRevision, policyRevision);
    forall m | m in records && records[m].sender != None ensures CanonicalSender(snap, m) != None {
      SenderOwned(rs, rules, m);
    }
  }
}
