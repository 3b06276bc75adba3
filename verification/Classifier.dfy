/** The loops of the classifier, against the order-free classification. */
module Classifier {
  import opened Basics
  import opened MailModel
  import opened ClassificationModel
  import opened ClassificationTheorems

  datatype ClassificationError = DuplicateMessage | InvalidRecord

  // --------------------------------------------------------------- evidence

  /** A piece of evidence: its code, and where it stands among those of its code (strength, origin, label, detail). */
  datatype Evidence = Evidence(code: int, rank: int)

  /** For each code, the best evidence of a set. */
  predicate BestOf(values: set<Evidence>, e: Evidence) {
    e in values && forall f <- values :: f.code == e.code ==> e.rank <= f.rank
  }

  /** In the order of their codes, each code at most once. */
  ghost predicate ByCode(es: seq<Evidence>) {
    forall i, j :: 0 <= i < j < |es| ==> es[i].code < es[j].code
  }

  /** Keeps one evidence for each code, the best one, in the order of the codes. */
  method OrderedEvidence(values: seq<Evidence>) returns (ordered: seq<Evidence>)
    ensures forall e :: e in ordered <==> BestOf(Elements(values), e)
    ensures ByCode(ordered)
  {
    var selected: map<int, Evidence> := map[];
    for i := 0 to |values|
      invariant forall code :: code in selected <==> exists e <- values[..i] :: e.code == code
      invariant forall code <- selected :: selected[code].code == code && BestOf(Elements(values[..i]), selected[code])
    {
      var e := values[i];
      assert forall x :: x in values[..i + 1] <==> x in values[..i] || x == e;
      if e.code !in selected || e.rank < selected[e.code].rank {
        selected := selected[e.code := e];
      }
    }
    assert values[..|values|] == values;
    ordered := InCodeOrder(selected);
  }

  /** Lists the selected evidence in the order of the codes. */
  method InCodeOrder(selected: map<int, Evidence>) returns (ordered: seq<Evidence>)
    requires forall code <- selected :: selected[code].code == code
    ensures forall e :: e in ordered <==> e.code in selected && e == selected[e.code]
    ensures ByCode(ordered)
  {
    var codes := selected.Keys;
    ordered := [];
    while codes != {}
      invariant codes <= selected.Keys
      invariant forall e :: e in ordered <==> e.code in selected && e.code !in codes && e == selected[e.code]
      invariant ByCode(ordered)
      invariant forall e <- ordered, code <- codes :: e.code < code
    {
      var code := First(codes);
      codes := codes - {code};
      ordered := ordered + [selected[code]];
    }
  }

  /** The order of the codes leaves one way to list some evidence. */
  lemma {:induction false} ByCodeUnique(a: seq<Evidence>, b: seq<Evidence>)
    requires ByCode(a) && ByCode(b) && forall e :: e in a <==> e in b
    ensures a == b
  {
    assert |a| > 0 ==> a[0] in a;
    assert |b| > 0 ==> b[0] in b;
    if a != [] {
      assert a[0] == b[0];
      forall e ensures e in a[1..] <==> e in b[1..] {
        assert e in a <==> e == a[0] || e in a[1..];
        assert e in b <==> e == b[0] || e in b[1..];
      }
      ByCodeUnique(a[1..], b[1..]);
    }
  }

  /** Neither the order of the evidence nor its repetitions matter. */
  lemma EvidenceOrderDoesNotMatter(values: seq<Evidence>, others: seq<Evidence>, a: seq<Evidence>, b: seq<Evidence>)
    requires Elements(values) == Elements(others)
    requires ByCode(a) && forall e :: e in a <==> BestOf(Elements(values), e)
    requires ByCode(b) && forall e :: e in b <==> BestOf(Elements(others), e)
    ensures a == b
  {
    ByCodeUnique(a, b);
  }

  /** The best evidence of a code is unique, so equal sets of evidence give equal results. */
  lemma BestUnique(values: set<Evidence>, e: Evidence, f: Evidence)
    requires BestOf(values, e) && BestOf(values, f) && e.code == f.code
    ensures e == f
  {
  }

  // ---------------------------------------------------------------- sources

  /** Groups the messages by candidate, then the candidates by identity. */
  method GroupSources(rs: Records) returns (groups: map<Identity, set<MessageId>>)
    ensures forall id :: id in groups <==> exists m <- rs :: IdentityOf(rs, m) == id
    ensures forall id <- groups :: groups[id] == SourceGroup(rs, id)
  {
    hide IdentityFor;
    var candidates: map<Candidate, set<MessageId>> := map[];
    var todo := rs.Keys;
    while todo != {}
      invariant todo <= rs.Keys
      invariant forall c :: c in candidates <==> exists m <- rs :: m !in todo && CandidateOf(rs, m) == c
      invariant forall c, m :: c in candidates && m in candidates[c] <==> m in rs && m !in todo && CandidateOf(rs, m) == c
    {
      ghost var some := SomeMember(todo);
      var m :| m in todo;
      todo := todo - {m};
      var c := CandidateOf(rs, m);
      candidates := candidates[c := (if c in candidates then candidates[c] else {}) + {m}];
    }
    groups := MergeCandidates(rs, candidates);
  }

  /** Joins the candidates of one identity. */
  method MergeCandidates(rs: Records, candidates: map<Candidate, set<MessageId>>) returns (groups: map<Identity, set<MessageId>>)
    requires forall c :: c in candidates <==> exists m <- rs :: CandidateOf(rs, m) == c
    requires forall c, m :: c in candidates && m in candidates[c] <==> m in rs && CandidateOf(rs, m) == c
    ensures forall id :: id in groups <==> exists m <- rs :: IdentityOf(rs, m) == id
    ensures forall id <- groups :: groups[id] == SourceGroup(rs, id)
  {
    hide IdentityFor;
    groups := map[];
    var left := candidates.Keys;
    while left != {}
      invariant left <= candidates.Keys
      invariant forall id :: id in groups <==> exists c <- candidates :: c !in left && IdentityFor(rs, c) == id
      invariant forall id, m :: id in groups && m in groups[id] <==>
        m in rs && CandidateOf(rs, m) !in left && IdentityOf(rs, m) == id
    {
      ghost var some := SomeMember(left);
      var c :| c in left;
      left := left - {c};
      var id := IdentityFor(rs, c);
      groups := groups[id := (if id in groups then groups[id] else {}) + candidates[c]];
    }
    forall id | id in groups ensures groups[id] == SourceGroup(rs, id) {
      forall m ensures m in groups[id] <==> m in SourceGroup(rs, id) {
        assert id in groups && m in groups[id] <==> m in rs && IdentityOf(rs, m) == id;
      }
    }
    forall id ensures id in groups <==> exists m <- rs :: IdentityOf(rs, m) == id {
      if id in groups {
        var c :| c in candidates && IdentityFor(rs, c) == id;
        var m :| m in rs && CandidateOf(rs, m) == c;
        assert IdentityOf(rs, m) == id;
      }
    }
  }

  // ------------------------------------------------------------------ flows

  /**
   Groups the readings by source and flow key. Two readings of one key always
   have one descriptor, so the consistency check cannot fail.
   */
  method GroupFlows(rs: Records, rules: Rules)
    returns (ok: bool, groups: map<FlowId, set<MessageId>>, descriptors: map<FlowId, FlowDescriptor>)
    ensures ok
    ensures forall f :: f in groups <==> exists m <- rs :: FlowOf(rs, rules, m) == f
    ensures forall f <- groups :: groups[f] == FlowMembers(rs, rules, f)
    ensures descriptors.Keys == groups.Keys
    ensures forall m <- rs ::
      && FlowOf(rs, rules, m) in descriptors
      && descriptors[FlowOf(rs, rules, m)] == FlowDescriptorOf(rs[m], ReadingOf(rs, rules, m), m)
  {
    hide FlowOf, ReadingOf, FlowDescriptorOf;
    groups, descriptors := map[], map[];
    var todo := rs.Keys;
    while todo != {}
      invariant todo <= rs.Keys && descriptors.Keys == groups.Keys
      invariant forall f :: f in groups <==> exists m <- rs :: m !in todo && FlowOf(rs, rules, m) == f
      invariant forall f, m :: f in groups && m in groups[f] <==> m in rs && m !in todo && FlowOf(rs, rules, m) == f
      invariant forall m <- rs :: m !in todo ==>
        && FlowOf(rs, rules, m) in descriptors
        && descriptors[FlowOf(rs, rules, m)] == FlowDescriptorOf(rs[m], ReadingOf(rs, rules, m), m)
    {
      ghost var some := SomeMember(todo);
      var m :| m in todo;
      todo := todo - {m};
      var reading := ReadingOf(rs, rules, m);
      var f := FlowOf(rs, rules, m);
      var descriptor := FlowDescriptorOf(rs[m], reading, m);
      if f in descriptors && descriptors[f] != descriptor {
        var n :| n in rs && n !in todo + {m} && FlowOf(rs, rules, n) == f;
        FlowDetermines(rs, rules, m, n);
        assert false;
        return false, groups, descriptors;
      }
      groups := groups[f := (if f in groups then groups[f] else {}) + {m}];
      descriptors := descriptors[f := descriptor];
    }
    forall f | f in groups ensures groups[f] == FlowMembers(rs, rules, f) {
      forall m ensures m in groups[f] <==> m in FlowMembers(rs, rules, f) {
        assert f in groups && m in groups[f] <==> m in rs && FlowOf(rs, rules, m) == f;
      }
    }
    ok := true;
  }

  /** All members of a flow have one intention, so the second consistency check cannot fail either. */
  lemma OneIntention(rs: Records, rules: Rules, f: FlowId)
    requires exists m <- rs :: FlowOf(rs, rules, m) == f
    ensures |set m | m in FlowMembers(rs, rules, f) && m in rs :: rs[m].intent| == 1
  {
    hide FlowOf;
    var k :| k in rs && FlowOf(rs, rules, k) == f;
    var intents := set m | m in FlowMembers(rs, rules, f) && m in rs :: rs[m].intent;
    forall i | i in intents ensures i == rs[k].intent {
      var m :| m in FlowMembers(rs, rules, f) && m in rs && rs[m].intent == i;
      FlowDetermines(rs, rules, m, k);
    }
    assert rs[k].intent in intents;
    assert intents == {rs[k].intent};
  }

  // ----------------------------------------------------------------- result

  /** The records of a list, when no message occurs twice. */
  function RecordsOf(input: seq<(MessageId, NormalRecord)>): Records {
    if input == [] then map[] else RecordsOf(input[..|input| - 1])[input[|input| - 1].0 := input[|input| - 1].1]
  }

  ghost predicate NoDuplicates(input: seq<(MessageId, NormalRecord)>) {
    forall i, j :: 0 <= i < j < |input| ==> input[i].0 != input[j].0
  }

  lemma {:induction false} RecordsMean(input: seq<(MessageId, NormalRecord)>)
    requires NoDuplicates(input)
    ensures forall m, r :: (m in RecordsOf(input) && RecordsOf(input)[m] == r) <==> (m, r) in input
  {
    if input != [] {
      var n := |input| - 1;
      RecordsMean(input[..n]);
      assert forall x :: x in input <==> x in input[..n] || x == input[n];
      assert forall x :: x in input[..n] ==> x.0 != input[n].0;
    }
  }

  /** Two lists of the same records, in any order, give the same classification. */
  lemma OrderDoesNotMatter(left: seq<(MessageId, NormalRecord)>, right: seq<(MessageId, NormalRecord)>, rules: Rules)
    requires NoDuplicates(left) && NoDuplicates(right) && Elements(left) == Elements(right)
    ensures Classified(RecordsOf(left), rules) == Classified(RecordsOf(right), rules)
  {
    hide Classified;
    RecordsMean(left);
    RecordsMean(right);
    var l, r := RecordsOf(left), RecordsOf(right);
    forall m ensures m in l <==> m in r ensures m in l && m in r ==> l[m] == r[m] {
      if m in l { assert (m, l[m]) in Elements(left); }
      if m in r { assert (m, r[m]) in Elements(right); }
    }
    assert l == r;
  }

  /** Classifies the records: it fails exactly when a message occurs twice, and its result is always valid. */
  method Classify(input: seq<(MessageId, NormalRecord)>, rules: Rules) returns (r: Result<Classification, ClassificationError>)
    ensures r.Err? <==> !NoDuplicates(input)
    ensures r.Err? ==> r.error == DuplicateMessage
    ensures r.Ok? ==> ValidClassification(r.value) && r.value == Classified(RecordsOf(input), rules)
  {
    hide ValidClassification, MessageResult, FlowResult, SourceResult, ReadingOf, FlowOf, IdentityFor, Classified, FlowDescriptorOf;
    var rs: Records := map[];
    for i := 0 to |input|
      invariant rs == RecordsOf(input[..i]) && NoDuplicates(input[..i])
      invariant forall m :: m in rs <==> exists j :: 0 <= j < i && input[j].0 == m
    {
      if input[i].0 in rs {
        return Err(DuplicateMessage);
      }
      assert input[..i + 1][..i] == input[..i];
      rs := rs[input[i].0 := input[i].1];
    }
    assert input[..|input|] == input;
    var sources := GroupSources(rs);
    var ok, groups, descriptors := GroupFlows(rs, rules);
    if !ok {
      return Err(InvalidRecord);
    }
    var flows := AssembleFlows(rs, rules, groups, descriptors);
    var described := AssembleSources(rs, rules, sources);
    ResultParts(rs, rules);
    ClassifiedIsValid(rs, rules);
    return Ok(Classification(map m | m in rs :: MessageResult(rs, rules, m), described, flows));
  }

  /** Describes every flow by any of its members. */
  method AssembleFlows(rs: Records, rules: Rules, groups: map<FlowId, set<MessageId>>, descriptors: map<FlowId, FlowDescriptor>)
    returns (flows: map<FlowId, ClassifiedFlow>)
    requires forall f :: f in groups <==> exists m <- rs :: FlowOf(rs, rules, m) == f
    requires forall f <- groups :: groups[f] == FlowMembers(rs, rules, f)
    requires forall m <- rs ::
      && FlowOf(rs, rules, m) in descriptors
      && descriptors[FlowOf(rs, rules, m)] == FlowDescriptorOf(rs[m], ReadingOf(rs, rules, m), m)
    ensures flows == Classified(rs, rules).flows
  {
    hide FlowResult, ReadingOf, FlowOf, Classified, FlowDescriptorOf;
    flows := map[];
    ghost var target := Classified(rs, rules).flows;
    var todo := groups.Keys;
    while todo != {}
      invariant todo <= groups.Keys && flows.Keys == groups.Keys - todo
      invariant forall f <- flows :: f in target && flows[f] == target[f]
    {
      ghost var some := SomeMember(todo);
      var f :| f in todo;
      todo := todo - {f};
      ghost var seen :| seen in rs && FlowOf(rs, rules, seen) == f;
      assert seen in groups[f];
      var m :| m in groups[f];
      FlowEntry(rs, rules, m);
      DescriptorShown(rs, rules, m);
      flows := flows[f := FlowResult(rs, rules, m).(descriptor := descriptors[f])];
    }
    ResultParts(rs, rules);
    forall f ensures f in flows <==> f in target {
    }
  }

  /** Describes every source by any of its members. */
  method AssembleSources(rs: Records, rules: Rules, groups: map<Identity, set<MessageId>>)
    returns (sources: map<SourceId, ClassifiedSource>)
    requires forall id :: id in groups <==> exists m <- rs :: IdentityOf(rs, m) == id
    requires forall id <- groups :: groups[id] == SourceGroup(rs, id)
    ensures sources == Classified(rs, rules).sources
  {
    hide SourceResult, ReadingOf, Classified, IdentityOf;
    sources := map[];
    ghost var target := Classified(rs, rules).sources;
    var todo := groups.Keys;
    while todo != {}
      invariant todo <= groups.Keys
      invariant forall s :: s in sources <==> exists m <- rs :: IdentityOf(rs, m) !in todo && ReadingOf(rs, rules, m).source == s
      invariant forall s <- sources :: s in target && sources[s] == target[s]
    {
      ghost var some := SomeMember(todo);
      var id :| id in todo;
      todo := todo - {id};
      ghost var seen :| seen in rs && IdentityOf(rs, seen) == id;
      assert seen in groups[id];
      var m :| m in groups[id];
      SourceEntry(rs, rules, m);
      SameSource(rs, rules, m);
      sources := sources[ReadingOf(rs, rules, m).source := SourceResult(rs, rules, m)];
    }
    ResultParts(rs, rules);
    forall s ensures s in sources <==> s in target {
    }
  }

  lemma DescriptorShown(rs: Records, rules: Rules, m: MessageId)
    requires m in rs
    ensures FlowResult(rs, rules, m).descriptor == FlowDescriptorOf(rs[m], ReadingOf(rs, rules, m), m)
  {
    hide ReadingOf, FlowOf;
  }

  /** The messages of one identity are those of one source. */
  lemma SameSource(rs: Records, rules: Rules, m: MessageId)
    requires m in rs
    ensures forall n <- rs :: IdentityOf(rs, n) == IdentityOf(rs, m) <==> ReadingOf(rs, rules, n).source == ReadingOf(rs, rules, m).source
  {
    hide IdentityFor;
    forall n | n in rs
      ensures IdentityOf(rs, n) == IdentityOf(rs, m) <==> ReadingOf(rs, rules, n).source == ReadingOf(rs, rules, m).source
    {
      SourceOfGroup(rs, rules, m);
      SourceOfGroup(rs, rules, n);
      if ReadingOf(rs, rules, n).source == ReadingOf(rs, rules, m).source {
        SourceIdDetermines(rs, n, m);
        assert n in GroupOf(rs, m);
      }
    }
  }

  lemma ResultParts(rs: Records, rules: Rules)
    ensures Classified(rs, rules).messages == map m | m in rs :: MessageResult(rs, rules, m)
    ensures forall f :: f in Classified(rs, rules).flows <==> exists m <- rs :: FlowOf(rs, rules, m) == f
    ensures forall s :: s in Classified(rs, rules).sources <==> exists m <- rs :: ReadingOf(rs, rules, m).source == s
  {
    EntryMember(rs, rules);
    forall m | m in rs
      ensures FlowOf(rs, rules, m) in Classified(rs, rules).flows
      ensures ReadingOf(rs, rules, m).source in Classified(rs, rules).sources
    {
      FlowEntry(rs, rules, m);
      SourceEntry(rs, rules, m);
    }
    hide MessageResult, FlowResult, SourceResult, ReadingOf, FlowOf;
  }
}
