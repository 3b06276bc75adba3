/** Any number of interrupted attempts at one full scan, and what the last one leaves. */
module FullScanRuns {
  import opened Basics
  import opened MailModel
  import opened Cursor
  import opened RemoteCalls
  import opened InventoryModel
  import opened FullScan
  import opened ScanLog

  /** One attempt: what happened outside, and the store, progress and log of writes it leaves. */
  datatype Visit = Visit(events: seq<Event>, store: Store, progress: Progress, log: seq<Store>)

  function LastStore(s: Store, visits: seq<Visit>): Store {
    if visits == [] then s else visits[|visits| - 1].store
  }

  function LastProgress(g: Progress, visits: seq<Visit>): Progress {
    if visits == [] then g else visits[|visits| - 1].progress
  }

  /** Everything the attempts wrote. */
  function LastLog(visits: seq<Visit>): seq<Store> {
    if visits == [] then [] else visits[|visits| - 1].log
  }

  /** One attempt, as the contract of a full scan describes it. */
  ghost predicate Step(w: Mailbox, scan: ScanId, s: Store, g: Progress, log: seq<Store>, v: Visit)
    requires w.Valid()
  {
    && Moves(w, scan, s, g, Kind(s, scan, v.events), v.store, v.progress)
    && (if Kind(s, scan, v.events) == Nothing then v.log == log
        else Logged(FullScope(w, scan, v.progress.base, v.progress.history), s, log, v.store, v.log))
  }

  /** Attempts made one after the other on a store. */
  ghost predicate Attempts(w: Mailbox, scan: ScanId, s: Store, g: Progress, visits: seq<Visit>)
    requires w.Valid()
  {
    forall i :: 0 <= i < |visits| ==>
      Step(w, scan, LastStore(s, visits[..i]), LastProgress(g, visits[..i]), LastLog(visits[..i]), visits[i])
  }

  /** Some attempt was stopped at the labels, and the stop was written down. */
  predicate Interrupts(visits: seq<Visit>) {
    exists v <- visits :: WrittenAtLabels(v.events)
  }

  /** Some attempt emptied the index. */
  ghost predicate Empties(scan: ScanId, s: Store, visits: seq<Visit>) {
    exists i :: 0 <= i < |visits| && Kind(LastStore(s, visits[..i]), scan, visits[i].events) == Started
  }

  /** What the index held when the scan began to read: nothing once an attempt emptied it. */
  ghost function Origin(scan: ScanId, s: Store, visits: seq<Visit>): map<MessageId, Record> {
    if Empties(scan, s, visits) then map[] else s.records
  }

  lemma BasesJoin(w: Mailbox, base: map<MessageId, Record>, n: nat)
    requires n <= w.PageCount()
    ensures (base + w.IndexBefore(n)) + w.FullIndex() == base + w.FullIndex()
  {
    IndexMonotone(w, n, w.PageCount());
  }

  /** The invariant of the attempts: untouched, or at a progress whose past is known. */
  ghost predicate OnTrack(w: Mailbox, scan: ScanId, s: Store, g: Progress, visits: seq<Visit>)
    requires w.Valid()
  {
    var t, h := LastStore(s, visits), LastProgress(g, visits);
    || (t == s && !Empties(scan, s, visits) && !Interrupts(visits))
    || (&& Holds(w, t, scan, h)
        && (Empties(scan, s, visits) || Interrupts(visits))
        && h.base + w.FullIndex() == Origin(scan, s, visits) + w.FullIndex()
        && h.history == (if Interrupts(visits) then None else Some(w.history))
        && (!Interrupts(visits) ==> h.base == map[]))
  }

  lemma OccursStep(scan: ScanId, s: Store, visits: seq<Visit>, v: Visit)
    ensures Interrupts(visits + [v]) <==> Interrupts(visits) || WrittenAtLabels(v.events)
    ensures Empties(scan, s, visits + [v]) <==> Empties(scan, s, visits) || Kind(LastStore(s, visits), scan, v.events) == Started
  {
    hide WrittenAtLabels, Kind, LastStore;
    var all, n := visits + [v], |visits|;
    assert forall x :: x in all <==> x in visits || x == v;
    assert all[..n] == visits && all[n] == v;
    forall i | 0 <= i < n ensures all[..i] == visits[..i] && all[i] == visits[i] {
    }
    if Empties(scan, s, visits) {
      var i :| 0 <= i < n && Kind(LastStore(s, visits[..i]), scan, visits[i].events) == Started;
      assert Kind(LastStore(s, all[..i]), scan, all[i].events) == Started;
    }
    if Kind(LastStore(s, visits), scan, v.events) == Started {
      assert Kind(LastStore(s, all[..n]), scan, all[n].events) == Started;
    }
    if Empties(scan, s, all) {
      var i :| 0 <= i < |all| && Kind(LastStore(s, all[..i]), scan, all[i].events) == Started;
      if i < n {
        assert Kind(LastStore(s, visits[..i]), scan, visits[i].events) == Started;
      }
    }
  }

  lemma TrackStep(w: Mailbox, scan: ScanId, s: Store, g: Progress, visits: seq<Visit>, v: Visit)
    requires w.Valid() && !BegunFull(s, scan) && OnTrack(w, scan, s, g, visits)
    requires Step(w, scan, LastStore(s, visits), LastProgress(g, visits), LastLog(visits), v)
    ensures OnTrack(w, scan, s, g, visits + [v])
  {
    hide Mailbox.Valid, Mailbox.FullIndex, Mailbox.IndexBefore, Interrupts, Empties, Logged, WrittenAtLabels, ReadsCheckpoint, WriteHalt;
    OccursStep(scan, s, visits, v);
    var t, h := LastStore(s, visits), LastProgress(g, visits);
    if WrittenAtLabels(v.events) && t != s {
      BasesJoin(w, h.base, h.position);
    }
  }

  lemma AttemptsPrefix(w: Mailbox, scan: ScanId, s: Store, g: Progress, visits: seq<Visit>)
    requires w.Valid() && Attempts(w, scan, s, g, visits) && visits != []
    ensures var n := |visits| - 1;
      && Attempts(w, scan, s, g, visits[..n])
      && Step(w, scan, LastStore(s, visits[..n]), LastProgress(g, visits[..n]), LastLog(visits[..n]), visits[n])
      && visits[..n] + [visits[n]] == visits
  {
    hide Step, LastStore, LastProgress, LastLog;
    var before := visits[..|visits| - 1];
    forall i | 0 <= i < |before| ensures before[i] == visits[i] && before[..i] == visits[..i] {
    }
  }

  lemma {:induction false} AllOnTrack(w: Mailbox, scan: ScanId, s: Store, g: Progress, visits: seq<Visit>)
    requires w.Valid() && !BegunFull(s, scan) && Attempts(w, scan, s, g, visits)
    ensures OnTrack(w, scan, s, g, visits)
  {
    hide Step, OnTrack, Mailbox.Valid, Attempts;
    if visits == [] {
      NoAttempts(w, scan, s, g);
    } else {
      var n := |visits| - 1;
      AttemptsPrefix(w, scan, s, g, visits);
      AllOnTrack(w, scan, s, g, visits[..n]);
      TrackStep(w, scan, s, g, visits[..n], visits[n]);
    }
  }

  lemma NoAttempts(w: Mailbox, scan: ScanId, s: Store, g: Progress)
    requires w.Valid()
    ensures OnTrack(w, scan, s, g, [])
  {
  }

  /** Nothing of an old index survives exactly when all its messages are in the new one. */
  lemma NothingStale(stale: map<MessageId, Record>, index: map<MessageId, Record>)
    ensures stale + index == index <==> stale.Keys <= index.Keys
  {
    assert (stale + index).Keys == stale.Keys + index.Keys;
    assert stale.Keys <= index.Keys ==> stale.Keys + index.Keys == index.Keys;
  }

  /**
   Resuming is equivalent to an uninterrupted scan. When the attempts reach
   completion, every page was counted once. The index is that of a full scan of
   the mailbox exactly when an attempt emptied it first or it held no message
   that a full scan would not list, and the history point is kept exactly when no
   stop at the labels was written down.
   */
  lemma ResumedScanIsComplete(w: Mailbox, scan: ScanId, s: Store, g: Progress, visits: seq<Visit>)
    requires w.Valid() && !BegunFull(s, scan) && Attempts(w, scan, s, g, visits)
    requires BegunFull(LastStore(s, visits), scan) && LastStore(s, visits).checkpoint.value.state == Completed
    ensures var t := LastStore(s, visits);
      && t.checkpoint.value.processed == w.CountBefore(w.PageCount())
      && t.records == Origin(scan, s, visits) + w.FullIndex()
      && (t.records == w.FullIndex() <==> Empties(scan, s, visits) || s.records.Keys <= w.FullIndex().Keys)
      && t.checkpoint.value.history == (if Interrupts(visits) then None else Some(w.history))
  {
    hide Interrupts, Empties, Mailbox.IndexBefore;
    AllOnTrack(w, scan, s, g, visits);
    assert map[] + w.FullIndex() == w.FullIndex();
    NothingStale(s.records, w.FullIndex());
  }

  // ------------------------------------------------- every checkpoint written

  /** A checkpoint and index that hold exactly the pages before the cursor. */
  ghost predicate ExactlyTheFirst(w: Mailbox, t: Store, scan: ScanId, n: nat)
    requires w.Valid() && n <= w.PageCount()
  {
    && BegunFull(t, scan)
    && t.checkpoint.value.cursor == w.CursorAt(n)
    && t.checkpoint.value.processed == w.CountBefore(n)
    && t.checkpoint.value.history == Some(w.history)
    && t.records == w.IndexBefore(n)
  }

  lemma HoldsExactly(w: Mailbox, t: Store, scan: ScanId, n: nat)
    requires w.Valid() && Holds(w, t, scan, Progress(map[], n, Some(w.history)))
    ensures n <= w.PageCount() && ExactlyTheFirst(w, t, scan, n)
  {
    assert map[] + w.IndexBefore(n) == w.IndexBefore(n);
  }

  lemma {:induction false} WritesFromNothing(w: Mailbox, scan: ScanId, s: Store, g: Progress, visits: seq<Visit>, t: Store)
    requires w.Valid() && !BegunFull(s, scan) && Attempts(w, scan, s, g, visits)
    requires !Interrupts(visits) && t in LastLog(visits)
    ensures HoldsSome(w, t, scan, map[], Some(w.history))
  {
    hide Step, OnTrack, Mailbox.Valid, Attempts, HoldsSome;
    var n := |visits| - 1;
    AttemptsPrefix(w, scan, s, g, visits);
    var before, v := visits[..n], visits[n];
    OccursStep(scan, s, before, v);
    if t in LastLog(before) {
      WritesFromNothing(w, scan, s, g, before, t);
    } else {
      AllOnTrack(w, scan, s, g, before);
      NewWrite(w, scan, s, g, before, v, t);
    }
  }

  lemma NewWrite(w: Mailbox, scan: ScanId, s: Store, g: Progress, before: seq<Visit>, v: Visit, t: Store)
    requires w.Valid() && !BegunFull(s, scan) && OnTrack(w, scan, s, g, before)
    requires !Interrupts(before) && !WrittenAtLabels(v.events)
    requires Step(w, scan, LastStore(s, before), LastProgress(g, before), LastLog(before), v)
    requires t in v.log && t !in LastLog(before)
    ensures HoldsSome(w, t, scan, map[], Some(w.history))
  {
    hide Mailbox.Valid, HoldsSome, Empties, WriteHalt, ReadsCheckpoint, WrittenAtLabels, Mailbox.IndexBefore, Mailbox.FullIndex;
    var log := LastLog(before);
    assert v.log == log + v.log[|log|..];
    assert t in v.log[|log|..];
  }

  /**
   While no stop at the labels was written down, every checkpoint that any
   attempt writes, also in between, says exactly which pages the index holds.
   */
  lemma CheckpointsAreExact(w: Mailbox, scan: ScanId, s: Store, g: Progress, visits: seq<Visit>, t: Store)
    requires w.Valid() && !BegunFull(s, scan) && Attempts(w, scan, s, g, visits)
    requires !Interrupts(visits) && t in LastLog(visits)
    ensures exists n: nat :: n <= w.PageCount() && ExactlyTheFirst(w, t, scan, n)
  {
    hide Holds, ExactlyTheFirst;
    WritesFromNothing(w, scan, s, g, visits, t);
    var n: nat :| Holds(w, t, scan, Progress(map[], n, Some(w.history)));
    HoldsExactly(w, t, scan, n);
  }
}
