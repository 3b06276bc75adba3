/** Any number of interrupted attempts at one partial scan. */
module PartialScanRuns {
  import opened Basics
  import opened MailModel
  import opened RemoteCalls
  import opened InventoryModel
  import opened FullScan
  import opened PartialScan
  import opened ScanLog

  /** One attempt: what happened outside, and the store, progress and log of writes it leaves. */
  datatype PartialVisit = PartialVisit(events: seq<Event>, store: Store, progress: PartialProgress, log: seq<Store>)

  function LastOf(s: Store, visits: seq<PartialVisit>): Store {
    if visits == [] then s else visits[|visits| - 1].store
  }

  function ProgressOf(g: PartialProgress, visits: seq<PartialVisit>): PartialProgress {
    if visits == [] then g else visits[|visits| - 1].progress
  }

  function LogOf(visits: seq<PartialVisit>): seq<Store> {
    if visits == [] then [] else visits[|visits| - 1].log
  }

  /** One attempt, as the contract of a partial scan describes it. */
  ghost predicate PartialStep(w: Mailbox, f: Feed, scan: ScanId, s: Store, g: PartialProgress, log: seq<Store>, v: PartialVisit)
    requires f.Valid()
  {
    (Resumable(s, scan) ==> PartialHolds(w, f, s, scan, g)) ==>
      var kind := PartialKind(w, f, s, scan, g, v.events);
      && PartialMoves(w, f, scan, s, g, kind, v.store, v.progress)
      && match kind
         case Idle => v.log == log
         case BlockedNow => v.log == log + [v.store]
         case _ => Logged(PartialScope(w, f, scan, v.progress.base), s, log, v.store, v.log)
  }

  ghost predicate PartialAttempts(w: Mailbox, f: Feed, scan: ScanId, s: Store, g: PartialProgress, visits: seq<PartialVisit>)
    requires f.Valid()
  {
    forall i :: 0 <= i < |visits| ==>
      PartialStep(w, f, scan, LastOf(s, visits[..i]), ProgressOf(g, visits[..i]), LogOf(visits[..i]), visits[i])
  }

  /** Some attempt was stopped at the labels, and the stop was written down. */
  predicate PartialInterrupts(visits: seq<PartialVisit>) {
    exists v <- visits :: WrittenAtLabels(v.events)
  }

  /** Untouched, under way over the first index, expired, or blocked for good. */
  ghost predicate OnPartialTrack(w: Mailbox, f: Feed, scan: ScanId, s: Store, t: Store, h: PartialProgress, interrupted: bool)
    requires f.Valid()
  {
    if interrupted then Blocked(t)
    else
      || t == s
      || (PartialHolds(w, f, t, scan, h) && h.base == s.records)
      || (Expired(w, f, t, scan, h) && h.base == s.records)
  }

  /** What is written of a partial scan over the first index, or without a history point. */
  ghost predicate Proper(w: Mailbox, f: Feed, scan: ScanId, base: map<MessageId, Record>, t: Store)
    requires f.Valid()
  {
    Blocked(t) || PartialSome(w, f, t, scan, base)
  }

  lemma PartialTrackStep(w: Mailbox, f: Feed, scan: ScanId, s: Store, t: Store, h: PartialProgress, log: seq<Store>, v: PartialVisit,
                         interrupted: bool)
    requires f.Valid() && Startable(s, scan) && OnPartialTrack(w, f, scan, s, t, h, interrupted)
    requires PartialStep(w, f, scan, t, h, log, v)
    ensures OnPartialTrack(w, f, scan, s, v.store, v.progress, interrupted || WrittenAtLabels(v.events))
  {
    hide PartialData, PartialSome, WrittenAtLabels, ReadsCheckpoint, PartialCourse, WriteHalt, Feed.CursorAt, Logged;
    TrackResumes(w, f, scan, s, t, h, interrupted);
  }

  /** On the track a scan can be taken up only over the first index. */
  lemma TrackResumes(w: Mailbox, f: Feed, scan: ScanId, s: Store, t: Store, h: PartialProgress, interrupted: bool)
    requires f.Valid() && Startable(s, scan) && OnPartialTrack(w, f, scan, s, t, h, interrupted)
    ensures Resumable(t, scan) ==> PartialHolds(w, f, t, scan, h) && h.base == s.records
    ensures Startable(t, scan) ==> t.records == s.records && !BegunPartial(t, scan)
    ensures interrupted ==> !Resumable(t, scan) && !Startable(t, scan)
  {
    hide Feed.CursorAt, Applied, ProcessedBefore, Readable;
  }

  /** What an attempt on the track writes. */
  lemma PartialLogStep(w: Mailbox, f: Feed, scan: ScanId, s: Store, t: Store, h: PartialProgress, log: seq<Store>, v: PartialVisit,
                       interrupted: bool, x: Store)
    requires f.Valid() && Startable(s, scan) && OnPartialTrack(w, f, scan, s, t, h, interrupted)
    requires PartialStep(w, f, scan, t, h, log, v) && x in v.log && x !in log
    ensures Proper(w, f, scan, s.records, x)
  {
    hide PartialHolds, Expired, PartialSome, WrittenAtLabels, ReadsCheckpoint, PartialCourse, WriteHalt, Feed.CursorAt, OnPartialTrack;
    TrackResumes(w, f, scan, s, t, h, interrupted);
    if log <= v.log {
      assert v.log == log + v.log[|log|..];
    }
  }

  lemma PartialPrefix(w: Mailbox, f: Feed, scan: ScanId, s: Store, g: PartialProgress, visits: seq<PartialVisit>)
    requires f.Valid() && PartialAttempts(w, f, scan, s, g, visits) && visits != []
    ensures var n := |visits| - 1;
      && PartialAttempts(w, f, scan, s, g, visits[..n])
      && PartialStep(w, f, scan, LastOf(s, visits[..n]), ProgressOf(g, visits[..n]), LogOf(visits[..n]), visits[n])
      && (PartialInterrupts(visits) <==> PartialInterrupts(visits[..n]) || WrittenAtLabels(visits[n].events))
  {
    hide PartialStep, LastOf, ProgressOf, LogOf, WrittenAtLabels;
    var before := visits[..|visits| - 1];
    forall i | 0 <= i < |before| ensures before[i] == visits[i] && before[..i] == visits[..i] {
    }
    assert forall v :: v in visits <==> v in before || v == visits[|visits| - 1];
  }

  /**
   The store is blocked exactly when some stop at the labels was written down,
   and everything written before is a checkpoint over the first index.
   */
  lemma {:induction false} AllOnPartialTrack(w: Mailbox, f: Feed, scan: ScanId, s: Store, g: PartialProgress, visits: seq<PartialVisit>)
    requires f.Valid() && Startable(s, scan) && PartialAttempts(w, f, scan, s, g, visits)
    ensures OnPartialTrack(w, f, scan, s, LastOf(s, visits), ProgressOf(g, visits), PartialInterrupts(visits))
    ensures Blocked(LastOf(s, visits)) <==> PartialInterrupts(visits)
    ensures forall x <- LogOf(visits) :: Proper(w, f, scan, s.records, x)
  {
    hide PartialHolds, Expired, PartialStep, OnPartialTrack, Startable, Blocked, PartialAttempts, WrittenAtLabels, PartialInterrupts, Proper;
    if visits == [] {
      UntouchedOnTrack(w, f, scan, s, g);
    } else {
      var n := |visits| - 1;
      var before := visits[..n];
      PartialPrefix(w, f, scan, s, g, visits);
      AllOnPartialTrack(w, f, scan, s, g, before);
      PartialTrackStep(w, f, scan, s, LastOf(s, before), ProgressOf(g, before), LogOf(before), visits[n], PartialInterrupts(before));
      forall x | x in LogOf(visits) ensures Proper(w, f, scan, s.records, x) {
        if x !in LogOf(before) {
          PartialLogStep(w, f, scan, s, LastOf(s, before), ProgressOf(g, before), LogOf(before), visits[n], PartialInterrupts(before), x);
        }
      }
    }
    TrackBlocked(w, f, scan, s, LastOf(s, visits), ProgressOf(g, visits), PartialInterrupts(visits));
  }

  lemma UntouchedOnTrack(w: Mailbox, f: Feed, scan: ScanId, s: Store, g: PartialProgress)
    requires f.Valid()
    ensures OnPartialTrack(w, f, scan, s, s, g, PartialInterrupts([]))
  {
  }

  lemma TrackBlocked(w: Mailbox, f: Feed, scan: ScanId, s: Store, t: Store, h: PartialProgress, interrupted: bool)
    requires f.Valid() && Startable(s, scan) && OnPartialTrack(w, f, scan, s, t, h, interrupted)
    ensures Blocked(t) <==> interrupted
  {
    hide PartialData;
    if PartialHolds(w, f, t, scan, h) {
      PartialHoldsMeans(w, f, t, scan, h);
    }
  }

  /**
   However often it was interrupted, a partial scan that completes over the full
   index of the old mailbox leaves the full index of the new one, and no stop at
   the labels was written down before.
   */
  lemma ResumedPartialIsFull(before: Mailbox, after: Mailbox, f: Feed, scan: ScanId, s: Store, g: PartialProgress,
                             visits: seq<PartialVisit>)
    requires f.Valid() && ListsEverything(before) && ListsEverything(after)
    requires Faithful(f, before.records, after.records)
    requires Startable(s, scan) && s.records == before.FullIndex()
    requires PartialAttempts(after, f, scan, s, g, visits)
    requires BegunPartial(LastOf(s, visits), scan) && LastOf(s, visits).checkpoint.value.state == Completed
    ensures LastOf(s, visits).records == after.FullIndex()
    ensures LastOf(s, visits).checkpoint.value.history == Some(f.end)
    ensures !PartialInterrupts(visits)
  {
    hide ListsEverything, Faithful, PartialStep, PartialHolds, PartialInterrupts, Proper;
    AllOnPartialTrack(after, f, scan, s, g, visits);
    CompletedPartialIsFull(before, after, f, LastOf(s, visits), scan, ProgressOf(g, visits));
  }

  /** A checkpoint and index that hold exactly the changes of the pages before the cursor. */
  ghost predicate AppliesTheFirst(w: Mailbox, f: Feed, base: map<MessageId, Record>, t: Store, n: nat)
    requires f.Valid() && t.checkpoint.Some? && n <= f.PageCount()
  {
    var c := t.checkpoint.value;
    && t.records == Applied(base, w.records, f.chain.pages, n)
    && c.processed == ProcessedBefore(w.records, f.chain.pages, n)
    && c.history == Some(if c.state == Completed then f.end else f.start)
    && (c.state != RequiresFullResync ==> c.cursor == f.CursorAt(n))
  }

  /** Every checkpoint written before a stop at the labels holds exactly the pages before its cursor over the first index. */
  lemma PartialCheckpointsAreExact(w: Mailbox, f: Feed, scan: ScanId, s: Store, g: PartialProgress, visits: seq<PartialVisit>, t: Store)
    requires f.Valid() && Startable(s, scan) && PartialAttempts(w, f, scan, s, g, visits)
    requires t in LogOf(visits) && !Blocked(t)
    ensures BegunPartial(t, scan)
    ensures exists n: nat :: n <= f.PageCount() && AppliesTheFirst(w, f, s.records, t, n)
  {
    hide Applied, ProcessedBefore, Feed.CursorAt, Readable, Logged, PartialStep;
    AllOnPartialTrack(w, f, scan, s, g, visits);
    assert Proper(w, f, scan, s.records, t);
    var n: nat :| PartialHolds(w, f, t, scan, PartialProgress(s.records, n)) || Expired(w, f, t, scan, PartialProgress(s.records, n));
    assert AppliesTheFirst(w, f, s.records, t, n);
  }
}
