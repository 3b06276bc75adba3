/**
 The read-only inventory: full scans and partial scans over pages, with retries,
 pauses, cancellations and failures, resumed from the stored checkpoint.
 */
module GmailInventory {
  import opened Basics
  import opened MailModel
  import opened Cursor
  import opened RemoteCalls
  import opened InventoryModel
  import opened FullScan
  import opened PartialScan
  import opened ScanLog

  class Inventory {
    const mailbox: Mailbox
    const feed: Feed
    const outside: Outside
    var store: Store
    ghost var writes: seq<Store>

    constructor (mailbox: Mailbox, feed: Feed, outside: Outside, store: Store)
      ensures this.mailbox == mailbox && this.feed == feed && this.outside == outside && this.store == store && writes == []
    {
      this.mailbox, this.feed, this.outside, this.store, this.writes := mailbox, feed, outside, store, [];
    }

    /** The clock may be broken; its value is not part of the model. */
    method Now() returns (ok: bool)
      modifies outside
      ensures ok == !Head(old(outside.events)).Broken? && outside.events == Tail(old(outside.events))
    {
      var e := outside.Next();
      ok := !e.Broken?;
    }

    /** After a page was read: whether to pause once it is written, and the clock. */
    method Ask() returns (stop: Option<Stop>, pauses: bool)
      modifies outside
      ensures Halt(stop, outside.events) == AskHalt(old(outside.events))
      ensures pauses == Head(old(outside.events)).PauseAsked?
    {
      var flag := outside.Next();
      pauses := flag.PauseAsked?;
      if flag.Broken? { return Some(StopError(ControlInvalid)), pauses; }
      var dated := Now();
      if !dated { return Some(StopError(ClockInvalid)), pauses; }
      stop := None;
    }

    method Call(history: bool) returns (stop: Option<Stop>)
      modifies outside
      ensures Halt(stop, outside.events) == CallHalt(old(outside.events), history, 1)
    {
      var waits;
      stop, waits := outside.Remote(history);
    }

    /** One atomic write of records, deletions and checkpoint; a message may not be both. */
    method ApplyPage(records: map<MessageId, Record>, deleted: set<MessageId>, checkpoint: Checkpoint) returns (stop: Option<Stop>)
      modifies this`store, this`writes, outside
      ensures records.Keys !! deleted ==> Halt(stop, outside.events) == WriteHalt(old(outside.events))
      ensures !(records.Keys !! deleted) ==> stop != None
      ensures stop == None ==> store == Store((old(store).records - deleted) + records, Some(checkpoint))
      ensures stop == None ==> writes == old(writes) + [store]
      ensures stop != None ==> store == old(store) && writes == old(writes)
    {
      var cancelled := outside.Next();
      if cancelled.Broken? { return Some(StopError(ControlInvalid)); }
      if cancelled.CancelAsked? { return Some(StopCancelled); }
      var write := outside.Next();
      if write.Broken? || !(records.Keys !! deleted) {
        return Some(StopError(PersistenceFailed));
      }
      store := Store((store.records - deleted) + records, Some(checkpoint));
      writes := writes + [store];
      return None;
    }

    /** One atomic write that empties the index and sets the checkpoint. */
    method StartFull(checkpoint: Checkpoint) returns (stop: Option<Stop>)
      modifies this`store, this`writes, outside
      ensures Halt(stop, outside.events) == WriteHalt(old(outside.events))
      ensures stop == None ==> store == Store(map[], Some(checkpoint)) && writes == old(writes) + [store]
      ensures stop != None ==> store == old(store) && writes == old(writes)
    {
      var cancelled := outside.Next();
      if cancelled.Broken? { return Some(StopError(ControlInvalid)); }
      if cancelled.CancelAsked? { return Some(StopCancelled); }
      var write := outside.Next();
      if write.Broken? { return Some(StopError(PersistenceFailed)); }
      store := Store(map[], Some(checkpoint));
      writes := writes + [store];
      return None;
    }

    /** Reports a failure, and writes it over the progress when it may be resumed. */
    method FailedResult(checkpoint: Checkpoint, code: ErrorCode, known: bool) returns (result: ScanResult)
      modifies this`store, this`writes, outside
      ensures result.outcome == OutcomeOf(CutBy(StopError(code), known, old(outside.events)))
      ensures result.checkpoint.SameProgress(checkpoint)
      ensures if known && WrittenDown(StopError(code), old(outside.events))
        then Rewritten(old(store), store, checkpoint) && writes == old(writes) + [store]
        else store == old(store) && writes == old(writes)
    {
      var dated := Now();
      var failed := checkpoint.(state := Failed, error := Some(code));
      if !(known && code.Persistable()) {
        return ScanResult(ScanFailed, failed, false, Some(code));
      }
      var stop := ApplyPage(map[], {}, failed);
      NothingApplied(old(store).records);
      if stop == None {
        return ScanResult(ScanFailed, failed, true, Some(code));
      }
      if stop.value.StopCancelled? {
        return ScanResult(ScanCancelled, checkpoint, false, None);
      }
      return ScanResult(ScanFailed, failed.(error := Some(PersistenceFailed)), false, Some(PersistenceFailed));
    }

    /** Reports a pause and writes it over the progress. A broken clock, and nothing else, escapes the scan. */
    method PausedResult(checkpoint: Checkpoint, known: bool, persisted: bool) returns (result: ScanResult)
      modifies this`store, this`writes, outside
      ensures result.outcome == ScanRaised <==> old(outside.events) != [] && old(outside.events)[0].Broken?
      ensures result.outcome == OutcomeOf(CutBy(StopPaused, known, old(outside.events)))
      ensures result.checkpoint.SameProgress(checkpoint)
      ensures if known && WrittenDown(StopPaused, old(outside.events))
        then Rewritten(old(store), store, checkpoint) && writes == old(writes) + [store]
        else store == old(store) && writes == old(writes)
    {
      var dated := Now();
      if !dated {
        return ScanResult(ScanRaised, checkpoint, persisted, Some(ClockInvalid));
      }
      var paused := checkpoint.(state := Paused, error := None);
      if !known {
        return ScanResult(ScanPaused, paused, false, None);
      }
      var stop := ApplyPage(map[], {}, paused);
      NothingApplied(old(store).records);
      if stop == None {
        return ScanResult(ScanPaused, paused, true, None);
      }
      if stop.value.StopCancelled? {
        return ScanResult(ScanCancelled, checkpoint, persisted, None);
      }
      result := FailedResult(paused, stop.value.code, known);
    }

    /**
     Ends a scan that something stopped. The end is reported exactly as its cause
     says; it raises exactly when a pause meets a broken clock.
     */
    method Interrupt(checkpoint: Checkpoint, stop: Stop, known: bool, persisted: bool) returns (result: ScanResult)
      requires stop != StopHistoryExpired
      modifies this`store, this`writes, outside
      ensures result.outcome == OutcomeOf(CutBy(stop, known, old(outside.events)))
      ensures result.outcome == ScanRaised <==> stop == StopPaused && Head(old(outside.events)).Broken?
      ensures if known && WrittenDown(stop, old(outside.events))
        then Rewritten(old(store), store, checkpoint) && writes == old(writes) + [store]
        else store == old(store) && writes == old(writes)
    {
      match stop
      case StopCancelled => result := ScanResult(ScanCancelled, checkpoint, persisted, None);
      case StopPaused => result := PausedResult(checkpoint, known, persisted);
      case StopError(code) => result := FailedResult(checkpoint, code, known);
    }

    /** The page behind a token of a phase. */
    method ListMessages(phase: Phase, token: Option<Token>, ghost n: nat)
      returns (stop: Option<Stop>, listing: seq<MessageId>, next: Option<Token>)
      requires mailbox.Valid() && n < mailbox.PageCount()
      requires phase == mailbox.PhaseAt(n) && token == mailbox.TokenAt(n)
      modifies outside
      ensures Halt(stop, outside.events) == CallHalt(old(outside.events), false, 1)
      ensures stop == None ==> listing == mailbox.Listing(n) && next == mailbox.NextTokenAt(n)
    {
      stop := Call(false);
      var chain := if phase == Normal then mailbox.normal else mailbox.junk;
      ghost var page := if phase == Normal then n else n - |mailbox.normal.pages|;
      FindsPage(chain, page);
      var found := PageFor(chain, token);
      listing, next := chain.pages[found], chain.NextOf(found);
    }

    /** The records of one page: each message is read, and the excluded ones are dropped. */
    method FetchPage(phase: Phase, listing: seq<MessageId>) returns (stop: Option<Stop>, records: map<MessageId, Record>)
      requires forall m <- listing :: m in mailbox.records
      modifies outside
      ensures Halt(stop, outside.events) == CallsHalt(|listing|, old(outside.events))
      ensures stop == None ==> records == map m | m in listing && mailbox.Kept(phase, m) :: mailbox.records[m]
    {
      hide CallHalt;
      records := map[];
      for i := 0 to |listing|
        invariant records == map m | m in listing[..i] && mailbox.Kept(phase, m) :: mailbox.records[m]
        invariant CallsHalt(|listing| - i, outside.events) == CallsHalt(|listing|, old(outside.events))
      {
        var m := listing[i];
        stop := Call(false);
        if stop != None { return; }
        assert forall x :: x in listing[..i + 1] <==> x in listing[..i] || x == m;
        var record := mailbox.records[m];
        if record.labels !! {Sent, Draft, Trash} && !(phase == Normal && Spam in record.labels) {
          records := records[m := record];
        }
      }
      assert listing[..|listing|] == listing;
      stop := None;
    }

    /**
     The beginning of both scans: clock, profile, account, labels and stored
     checkpoint. A stop at the labels is written over the progress exactly when
     it may be and the write goes through.
     */
    method Begin(initial: Checkpoint) returns (ended: Option<ScanResult>)
      modifies this`store, this`writes, outside
      ensures ended == None <==> ReadsCheckpoint(old(outside.events))
      ensures ended == None ==> outside.events == AfterCheckpoint(old(outside.events))
      ensures ended.Some? ==> ended.value.outcome == OutcomeOf(BeginEnd(old(outside.events)))
      ensures if WrittenAtLabels(old(outside.events))
        then Rewritten(old(store), store, initial) && writes == old(writes) + [store]
        else store == old(store) && writes == old(writes)
      ensures WrittenAtLabels(old(outside.events)) ==> ended.Some?
    {
      hide OutcomeOf, CallHalt, WriteHalt, Rewritten;
      var result;
      var dated := Now();
      if !dated {
        result := FailedResult(initial, ClockInvalid, false);
        return Some(result);
      }
      var stop := Call(false);
      if stop != None {
        result := Interrupt(initial, stop.value, false, false);
        return Some(result);
      }
      var identity := outside.Next();
      if identity.Broken? {
        result := FailedResult(initial, IdentityMismatch, false);
        return Some(result);
      }
      stop := Call(false);
      if stop != None {
        result := Interrupt(initial, stop.value, true, false);
        return Some(result);
      }
      var read := outside.Next();
      if read.Broken? {
        result := FailedResult(initial, PersistenceFailed, true);
        return Some(result);
      }
      return None;
    }

    /**
     One attempt at a full scan. What is stored and what happens outside decide
     what it does, how far it gets and what it reports. Every checkpoint it writes
     agrees with the index written with it.
     */
    method ScanFull(scan: ScanId, ghost g: Progress) returns (result: ScanResult, ghost h: Progress)
      requires mailbox.Valid() && (BegunFull(store, scan) ==> Holds(mailbox, store, scan, g))
      modifies this`store, this`writes, outside
      ensures Moves(mailbox, scan, old(store), g, Kind(old(store), scan, old(outside.events)), store, h)
      ensures var course := FullCourse(mailbox, old(store), scan, g, old(outside.events));
        && result.outcome == OutcomeOf(course.end)
        && h.position == course.position
        && (result.outcome == ScanRaised <==> PauseUnreported(course.end))
        && (result.outcome == ScanCompleted <==> course.end == Finished)
      ensures result.outcome == ScanCompleted ==>
        BegunFull(store, scan) && result.checkpoint == store.checkpoint.value && h.position == mailbox.PageCount()
      ensures if Kind(old(store), scan, old(outside.events)) == Nothing then writes == old(writes)
        else Logged(FullScope(mailbox, scan, h.base, h.history), old(store), old(writes), store, writes)
    {
      hide Holds, Logged, WriteHalt, ReadsCheckpoint, WrittenAtLabels, AfterCheckpoint, BeginEnd, OutcomeOf, PagesCourse, Mailbox.Valid,
        EncodeFull, Rewritten;
      OutcomeMeans(FullCourse(mailbox, store, scan, g, outside.events).end);
      h := g;
      LoggedNothing(FullScope(mailbox, scan, g.base, g.history), store, writes);
      var initial := Checkpoint(scan, FullMode, NotStarted, Some(EncodeFull(Normal, None)), None, 0, None);
      var ended := Begin(initial);
      if ended.Some? {
        result := ended.value;
        if WrittenAtLabels(old(outside.events)) {
          h := Progress(store.records, 0, None);
          InterruptedHolds(mailbox, scan, initial, old(store), store);
          LoggedNothing(FullScope(mailbox, scan, h.base, h.history), old(store), old(writes));
          HoldsSomewhere(mailbox, store, scan, h);
          LoggedWrite(FullScope(mailbox, scan, h.base, h.history), old(store), old(writes), old(store), old(writes), store);
        }
        return;
      }
      var checkpoint := initial;
      if store.checkpoint.Some? && store.checkpoint.value.scan == scan {
        checkpoint := store.checkpoint.value;
        if checkpoint.mode != FullMode {
          result := FailedResult(initial, CheckpointInvalid, true);
          return;
        }
        HoldsMeans(mailbox, store, scan, g);
        if checkpoint.state == Completed {
          return ScanResult(ScanCompleted, checkpoint, true, None), h;
        }
        result, h := ReadPages(scan, checkpoint, h);
      } else {
        checkpoint := initial.(state := Running, history := Some(mailbox.history));
        var stop := StartFull(checkpoint);
        if stop != None {
          result := Interrupt(checkpoint, stop.value, true, false);
          return;
        }
        h := Progress(map[], 0, Some(mailbox.history));
        StartedHolds(mailbox, scan, checkpoint, store);
        ghost var begun, log := store, writes;
        LoggedNothing(FullScope(mailbox, scan, h.base, h.history), old(store), old(writes));
        HoldsSomewhere(mailbox, store, scan, h);
        LoggedWrite(FullScope(mailbox, scan, h.base, h.history), old(store), old(writes), old(store), old(writes), store);
        result, h := ReadPages(scan, checkpoint, h);
        LoggedJoin(FullScope(mailbox, scan, h.base, h.history), old(store), old(writes), begun, log, store, writes);
      }
      HoldsMeans(mailbox, store, scan, h);
    }

    /** Reads one page and writes it with its checkpoint. */
    method ReadPage(scan: ScanId, checkpoint: Checkpoint, phase: Phase, token: Option<Token>, ghost g: Progress)
      returns (result: Option<ScanResult>, advanced: Checkpoint, nextPhase: Phase, next: Option<Token>)
      requires mailbox.Valid() && Holds(mailbox, store, scan, g) && g.position < mailbox.PageCount()
      requires store.checkpoint == Some(checkpoint)
      requires phase == mailbox.PhaseAt(g.position) && token == mailbox.TokenAt(g.position)
      modifies this`store, this`writes, outside
      ensures var turn := PageTurn(mailbox, g.position, old(outside.events));
        && Holds(mailbox, store, scan, if turn.read then g.(position := g.position + 1) else g)
        && (match turn.end
            case None =>
              && result == None && outside.events == turn.rest && store.checkpoint == Some(advanced)
              && nextPhase == mailbox.PhaseAt(g.position + 1) && next == mailbox.TokenAt(g.position + 1)
            case Some(end) =>
              && result.Some? && result.value.outcome == OutcomeOf(end)
              && (end == Finished ==> store.checkpoint == Some(result.value.checkpoint)))
      ensures Logged(FullScope(mailbox, scan, g.base, g.history), old(store), old(writes), store, writes)
    {
      hide Holds, Logged, Mailbox.Valid, Mailbox.Listing, Mailbox.TokenAt, Mailbox.NextTokenAt, Mailbox.CountBefore,
        Mailbox.IndexBefore, EncodeFull, CallHalt, CallsHalt, AskHalt, WriteHalt, Rewritten, OutcomeOf;
      LoggedNothing(FullScope(mailbox, scan, g.base, g.history), store, writes);
      advanced, nextPhase, next := checkpoint, phase, token;
      var ended, listing;
      var stop;
      stop, listing, next := ListMessages(phase, token, g.position);
      if stop != None {
        ended := Interrupt(checkpoint, stop.value, true, true);
        FullInterrupted(mailbox, scan, checkpoint, g, old(store), old(writes), old(store), old(writes), store, writes);
        return Some(ended), advanced, nextPhase, next;
      }
      ListingKnown(mailbox, g.position);
      var records;
      stop, records := FetchPage(phase, listing);
      if stop != None {
        ended := Interrupt(checkpoint, stop.value, true, true);
        FullInterrupted(mailbox, scan, checkpoint, g, old(store), old(writes), old(store), old(writes), store, writes);
        return Some(ended), advanced, nextPhase, next;
      }
      var completed := phase == Junk && next == None;
      nextPhase := if next == None then Junk else phase;
      var cursor := if completed then None else Some(EncodeFull(nextPhase, next));
      var asked;
      stop, asked := Ask();
      if stop != None {
        ended := Interrupt(checkpoint, stop.value, true, true);
        return Some(ended), advanced, nextPhase, next;
      }
      var pauses := asked && !completed;
      var state := if completed then Completed else if pauses then Paused else Running;
      advanced := checkpoint.(state := state, cursor := cursor, processed := checkpoint.processed + |listing|, error := None);
      stop := ApplyPage(records, {}, advanced);
      if stop != None {
        ended := Interrupt(checkpoint, stop.value, true, true);
        return Some(ended), advanced, nextPhase, next;
      }
      NextCursor(mailbox, g.position);
      WrittenPage(scan, checkpoint, advanced, g, old(store), old(writes));
      OutcomeMeans(Finished);
      OutcomeMeans(PausedHere);
      if completed {
        return Some(ScanResult(ScanCompleted, advanced, true, None)), advanced, nextPhase, next;
      }
      if pauses {
        return Some(ScanResult(ScanPaused, advanced, true, None)), advanced, nextPhase, next;
      }
      result := None;
    }

    lemma WrittenPage(scan: ScanId, checkpoint: Checkpoint, advanced: Checkpoint, g: Progress, before: Store, log: seq<Store>)
      requires mailbox.Valid() && Holds(mailbox, before, scan, g) && g.position < mailbox.PageCount()
      requires before.checkpoint == Some(checkpoint)
      requires var n := g.position;
        var completed := mailbox.PhaseAt(n) == Junk && mailbox.NextTokenAt(n) == None;
        && advanced == checkpoint.(state := advanced.state, processed := checkpoint.processed + |mailbox.Listing(n)|, error := None,
                                   cursor := if completed then None
                                             else Some(EncodeFull(if mailbox.NextTokenAt(n) == None then Junk else mailbox.PhaseAt(n),
                                                                  mailbox.NextTokenAt(n))))
        && (if completed then advanced.state == Completed else advanced.state in {Running, Paused})
      requires store == Store((before.records - {}) + mailbox.PageRecords(g.position), Some(advanced)) && writes == log + [store]
      ensures Holds(mailbox, store, scan, g.(position := g.position + 1))
      ensures Logged(FullScope(mailbox, scan, g.base, g.history), before, log, store, writes)
    {
      hide Holds, Logged, Mailbox.Valid, Mailbox.Listing, Mailbox.TokenAt, Mailbox.NextTokenAt, Mailbox.CountBefore, Mailbox.IndexBefore,
        Mailbox.PageRecords, EncodeFull;
      var h := g.(position := g.position + 1);
      NextCursor(mailbox, g.position);
      PageHolds(mailbox, scan, checkpoint, advanced, g, before, store);
      HoldsSomewhere(mailbox, store, scan, h);
      LoggedNothing(FullScope(mailbox, scan, g.base, g.history), before, log);
      LoggedWrite(FullScope(mailbox, scan, g.base, g.history), before, log, before, log, store);
    }

    /** Reads the pages from the stored cursor on, writing each one with its checkpoint. */
    method ReadPages(scan: ScanId, start: Checkpoint, ghost g: Progress) returns (result: ScanResult, ghost h: Progress)
      requires mailbox.Valid() && Holds(mailbox, store, scan, g) && g.position < mailbox.PageCount()
      requires store.checkpoint == Some(start)
      modifies this`store, this`writes, outside
      ensures Holds(mailbox, store, scan, h)
      ensures h == g.(position := PagesCourse(mailbox, g.position, old(outside.events)).position)
      ensures result.outcome == OutcomeOf(PagesCourse(mailbox, g.position, old(outside.events)).end)
      ensures result.outcome == ScanCompleted ==> result.checkpoint == store.checkpoint.value
      ensures Logged(FullScope(mailbox, scan, g.base, g.history), old(store), old(writes), store, writes)
    {
      hide Holds, Logged, Mailbox.Valid, Mailbox.Listing, Mailbox.TokenAt, Mailbox.CursorAt, DecodeFull, PageTurn, OutcomeOf;
      h := g;
      LoggedNothing(FullScope(mailbox, scan, g.base, g.history), store, writes);
      var checkpoint := start;
      HoldsMeans(mailbox, store, scan, h);
      CursorReadBack(mailbox, h.position);
      var decoded := if checkpoint.cursor == None then Err(BadCursor) else DecodeFull(checkpoint.cursor.value);
      if decoded.Err? {
        assert false;
        return ScanResult(ScanFailed, checkpoint, false, None), h;
      }
      var phase, token := decoded.value.phase, decoded.value.token;
      while true
        invariant Holds(mailbox, store, scan, h) && store.checkpoint == Some(checkpoint)
        invariant h == g.(position := h.position) && g.position <= h.position < mailbox.PageCount()
        invariant phase == mailbox.PhaseAt(h.position) && token == mailbox.TokenAt(h.position)
        invariant PagesCourse(mailbox, h.position, outside.events) == PagesCourse(mailbox, g.position, old(outside.events))
        invariant Logged(FullScope(mailbox, scan, g.base, g.history), old(store), old(writes), store, writes)
        decreases mailbox.PageCount() - h.position
      {
        ghost var before, log := store, writes;
        ghost var turn := PageTurn(mailbox, h.position, outside.events);
        var ended;
        ended, checkpoint, phase, token := ReadPage(scan, checkpoint, phase, token, h);
        LoggedJoin(FullScope(mailbox, scan, g.base, g.history), old(store), old(writes), before, log, store, writes);
        h := if turn.read then h.(position := h.position + 1) else h;
        if ended.Some? {
          OutcomeMeans(turn.end.value);
          return ended.value, h;
        }
      }
    }

    /** The page of the history feed behind a token. */
    method ListHistory(token: Option<Token>, ghost n: nat) returns (stop: Option<Stop>, page: seq<Change>, next: Option<Token>)
      requires feed.Valid() && n < feed.PageCount() && token == feed.chain.TokenOf(n)
      modifies outside
      ensures Halt(stop, outside.events) == CallHalt(old(outside.events), true, 1)
      ensures stop == None ==> page == feed.chain.pages[n] && next == feed.chain.NextOf(n)
    {
      stop := Call(true);
      FindsPage(feed.chain, n);
      var found := PageFor(feed.chain, token);
      page, next := feed.chain.pages[found], feed.chain.NextOf(found);
    }

    /** Reads every changed message in order; the excluded ones are to be removed instead. */
    method FetchChanged(changed: set<MessageId>)
      returns (stop: Option<Stop>, records: map<MessageId, Record>, excluded: set<MessageId>)
      modifies outside
      ensures Halt(stop, outside.events) == FetchHalt(mailbox.records, changed, old(outside.events))
      ensures stop == None ==> changed <= mailbox.records.Keys
      ensures stop == None ==> records == map m | m in changed && m in mailbox.records && !Excluded(mailbox.records[m]) :: mailbox.records[m]
      ensures stop == None ==> excluded == set m | m in changed && m in mailbox.records && Excluded(mailbox.records[m])
    {
      hide CallHalt;
      records, excluded := map[], {};
      var todo := changed;
      ghost var done: set<MessageId> := {};
      while todo != {}
        invariant todo + done == changed && done <= mailbox.records.Keys
        invariant records == map m | m in done && m in mailbox.records && !Excluded(mailbox.records[m]) :: mailbox.records[m]
        invariant excluded == set m | m in done && m in mailbox.records && Excluded(mailbox.records[m])
        invariant FetchHalt(mailbox.records, todo, outside.events) == FetchHalt(mailbox.records, changed, old(outside.events))
      {
        var m := First(todo);
        stop := Call(false);
        if stop != None { return; }
        if m !in mailbox.records {
          return Some(StopError(NotFound)), records, excluded;
        }
        todo, done := todo - {m}, done + {m};
        if Excluded(mailbox.records[m]) {
          excluded := excluded + {m};
        } else {
          records := records[m := mailbox.records[m]];
        }
      }
      assert done == changed;
      stop := None;
    }

    /**
     One attempt at a partial scan. What is stored and what happens outside decide
     what it does, how far it gets and what it reports. The history point moves only
     with completion. A partial checkpoint without one blocks every later attempt,
     one that asks for a full scan stays, and only an attempt that can start or
     resume completes.
     */
    method ScanPartial(scan: ScanId, ghost g: PartialProgress) returns (result: ScanResult, ghost h: PartialProgress)
      requires feed.Valid()
      requires BegunPartial(store, scan) ==> PartialHolds(mailbox, feed, store, scan, g) || Expired(mailbox, feed, store, scan, g)
      requires Startable(store, scan) ==> store.checkpoint.value.history == Some(feed.start)
      modifies this`store, this`writes, outside
      ensures PartialMoves(mailbox, feed, scan, old(store), g,
                           PartialKind(mailbox, feed, old(store), scan, g, old(outside.events)), store, h)
      ensures var course := PartialCourse(mailbox, feed, old(store), scan, g, old(outside.events));
        && result.outcome == OutcomeOf(course.end)
        && h.position == course.position
        && (result.outcome == ScanRaised <==> PauseUnreported(course.end))
        && (result.outcome == ScanCompleted <==> course.end == Finished)
      ensures match PartialKind(mailbox, feed, old(store), scan, g, old(outside.events))
        case Idle => writes == old(writes)
        case BlockedNow => writes == old(writes) + [store]
        case _ => Logged(PartialScope(mailbox, feed, scan, h.base), old(store), old(writes), store, writes)
      ensures result.outcome == ScanCompleted ==> PartialHolds(mailbox, feed, store, scan, h) && h.position == feed.PageCount()
      ensures Blocked(old(store)) ==> store.records == old(store).records && Blocked(store) && result.outcome != ScanCompleted
      ensures Expired(mailbox, feed, old(store), scan, g) ==>
        && result.outcome != ScanCompleted && store.records == old(store).records
        && (if WrittenAtLabels(old(outside.events)) then Blocked(store) else store == old(store))
      ensures !Startable(old(store), scan) && !PartialHolds(mailbox, feed, old(store), scan, g) ==> result.outcome != ScanCompleted
    {
      hide PartialHolds, PartialData, Logged, WriteHalt, ReadsCheckpoint, WrittenAtLabels, AfterCheckpoint, BeginEnd, OutcomeOf, HistoryCourse,
        EncodeCursor, Chain.Valid;
      OutcomeMeans(PartialCourse(mailbox, feed, store, scan, g, outside.events).end);
      ExpiredMeans(mailbox, feed, store, scan, g);
      h := g;
      var initial := Checkpoint(scan, PartialMode, NotStarted, Some(EncodeCursor(PARTIAL_PREFIX, None)), None, 0, None);
      var ended := Begin(initial);
      if ended.Some? {
        result := ended.value;
        return;
      }
      var checkpoint := initial;
      if store.checkpoint.Some? && store.checkpoint.value.scan == scan {
        checkpoint := store.checkpoint.value;
        if checkpoint.mode != PartialMode || checkpoint.history == None {
          result := FailedResult(initial, CheckpointInvalid, true);
          return;
        }
        if checkpoint.state == RequiresFullResync {
          return ScanResult(ScanRequiresResync, checkpoint, true, Some(HistoryExpired)), g;
        }
        PartialHoldsMeans(mailbox, feed, store, scan, g);
        LoggedNothing(PartialScope(mailbox, feed, scan, g.base), store, writes);
        if checkpoint.state == Completed {
          return ScanResult(ScanCompleted, checkpoint, true, None), h;
        }
        result, h := ReadHistory(scan, checkpoint, h);
      } else {
        if store.checkpoint == None || store.checkpoint.value.state != Completed || store.checkpoint.value.history == None {
          result := FailedResult(initial, CheckpointMissing, true);
          return;
        }
        checkpoint := initial.(state := Running, history := store.checkpoint.value.history);
        var stop := ApplyPage(map[], {}, checkpoint);
        if stop != None {
          result := Interrupt(checkpoint, stop.value, true, false);
          return;
        }
        h := PartialProgress(old(store).records, 0);
        PartialStarted(mailbox, feed, scan, checkpoint, old(store), store);
        ghost var begun, log := store, writes;
        PartialSomewhere(mailbox, feed, store, scan, h);
        LoggedNothing(PartialScope(mailbox, feed, scan, h.base), old(store), old(writes));
        LoggedWrite(PartialScope(mailbox, feed, scan, h.base), old(store), old(writes), old(store), old(writes), store);
        result, h := ReadHistory(scan, checkpoint, h);
        LoggedJoin(PartialScope(mailbox, feed, scan, h.base), old(store), old(writes), begun, log, store, writes);
      }
      if result.outcome == ScanCompleted {
        PartialHoldsMeans(mailbox, feed, store, scan, h);
      }
    }

    /** Applies one page of the feed and writes it with its checkpoint. */
    method ReadChanges(scan: ScanId, checkpoint: Checkpoint, token: Option<Token>, ghost g: PartialProgress)
      returns (result: Option<ScanResult>, advanced: Checkpoint, next: Option<Token>)
      requires feed.Valid() && PartialHolds(mailbox, feed, store, scan, g) && g.position < feed.PageCount()
      requires store.checkpoint == Some(checkpoint) && token == feed.chain.TokenOf(g.position)
      modifies this`store, this`writes, outside
      ensures var turn := ChangesTurn(mailbox.records, feed, g.position, old(outside.events));
        var h := if turn.read then g.(position := g.position + 1) else g;
        && (if turn.end == Some(ResyncAsked) then Expired(mailbox, feed, store, scan, h) else PartialHolds(mailbox, feed, store, scan, h))
        && (match turn.end
            case None =>
              && result == None && outside.events == turn.rest && store.checkpoint == Some(advanced)
              && next == feed.chain.TokenOf(g.position + 1)
            case Some(end) => result.Some? && result.value.outcome == OutcomeOf(end))
      ensures Logged(PartialScope(mailbox, feed, scan, g.base), old(store), old(writes), store, writes)
    {
      hide PartialHolds, Expired, Logged, Rewritten, Chain.Valid, Feed.CursorAt, DeletedIn, ChangedIn, Readable, Upserts, Removals, Excluded,
        Chain.TokenOf, Chain.NextOf, EncodeCursor, CallHalt, FetchHalt, AskHalt, WriteHalt, OutcomeOf;
      LoggedNothing(PartialScope(mailbox, feed, scan, g.base), store, writes);
      advanced, next := checkpoint, token;
      var ended, stop, page;
      stop, page, next := ListHistory(token, g.position);
      if stop == Some(StopHistoryExpired) {
        OutcomeMeans(ResyncAsked);
        ended := HistoryGone(scan, checkpoint, g);
        return Some(ended), advanced, next;
      }
      if stop != None {
        ended := Interrupt(checkpoint, stop.value, true, true);
        PartialInterrupted(mailbox, feed, scan, checkpoint, g, old(store), old(writes), old(store), old(writes), store, writes);
        return Some(ended), advanced, next;
      }
      var deleted, changed := DeletedIn(page), ChangedIn(page);
      var records, excluded;
      stop, records, excluded := FetchChanged(changed);
      if stop != None {
        ended := Interrupt(checkpoint, stop.value, true, true);
        PartialInterrupted(mailbox, feed, scan, checkpoint, g, old(store), old(writes), old(store), old(writes), store, writes);
        return Some(ended), advanced, next;
      }
      ReadableMeans(mailbox.records, page);
      var asked;
      stop, asked := Ask();
      if stop != None {
        ended := Interrupt(checkpoint, stop.value, true, true);
        return Some(ended), advanced, next;
      }
      var completed := next == None;
      var pauses := asked && !completed;
      var state := if completed then Completed else if pauses then Paused else Running;
      var cursor := if completed then None else Some(EncodeCursor(PARTIAL_PREFIX, next));
      var history := if completed then Some(feed.end) else checkpoint.history;
      advanced := checkpoint.(state := state, cursor := cursor, history := history, error := None,
                              processed := checkpoint.processed + |(deleted + excluded) + changed|);
      FetchedMeans(mailbox.records, page, records, excluded);
      UpsertsAndRemovalsDisjoint(mailbox.records, page);
      stop := ApplyPage(records, deleted + excluded, advanced);
      if stop != None {
        ended := Interrupt(checkpoint, stop.value, true, true);
        return Some(ended), advanced, next;
      }
      NextHistory(feed, g.position);
      WrittenChanges(scan, checkpoint, advanced, g, old(store), old(writes));
      OutcomeMeans(Finished);
      OutcomeMeans(PausedHere);
      if completed {
        return Some(ScanResult(ScanCompleted, advanced, true, None)), advanced, next;
      }
      if pauses {
        return Some(ScanResult(ScanPaused, advanced, true, None)), advanced, next;
      }
      result := None;
    }

    lemma WrittenChanges(scan: ScanId, checkpoint: Checkpoint, advanced: Checkpoint, g: PartialProgress, before: Store, log: seq<Store>)
      requires feed.Valid() && PartialHolds(mailbox, feed, before, scan, g) && g.position < feed.PageCount()
      requires before.checkpoint == Some(checkpoint) && Readable(mailbox.records, feed.chain.pages[g.position])
      requires var n := g.position; var page := feed.chain.pages[n]; var next := feed.chain.NextOf(n);
        && advanced == checkpoint.(state := advanced.state, error := None,
                                   processed := checkpoint.processed + |Removals(mailbox.records, page) + ChangedIn(page)|,
                                   history := if next == None then Some(feed.end) else checkpoint.history,
                                   cursor := if next == None then None else Some(EncodeCursor(PARTIAL_PREFIX, next)))
        && (if next == None then advanced.state == Completed else advanced.state in {Running, Paused})
        && store == Store((before.records - Removals(mailbox.records, page)) + Upserts(mailbox.records, page), Some(advanced))
      requires writes == log + [store]
      ensures PartialHolds(mailbox, feed, store, scan, g.(position := g.position + 1))
      ensures Logged(PartialScope(mailbox, feed, scan, g.base), before, log, store, writes)
    {
      hide PartialHolds, Logged, Chain.Valid, Feed.CursorAt, ChangedIn, Readable, Upserts, Removals, Chain.TokenOf, Chain.NextOf, EncodeCursor;
      PartialHoldsMeans(mailbox, feed, before, scan, g);
      NextHistory(feed, g.position);
      PartialPage(mailbox, feed, scan, checkpoint, advanced, before, store, g);
      PartialSomewhere(mailbox, feed, store, scan, g.(position := g.position + 1));
      LoggedNothing(PartialScope(mailbox, feed, scan, g.base), before, log);
      LoggedWrite(PartialScope(mailbox, feed, scan, g.base), before, log, before, log, store);
    }

    /** Applies the pages of the feed from the stored cursor on. */
    method ReadHistory(scan: ScanId, start: Checkpoint, ghost g: PartialProgress) returns (result: ScanResult, ghost h: PartialProgress)
      requires feed.Valid() && PartialHolds(mailbox, feed, store, scan, g) && g.position < feed.PageCount()
      requires store.checkpoint == Some(start)
      modifies this`store, this`writes, outside
      ensures var course := HistoryCourse(mailbox.records, feed, g.position, old(outside.events));
        && h == g.(position := course.position)
        && result.outcome == OutcomeOf(course.end)
        && (if course.end == ResyncAsked then Expired(mailbox, feed, store, scan, h) else PartialHolds(mailbox, feed, store, scan, h))
      ensures Logged(PartialScope(mailbox, feed, scan, g.base), old(store), old(writes), store, writes)
    {
      hide PartialHolds, Expired, Logged, Chain.Valid, Feed.CursorAt, Chain.TokenOf, DecodeCursor, ChangesTurn, OutcomeOf, Readable;
      h := g;
      LoggedNothing(PartialScope(mailbox, feed, scan, g.base), store, writes);
      var checkpoint := start;
      PartialHoldsMeans(mailbox, feed, store, scan, h);
      PartialCursorReadBack(feed, h.position);
      var decoded := if checkpoint.cursor == None then Err(BadCursor) else DecodeCursor(PARTIAL_PREFIX, checkpoint.cursor.value);
      if decoded.Err? {
        assert false;
        return ScanResult(ScanFailed, checkpoint, false, None), h;
      }
      var token := decoded.value;
      while true
        invariant PartialHolds(mailbox, feed, store, scan, h) && store.checkpoint == Some(checkpoint)
        invariant h == g.(position := h.position) && g.position <= h.position < feed.PageCount()
        invariant token == feed.chain.TokenOf(h.position)
        invariant HistoryCourse(mailbox.records, feed, h.position, outside.events)
               == HistoryCourse(mailbox.records, feed, g.position, old(outside.events))
        invariant Logged(PartialScope(mailbox, feed, scan, g.base), old(store), old(writes), store, writes)
        decreases feed.PageCount() - h.position
      {
        ghost var before, log := store, writes;
        ghost var turn := ChangesTurn(mailbox.records, feed, h.position, outside.events);
        var ended;
        ended, checkpoint, token := ReadChanges(scan, checkpoint, token, h);
        LoggedJoin(PartialScope(mailbox, feed, scan, g.base), old(store), old(writes), before, log, store, writes);
        h := if turn.read then h.(position := h.position + 1) else h;
        if ended.Some? {
          return ended.value, h;
        }
      }
    }

    /** The history point is too old: the checkpoint asks for a full scan, unless that cannot be written. */
    method HistoryGone(scan: ScanId, checkpoint: Checkpoint, ghost h: PartialProgress) returns (result: ScanResult)
      requires feed.Valid() && PartialHolds(mailbox, feed, store, scan, h) && h.position < feed.PageCount()
      requires store.checkpoint == Some(checkpoint)
      modifies this`store, this`writes, outside
      ensures var es := old(outside.events);
        var gone := WriteHalt(Tail(es));
        if Head(es).Broken? then
          PartialHolds(mailbox, feed, store, scan, h) && result.outcome == OutcomeOf(CutBy(StopError(ClockInvalid), true, Tail(es)))
        else if gone.stop.Some? then
          PartialHolds(mailbox, feed, store, scan, h) && result.outcome == OutcomeOf(CutBy(gone.stop.value, true, gone.rest))
        else
          Expired(mailbox, feed, store, scan, h) && result.outcome == ScanRequiresResync
      ensures Logged(PartialScope(mailbox, feed, scan, h.base), old(store), old(writes), store, writes)
    {
      hide PartialHolds, Expired, Logged, Rewritten, OutcomeOf, WriteHalt;
      LoggedNothing(PartialScope(mailbox, feed, scan, h.base), store, writes);
      var dated := Now();
      if !dated {
        result := Interrupt(checkpoint, StopError(ClockInvalid), true, true);
        return;
      }
      var resync := checkpoint.(state := RequiresFullResync, cursor := None, error := Some(HistoryExpired));
      var stop := ApplyPage(map[], {}, resync);
      if stop != None {
        result := Interrupt(checkpoint, stop.value, true, true);
        PartialInterrupted(mailbox, feed, scan, checkpoint, h, old(store), old(writes), old(store), old(writes), store, writes);
        return;
      }
      PartialExpired(mailbox, feed, scan, checkpoint, old(store), store, h);
      PartialSomewhere(mailbox, feed, store, scan, h);
      LoggedWrite(PartialScope(mailbox, feed, scan, h.base), old(store), old(writes), old(store), old(writes), store);
      return ScanResult(ScanRequiresResync, resync, true, Some(HistoryExpired));
    }
  }

  lemma FetchedMeans(all: map<MessageId, Record>, page: seq<Change>, records: map<MessageId, Record>, excluded: set<MessageId>)
    requires records == map m | m in ChangedIn(page) && m in all && !Excluded(all[m]) :: all[m]
    requires excluded == set m | m in ChangedIn(page) && m in all && Excluded(all[m])
    ensures records == Upserts(all, page) && DeletedIn(page) + excluded == Removals(all, page)
  {
  }

  lemma ExpiredMeans(w: Mailbox, f: Feed, s: Store, scan: ScanId, g: PartialProgress)
    requires f.Valid()
    ensures PartialHolds(w, f, s, scan, g) ==> Resumable(s, scan)
    ensures Expired(w, f, s, scan, g) ==> BegunPartial(s, scan) && !Resumable(s, scan) && !Startable(s, scan)
  {
  }

  lemma NextHistory(f: Feed, n: nat)
    requires f.Valid() && n < f.PageCount()
    ensures f.chain.NextOf(n) == None <==> n + 1 == f.PageCount()
    ensures f.chain.NextOf(n) != None ==> f.chain.TokenOf(n + 1) == f.chain.NextOf(n)
    ensures f.CursorAt(n + 1) == if n + 1 == f.PageCount() then None else Some(EncodeCursor(PARTIAL_PREFIX, f.chain.NextOf(n)))
  {
  }
}
