/** Concrete runs in which a scan does not do what an uninterrupted one would. */
module ScanExamples {
  import opened Basics
  import opened MailModel
  import opened Cursor
  import opened RemoteCalls
  import opened InventoryModel
  import opened FullScan
  import opened PartialScan
  import opened GmailInventory

  /** A mailbox that lists no message. */
  function EmptyMailbox(): (w: Mailbox)
    ensures w.Valid() && w.PageCount() == 2
  {
    Mailbox(map[], Chain([[]], []), Chain([[]], []), 7)
  }

  /** Clock, profile call and account are fine; the labels call is asked to pause. */
  const PAUSE_AT_LABELS: seq<Event> := [Quiet, Quiet, Quiet, Quiet, Quiet, Quiet, PauseAsked]

  /** The profile call is asked to pause, and then the clock is broken. */
  const PAUSE_THEN_BROKEN_CLOCK: seq<Event> := [Quiet, Quiet, PauseAsked, Broken]

  lemma PauseAtLabelsIsWritten()
    ensures WrittenAtLabels(PAUSE_AT_LABELS)
  {
    var es := PAUSE_AT_LABELS;
    assert Tail(Tail(Tail(es))) == [Quiet, Quiet, Quiet, PauseAsked];
    assert CallHalt(Tail(es), false, 1) == Halt(None, [Quiet, Quiet, PauseAsked]);
    assert OpeningHalt(es) == Halt(None, [Quiet, PauseAsked]);
    assert LabelsHalt(es) == Halt(Some(StopPaused), []);
  }

  /**
   A full scan of an empty mailbox is paused at the labels over an index that
   holds a message, and resumed: it completes, the message is still there, and
   the history point is lost.
   */
  method PausedAtLabelsKeepsStale(stale: Record) returns (stored: Store)
    ensures stored.checkpoint.Some? && stored.checkpoint.value.state == Completed
    ensures stored.records == map[1 := stale] && stored.records != EmptyMailbox().FullIndex()
    ensures stored.checkpoint.value.history == None
  {
    var w := EmptyMailbox();
    var feed := Feed(Chain([[]], []), 7, 7);
    var first := new Outside(PAUSE_AT_LABELS);
    var inventory := new Inventory(w, feed, first, Store(map[1 := stale], None));
    PauseAtLabelsIsWritten();
    var result, h := inventory.ScanFull(5, Progress(map[], 0, None));
    var second := new Outside([]);
    var resumed := new Inventory(w, feed, second, inventory.store);
    result, h := resumed.ScanFull(5, h);
    stored := resumed.store;
    assert w.ListedBefore(2) == {};
    assert EmptyMailbox().ListedBefore(2) == {};
    assert 1 in map[1 := stale] && 1 !in EmptyMailbox().FullIndex();
    assert stored.records == h.base + w.IndexBefore(2);
  }

  /** A pause that meets a broken clock raises out of a full scan. */
  method PauseWithBrokenClockRaises() returns (outcome: ScanOutcome)
    ensures outcome == ScanRaised
  {
    var outside := new Outside(PAUSE_THEN_BROKEN_CLOCK);
    var inventory := new Inventory(EmptyMailbox(), Feed(Chain([[]], []), 7, 7), outside, Store(map[], None));
    assert CallHalt(Tail(PAUSE_THEN_BROKEN_CLOCK), false, 1) == Halt(Some(StopPaused), [Broken]);
    var result, h := inventory.ScanFull(5, Progress(map[], 0, None));
    outcome := result.outcome;
  }

  /** The same out of a partial scan. */
  method PartialPauseWithBrokenClockRaises() returns (outcome: ScanOutcome)
    ensures outcome == ScanRaised
  {
    var outside := new Outside(PAUSE_THEN_BROKEN_CLOCK);
    var inventory := new Inventory(EmptyMailbox(), Feed(Chain([[]], []), 7, 7), outside, Store(map[], None));
    assert CallHalt(Tail(PAUSE_THEN_BROKEN_CLOCK), false, 1) == Halt(Some(StopPaused), [Broken]);
    var result, h := inventory.ScanPartial(6, PartialProgress(map[], 0));
    outcome := result.outcome;
  }

  /** A completed scan that a partial one can start from. */
  function Done(): Store {
    Store(map[], Some(Checkpoint(5, FullMode, Completed, None, Some(7), 0, None)))
  }

  /** A partial scan paused at the labels: neither it nor a scan with another identifier completes later, although nothing interrupts. */
  method PausedAtLabelsBlocks(other: ScanId) returns (outcome: ScanOutcome)
    ensures outcome != ScanCompleted
  {
    var feed := Feed(Chain([[]], []), 7, 7);
    var first := new Outside(PAUSE_AT_LABELS);
    var inventory := new Inventory(EmptyMailbox(), feed, first, Done());
    PauseAtLabelsIsWritten();
    var result, h := inventory.ScanPartial(6, PartialProgress(map[], 0));
    var second := new Outside([]);
    var resumed := new Inventory(EmptyMailbox(), feed, second, inventory.store);
    result, h := resumed.ScanPartial(other, h);
    outcome := result.outcome;
  }

  /** A message is added on one page and deleted on a later one. */
  function CameAndWentFeed(): (f: Feed)
    ensures f.Valid() && f.PageCount() == 2
  {
    Feed(Chain([[Change(Added, 1)], [Change(Deleted, 1)]], [[65]]), 7, 8)
  }

  lemma MissingMessageStops()
    ensures HistoryCourse(map[], CameAndWentFeed(), 0, []).end == CutBy(StopError(NotFound), true, [])
  {
    assert Change(Added, 1) in CameAndWentFeed().chain.pages[0];
    assert ChangedIn(CameAndWentFeed().chain.pages[0]) == {1};
    assert FetchHalt(map[], {1}, []) == Halt(Some(StopError(NotFound)), []);
  }

  /** Such a message cannot be read any more: the scan fails, although nothing interrupts. */
  method CameAndWent() returns (outcome: ScanOutcome)
    ensures outcome == ScanFailed
  {
    hide HistoryCourse, CallHalt, PartialKind, PartialMoves, Expired, PartialHolds;
    var feed := CameAndWentFeed();
    var outside := new Outside([]);
    var inventory := new Inventory(EmptyMailbox(), feed, outside, Done());
    MissingMessageStops();
    var result, h := inventory.ScanPartial(6, PartialProgress(map[], 0));
    outcome := result.outcome;
  }
}
