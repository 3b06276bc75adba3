/** What the writes of a full scan preserve. */
module FullScan {
  import opened Basics
  import opened MailModel
  import opened Cursor
  import opened RemoteCalls
  import opened InventoryModel

  // ------------------------------------------------- the course of an attempt

  /** How an attempt ends: `known` says whether the account was verified by then. */
  datatype End =
    | Finished
    | PausedHere    // a pause was asked for after a page
    | ResyncAsked   // the history point of a partial scan is too old
    | CutBy(stop: Stop, known: bool, rest: seq<Event>)

  /** The page an attempt gets to, and how it ends there. */
  datatype Course = Course(position: nat, end: End)

  /** What a scan reports of its end. A pause is reported with the clock, and a broken clock escapes the scan. */
  function OutcomeOf(end: End): ScanOutcome {
    match end
    case Finished => ScanCompleted
    case PausedHere => ScanPaused
    case ResyncAsked => ScanRequiresResync
    case CutBy(StopCancelled, _, _) => ScanCancelled
    case CutBy(StopHistoryExpired, _, _) => ScanRequiresResync
    case CutBy(StopPaused, known, rest) =>
      if Head(rest).Broken? then ScanRaised
      else if !known || WriteHalt(Tail(rest)).stop == None then ScanPaused
      else if WriteHalt(Tail(rest)).stop == Some(StopCancelled) then ScanCancelled
      else ScanFailed
    case CutBy(StopError(code), known, rest) =>
      if known && code.Persistable() && WriteHalt(Tail(rest)).stop == Some(StopCancelled) then ScanCancelled else ScanFailed
  }

  /** A pause that meets a broken clock. */
  predicate PauseUnreported(end: End) {
    end.CutBy? && end.stop == StopPaused && Head(end.rest).Broken?
  }

  lemma OutcomeMeans(end: End)
    ensures OutcomeOf(end) == ScanRaised <==> PauseUnreported(end)
    ensures OutcomeOf(end) == ScanCompleted <==> end == Finished
    ensures end == PausedHere ==> OutcomeOf(end) == ScanPaused
    ensures end == ResyncAsked ==> OutcomeOf(end) == ScanRequiresResync
  {
  }

  /** The end of an attempt that does not come to read the stored checkpoint. */
  function BeginEnd(es: seq<Event>): (end: End)
    requires !ReadsCheckpoint(es)
    ensures end.CutBy? && end.stop != StopHistoryExpired
  {
    var opening, labels := OpeningHalt(es), LabelsHalt(es);
    if opening.stop.Some? then CutBy(opening.stop.value, false, opening.rest)
    else if labels.stop.Some? then CutBy(labels.stop.value, true, labels.rest)
    else CutBy(StopError(PersistenceFailed), true, AfterCheckpoint(es))
  }

  /** One page: whether it is read and written, how the attempt ends there if it does, and else the events left. */
  datatype Turn = Turn(read: bool, end: Option<End>, rest: seq<Event>)

  ghost function PageTurn(w: Mailbox, n: nat, es: seq<Event>): (t: Turn)
    requires n < w.PageCount()
    ensures t.end == None ==> t.read && n + 1 < w.PageCount()
    ensures t.end == Some(Finished) <==> t.read && n + 1 == w.PageCount()
    ensures es == [] ==> t.read && t.rest == [] && (t.end == None || t.end == Some(Finished))
  {
    var listed := CallHalt(es, false, 1);
    var read := CallsHalt(|w.Listing(n)|, listed.rest);
    var asked := AskHalt(read.rest);
    var write := WriteHalt(asked.rest);
    if listed.stop.Some? then Turn(false, Some(CutBy(listed.stop.value, true, listed.rest)), [])
    else if read.stop.Some? then Turn(false, Some(CutBy(read.stop.value, true, read.rest)), [])
    else if asked.stop.Some? then Turn(false, Some(CutBy(asked.stop.value, true, asked.rest)), [])
    else if write.stop.Some? then Turn(false, Some(CutBy(write.stop.value, true, write.rest)), [])
    else if n + 1 == w.PageCount() then Turn(true, Some(Finished), [])
    else if Head(read.rest).PauseAsked? then Turn(true, Some(PausedHere), [])
    else Turn(true, None, write.rest)
  }

  /** Reading the pages from one on. */
  ghost function PagesCourse(w: Mailbox, n: nat, es: seq<Event>): (c: Course)
    requires n < w.PageCount()
    ensures n <= c.position <= w.PageCount()
    ensures c.end == Finished <==> c.position == w.PageCount()
    ensures es == [] ==> c.end == Finished
    decreases w.PageCount() - n
  {
    var turn := PageTurn(w, n, es);
    if turn.end.Some? then Course(if turn.read then n + 1 else n, turn.end.value) else PagesCourse(w, n + 1, turn.rest)
  }

  /** A whole attempt at a full scan, from what is stored and from what happens outside. */
  ghost function FullCourse(w: Mailbox, s: Store, scan: ScanId, g: Progress, es: seq<Event>): (c: Course)
    requires w.Valid() && (BegunFull(s, scan) ==> Holds(w, s, scan, g))
    ensures es == [] && !OtherMode(s, scan) ==> c.end == Finished
  {
    var left := AfterCheckpoint(es);
    var start := WriteHalt(left);
    if !ReadsCheckpoint(es) then Course(if WrittenAtLabels(es) then 0 else g.position, BeginEnd(es))
    else if OtherMode(s, scan) then Course(g.position, CutBy(StopError(CheckpointInvalid), true, left))
    else if BegunFull(s, scan) then
      if g.position == w.PageCount() then Course(g.position, Finished) else PagesCourse(w, g.position, left)
    else if start.stop.Some? then Course(g.position, CutBy(start.stop.value, true, start.rest))
    else PagesCourse(w, 0, start.rest)
  }

  /** What one attempt does to the store. */
  datatype Attempt =
    | Nothing       // no write
    | Interrupted   // a pause or failure while reading the labels is written over the progress
    | Started       // the index is emptied, and perhaps some pages are read
    | Continued     // the stored progress is taken up, and perhaps some pages are read

  /** The kind of an attempt, from what is stored and from what happens outside. */
  ghost function Kind(s: Store, scan: ScanId, es: seq<Event>): Attempt {
    if WrittenAtLabels(es) then Interrupted
    else if !ReadsCheckpoint(es) then Nothing
    else if BegunFull(s, scan) then Continued
    else if !OtherMode(s, scan) && WriteHalt(AfterCheckpoint(es)).stop == None then Started
    else Nothing
  }

  /** How an attempt changes the store and the progress. */
  ghost predicate Moves(w: Mailbox, scan: ScanId, s: Store, g: Progress, a: Attempt, t: Store, h: Progress)
    requires w.Valid()
  {
    match a
    case Nothing => t == s && h == g
    case Interrupted =>
      Holds(w, t, scan, h) && t.records == s.records && h == Progress(s.records, 0, None)
    case Started =>
      !BegunFull(s, scan) && Holds(w, t, scan, h) && h.base == map[] && h.history == Some(w.history)
    case Continued =>
      && BegunFull(s, scan) && Holds(w, t, scan, h)
      && h.base == g.base && h.history == g.history && g.position <= h.position
  }

  /** Some checkpoint of a scan over that base: exactly the pages before its cursor, each counted once. */
  ghost predicate HoldsSome(w: Mailbox, t: Store, scan: ScanId, base: map<MessageId, Record>, history: Option<HistoryId>)
    requires w.Valid()
  {
    exists n: nat :: Holds(w, t, scan, Progress(base, n, history))
  }

  // ------------------------------------------------- what the writes preserve

  lemma HoldsMeans(w: Mailbox, s: Store, scan: ScanId, g: Progress)
    requires w.Valid() && Holds(w, s, scan, g)
    ensures BegunFull(s, scan) && g.position <= w.PageCount()
    ensures s.checkpoint.value.cursor == w.CursorAt(g.position)
    ensures s.checkpoint.value.state == Completed <==> g.position == w.PageCount()
  {
  }

  lemma ListingKnown(w: Mailbox, n: nat)
    requires w.Valid() && n < w.PageCount()
    ensures forall m <- w.Listing(n) :: m in w.records
  {
    assert w.Listing(n) in w.normal.pages || w.Listing(n) in w.junk.pages;
  }

  lemma InterruptedHolds(w: Mailbox, scan: ScanId, initial: Checkpoint, s: Store, t: Store)
    requires w.Valid() && Rewritten(s, t, initial)
    requires initial == Checkpoint(scan, FullMode, NotStarted, Some(EncodeFull(Normal, None)), None, 0, None)
    ensures Holds(w, t, scan, Progress(s.records, 0, None)) && t.records == s.records
  {
    NoPages(w);
    assert s.records + map[] == s.records;
  }

  lemma StartedHolds(w: Mailbox, scan: ScanId, checkpoint: Checkpoint, t: Store)
    requires w.Valid() && t == Store(map[], Some(checkpoint))
    requires checkpoint == Checkpoint(scan, FullMode, Running, Some(EncodeFull(Normal, None)), Some(w.history), 0, None)
    ensures Holds(w, t, scan, Progress(map[], 0, Some(w.history)))
  {
    NoPages(w);
  }

  /** The cursor stored before a page leads back to that page. */
  lemma CursorReadBack(w: Mailbox, n: nat)
    requires w.Valid() && n < w.PageCount()
    ensures w.CursorAt(n).Some? && DecodeFull(w.CursorAt(n).value) == Ok(Position(w.PhaseAt(n), w.TokenAt(n)))
  {
    hide EncodeFull, DecodeFull;
    FullCursorRoundTrip(w.PhaseAt(n), w.TokenAt(n));
  }

  /** What a page announces is the position of the next one. */
  lemma NextCursor(w: Mailbox, n: nat)
    requires w.Valid() && n < w.PageCount()
    ensures var next := w.NextTokenAt(n);
      var completed := w.PhaseAt(n) == Junk && next == None;
      && (completed <==> n + 1 == w.PageCount())
      && (!completed ==> w.PhaseAt(n + 1) == (if next == None then Junk else w.PhaseAt(n)) && w.TokenAt(n + 1) == next)
  {
  }

  /** A checkpoint one page further on. */
  ghost predicate Advances(w: Mailbox, from: Checkpoint, to: Checkpoint, n: nat)
    requires w.Valid() && n < w.PageCount()
  {
    && to.scan == from.scan && to.mode == from.mode && to.history == from.history
    && to.processed == from.processed + |w.Listing(n)|
    && to.cursor == w.CursorAt(n + 1)
    && (to.state == Completed <==> n + 1 == w.PageCount())
    && to.state in {Running, Paused, Completed}
  }

  /** Writing a page with its advanced checkpoint is progress by one page. */
  lemma PageHolds(w: Mailbox, scan: ScanId, from: Checkpoint, to: Checkpoint, g: Progress, s: Store, t: Store)
    requires w.Valid() && g.position < w.PageCount()
    requires Holds(w, s, scan, g) && s.checkpoint == Some(from)
    requires Advances(w, from, to, g.position)
    requires t == Store((s.records - {}) + w.PageRecords(g.position), Some(to))
    ensures Holds(w, t, scan, g.(position := g.position + 1))
  {
    hide Mailbox.Listing, Mailbox.IndexBefore, Mailbox.PageRecords, Mailbox.CursorAt, Mailbox.Valid;
    IndexGrows(w, g.position);
    UnionAssociative(g.base, w.IndexBefore(g.position), w.PageRecords(g.position));
    assert s.records - {} == s.records;
  }

  /** The stored checkpoint belongs to a partial scan of the same identifier. */
  ghost predicate OtherMode(s: Store, scan: ScanId) {
    s.checkpoint.Some? && s.checkpoint.value.scan == scan && s.checkpoint.value.mode != FullMode
  }

  /** The same progress was written again with a new state. */
  ghost predicate Rewritten(s: Store, t: Store, checkpoint: Checkpoint) {
    && t.records == s.records && t.checkpoint.Some? && t.checkpoint.value.SameProgress(checkpoint)
    && t.checkpoint.value.state in {Paused, Failed}
  }

  /** The store is as before, or the same progress was written again with a new state. */
  ghost predicate Touched(s: Store, t: Store, checkpoint: Checkpoint) {
    t == s || Rewritten(s, t, checkpoint)
  }

  lemma HoldsSomewhere(w: Mailbox, t: Store, scan: ScanId, g: Progress)
    requires w.Valid() && Holds(w, t, scan, g)
    ensures HoldsSome(w, t, scan, g.base, g.history)
  {
    assert Progress(g.base, g.position, g.history) == g;
  }

  lemma NothingApplied(records: map<MessageId, Record>)
    ensures (records - {}) + map[] == records
  {
  }

  /** The page a token leads to. */
  function PageFor<P>(chain: Chain<P>, token: Option<Token>): nat {
    match token
    case None => 0
    case Some(t) => Find(chain.tokens, t) + 1
  }

  function Find(tokens: seq<Token>, t: Token): (n: nat)
    ensures n <= |tokens|
  {
    if tokens == [] || tokens[0] == t then 0 else 1 + Find(tokens[1..], t)
  }

  lemma {:induction false} FindPosition(tokens: seq<Token>, i: nat)
    requires Distinct(tokens) && i < |tokens|
    ensures Find(tokens, tokens[i]) == i
  {
    if i > 0 {
      assert tokens[0] != tokens[i];
      FindPosition(tokens[1..], i - 1);
    }
  }

  lemma FindsPage<P>(chain: Chain<P>, page: nat)
    requires chain.Valid() && page < |chain.pages|
    ensures PageFor(chain, chain.TokenOf(page)) == page
  {
    if page > 0 { FindPosition(chain.tokens, page - 1); }
  }
}
