/** The history feed of a mailbox, and what an incremental scan makes of the index. */
module PartialScan {
  import opened Basics
  import opened MailModel
  import opened Cursor
  import opened RemoteCalls
  import opened InventoryModel
  import opened FullScan

  datatype ChangeKind = Added | LabelsChanged | Deleted

  datatype Change = Change(kind: ChangeKind, message: MessageId)

  /** The changes since a history point, page by page, and the history point they lead to. */
  datatype Feed = Feed(chain: Chain<seq<Change>>, start: HistoryId, end: HistoryId) {
    ghost predicate Valid() {
      chain.Valid()
    }

    function PageCount(): nat {
      |chain.pages|
    }

    function CursorAt(n: nat): Option<string>
      requires chain.Valid() && n <= PageCount()
    {
      if n == PageCount() then None else Some(EncodeCursor(PARTIAL_PREFIX, chain.TokenOf(n)))
    }
  }

  predicate Excluded(record: Record) {
    !(record.labels !! {Sent, Draft, Trash})
  }

  /** What belongs in the index of a mailbox. */
  function IndexOf(records: map<MessageId, Record>): map<MessageId, Record> {
    map m | m in records && !Excluded(records[m]) :: records[m]
  }

  function DeletedIn(page: seq<Change>): set<MessageId> {
    set c | c in page && c.kind == Deleted :: c.message
  }

  /** The messages a page changes and does not delete. */
  function ChangedIn(page: seq<Change>): set<MessageId> {
    (set c | c in page && c.kind != Deleted :: c.message) - DeletedIn(page)
  }

  function Upserts(records: map<MessageId, Record>, page: seq<Change>): map<MessageId, Record> {
    map m | m in ChangedIn(page) && m in records && !Excluded(records[m]) :: records[m]
  }

  function Removals(records: map<MessageId, Record>, page: seq<Change>): set<MessageId> {
    DeletedIn(page) + set m | m in ChangedIn(page) && m in records && Excluded(records[m])
  }

  /** No message of a page is both written and deleted, so the index accepts every page. */
  lemma UpsertsAndRemovalsDisjoint(records: map<MessageId, Record>, page: seq<Change>)
    ensures Upserts(records, page).Keys !! Removals(records, page)
  {
  }

  /** The index once the pages before a position are applied. */
  function Applied(base: map<MessageId, Record>, records: map<MessageId, Record>, pages: seq<seq<Change>>, n: nat)
    : map<MessageId, Record>
    requires n <= |pages|
  {
    if n == 0 then base
    else (Applied(base, records, pages, n - 1) - Removals(records, pages[n - 1])) + Upserts(records, pages[n - 1])
  }

  function ProcessedBefore(records: map<MessageId, Record>, pages: seq<seq<Change>>, n: nat): nat
    requires n <= |pages|
  {
    if n == 0 then 0
    else ProcessedBefore(records, pages, n - 1) + |MentionedIn(pages[n - 1])|
  }

  /** The messages a page mentions, each once. */
  function MentionedIn(page: seq<Change>): set<MessageId> {
    set c | c in page :: c.message
  }

  /** Every message that a page mentions and does not delete can still be read. */
  predicate Readable(records: map<MessageId, Record>, page: seq<Change>) {
    forall c <- page :: c.message in records || Change(Deleted, c.message) in page
  }

  lemma ChangedMeans(page: seq<Change>, m: MessageId)
    ensures m in DeletedIn(page) <==> Change(Deleted, m) in page
    ensures m in ChangedIn(page) <==> (exists c <- page :: c.message == m) && Change(Deleted, m) !in page
  {
    if m in DeletedIn(page) {
      var c :| c in page && c.kind == Deleted && c.message == m;
      assert c == Change(Deleted, m);
    }
    if c :| c in page && c.message == m && c.kind == Deleted {
      assert c == Change(Deleted, m);
    }
  }

  lemma ReadableMeans(records: map<MessageId, Record>, page: seq<Change>)
    ensures Readable(records, page) <==> ChangedIn(page) <= records.Keys
  {
    hide ChangedIn, DeletedIn;
    forall m ensures m in ChangedIn(page) <==> (exists c <- page :: c.message == m) && Change(Deleted, m) !in page {
      ChangedMeans(page, m);
    }
    if Readable(records, page) {
      forall m | m in ChangedIn(page) ensures m in records {
        var c :| c in page && c.message == m;
      }
    }
  }

  /** A page deletes or changes every message it mentions, and counts each once. */
  lemma EveryMention(records: map<MessageId, Record>, page: seq<Change>)
    ensures Removals(records, page) + ChangedIn(page) == MentionedIn(page)
  {
    hide ChangedIn, DeletedIn;
    forall m
      ensures m in DeletedIn(page) <==> Change(Deleted, m) in page
      ensures m in ChangedIn(page) <==> (exists c <- page :: c.message == m) && Change(Deleted, m) !in page
    {
      ChangedMeans(page, m);
    }
    forall m ensures m in Removals(records, page) + ChangedIn(page) <==> m in MentionedIn(page) {
      if Change(Deleted, m) in page {
        assert Change(Deleted, m).message == m;
      }
    }
  }

  // ------------------------------------------------------------- progress

  datatype PartialProgress = PartialProgress(base: map<MessageId, Record>, position: nat)

  ghost predicate BegunPartial(s: Store, scan: ScanId) {
    && s.checkpoint.Some? && s.checkpoint.value.scan == scan && s.checkpoint.value.mode == PartialMode
    && s.checkpoint.value.history != None
  }

  /** What the stored checkpoint and index say between two pages, or at the end. */
  ghost predicate PartialData(w: Mailbox, f: Feed, s: Store, scan: ScanId, g: PartialProgress)
    requires f.Valid()
  {
    && BegunPartial(s, scan)
    && g.position <= f.PageCount()
    && s.checkpoint.value.processed == ProcessedBefore(w.records, f.chain.pages, g.position)
    && s.records == Applied(g.base, w.records, f.chain.pages, g.position)
    && forall n :: 0 <= n < g.position ==> Readable(w.records, f.chain.pages[n])
  }

  /** A partial scan in progress, or completed; the history point advances only with completion. */
  ghost predicate PartialHolds(w: Mailbox, f: Feed, s: Store, scan: ScanId, g: PartialProgress)
    requires f.Valid()
  {
    && PartialData(w, f, s, scan, g)
    && var c := s.checkpoint.value;
       && c.cursor == f.CursorAt(g.position)
       && c.history == Some(if c.state == Completed then f.end else f.start)
       && (c.state == Completed <==> g.position == f.PageCount())
       && c.state in {Running, Paused, Failed, Completed}
  }

  /** The history point was too old: a full scan is required. */
  ghost predicate Expired(w: Mailbox, f: Feed, s: Store, scan: ScanId, g: PartialProgress)
    requires f.Valid()
  {
    PartialData(w, f, s, scan, g)
    && s.checkpoint.value.state == RequiresFullResync && s.checkpoint.value.history == Some(f.start)
  }

  /** A partial checkpoint without a history point: no partial scan can go on from it. */
  ghost predicate Blocked(s: Store) {
    && s.checkpoint.Some? && s.checkpoint.value.mode == PartialMode
    && s.checkpoint.value.history == None && s.checkpoint.value.state != Completed
  }

  /** A completed scan, full or partial, that a new partial scan can start from. */
  ghost predicate Startable(s: Store, scan: ScanId) {
    && s.checkpoint.Some? && s.checkpoint.value.scan != scan
    && s.checkpoint.value.state == Completed && s.checkpoint.value.history != None
  }

  /** A partial scan under way or completed, that another attempt can take up. */
  ghost predicate Resumable(s: Store, scan: ScanId) {
    BegunPartial(s, scan) && s.checkpoint.value.state != RequiresFullResync
  }

  /** Some checkpoint of a partial scan over that base, the last of which may ask for a full scan. */
  ghost predicate PartialSome(w: Mailbox, f: Feed, t: Store, scan: ScanId, base: map<MessageId, Record>)
    requires f.Valid()
  {
    exists n: nat :: PartialHolds(w, f, t, scan, PartialProgress(base, n)) || Expired(w, f, t, scan, PartialProgress(base, n))
  }

  lemma PartialSomewhere(w: Mailbox, f: Feed, t: Store, scan: ScanId, g: PartialProgress)
    requires f.Valid() && (PartialHolds(w, f, t, scan, g) || Expired(w, f, t, scan, g))
    ensures PartialSome(w, f, t, scan, g.base)
  {
    hide PartialHolds, Expired;
    assert PartialProgress(g.base, g.position) == g;
  }

  // ------------------------------------------------- the course of an attempt

  /** Reading some changed messages in order; one that is gone stops the scan. */
  function FetchHalt(records: map<MessageId, Record>, todo: set<MessageId>, es: seq<Event>): (h: Halt)
    ensures h.stop != Some(StopHistoryExpired)
    ensures h.stop == None ==> todo <= records.Keys
    ensures es == [] ==> h.rest == [] && (h.stop == None <==> todo <= records.Keys)
    decreases |todo|
  {
    if todo == {} then Halt(None, es)
    else
      var m := First(todo);
      var call := CallHalt(es, false, 1);
      assert todo == {m} + (todo - {m});
      if call.stop.Some? then call
      else if m !in records then Halt(Some(StopError(NotFound)), call.rest)
      else FetchHalt(records, todo - {m}, call.rest)
  }

  /** One page of the history: read and applied or not, and how the attempt ends there if it does. */
  ghost function ChangesTurn(records: map<MessageId, Record>, f: Feed, n: nat, es: seq<Event>): (t: Turn)
    requires n < f.PageCount()
    ensures t.end == None ==> t.read && n + 1 < f.PageCount()
    ensures t.end == Some(Finished) <==> t.read && n + 1 == f.PageCount()
    ensures t.end == Some(ResyncAsked) ==> !t.read
    ensures es == [] ==> (t.read <==> Readable(records, f.chain.pages[n]))
    ensures es == [] && t.read ==> t.rest == [] && (t.end == None || t.end == Some(Finished))
  {
    var listed := CallHalt(es, true, 1);
    var gone := WriteHalt(Tail(listed.rest));
    var read := FetchHalt(records, ChangedIn(f.chain.pages[n]), listed.rest);
    var asked := AskHalt(read.rest);
    var write := WriteHalt(asked.rest);
    ReadableMeans(records, f.chain.pages[n]);
    if listed.stop == Some(StopHistoryExpired) then
      if Head(listed.rest).Broken? then Turn(false, Some(CutBy(StopError(ClockInvalid), true, Tail(listed.rest))), [])
      else if gone.stop.Some? then Turn(false, Some(CutBy(gone.stop.value, true, gone.rest)), [])
      else Turn(false, Some(ResyncAsked), [])
    else if listed.stop.Some? then Turn(false, Some(CutBy(listed.stop.value, true, listed.rest)), [])
    else if read.stop.Some? then Turn(false, Some(CutBy(read.stop.value, true, read.rest)), [])
    else if asked.stop.Some? then Turn(false, Some(CutBy(asked.stop.value, true, asked.rest)), [])
    else if write.stop.Some? then Turn(false, Some(CutBy(write.stop.value, true, write.rest)), [])
    else if n + 1 == f.PageCount() then Turn(true, Some(Finished), [])
    else if Head(read.rest).PauseAsked? then Turn(true, Some(PausedHere), [])
    else Turn(true, None, write.rest)
  }

  /** Reading the history from one page on. */
  ghost function HistoryCourse(records: map<MessageId, Record>, f: Feed, n: nat, es: seq<Event>): (c: Course)
    requires n < f.PageCount()
    ensures n <= c.position <= f.PageCount()
    ensures c.end == Finished <==> c.position == f.PageCount()
    ensures es == [] ==> (c.end == Finished <==> forall k :: n <= k < f.PageCount() ==> Readable(records, f.chain.pages[k]))
    decreases f.PageCount() - n
  {
    hide Readable;
    var turn := ChangesTurn(records, f, n, es);
    if turn.end.Some? then Course(if turn.read then n + 1 else n, turn.end.value) else HistoryCourse(records, f, n + 1, turn.rest)
  }

  /** Where an attempt at a partial scan begins to read. */
  function StartPage(s: Store, scan: ScanId, g: PartialProgress): nat {
    if s.checkpoint.Some? && s.checkpoint.value.scan == scan then g.position else 0
  }

  /** A whole attempt at a partial scan, from what is stored and from what happens outside. */
  ghost function PartialCourse(w: Mailbox, f: Feed, s: Store, scan: ScanId, g: PartialProgress, es: seq<Event>): (c: Course)
    requires f.Valid() && (Resumable(s, scan) ==> PartialHolds(w, f, s, scan, g))
    ensures c.end == Finished ==> Startable(s, scan) || Resumable(s, scan)
    ensures es == [] && (Startable(s, scan) || Resumable(s, scan)) ==>
      (c.end == Finished <==> forall k :: StartPage(s, scan, g) <= k < f.PageCount() ==> Readable(w.records, f.chain.pages[k]))
  {
    var left := AfterCheckpoint(es);
    var start := WriteHalt(left);
    if !ReadsCheckpoint(es) then Course(g.position, BeginEnd(es))
    else if s.checkpoint.Some? && s.checkpoint.value.scan == scan then
      if !BegunPartial(s, scan) then Course(g.position, CutBy(StopError(CheckpointInvalid), true, left))
      else if !Resumable(s, scan) then Course(g.position, ResyncAsked)
      else if s.checkpoint.value.state == Completed then Course(g.position, Finished)
      else HistoryCourse(w.records, f, g.position, left)
    else if !Startable(s, scan) then Course(g.position, CutBy(StopError(CheckpointMissing), true, left))
    else if start.stop.Some? then Course(g.position, CutBy(start.stop.value, true, start.rest))
    else HistoryCourse(w.records, f, 0, start.rest)
  }

  /** What one attempt does to the store. */
  datatype PartialAttempt =
    | Idle         // no write
    | BlockedNow   // a pause or failure while reading the labels is written, without a history point
    | Advanced     // the scan is started or taken up, and perhaps some pages are applied
    | ExpiredNow   // the same, until the history point is found too old

  /** The kind of an attempt, from what is stored and from what happens outside. */
  ghost function PartialKind(w: Mailbox, f: Feed, s: Store, scan: ScanId, g: PartialProgress, es: seq<Event>): PartialAttempt
    requires f.Valid() && (Resumable(s, scan) ==> PartialHolds(w, f, s, scan, g))
  {
    if WrittenAtLabels(es) then BlockedNow
    else if !ReadsCheckpoint(es) then Idle
    else if Resumable(s, scan) || (Startable(s, scan) && WriteHalt(AfterCheckpoint(es)).stop == None) then
      if PartialCourse(w, f, s, scan, g, es).end == ResyncAsked then ExpiredNow else Advanced
    else Idle
  }

  /** How an attempt changes the store. A checkpoint that asks for a full scan is never taken up again. */
  ghost predicate PartialMoves(w: Mailbox, f: Feed, scan: ScanId, s: Store, g: PartialProgress, a: PartialAttempt,
                               t: Store, h: PartialProgress)
    requires f.Valid()
  {
    var from := if BegunPartial(s, scan) then g else PartialProgress(s.records, 0);
    match a
    case Idle => t == s && h == g
    case BlockedNow => t.records == s.records && Blocked(t) && h == g
    case Advanced =>
      (Resumable(s, scan) || Startable(s, scan)) && PartialHolds(w, f, t, scan, h) && h.base == from.base && from.position <= h.position
    case ExpiredNow =>
      (Resumable(s, scan) || Startable(s, scan)) && Expired(w, f, t, scan, h) && h.base == from.base && from.position <= h.position
  }

  // ------------------------------------------------- what the writes preserve

  lemma PartialHoldsMeans(w: Mailbox, f: Feed, s: Store, scan: ScanId, g: PartialProgress)
    requires f.Valid() && PartialHolds(w, f, s, scan, g)
    ensures BegunPartial(s, scan) && g.position <= f.PageCount()
    ensures s.checkpoint.value.cursor == f.CursorAt(g.position)
    ensures s.checkpoint.value.state == Completed <==> g.position == f.PageCount()
    ensures s.checkpoint.value.history == Some(if s.checkpoint.value.state == Completed then f.end else f.start)
  {
  }

  lemma PartialTouched(w: Mailbox, f: Feed, scan: ScanId, checkpoint: Checkpoint, s: Store, t: Store, g: PartialProgress)
    requires f.Valid() && PartialHolds(w, f, s, scan, g) && s.checkpoint == Some(checkpoint) && Touched(s, t, checkpoint)
    requires g.position < f.PageCount()
    ensures PartialHolds(w, f, t, scan, g)
  {
  }

  lemma PartialStarted(w: Mailbox, f: Feed, scan: ScanId, checkpoint: Checkpoint, s: Store, t: Store)
    requires f.Valid() && t == Store((s.records - {}) + map[], Some(checkpoint))
    requires checkpoint == Checkpoint(scan, PartialMode, Running, Some(EncodeCursor(PARTIAL_PREFIX, None)), Some(f.start), 0, None)
    ensures PartialHolds(w, f, t, scan, PartialProgress(s.records, 0))
  {
    NothingApplied(s.records);
  }

  lemma PartialExpired(w: Mailbox, f: Feed, scan: ScanId, checkpoint: Checkpoint, s: Store, t: Store, g: PartialProgress)
    requires f.Valid() && PartialHolds(w, f, s, scan, g) && s.checkpoint == Some(checkpoint) && g.position < f.PageCount()
    requires t == Store((s.records - {}) + map[], Some(checkpoint.(state := RequiresFullResync, cursor := None, error := Some(HistoryExpired))))
    ensures Expired(w, f, t, scan, g)
  {
    NothingApplied(s.records);
  }

  lemma PartialCursorReadBack(f: Feed, n: nat)
    requires f.Valid() && n < f.PageCount()
    ensures f.CursorAt(n).Some? && DecodeCursor(PARTIAL_PREFIX, f.CursorAt(n).value) == Ok(f.chain.TokenOf(n))
  {
    hide EncodeCursor, DecodeCursor;
    CursorRoundTrip(PARTIAL_PREFIX, f.chain.TokenOf(n));
  }

  lemma PartialPage(w: Mailbox, f: Feed, scan: ScanId, from: Checkpoint, to: Checkpoint, s: Store, t: Store, g: PartialProgress)
    requires f.Valid() && PartialHolds(w, f, s, scan, g) && s.checkpoint == Some(from) && g.position < f.PageCount()
    requires Readable(w.records, f.chain.pages[g.position])
    requires to.scan == scan && to.mode == PartialMode && to.cursor == f.CursorAt(g.position + 1)
    requires to.processed == from.processed + |Removals(w.records, f.chain.pages[g.position]) + ChangedIn(f.chain.pages[g.position])|
    requires to.state == Completed <==> g.position + 1 == f.PageCount()
    requires to.state in {Running, Paused, Completed}
    requires to.history == Some(if to.state == Completed then f.end else f.start)
    requires t == Store((s.records - Removals(w.records, f.chain.pages[g.position])) + Upserts(w.records, f.chain.pages[g.position]), Some(to))
    ensures PartialHolds(w, f, t, scan, g.(position := g.position + 1))
  {
    hide Removals, Upserts, ChangedIn, MentionedIn, Readable, Feed.CursorAt;
    EveryMention(w.records, f.chain.pages[g.position]);
  }

  // ------------------------------------------- agreement with a full scan

  /** The full scan of a mailbox lists every message in the phase it belongs to. */
  ghost predicate ListsEverything(w: Mailbox) {
    forall m <- w.records :: !Excluded(w.records[m]) ==>
      exists n :: 0 <= n < w.PageCount() && m in w.Listing(n) && (Spam in w.records[m].labels ==> w.PhaseAt(n) == Junk)
  }

  lemma FullIndexIsIndexOf(w: Mailbox)
    requires ListsEverything(w)
    ensures w.FullIndex() == IndexOf(w.records)
  {
    var N := w.PageCount();
    forall m ensures m in w.ListedBefore(N) <==> m in IndexOf(w.records) {
      if m in IndexOf(w.records) {
        var n :| 0 <= n < N && m in w.Listing(n) && (Spam in w.records[m].labels ==> w.PhaseAt(n) == Junk);
        assert w.Kept(w.PhaseAt(n), m);
      }
    }
  }

  /** A message that some page before a position mentions. */
  ghost predicate Mentioned(pages: seq<seq<Change>>, n: nat, m: MessageId)
    requires n <= |pages|
  {
    exists i :: 0 <= i < n && m in MentionedIn(pages[i])
  }

  /** No message that a page deletes is there. */
  ghost predicate DeletesOnlyGone(page: seq<Change>, records: map<MessageId, Record>) {
    forall c <- page :: c.kind == Deleted ==> c.message !in records
  }

  /** Each mentioned message ends as the mailbox has it; the others stay as they were. */
  lemma {:induction false} AppliedMeans(base: map<MessageId, Record>, records: map<MessageId, Record>, pages: seq<seq<Change>>,
                                        n: nat, m: MessageId)
    requires n <= |pages|
    requires forall i :: 0 <= i < n ==> Readable(records, pages[i])
    requires forall i :: 0 <= i < n ==> DeletesOnlyGone(pages[i], records)
    ensures var index := Applied(base, records, pages, n);
      if Mentioned(pages, n, m) then
        (m in index <==> m in IndexOf(records)) && (m in index ==> index[m] == IndexOf(records)[m])
      else
        (m in index <==> m in base) && (m in index ==> index[m] == base[m])
  {
    if n > 0 {
      AppliedMeans(base, records, pages, n - 1, m);
      hide MentionedIn, DeletesOnlyGone, Applied;
      assert Mentioned(pages, n, m) <==> Mentioned(pages, n - 1, m) || m in MentionedIn(pages[n - 1]) by {
        if m in MentionedIn(pages[n - 1]) { assert Mentioned(pages, n, m); }
      }
      AppliedStep(base, records, pages, n);
      PageTouches(records, pages[n - 1], m);
    }
  }

  lemma AppliedStep(base: map<MessageId, Record>, records: map<MessageId, Record>, pages: seq<seq<Change>>, n: nat)
    requires 0 < n <= |pages|
    ensures Applied(base, records, pages, n)
         == (Applied(base, records, pages, n - 1) - Removals(records, pages[n - 1])) + Upserts(records, pages[n - 1])
  {
  }

  lemma PageTouches(records: map<MessageId, Record>, page: seq<Change>, m: MessageId)
    requires Readable(records, page) && DeletesOnlyGone(page, records)
    ensures m in MentionedIn(page) ==>
      if m in IndexOf(records) then m in Upserts(records, page) && Upserts(records, page)[m] == records[m]
      else m in Removals(records, page) && m !in Upserts(records, page)
    ensures m !in MentionedIn(page) ==> m !in Removals(records, page) && m !in Upserts(records, page)
  {
    hide ChangedIn, DeletedIn;
    ChangedMeans(page, m);
    if Change(Deleted, m) in page {
      assert Change(Deleted, m).message == m;
    }
  }

  /** The feed names every change between two mailboxes, and no deleted identifier comes back. */
  ghost predicate Faithful(f: Feed, before: map<MessageId, Record>, after: map<MessageId, Record>) {
    && (forall m :: !Mentioned(f.chain.pages, f.PageCount(), m) ==>
          (m in before <==> m in after) && (m in before ==> before[m] == after[m]))
    && (forall i :: 0 <= i < f.PageCount() ==> DeletesOnlyGone(f.chain.pages[i], after))
  }

  /**
   An incremental scan that completes over the index of the old mailbox leaves
   the index of a full scan of the new one, and only then moves the history point.
   */
  lemma CompletedPartialIsFull(before: Mailbox, after: Mailbox, f: Feed, s: Store, scan: ScanId, g: PartialProgress)
    requires f.Valid() && ListsEverything(before) && ListsEverything(after)
    requires Faithful(f, before.records, after.records)
    requires PartialHolds(after, f, s, scan, g) && s.checkpoint.value.state == Completed && g.base == before.FullIndex()
    ensures s.records == after.FullIndex()
    ensures s.checkpoint.value.history == Some(f.end)
  {
    hide Applied, ListsEverything, Mentioned, Mailbox.FullIndex, ProcessedBefore, Feed.CursorAt, Chain.Valid, DeletesOnlyGone, Readable;
    FullIndexIsIndexOf(before);
    FullIndexIsIndexOf(after);
    var index, target := s.records, IndexOf(after.records);
    forall m ensures m in index <==> m in target ensures m in index ==> index[m] == target[m] {
      AppliedMeans(g.base, after.records, f.chain.pages, f.PageCount(), m);
    }
  }
}
