/** The mailbox as its pages show it, the stored index, and how far a full scan has come. */
module InventoryModel {
  import opened Basics
  import opened MailModel
  import opened Cursor
  import opened RemoteCalls

  type HistoryId = int
  type ScanId = int

  /** Pages linked by tokens: token `i` leads from page `i` to the next one. */
  datatype Chain<P> = Chain(pages: seq<P>, tokens: seq<Token>) {
    ghost predicate Valid() {
      && |pages| >= 1 && |tokens| == |pages| - 1
      && Distinct(tokens)
      && (forall t <- tokens :: Stripped(t))
    }

    /** The token that leads to a page; the first page needs none. */
    function TokenOf(page: nat): Option<Token> {
      if 0 < page <= |tokens| then Some(tokens[page - 1]) else None
    }

    /** The token a page announces for the next one. */
    function NextOf(page: nat): Option<Token> {
      if page < |tokens| then Some(tokens[page]) else None
    }
  }

  /** A mailbox that does not change while it is scanned. */
  datatype Mailbox = Mailbox(records: map<MessageId, Record>, normal: Chain<seq<MessageId>>, junk: Chain<seq<MessageId>>,
                             history: HistoryId) {
    ghost predicate Valid() {
      && normal.Valid() && junk.Valid()
      && (forall p <- normal.pages :: Distinct(p) && forall m <- p :: m in records)
      && (forall p <- junk.pages :: Distinct(p) && forall m <- p :: m in records)
    }

    function PageCount(): nat {
      |normal.pages| + |junk.pages|
    }

    function PhaseAt(n: nat): Phase {
      if n < |normal.pages| then Normal else Junk
    }

    /** The messages a page lists; the spam pages come after the normal ones. */
    function Listing(n: nat): seq<MessageId>
      requires n < PageCount()
    {
      if n < |normal.pages| then normal.pages[n] else junk.pages[n - |normal.pages|]
    }

    function TokenAt(n: nat): Option<Token>
      requires Valid() && n < PageCount()
    {
      if n < |normal.pages| then normal.TokenOf(n) else junk.TokenOf(n - |normal.pages|)
    }

    function NextTokenAt(n: nat): Option<Token>
      requires n < PageCount()
    {
      if n < |normal.pages| then normal.NextOf(n) else junk.NextOf(n - |normal.pages|)
    }

    /** The cursor to store before a page; none once every page was read. */
    function CursorAt(n: nat): Option<string>
      requires Valid() && n <= PageCount()
    {
      if n == PageCount() then None else Some(EncodeFull(PhaseAt(n), TokenAt(n)))
    }

    /** Whether a listed message belongs in the index. */
    predicate Kept(phase: Phase, m: MessageId) {
      && m in records
      && records[m].labels !! {Sent, Draft, Trash}
      && !(phase == Normal && Spam in records[m].labels)
    }

    /** The messages that the pages before a position bring into the index. */
    function ListedBefore(n: nat): set<MessageId> {
      set p, m | 0 <= p < n && p < PageCount() && m in Listing(p) && Kept(PhaseAt(p), m) :: m
    }

    function IndexBefore(n: nat): (index: map<MessageId, Record>) {
      map m | m in ListedBefore(n) && m in records :: records[m]
    }

    /** How many listed messages the pages before a position hold, each page counted once. */
    function CountBefore(n: nat): nat
      requires n <= PageCount()
    {
      if n == 0 then 0 else CountBefore(n - 1) + |Listing(n - 1)|
    }

    /** The index a full scan leaves. */
    function FullIndex(): map<MessageId, Record> {
      IndexBefore(PageCount())
    }

    function PageRecords(n: nat): map<MessageId, Record>
      requires n < PageCount()
    {
      map m | m in Listing(n) && Kept(PhaseAt(n), m) :: records[m]
    }
  }

  lemma IndexGrows(w: Mailbox, n: nat)
    requires n < w.PageCount()
    ensures w.IndexBefore(n + 1) == w.IndexBefore(n) + w.PageRecords(n)
  {
    forall m ensures m in w.ListedBefore(n + 1) <==> m in w.ListedBefore(n) || (m in w.Listing(n) && w.Kept(w.PhaseAt(n), m)) {
    }
  }

  lemma NoPages(w: Mailbox)
    ensures w.IndexBefore(0) == map[]
  {
    assert w.ListedBefore(0) == {};
  }

  lemma IndexMonotone(w: Mailbox, n: nat, o: nat)
    requires n <= o
    ensures w.IndexBefore(n).Keys <= w.IndexBefore(o).Keys
    ensures forall m <- w.IndexBefore(n) :: w.IndexBefore(n)[m] == w.IndexBefore(o)[m]
  {
    forall m | m in w.ListedBefore(n) ensures m in w.ListedBefore(o) {
      var p :| 0 <= p < n && p < w.PageCount() && m in w.Listing(p) && w.Kept(w.PhaseAt(p), m);
    }
  }

  // -------------------------------------------------------------- the store

  datatype Mode = FullMode | PartialMode

  datatype SyncState = NotStarted | Running | Paused | Completed | RequiresFullResync | Failed

  datatype Checkpoint = Checkpoint(
    scan: ScanId,
    mode: Mode,
    state: SyncState,
    cursor: Option<string>,
    history: Option<HistoryId>,
    processed: nat,
    error: Option<ErrorCode>)
  {
    /** Only the state and the error differ. */
    predicate SameProgress(other: Checkpoint) {
      this == other.(state := state, error := error)
    }
  }

  /** The index and the only checkpoint of an account; every write replaces both together. */
  datatype Store = Store(records: map<MessageId, Record>, checkpoint: Option<Checkpoint>)

  datatype ScanOutcome = ScanCompleted | ScanCancelled | ScanPaused | ScanRequiresResync | ScanFailed | ScanRaised

  datatype ScanResult = ScanResult(outcome: ScanOutcome, checkpoint: Checkpoint, persisted: bool, error: Option<ErrorCode>)

  // ------------------------------------------------------ progress of a scan

  /** How far a full scan has come: what the index held before it, its next page and its history point. */
  datatype Progress = Progress(base: map<MessageId, Record>, position: nat, history: Option<HistoryId>)

  ghost predicate BegunFull(s: Store, scan: ScanId) {
    s.checkpoint.Some? && s.checkpoint.value.scan == scan && s.checkpoint.value.mode == FullMode
  }

  /** The stored checkpoint and index say exactly that progress: the pages before the cursor, each counted once. */
  ghost predicate Holds(w: Mailbox, s: Store, scan: ScanId, g: Progress)
    requires w.Valid()
  {
    && BegunFull(s, scan)
    && g.position <= w.PageCount()
    && var c := s.checkpoint.value;
       && c.cursor == w.CursorAt(g.position)
       && c.processed == w.CountBefore(g.position)
       && c.history == g.history
       && s.records == g.base + w.IndexBefore(g.position)
       && (c.state == Completed <==> g.position == w.PageCount())
       && c.state in {Running, Paused, Failed, Completed}
  }
}
