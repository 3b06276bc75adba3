/** The log of the writes of a scan: each one is a checkpoint of the scan, and the last one is what is stored. */
module ScanLog {
  import opened Basics
  import opened MailModel
  import opened InventoryModel
  import opened FullScan
  import opened PartialScan

  /** What the checkpoints of a scan have in common. */
  datatype Scope =
    | FullScope(w: Mailbox, scan: ScanId, base: map<MessageId, Record>, history: Option<HistoryId>)
    | PartialScope(w: Mailbox, f: Feed, scan: ScanId, base: map<MessageId, Record>)
  {
    ghost predicate Valid() {
      match this
      case FullScope(w, _, _, _) => w.Valid()
      case PartialScope(_, f, _, _) => f.Valid()
    }

    /** Exactly the pages before the cursor of the checkpoint are in the index. */
    ghost predicate Fits(t: Store)
      requires Valid()
    {
      match this
      case FullScope(w, scan, base, history) => HoldsSome(w, t, scan, base, history)
      case PartialScope(w, f, scan, base) => PartialSome(w, f, t, scan, base)
    }
  }

  /** The store after some writes. */
  function LastWrite(s: Store, written: seq<Store>): Store {
    if written == [] then s else written[|written| - 1]
  }

  ghost predicate Logged(scope: Scope, first: Store, log: seq<Store>, s: Store, grown: seq<Store>)
    requires scope.Valid()
  {
    && log <= grown
    && s == LastWrite(first, grown[|log|..])
    && forall t <- grown[|log|..] :: scope.Fits(t)
  }

  lemma LoggedNothing(scope: Scope, s: Store, log: seq<Store>)
    requires scope.Valid()
    ensures Logged(scope, s, log, s, log)
  {
  }

  /** One more write of a checkpoint of the scan. */
  lemma LoggedWrite(scope: Scope, first: Store, log: seq<Store>, s: Store, grown: seq<Store>, t: Store)
    requires scope.Valid() && Logged(scope, first, log, s, grown) && scope.Fits(t)
    ensures Logged(scope, first, log, t, grown + [t])
  {
    hide Scope.Fits;
    assert (grown + [t])[|log|..] == grown[|log|..] + [t];
  }

  lemma LoggedJoin(scope: Scope, first: Store, log: seq<Store>, s: Store, grown: seq<Store>, t: Store, more: seq<Store>)
    requires scope.Valid() && Logged(scope, first, log, s, grown) && Logged(scope, s, grown, t, more)
    ensures Logged(scope, first, log, t, more)
  {
    hide Scope.Fits;
    assert more[|log|..] == grown[|log|..] + more[|grown|..];
  }

  /** What an interruption of a full scan in progress leaves. */
  lemma FullInterrupted(w: Mailbox, scan: ScanId, checkpoint: Checkpoint, g: Progress, first: Store, log: seq<Store>,
                        s: Store, grown: seq<Store>, t: Store, more: seq<Store>)
    requires w.Valid() && Logged(FullScope(w, scan, g.base, g.history), first, log, s, grown)
    requires Holds(w, s, scan, g) && s.checkpoint == Some(checkpoint) && g.position < w.PageCount()
    requires (t == s && more == grown) || (Rewritten(s, t, checkpoint) && more == grown + [t])
    ensures Holds(w, t, scan, g) && Logged(FullScope(w, scan, g.base, g.history), first, log, t, more)
  {
    hide Logged;
    if t != s || more != grown {
      HoldsSomewhere(w, t, scan, g);
      LoggedWrite(FullScope(w, scan, g.base, g.history), first, log, s, grown, t);
    }
  }

  /** What an interruption of a partial scan in progress leaves. */
  lemma PartialInterrupted(w: Mailbox, f: Feed, scan: ScanId, checkpoint: Checkpoint, g: PartialProgress, first: Store, log: seq<Store>,
                           s: Store, grown: seq<Store>, t: Store, more: seq<Store>)
    requires f.Valid() && Logged(PartialScope(w, f, scan, g.base), first, log, s, grown)
    requires PartialHolds(w, f, s, scan, g) && s.checkpoint == Some(checkpoint) && g.position < f.PageCount()
    requires (t == s && more == grown) || (Rewritten(s, t, checkpoint) && more == grown + [t])
    ensures PartialHolds(w, f, t, scan, g) && Logged(PartialScope(w, f, scan, g.base), first, log, t, more)
  {
    hide Logged;
    if t != s || more != grown {
      PartialTouched(w, f, scan, checkpoint, s, t, g);
      PartialSomewhere(w, f, t, scan, g);
      LoggedWrite(PartialScope(w, f, scan, g.base), first, log, s, grown, t);
    }
  }
}
