/**
 The outside of the inventory: control flags, clock, jitter, transport and index
 writes. Each interaction consumes one event; when the events run out, nothing
 interrupts any more.
 */
module RemoteCalls {
  import opened Basics

  const ATTEMPT_LIMIT := 5
  const DELAY_LIMIT := 32.0

  datatype RemoteCode =
    | RateLimited | UserRateLimitExceeded | QuotaExceeded | BackendError
    | HistoryNotFound | PermissionRefused | ResponseInvalid | UnknownRemote

  datatype Event =
    | Quiet
    | CancelAsked
    | PauseAsked
    | Broken
    | TransportError(status: nat, code: RemoteCode)
    | JitterOf(amount: real)

  datatype ErrorCode =
    | InvalidResponse | IdentityMismatch | CheckpointInvalid | CheckpointMissing
    | TransportFailed | PermissionDenied | NotFound | RetryExhausted | RetryPolicyInvalid
    | ClockInvalid | ControlInvalid | PersistenceFailed | HistoryExpired
  {
    /** Failures after which no checkpoint is written. */
    predicate Persistable() {
      !IdentityMismatch? && !CheckpointInvalid? && !CheckpointMissing? && !PersistenceFailed? && !ClockInvalid? && !ControlInvalid?
    }
  }

  /** Why a scan stops before its end. */
  datatype Stop = StopCancelled | StopPaused | StopHistoryExpired | StopError(code: ErrorCode)

  predicate Retryable(e: Event) {
    && e.TransportError?
    && !e.code.HistoryNotFound? && !e.code.PermissionRefused? && !e.code.ResponseInvalid?
    && (e.status in {429, 500, 502, 503, 504}
        || e.code.RateLimited? || e.code.UserRateLimitExceeded? || e.code.QuotaExceeded? || e.code.BackendError?)
  }

  function FailureCode(e: Event): ErrorCode
    requires e.TransportError?
  {
    if e.status == 403 || e.code.PermissionRefused? then PermissionDenied
    else if e.status == 404 then NotFound
    else TransportFailed
  }

  function BaseDelay(attempt: nat): real
    requires 1 <= attempt <= ATTEMPT_LIMIT
  {
    if attempt == 1 then 1.0 else if attempt == 2 then 2.0 else if attempt == 3 then 4.0 else if attempt == 4 then 8.0 else 16.0
  }

  /** The wait before the next attempt: exponential, jittered, and never above the limit. */
  function RetryDelay(attempt: nat, jitter: real): (delay: real)
    requires 1 <= attempt <= ATTEMPT_LIMIT && jitter >= 0.0
    ensures BaseDelay(attempt) <= delay <= DELAY_LIMIT
    ensures delay < DELAY_LIMIT ==> delay == BaseDelay(attempt) + jitter
  {
    if BaseDelay(attempt) + jitter < DELAY_LIMIT then BaseDelay(attempt) + jitter else DELAY_LIMIT
  }

  // ------------------------------------------- what the events decide

  /** What stopped something, if anything did, and the events left then. */
  datatype Halt = Halt(stop: Option<Stop>, rest: seq<Event>)

  /** The next interaction; a quiet one once the events ran out. */
  function Head(es: seq<Event>): Event {
    if es == [] then Quiet else es[0]
  }

  function Tail(es: seq<Event>): seq<Event> {
    if es == [] then [] else es[1..]
  }

  /** The flags before a remote call: a cancellation wins over a pause. */
  function FlagsHalt(es: seq<Event>): (h: Halt)
    ensures h.stop.Some? ==> h.stop.value in {StopCancelled, StopPaused, StopError(ControlInvalid)}
    ensures es == [] ==> h == Halt(None, [])
  {
    if Head(es).Broken? then Halt(Some(StopError(ControlInvalid)), Tail(es))
    else if Head(es).CancelAsked? then Halt(Some(StopCancelled), Tail(es))
    else if Head(Tail(es)).Broken? then Halt(Some(StopError(ControlInvalid)), Tail(Tail(es)))
    else if Head(Tail(es)).PauseAsked? then Halt(Some(StopPaused), Tail(Tail(es)))
    else Halt(None, Tail(Tail(es)))
  }

  /** The jitter, the flags and the sleep between two attempts. */
  function WaitHalt(es: seq<Event>): (h: Halt)
    ensures h.stop.Some? ==> h.stop.value in {StopCancelled, StopPaused, StopError(ControlInvalid), StopError(RetryPolicyInvalid)}
  {
    if Head(es).Broken? || (Head(es).JitterOf? && Head(es).amount < 0.0) then Halt(Some(StopError(RetryPolicyInvalid)), Tail(es))
    else
      var flags := FlagsHalt(Tail(es));
      if flags.stop.Some? then flags
      else if Head(flags.rest).Broken? then Halt(Some(StopError(RetryPolicyInvalid)), Tail(flags.rest))
      else Halt(None, Tail(flags.rest))
  }

  /** A remote call from one of its attempts on. */
  function CallHalt(es: seq<Event>, history: bool, attempt: nat): (h: Halt)
    requires 1 <= attempt <= ATTEMPT_LIMIT
    ensures h.stop == Some(StopHistoryExpired) ==> history
    ensures h.stop.Some? && h.stop.value.StopError? ==>
      h.stop.value.code in {ControlInvalid, TransportFailed, PermissionDenied, NotFound, RetryExhausted, RetryPolicyInvalid}
    ensures es == [] ==> h == Halt(None, [])
    decreases ATTEMPT_LIMIT - attempt
  {
    var flags := FlagsHalt(es);
    var answer, rest := Head(flags.rest), Tail(flags.rest);
    if flags.stop.Some? then flags
    else if answer.Broken? then Halt(Some(StopError(TransportFailed)), rest)
    else if !answer.TransportError? then Halt(None, rest)
    else if history && answer.status == 404 then Halt(Some(StopHistoryExpired), rest)
    else if !Retryable(answer) then Halt(Some(StopError(FailureCode(answer))), rest)
    else if attempt == ATTEMPT_LIMIT then Halt(Some(StopError(RetryExhausted)), rest)
    else
      var wait := WaitHalt(rest);
      if wait.stop.Some? then wait else CallHalt(wait.rest, history, attempt + 1)
  }

  /** Several remote calls, one after the other. */
  function CallsHalt(n: nat, es: seq<Event>): (h: Halt)
    ensures h.stop != Some(StopHistoryExpired)
    ensures es == [] ==> h == Halt(None, [])
  {
    if n == 0 then Halt(None, es)
    else
      var call := CallHalt(es, false, 1);
      if call.stop.Some? then call else CallsHalt(n - 1, call.rest)
  }

  /** One write of the index: cancelled, failed or done. */
  function WriteHalt(es: seq<Event>): (h: Halt)
    ensures h.stop.Some? ==> h.stop.value in {StopCancelled, StopError(ControlInvalid), StopError(PersistenceFailed)}
    ensures es == [] ==> h == Halt(None, [])
  {
    if Head(es).Broken? then Halt(Some(StopError(ControlInvalid)), Tail(es))
    else if Head(es).CancelAsked? then Halt(Some(StopCancelled), Tail(es))
    else if Head(Tail(es)).Broken? then Halt(Some(StopError(PersistenceFailed)), Tail(Tail(es)))
    else Halt(None, Tail(Tail(es)))
  }

  /** Between reading a page and writing it: whether to pause, and the clock. */
  function AskHalt(es: seq<Event>): (h: Halt)
    ensures h.stop.Some? ==> h.stop.value in {StopError(ControlInvalid), StopError(ClockInvalid)}
    ensures es == [] ==> h == Halt(None, [])
  {
    if Head(es).Broken? then Halt(Some(StopError(ControlInvalid)), Tail(es))
    else if Head(Tail(es)).Broken? then Halt(Some(StopError(ClockInvalid)), Tail(Tail(es)))
    else Halt(None, Tail(Tail(es)))
  }

  /** What happens before the account is known: the clock, the profile call and the check of the account. */
  function OpeningHalt(es: seq<Event>): (h: Halt)
    ensures h.stop != Some(StopHistoryExpired)
    ensures es == [] ==> h == Halt(None, [])
  {
    if Head(es).Broken? then Halt(Some(StopError(ClockInvalid)), Tail(es))
    else
      var profile := CallHalt(Tail(es), false, 1);
      if profile.stop.Some? then profile
      else if Head(profile.rest).Broken? then Halt(Some(StopError(IdentityMismatch)), Tail(profile.rest))
      else Halt(None, Tail(profile.rest))
  }

  /** The call that reads the labels, once the account is known. */
  function LabelsHalt(es: seq<Event>): (h: Halt)
    ensures h.stop != Some(StopHistoryExpired)
    ensures es == [] ==> h == Halt(None, [])
  {
    CallHalt(OpeningHalt(es).rest, false, 1)
  }

  /** Whether a stop is written over the progress, when the account is known: not every stop may be, and the write may fail. */
  predicate WrittenDown(stop: Stop, rest: seq<Event>) {
    match stop
    case StopPaused => !Head(rest).Broken? && WriteHalt(Tail(rest)).stop == None
    case StopError(code) => code.Persistable() && WriteHalt(Tail(rest)).stop == None
    case _ => false
  }

  /** The labels call is the first thing to stop, and its stop is written down. */
  predicate WrittenAtLabels(es: seq<Event>) {
    && OpeningHalt(es).stop == None
    && LabelsHalt(es).stop.Some?
    && WrittenDown(LabelsHalt(es).stop.value, LabelsHalt(es).rest)
  }

  /** Nothing stops before the stored checkpoint was read. */
  predicate ReadsCheckpoint(es: seq<Event>) {
    && OpeningHalt(es).stop == None
    && LabelsHalt(es).stop == None
    && !Head(LabelsHalt(es).rest).Broken?
  }

  /** The events left once the stored checkpoint was read. */
  function AfterCheckpoint(es: seq<Event>): (rest: seq<Event>)
    ensures es == [] ==> rest == []
  {
    Tail(LabelsHalt(es).rest)
  }

  // --------------------------------------------------- what one failure does

  /** The answers after which a call is made again. */
  predicate Transient(status: nat, code: RemoteCode) {
    && code != HistoryNotFound && code != PermissionRefused && code != ResponseInvalid
    && (status == 429 || status == 500 || status == 502 || status == 503 || status == 504
        || code == RateLimited || code == UserRateLimitExceeded || code == QuotaExceeded || code == BackendError)
  }

  /**
   A call that meets one failure and nothing else. A history call that finds 404
   has lost its history; a transient failure is overcome; any other one stops the
   call, as a refused permission, a missing object or a failed transport.
   */
  lemma OneFailure(status: nat, code: RemoteCode, history: bool)
    ensures CallHalt([Quiet, Quiet, TransportError(status, code)], history, 1) ==
      if history && status == 404 then Halt(Some(StopHistoryExpired), [])
      else if Transient(status, code) then Halt(None, [])
      else if status == 403 || code == PermissionRefused then Halt(Some(StopError(PermissionDenied)), [])
      else if status == 404 then Halt(Some(StopError(NotFound)), [])
      else Halt(Some(StopError(TransportFailed)), [])
  {
    var es := [Quiet, Quiet, TransportError(status, code)];
    assert Tail(Tail(es)) == [TransportError(status, code)];
    assert FlagsHalt(es) == Halt(None, [TransportError(status, code)]);
    assert WaitHalt([]) == Halt(None, []);
    assert CallHalt([], history, 2) == Halt(None, []);
  }

  /** The events of one failed attempt and of the wait after it. */
  function FailedRound(status: nat, code: RemoteCode): seq<Event> {
    [Quiet, Quiet, TransportError(status, code), Quiet, Quiet, Quiet, Quiet]
  }

  function FailedRounds(n: nat, status: nat, code: RemoteCode): seq<Event> {
    if n == 0 then [] else FailedRound(status, code) + FailedRounds(n - 1, status, code)
  }

  lemma {:induction false} RoundsPass(n: nat, status: nat, code: RemoteCode, rest: seq<Event>, attempt: nat)
    requires Transient(status, code) && 1 <= attempt && attempt + n <= ATTEMPT_LIMIT
    ensures CallHalt(FailedRounds(n, status, code) + rest, false, attempt) == CallHalt(rest, false, attempt + n)
  {
    hide CallHalt, FailedRound;
    if n == 0 {
      assert [] + rest == rest;
    } else {
      var tail := FailedRounds(n - 1, status, code) + rest;
      assert FailedRounds(n, status, code) + rest == FailedRound(status, code) + tail;
      RoundPasses(status, code, tail, attempt);
      RoundsPass(n - 1, status, code, rest, attempt + 1);
    }
  }

  lemma RoundPasses(status: nat, code: RemoteCode, rest: seq<Event>, attempt: nat)
    requires Transient(status, code) && 1 <= attempt < ATTEMPT_LIMIT
    ensures CallHalt(FailedRound(status, code) + rest, false, attempt) == CallHalt(rest, false, attempt + 1)
  {
    var failure := TransportError(status, code);
    var waited := [Quiet] + ([Quiet] + ([Quiet] + ([Quiet] + rest)));
    assert FailedRound(status, code) + rest == [Quiet] + ([Quiet] + ([failure] + waited));
    QuietFlags([failure] + waited);
    Consumed(failure, waited);
    Consumed(Quiet, [Quiet] + ([Quiet] + ([Quiet] + rest)));
    QuietFlags([Quiet] + rest);
    Consumed(Quiet, rest);
    assert WaitHalt(waited) == Halt(None, rest);
    hide FlagsHalt, WaitHalt;
  }

  lemma Consumed(e: Event, rest: seq<Event>)
    ensures Head([e] + rest) == e && Tail([e] + rest) == rest
  {
  }

  lemma QuietFlags(rest: seq<Event>)
    ensures FlagsHalt([Quiet] + ([Quiet] + rest)) == Halt(None, rest)
  {
    Consumed(Quiet, [Quiet] + rest);
    Consumed(Quiet, rest);
  }

  /** A call outlives four transient failures, and gives up at the fifth. */
  lemma FiveFailures(status: nat, code: RemoteCode)
    requires Transient(status, code)
    ensures CallHalt(FailedRounds(4, status, code), false, 1) == Halt(None, [])
    ensures CallHalt(FailedRounds(4, status, code) + [Quiet, Quiet, TransportError(status, code)], false, 1)
         == Halt(Some(StopError(RetryExhausted)), [])
  {
    RoundsPass(4, status, code, [], 1);
    RoundsPass(4, status, code, [Quiet, Quiet, TransportError(status, code)], 1);
    assert FailedRounds(4, status, code) + [] == FailedRounds(4, status, code);
    assert FlagsHalt([Quiet, Quiet, TransportError(status, code)]) == Halt(None, [TransportError(status, code)]);
  }

  /** Failures after which nothing is written down: those of the account, of the checkpoint, of the write itself, of clock and control. */
  lemma WrittenFailures(code: ErrorCode)
    ensures code.Persistable() <==>
      code in {InvalidResponse, TransportFailed, PermissionDenied, NotFound, RetryExhausted, RetryPolicyInvalid, HistoryExpired}
  {
  }

  /** The wait starts at one second and doubles with every attempt; with its jitter it is cut at 32 seconds. */
  lemma DelaysDouble(attempt: nat, jitter: real)
    requires 1 <= attempt < ATTEMPT_LIMIT && jitter >= 0.0
    ensures BaseDelay(1) == 1.0 && BaseDelay(attempt + 1) == 2.0 * BaseDelay(attempt)
    ensures RetryDelay(attempt, jitter) == if BaseDelay(attempt) + jitter <= 32.0 then BaseDelay(attempt) + jitter else 32.0
  {
  }

  // ----------------------------------------------------------- the outside

  class Outside {
    var events: seq<Event>

    constructor (events: seq<Event>)
      ensures this.events == events
    {
      this.events := events;
    }

    method Next() returns (e: Event)
      modifies this
      ensures e == Head(old(events)) && events == Tail(old(events))
    {
      if events == [] {
        return Quiet;
      }
      e := events[0];
      events := events[1..];
    }

    /** Whether the scan may call out: a cancellation wins over a pause. */
    method BeforeRemote() returns (stop: Option<Stop>)
      modifies this
      ensures Halt(stop, events) == FlagsHalt(old(events))
    {
      var cancelled := Next();
      if cancelled.Broken? { return Some(StopError(ControlInvalid)); }
      if cancelled.CancelAsked? { return Some(StopCancelled); }
      var paused := Next();
      if paused.Broken? { return Some(StopError(ControlInvalid)); }
      if paused.PauseAsked? { return Some(StopPaused); }
      return None;
    }

    /** The wait between two attempts. */
    method Wait(attempt: nat) returns (stop: Option<Stop>, delay: real)
      requires 1 <= attempt <= ATTEMPT_LIMIT
      modifies this
      ensures Halt(stop, events) == WaitHalt(old(events))
      ensures stop == None ==> BaseDelay(attempt) <= delay <= DELAY_LIMIT
      ensures stop != Some(StopError(RetryExhausted))
    {
      delay := 0.0;
      var jitter := Next();
      if jitter.Broken? || (jitter.JitterOf? && jitter.amount < 0.0) {
        return Some(StopError(RetryPolicyInvalid)), delay;
      }
      delay := RetryDelay(attempt, if jitter.JitterOf? then jitter.amount else 0.0);
      stop := BeforeRemote();
      if stop != None { return; }
      var slept := Next();
      if slept.Broken? {
        return Some(StopError(RetryPolicyInvalid)), delay;
      }
      return None, delay;
    }

    /**
     One remote call with its retries: at most five attempts and four waits,
     each as long as its attempt requires. Giving up takes five retryable
     failures, and only a history call can find its history expired.
     */
    method Remote(history: bool) returns (stop: Option<Stop>, waits: seq<real>)
      modifies this
      ensures Halt(stop, events) == CallHalt(old(events), history, 1)
      ensures |waits| < ATTEMPT_LIMIT
      ensures forall i :: 0 <= i < |waits| ==> BaseDelay(i + 1) <= waits[i] <= DELAY_LIMIT
      ensures stop == Some(StopError(RetryExhausted)) ==> |waits| == ATTEMPT_LIMIT - 1
      ensures stop == Some(StopHistoryExpired) ==> history
    {
      hide FlagsHalt, WaitHalt, BaseDelay, Retryable;
      waits := [];
      for attempt := 1 to ATTEMPT_LIMIT + 1
        invariant |waits| == attempt - 1
        invariant forall i :: 0 <= i < |waits| ==> BaseDelay(i + 1) <= waits[i] <= DELAY_LIMIT
        invariant attempt <= ATTEMPT_LIMIT
        invariant CallHalt(events, history, attempt) == CallHalt(old(events), history, 1)
      {
        stop := BeforeRemote();
        if stop != None { return; }
        var answer := Next();
        if answer.Broken? {
          return Some(StopError(TransportFailed)), waits;
        }
        if !answer.TransportError? {
          return None, waits;
        }
        if history && answer.status == 404 {
          return Some(StopHistoryExpired), waits;
        }
        if !Retryable(answer) {
          return Some(StopError(FailureCode(answer))), waits;
        }
        if attempt == ATTEMPT_LIMIT {
          return Some(StopError(RetryExhausted)), waits;
        }
        var delay;
        stop, delay := Wait(attempt);
        if stop != None { return; }
        waits := waits + [delay];
      }
      return Some(StopError(RetryExhausted)), waits;
    }
  }
}
