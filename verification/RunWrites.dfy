/**
 What a worker stores of a run, and which events it passes on or writes on its own: the batches
 it asks the store for, the ends it may give a run, and what follows for what the store holds.

 A write is stored as it was given or, where the run was asked to cancel before, with that
 cancellation in place of its end; whatever others do to the row in between, they add to the log
 and take nothing from it, and what was stored of the run stays stored in the same order.
 */
module RunWrites {
  import opened Optional
  import opened RunLog
  import opened RunTrace

  datatype Cause = LeaseWasLost | WorkerStopping | Idle

  /** How a store call or a step of the execution ended; all but `Done` are thrown. */
  datatype Outcome = Done | LostLease | Conflict | Unavailable | Threw

  /** An execution: whether it can be started, the events it yields, and whether it throws behind them. */
  datatype Source = Source(starts: bool, events: seq<Event>, throws: bool)

  const INTERRUPTED_ERROR := "Agent run worker is stopping"
  const IDLE_ERROR := "Agent run stored no event within the idle limit"
  const PERMISSION_UNSUPPORTED_ERROR := "Permission-required tools are not supported by the Agent Worker yet"
  const EXECUTOR_ENDED_ERROR := "Agent run executor ended without a terminal event"
  const ABORTED_ERROR := "Agent run execution was interrupted"
  const WORKER_FAILURE := "Agent run failed"

  predicate Asked(log: seq<Entry>, reason: Option<string>) { CancelRequested(reason) in log }

  /** The events with a cancellation in place of the event that ends the run. */
  function AsCancelled(events: seq<Event>, reason: Option<string>): seq<Event>
    requires events != []
  {
    events[..|events| - 1] + [Event(events[|events| - 1].sequence, RunCancelled(reason))]
  }

  /**
   `batch` was stored by the `n`-th transaction or later; or, where the run was asked to cancel
   before, with that cancellation in place of its end.
   */
  ghost predicate StoredSince(log: seq<Entry>, n: nat, batch: RunWrite, cancellation: Option<Option<string>>)
  {
    exists i :: n <= i < |log| && StoredAt(log, i, batch, cancellation)
  }

  /** One batch was stored at `n` or later, and another one by a later transaction. */
  ghost predicate StoredBefore(log: seq<Entry>, n: nat, first: RunWrite, second: RunWrite,
                               cancellation: Option<Option<string>>)
  {
    exists i, j :: n <= i < j < |log| && StoredAt(log, i, first, cancellation) && StoredAt(log, j, second, cancellation)
  }

  ghost predicate StoredAt(log: seq<Entry>, i: nat, batch: RunWrite, cancellation: Option<Option<string>>)
    requires i < |log|
  {
    || log[i] == Stored(batch.message, batch.events)
    || (EndsRun(batch.events) && cancellation.Some? && Asked(log[..i], cancellation.value)
        && log[i] == Stored(batch.message, AsCancelled(batch.events, cancellation.value)))
  }

  /** The row was this one after some transaction at `n` or later. */
  ghost predicate RowWas(start: Row, log: seq<Entry>, n: nat, row: Row)
  {
    exists k :: n <= k <= |log| && Replay(start, log[..k]) == Some(row)
  }

  lemma RowStaysRead(start: Row, read: seq<Entry>, log: seq<Entry>, n: nat, row: Row)
    requires read <= log && n <= |read| && (Replay(start, read) == Some(row) || RowWas(start, read, n, row))
    ensures RowWas(start, log, n, row)
  {
    if Replay(start, read) == Some(row) {
      assert log[..|read|] == read;
    } else {
      var k :| n <= k <= |read| && Replay(start, read[..k]) == Some(row);
      assert log[..k] == read[..k];
    }
  }

  /** A transaction at `n` or later stored an event of this kind as the end of the run. */
  ghost predicate EndedBy(log: seq<Entry>, n: nat, kind: Kind)
  {
    exists i ::
        n <= i < |log| && log[i].Stored? && EndsRun(log[i].events) && log[i].events[|log[i].events| - 1].kind == kind
  }

  lemma StoredEnds(log: seq<Entry>, n: nat, batch: RunWrite, cancellation: Option<Option<string>>)
    requires StoredSince(log, n, batch, cancellation) && EndsRun(batch.events)
    ensures || EndedBy(log, n, batch.events[|batch.events| - 1].kind)
            || (cancellation.Some? && EndedBy(log, n, RunCancelled(cancellation.value)))
  {
  }

  /**
   The end a worker writes on its own: a request to cancel it knew of comes first, then the cause
   it was stopped for, then the failure. Both may come up while it writes.
   */
  predicate RightEnd(kind: Kind, failure: string, knew: Option<Option<string>>, cause: Option<Cause>,
                     knows: Option<Option<string>>, causeNow: Option<Cause>)
  {
    && (knew.Some? ==> kind == RunCancelled(knew.value))
    && (kind.RunCancelled? ==> knows == Some(kind.reason))
    && (knows.None? && causeNow.None? ==> kind == RunFailed(failure))
    && (knows.None? && causeNow == cause == Some(Idle) ==> kind == RunFailed(IDLE_ERROR))
    && (knows.None? && causeNow == cause == Some(WorkerStopping) ==> kind == RunFailed(INTERRUPTED_ERROR))
  }

  ghost predicate EndedRightly(log: seq<Entry>, n: nat, failure: string, knew: Option<Option<string>>,
      cause: Option<Cause>, knows: Option<Option<string>>, causeNow: Option<Cause>)
  {
    exists kind :: EndedBy(log, n, kind) && RightEnd(kind, failure, knew, cause, knows, causeNow)
  }

  lemma AskedBefore(asked: seq<Entry>, log: seq<Entry>, i: nat, reason: Option<string>)
    requires asked <= log && |asked| <= i < |log| && Asked(asked, reason)
    ensures Asked(log[..i], reason)
  {
  }

  lemma AskedLater(asked: seq<Entry>, log: seq<Entry>, reason: Option<string>)
    requires asked <= log && Asked(asked, reason)
    ensures Asked(log, reason)
  {
  }

  lemma CancelledIsStored(asked: seq<Entry>, log: seq<Entry>, n: nat, batch: RunWrite, reason: Option<string>)
    requires n <= |asked| && asked <= log && EndsRun(batch.events) && Asked(asked, reason)
    requires exists i :: |asked| <= i < |log| && log[i] == Stored(batch.message, AsCancelled(batch.events, reason))
    ensures StoredSince(log, n, batch, Some(reason))
  {
    var i :| |asked| <= i < |log| && log[i] == Stored(batch.message, AsCancelled(batch.events, reason));
    AskedBefore(asked, log, i, reason);
    assert StoredAt(log, i, batch, Some(reason));
  }

  lemma CancelledAnswers(batch: RunWrite, spoken: set<RunWrite>)
    requires EndsRun(batch.events)
    ensures forall reason :: AnswerWithEnd(Stored(batch.message, AsCancelled(batch.events, reason)), spoken)
  {
  }

  lemma AnswersGrow(log: seq<Entry>, entry: Entry, spoken: set<RunWrite>)
    requires AnswersWithEnd(log, spoken) && AnswerWithEnd(entry, spoken)
    ensures AnswersWithEnd(log + [entry], spoken)
  {
  }

  /** Of what others do to the row, only a burial ends the run. */
  lemma OthersBury(row: Row, entry: Entry)
    requires !entry.Stored? && Effect(row, entry).Some?
    ensures Ended(Effect(row, entry).value.status) ==> Ended(row.status) || entry.Buried?
  {
  }

  function WithEvent(batch: RunWrite, event: Event): RunWrite { batch.(events := batch.events + [event]) }

  lemma StaysEnded(start: Row, a: seq<Entry>, b: seq<Entry>)
    requires a <= b && Replay(start, a).Some? && Replay(start, b).Some? && Ended(Replay(start, a).value.status)
    ensures Ended(Replay(start, b).value.status)
  {
    assert b == a + b[|a|..];
    EndedStays(start, a, b[|a|..]);
  }

  /** A run that was asked to cancel is still asked, or ended. */
  lemma StaysAsked(start: Row, a: seq<Entry>, b: seq<Entry>)
    requires start.status.Running? && a <= b && Replay(start, a).Some? && Replay(start, b).Some?
    requires Replay(start, a).value.status.Cancelling?
    ensures var status := Replay(start, b).value.status; status.Cancelling? || Ended(status)
  {
    CancellingWasAsked(start, a);
    var i :| 0 <= i < |a| && a[i].CancelRequested?;
    assert b[i] == a[i];
    CancellingStays(start, b, i);
  }

  function HeldEvents(held: Option<RunWrite>): seq<Event> { if held.Some? then held.value.events else [] }

  /** Since `a`, only writes of the conversation were given up: flushes of what they found held, and messages. */
  predicate OnlyFlushes(a: seq<Entry>, b: seq<Entry>, spoken: set<RunWrite>)
  {
    a <= b && forall i :: |a| <= i < |b| ==> FlushOrMessage(b[i], spoken)
  }

  predicate FlushOrMessage(entry: Entry, spoken: set<RunWrite>)
  {
    entry.Stored? && (entry.events == [] || RunWrite(entry.message, entry.events) in spoken)
  }

  /** Writes of the conversation, on their way. */
  predicate AllSpoken(underway: seq<Entry>, spoken: set<RunWrite>)
  {
    forall i :: 0 <= i < |underway| ==> FlushOrMessage(underway[i], spoken) && AnswerWithEnd(underway[i], spoken)
  }

  lemma AnswerLater(entry: Entry, spoken: set<RunWrite>, more: set<RunWrite>)
    requires AnswerWithEnd(entry, spoken) && spoken <= more
    ensures AnswerWithEnd(entry, more)
  {
  }

  lemma OneMoreSpoken(underway: seq<Entry>, entry: Entry, spoken: set<RunWrite>)
    requires AllSpoken(underway, spoken) && FlushOrMessage(entry, spoken) && AnswerWithEnd(entry, spoken)
    ensures AllSpoken(underway + [entry], spoken)
  {
  }

  lemma FirstSpoken(underway: seq<Entry>, spoken: set<RunWrite>)
    requires AllSpoken(underway, spoken) && underway != []
    ensures FlushOrMessage(underway[0], spoken) && AllSpoken(underway[1..], spoken)
  {
  }

  lemma SpokenLater(log: seq<Entry>, underway: seq<Entry>, spoken: set<RunWrite>, more: set<RunWrite>)
    requires AnswersWithEnd(log, spoken) && AllSpoken(underway, spoken) && spoken <= more
    ensures AnswersWithEnd(log, more) && AllSpoken(underway, more)
  {
    forall i | 0 <= i < |log| ensures AnswerWithEnd(log[i], more) {
      assert AnswerWithEnd(log[i], spoken);
    }
    forall i | 0 <= i < |underway| ensures FlushOrMessage(underway[i], more) && AnswerWithEnd(underway[i], more) {
      assert FlushOrMessage(underway[i], spoken) && AnswerWithEnd(underway[i], spoken);
    }
  }

  lemma NothingFlushed(a: seq<Entry>, spoken: set<RunWrite>)
    ensures OnlyFlushes(a, a, spoken)
  {
  }

  lemma FlushesLater(a: seq<Entry>, b: seq<Entry>, c: seq<Entry>, spoken: set<RunWrite>, more: set<RunWrite>)
    requires OnlyFlushes(a, b, spoken) && OnlyFlushes(b, c, more) && spoken <= more
    ensures OnlyFlushes(a, c, more)
  {
    forall i | |a| <= i < |c| ensures FlushOrMessage(c[i], more) {
      if i < |b| { assert FlushOrMessage(b[i], spoken) && c[i] == b[i]; }
    }
  }

  /** The write of an event: while an answer is held, of all that is held with it. */
  function WriteOf(held: Option<RunWrite>, event: Event): Entry
  {
    if held.None? then Stored(None, [event]) else Stored(held.value.message, held.value.events + [event])
  }

  /** What was held was stored at `n` or later with an event that ends the run. */
  ghost predicate StoredWithEnd(log: seq<Entry>, n: nat, batch: RunWrite, cancellation: Option<Option<string>>)
  {
    exists e :: Terminal(e) && StoredSince(log, n, WithEvent(batch, e), cancellation)
  }

  /** What was held was dropped with an event that was to end the run: the write of both was given up. */
  predicate DroppedWithEnd(givenUp: seq<Entry>, n: nat, batch: RunWrite)
  {
    exists i :: n <= i < |givenUp| && IsEnding(givenUp[i], batch)
  }

  predicate IsEnding(entry: Entry, batch: RunWrite)
  {
    entry.Stored? && EndsRun(entry.events) && entry.message == batch.message
    && entry.events[..|entry.events| - 1] == batch.events
  }

  lemma BuriedEarlier(a: seq<Entry>, b: seq<Entry>, n: nat)
    requires a <= b && BuriedSince(a, n)
    ensures BuriedSince(b, n)
  {
    var i :| n <= i < |a| && a[i].Buried?;
    assert b[i].Buried?;
  }

  lemma NoEndStored(row: Row, events: seq<Event>)
    requires InsertedAll(row, events).Some? && forall e :: e in events ==> !Terminal(e)
    ensures Ended(InsertedAll(row, events).value.status) ==> Ended(row.status)
  {
    if !Ended(row.status) { TransactionInOrder(row, events); }
  }

  lemma StoredNoEnd(row: Row, entry: Entry)
    requires entry.Stored? && Effect(row, entry).Some? && forall e :: e in entry.events ==> !Terminal(e)
    ensures Ended(Effect(row, entry).value.status) ==> Ended(row.status)
  {
    NoEndStored(row, entry.events);
  }

  /** The first write on its way stores events that were given and do not end the run. */
  lemma UnderwayIsTraced(log: seq<Entry>, books: Books, knows: Option<Option<string>>)
    requires Balanced(log, books, knows) && books.underway != []
    ensures var entry := books.underway[0];
            entry.Stored? && Unended(books.given, entry.events)
            && forall e :: e in entry.events ==> Traced(log, books.given, knows, e)
  {
  }

  lemma {:induction false} StoredIsThere(log: seq<Entry>, i: nat, e: Event)
    requires i < |log| && log[i].Stored? && e in log[i].events
    ensures e in EventsOf(log)
  {
    if i < |log| - 1 { StoredIsThere(log[..|log| - 1], i, e); }
  }

  /** A batch that is stored, or ended the run as cancelled, is no longer in hand. */
  lemma BatchIsStored(log: seq<Entry>, books: Books, n: nat, batch: RunWrite, knows: Option<Option<string>>)
    requires Balanced(log, books, knows) && batch.events == books.inHand && StoredSince(log, n, batch, knows)
    ensures Balanced(log, books.(inHand := []), knows)
  {
    var i :| n <= i < |log| && StoredAt(log, i, batch, knows);
    hide Balanced, EventsOf;
    forall e | e in books.inHand ensures Accounted(log, books.(inHand := []), e) {
      if e in log[i].events {
        StoredIsThere(log, i, e);
      } else {
        var cancelled := Event(e.sequence, RunCancelled(knows.value));
        assert e == batch.events[|batch.events| - 1] && log[i].events[|batch.events| - 1] == cancelled;
        StoredIsThere(log, i, cancelled);
      }
    }
  }

  predicate AllTraced(log: seq<Entry>, given: seq<Event>, knows: Option<Option<string>>, events: seq<Event>)
  {
    forall e :: e in events ==> Traced(log, given, knows, e)
  }

  lemma TracedLater(a: seq<Entry>, b: seq<Entry>, given: seq<Event>, knew: Option<Option<string>>,
      knows: Option<Option<string>>, events: seq<Event>)
    requires a <= b && (knew.Some? ==> knows == knew) && AllTraced(a, given, knew, events)
    ensures AllTraced(b, given, knows, events)
  {
    forall e | e in events ensures Traced(b, given, knows, e) {
      assert Traced(a, given, knew, e);
    }
  }

  /** In hand are events that were given, so they may be stored, as they are or ended as cancelled. */
  lemma HandIsTraced(log: seq<Entry>, books: Books, knows: Option<Option<string>>)
    requires Balanced(log, books, knows)
    ensures AllTraced(log, books.given, knows, books.inHand)
    ensures knows.Some? && EndsRun(books.inHand) ==>
        AllTraced(log, books.given, knows, AsCancelled(books.inHand, knows.value))
  {
    hide EventsOf;
    if knows.Some? && EndsRun(books.inHand) {
      var last := books.inHand[|books.inHand| - 1];
      assert last in books.inHand;
      var k :| 0 <= k < |books.given| && books.given[k] == last;
      assert CancelledFor(books.given, knows, Event(last.sequence, RunCancelled(knows.value)));
    }
  }

  // ----- the events a worker gives to its store

  /** An end the worker writes on its own: a request to cancel it knew of comes first, a stop has its own text. */
  predicate OwnEnd(kind: Kind, failures: set<string>, knew: Option<Option<string>>, knows: Option<Option<string>>,
      cause: Option<Cause>)
  {
    && (knew.Some? ==> kind == RunCancelled(knew.value))
    && match kind
       case RunCancelled(reason) => knows == Some(reason)
       case RunFailed(error) =>
         || (error == INTERRUPTED_ERROR && (cause == Some(WorkerStopping) || cause == Some(LeaseWasLost)))
         || (error == IDLE_ERROR && (cause == Some(Idle) || cause == Some(LeaseWasLost)))
         || error in failures
       case _ => false
  }

  /** An event is passed on as it came, but for one that fails a run under a stop and one that asks for a permission. */
  predicate PassedOn(source: Event, e: Event, knew: Option<Option<string>>, knows: Option<Option<string>>,
      cause: Option<Cause>)
  {
    && e.sequence == source.sequence
    && (if source.kind.PermissionRequested? then e.kind == RunFailed(PERMISSION_UNSUPPORTED_ERROR)
        else if source.kind.RunFailed? then
          (knew.None? && e.kind == source.kind) || OwnEnd(e.kind, {source.kind.error}, knew, knows, cause)
        else e.kind == source.kind)
  }

  /** The first `k` events of the source, passed on one after the other, and then only ends of the worker's own. */
  predicate GaveFirst(source: seq<Event>, k: nat, part: seq<Event>, failures: set<string>,
                      knew: Option<Option<string>>, knows: Option<Option<string>>, cause: Option<Cause>)
    requires k <= |source|
  {
    && k <= |part|
    && (forall j :: 0 <= j < k ==> PassedOn(source[j], part[j], knew, knows, cause))
    && forall j :: k <= j < |part| ==> OwnEnd(part[j].kind, failures, knew, knows, cause)
  }

  predicate CauseLater(cause: Option<Cause>, later: Option<Cause>)
  {
    cause.Some? ==> later == cause || later == Some(LeaseWasLost)
  }

  lemma OwnEndLater(kind: Kind, failures: set<string>, more: set<string>, knew: Option<Option<string>>,
      knewFirst: Option<Option<string>>, knows: Option<Option<string>>, knowsNow: Option<Option<string>>,
      cause: Option<Cause>, now: Option<Cause>)
    requires OwnEnd(kind, failures, knew, knows, cause) && failures <= more
    requires (knewFirst.Some? ==> knew == knewFirst) && (knows.Some? ==> knowsNow == knows) && CauseLater(cause, now)
    ensures OwnEnd(kind, more, knewFirst, knowsNow, now)
  {
  }

  lemma GaveLater(source: seq<Event>, k: nat, part: seq<Event>, failures: set<string>, more: set<string>,
      knew: Option<Option<string>>, knows: Option<Option<string>>, knowsNow: Option<Option<string>>,
      cause: Option<Cause>, now: Option<Cause>)
    requires k <= |source| && GaveFirst(source, k, part, failures, knew, knows, cause) && failures <= more
    requires (knows.Some? ==> knowsNow == knows) && CauseLater(cause, now)
    ensures GaveFirst(source, k, part, more, knew, knowsNow, now)
  {
    hide OwnEnd;
    forall j | k <= j < |part| ensures OwnEnd(part[j].kind, more, knew, knowsNow, now) {
      OwnEndLater(part[j].kind, failures, more, knew, knew, knows, knowsNow, cause, now);
    }
    forall j | 0 <= j < k ensures PassedOn(source[j], part[j], knew, knowsNow, now) {
      assert PassedOn(source[j], part[j], knew, knows, cause);
      if source[j].kind.RunFailed? && OwnEnd(part[j].kind, {source[j].kind.error}, knew, knows, cause) {
        OwnEndLater(part[j].kind, {source[j].kind.error}, {source[j].kind.error}, knew, knew, knows, knowsNow, cause,
            now);
      }
    }
  }

  /** That the execution ended by itself is told only behind all of its events. */
  function EndFailure(source: Source, k: nat): set<string>
  {
    if source.starts && !source.throws && k == |source.events| then {EXECUTOR_ENDED_ERROR} else {}
  }

  /** The failures a worker may tell that gave `k` events of its source: its own only where something failed. */
  function OwnFailures(source: Source, k: nat, failed: bool): set<string>
  {
    EndFailure(source, k)
    + if !source.starts || failed || (source.throws && k == |source.events|) then {WORKER_FAILURE} else {}
  }

  /** The event that ends a run is its burial, or one of before, or one of the source, or an end of the worker's own. */
  predicate EndComesFrom(e: Event, log: seq<Entry>, source: seq<Event>, k: nat, before: seq<Event>,
      failures: set<string>, knew: Option<Option<string>>, knows: Option<Option<string>>, cause: Option<Cause>)
    requires k <= |source|
  {
    && Terminal(e)
    && (|| Buried(e) in log || e in before
        || (exists j :: 0 <= j < k && PassedOn(source[j], e, knew, knows, cause))
        || OwnEnd(e.kind, failures, knew, knows, cause))
  }

  predicate NumberedOn(source: seq<Event>, n: int)
  {
    forall k :: 0 <= k < |source| ==> source[k].sequence == n + k + 1
  }

  lemma GivesOneMore(source: seq<Event>, i: nat, part: seq<Event>, passed: Event, own: bool,
                     knew: Option<Option<string>>, knows: Option<Option<string>>, cause: Option<Cause>)
    requires i <= |source| && |part| == i && GaveFirst(source, i, part, {}, knew, knows, cause)
    requires if own then OwnEnd(passed.kind, {}, knew, knows, cause)
             else i < |source| && PassedOn(source[i], passed, knew, knows, cause)
    ensures GaveFirst(source, if own then i else i + 1, part + [passed], {}, knew, knows, cause)
  {
    hide OwnEnd, PassedOn;
  }

  /** What was given since a request became known, seen from before. */
  lemma GaveSinceBefore(source: seq<Event>, k: nat, part: seq<Event>, failures: set<string>,
      knew: Option<Option<string>>, first: Option<Option<string>>, knows: Option<Option<string>>, cause: Option<Cause>)
    requires k <= |source| && GaveFirst(source, k, part, failures, knew, knows, cause)
    requires first.Some? ==> knew == first
    ensures GaveFirst(source, k, part, failures, first, knows, cause)
  {
    hide OwnEnd;
    forall j | k <= j < |part| ensures OwnEnd(part[j].kind, failures, first, knows, cause) {
      OwnEndLater(part[j].kind, failures, failures, knew, first, knows, knows, cause, cause);
    }
    forall j | 0 <= j < k ensures PassedOn(source[j], part[j], first, knows, cause) {
      assert PassedOn(source[j], part[j], knew, knows, cause);
      if source[j].kind.RunFailed? && OwnEnd(part[j].kind, {source[j].kind.error}, knew, knows, cause) {
        OwnEndLater(part[j].kind, {source[j].kind.error}, {source[j].kind.error}, knew, first, knows, knows, cause,
            cause);
      }
    }
  }

  lemma OwnEndsBehind(source: seq<Event>, k: nat, part: seq<Event>, full: seq<Event>, failures: set<string>,
      failure: string, knew: Option<Option<string>>, knows: Option<Option<string>>, now: Option<Option<string>>,
      cause: Option<Cause>, causeNow: Option<Cause>)
    requires k <= |source| && GaveFirst(source, k, part, failures, knew, knows, cause) && part <= full
    requires (knew.Some? ==> knows == knew) && (knows.Some? ==> now == knows) && CauseLater(cause, causeNow)
    requires forall j :: |part| <= j < |full| ==> OwnEnd(full[j].kind, {failure}, knows, now, causeNow)
    ensures GaveFirst(source, k, full, failures + {failure}, knew, now, causeNow)
  {
    hide OwnEnd, PassedOn;
    GaveLater(source, k, part, failures, failures + {failure}, knew, knows, now, cause, causeNow);
    forall j | k <= j < |full| ensures OwnEnd(full[j].kind, failures + {failure}, knew, now, causeNow) {
      if j >= |part| {
        OwnEndLater(full[j].kind, {failure}, failures + {failure}, knows, knew, now, now, causeNow, causeNow);
      } else {
        assert full[j] == part[j];
      }
    }
  }

  lemma GivenCameFrom(source: seq<Event>, k: nat, first: seq<Event>, given: seq<Event>, i: nat, failures: set<string>,
                      knew: Option<Option<string>>, knows: Option<Option<string>>, cause: Option<Cause>)
    requires first <= given && k <= |source| && i < |given|
    requires GaveFirst(source, k, given[|first|..], failures, knew, knows, cause)
    ensures || given[i] in first
            || (exists j :: 0 <= j < k && PassedOn(source[j], given[i], knew, knows, cause))
            || OwnEnd(given[i].kind, failures, knew, knows, cause)
  {
    hide OwnEnd, PassedOn;
    var part := given[|first|..];
    if i < |first| {
      assert given[i] == first[i];
    } else {
      assert given[i] == part[i - |first|];
    }
  }

  lemma CancelledIsOwn(e: Event, failures: set<string>, knew: Option<Option<string>>, knows: Option<Option<string>>,
      cause: Option<Cause>)
    requires e.kind.RunCancelled? && knows == Some(e.kind.reason) && (knew.Some? ==> knows == knew)
    ensures OwnEnd(e.kind, failures, knew, knows, cause)
  {
  }

  /**
   An event given at `i` is that of the source with its number, or ends the run; a completion is one
   of the source.
   */
  predicate PassedOrEnds(source: seq<Event>, given: seq<Event>, i: nat, k: nat, n: int)
    requires i < |given| && k <= |source|
  {
    && (i < k ==> given[i].sequence == n + i + 1)
    && (!Terminal(given[i]) || given[i].kind.RunCompleted? ==> i < k && given[i] == source[i])
  }

  lemma PassedOrOwn(source: seq<Event>, k: nat, given: seq<Event>, failures: set<string>, knew: Option<Option<string>>,
      knows: Option<Option<string>>, cause: Option<Cause>, n: int, i: nat)
    requires k <= |source| && GaveFirst(source, k, given, failures, knew, knows, cause) && NumberedOn(source, n)
        && i < |given|
    ensures PassedOrEnds(source, given, i, k, n)
  {
    if i < k {
      assert PassedOn(source[i], given[i], knew, knows, cause);
    } else {
      assert OwnEnd(given[i].kind, failures, knew, knows, cause);
    }
  }

  lemma GivenIsNumbered(source: seq<Event>, given: seq<Event>, k: nat, n: int)
    requires k <= |source| && forall i :: 0 <= i < |given| ==> PassedOrEnds(source, given, i, k, n)
    ensures Numbered(given, n)
    ensures forall i :: 0 <= i < |given| && given[i].kind.RunCompleted? ==> given[i].sequence == n + i + 1
  {
    forall i | 0 <= i < |given| && (!Terminal(given[i]) || given[i].kind.RunCompleted?)
      ensures given[i].sequence == n + i + 1
    {
      assert PassedOrEnds(source, given, i, k, n);
    }
  }

  lemma BeginsAsSource(events: seq<Event>, given: seq<Event>, source: seq<Event>, k: nat, n: nat)
    requires BeginsAs(events, given) && InOrder(events, n) && k <= |source|
    requires forall i :: 0 <= i < |given| ==> PassedOrEnds(source, given, i, k, n)
    ensures BeginsAs(events, source)
  {
    forall i | 0 <= i < |events| && !(Terminal(events[i]) && i == |events| - 1)
        ensures i < |source| && events[i] == source[i] {
      assert PassedOrEnds(source, given, i, k, n) && !Terminal(events[i]);
    }
  }

  lemma CompletedCameFrom(start: Row, log: seq<Entry>, given: seq<Event>, source: seq<Event>, k: nat)
    requires !Ended(start.status) && Replay(start, log).Some? && Replay(start, log).value.status.Completed?
    requires EventsOf(log) <= given && k <= |source|
    requires forall i :: 0 <= i < |given| ==> PassedOrEnds(source, given, i, k, start.lastSequence)
    ensures EventsOf(log) <= source
  {
    StoredInOrder(start, log);
    hide EventsOf, Replay;
    var events := EventsOf(log);
    forall i | 0 <= i < |events| ensures i < |source| && events[i] == source[i] {
      assert PassedOrEnds(source, given, i, k, start.lastSequence) && events[i] == given[i];
    }
  }

  lemma StoredAtLater(a: seq<Entry>, b: seq<Entry>, i: nat, batch: RunWrite, knew: Option<Option<string>>,
      knows: Option<Option<string>>)
    requires a <= b && i < |a| && StoredAt(a, i, batch, knew) && (knew.Some? ==> knows == knew)
    ensures StoredAt(b, i, batch, knows)
  {
    assert b[..i] == a[..i];
  }

  lemma {:induction false} CancellingWasAsked(start: Row, log: seq<Entry>)
    requires !start.status.Cancelling? && Replay(start, log).Some?
    ensures var row := Replay(start, log).value; row.status.Cancelling? ==> Asked(log, row.reason)
  {
    if log != [] {
      var front, last := log[..|log| - 1], log[|log| - 1];
      CancellingWasAsked(start, front);
      if last.Stored? {
        StoredKeepsRequest(Replay(start, front).value, last.events);
      }
    }
  }

  lemma {:induction false} StoredKeepsRequest(row: Row, events: seq<Event>)
    requires InsertedAll(row, events).Some?
    ensures var after := InsertedAll(row, events).value; after.status.Cancelling? ==>
        row.status.Cancelling? && after.reason == row.reason
  {
    if events != [] {
      StoredKeepsRequest(row, events[..|events| - 1]);
    }
  }

  lemma EndIsStored(start: Row, log: seq<Entry>)
    requires !Ended(start.status) && Replay(start, log).Some? && log != [] && log[|log| - 1].Stored?
        && EndsRun(log[|log| - 1].events)
    ensures Ended(Replay(start, log).value.status)
  {
  }
}
