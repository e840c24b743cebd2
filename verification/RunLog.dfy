/**
 What the store keeps of one claimed run: its row, and every transaction that changed it, in
 order. The laws here hold of every history of transactions the store accepts, whoever asks
 for them and in whatever order.
 */
module RunLog {
  import opened Optional

  datatype Status = Running | Waiting | Cancelling | Completed | Cancelled | Failed

  datatype Kind = Progress | PermissionRequested | RunCompleted | RunCancelled(reason: Option<string>)
      | RunFailed(error: string)

  datatype Event = Event(sequence: int, kind: Kind)

  /** `final` marks the answer that ends a run. */
  datatype Message = Message(text: string, final: bool)

  /** What one transaction stores of a run. */
  datatype RunWrite = RunWrite(message: Option<Message>, events: seq<Event>)

  /**
   `leased`: the job still runs under the lease of this attempt. `active`: its conversation still takes messages.
   `gone`: the row was removed with its workspace, and had this status last.
   */
  datatype Row = Row(status: Status, reason: Option<string>, lastSequence: nat, leased: bool, active: bool, gone: bool)

  datatype Entry =
    | Stored(message: Option<Message>, events: seq<Event>)
    | CancelRequested(reason: Option<string>)
    | LeaseLost
    | Buried(event: Event)
    | ConversationGone
    | RowGone

  predicate Ended(status: Status) { status.Completed? || status.Cancelled? || status.Failed? }

  predicate Terminal(event: Event) { event.kind.RunCompleted? || event.kind.RunCancelled? || event.kind.RunFailed? }

  /** Events the store refuses once the run was asked to cancel. */
  predicate EndsOrSuspends(event: Event)
  {
    event.kind.RunCompleted? || event.kind.RunFailed? || event.kind.PermissionRequested?
  }

  function StatusAfter(status: Status, kind: Kind): Status
  {
    match kind
    case Progress => status
    case PermissionRequested => Waiting
    case RunCompleted => Completed
    case RunCancelled(_) => Cancelled
    case RunFailed(_) => Failed
  }

  function Inserted(row: Row, event: Event): Option<Row>
  {
    if row.gone || Ended(row.status) || event.sequence != row.lastSequence + 1
        || (EndsOrSuspends(event) && row.status.Cancelling?) then None
    else
      var reason := if event.kind.RunCancelled? then event.kind.reason else row.reason;
      Some(row.(status := StatusAfter(row.status, event.kind), lastSequence := row.lastSequence + 1, reason := reason))
  }

  /** All the events of a transaction, or none. */
  function InsertedAll(row: Row, events: seq<Event>): Option<Row>
  {
    if events == [] then Some(row)
    else
      var before := InsertedAll(row, events[..|events| - 1]);
      if before.None? then None else Inserted(before.value, events[|events| - 1])
  }

  predicate TakesMessage(row: Row, message: Option<Message>)
  {
    message.Some? ==> !row.gone && !Ended(row.status) && row.active
  }

  /** What a transaction does to the row; none where the store refuses it. */
  function Effect(row: Row, entry: Entry): Option<Row>
  {
    match entry
    case Stored(message, events) =>
      if !row.leased || !TakesMessage(row, message) then None else InsertedAll(row, events)
    case CancelRequested(reason) =>
        if row.gone || Ended(row.status) then None else Some(row.(status := Cancelling, reason := reason))
    case LeaseLost => if row.leased then Some(row.(leased := false)) else None
    case Buried(event) =>
      if row.gone || Ended(row.status) || row.leased || event.sequence != row.lastSequence + 1 || !event.kind.RunFailed?
        then None
      else Some(row.(status := Failed, lastSequence := row.lastSequence + 1))
    case ConversationGone => Some(row.(active := false))
    case RowGone => if row.active || row.gone then None else Some(row.(gone := true))
  }

  function Replay(start: Row, log: seq<Entry>): Option<Row>
  {
    if log == [] then Some(start)
    else
      var before := Replay(start, log[..|log| - 1]);
      if before.None? then None else Effect(before.value, log[|log| - 1])
  }

  function EventsOf(log: seq<Entry>): seq<Event>
  {
    if log == [] then [] else EventsOf(log[..|log| - 1]) + Added(log[|log| - 1])
  }

  function Added(entry: Entry): seq<Event>
  {
    if entry.Stored? then entry.events else if entry.Buried? then [entry.event] else []
  }

  /** Numbered on from `n`, and only the last may end the run. */
  predicate InOrder(events: seq<Event>, n: nat)
  {
    forall i :: 0 <= i < |events| ==> events[i].sequence == n + i + 1 && (Terminal(events[i]) ==> i == |events| - 1)
  }

  predicate EndAgrees(events: seq<Event>, status: Status)
  {
    && (Ended(status) <==> events != [] && Terminal(events[|events| - 1]))
    && (Ended(status) ==> status == StatusAfter(status, events[|events| - 1].kind))
  }

  lemma {:induction false} TransactionInOrder(row: Row, events: seq<Event>)
    requires !Ended(row.status) && InsertedAll(row, events).Some?
    ensures var after := InsertedAll(row, events).value;
            && InOrder(events, row.lastSequence) && EndAgrees(events, after.status)
            && after.lastSequence == row.lastSequence + |events| && after.leased == row.leased
            && (row.status.Cancelling? ==> after.status.Cancelling? || after.status.Cancelled?)
  {
    if events != [] {
      TransactionInOrder(row, events[..|events| - 1]);
    }
  }

  /**
   What the store takes: of an attempt with its lease, while the conversation takes messages, exactly
   the events of an open run that are numbered on, of which only the last may end it, and of a run
   that was asked to cancel none that ends it otherwise or suspends it.
   */
  lemma StoresExactly(row: Row, message: Option<Message>, events: seq<Event>)
    ensures Effect(row, Stored(message, events)).Some? <==>
              && row.leased && (message.Some? ==> !row.gone && !Ended(row.status) && row.active)
              && (events != [] ==> !row.gone && !Ended(row.status) && InOrder(events, row.lastSequence))
              && (row.status.Cancelling? ==> forall i :: 0 <= i < |events| ==> !EndsOrSuspends(events[i]))
    ensures var after := Effect(row, Stored(message, events));
            after.Some? ==>
              && after.value == row.(status := after.value.status, reason := after.value.reason,
                  lastSequence := row.lastSequence + |events|)
              && StatusIs(row, events, after.value)
  {
    hide InsertedAll, StatusIs, InOrder;
    TakesExactly(row, events);
    if InsertedAll(row, events).Some? { StatusOf(row, events); }
  }

  /** The last event that is not only progress. */
  function LastTold(events: seq<Event>): Option<Event>
  {
    if events == [] then None
    else if !events[|events| - 1].kind.Progress? then Some(events[|events| - 1]) else LastTold(events[..|events| - 1])
  }

  /** The status is that of the last event that tells one, and the reason that of a cancellation at the end. */
  predicate StatusIs(row: Row, events: seq<Event>, after: Row)
  {
    && (match LastTold(events)
        case None => after.status == row.status
        case Some(event) =>
          match event.kind
          case Progress => true
          case PermissionRequested => after.status == Waiting
          case RunCompleted => after.status == Completed
          case RunCancelled(_) => after.status == Cancelled
          case RunFailed(_) => after.status == Failed)
    && after.reason == if events != [] && events[|events| - 1].kind.RunCancelled?
                       then events[|events| - 1].kind.reason else row.reason
  }

  predicate Takes(row: Row, events: seq<Event>)
  {
    && (events != [] ==> !row.gone && !Ended(row.status) && InOrder(events, row.lastSequence))
    && (row.status.Cancelling? ==> forall i :: 0 <= i < |events| ==> !EndsOrSuspends(events[i]))
  }

  lemma {:induction false} TakesExactly(row: Row, events: seq<Event>)
    ensures InsertedAll(row, events).Some? <==> Takes(row, events)
    ensures var after := InsertedAll(row, events);
            after.Some? ==>
              && after.value == row.(status := after.value.status, reason := after.value.reason,
                  lastSequence := row.lastSequence + |events|)
              && (Ended(after.value.status) <==> Ended(row.status) || (events != [] && Terminal(events[|events| - 1])))
              && (!Ended(after.value.status) ==> (after.value.status.Cancelling? <==> row.status.Cancelling?))
  {
    if events != [] {
      TakesExactly(row, events[..|events| - 1]);
    }
  }

  lemma {:induction false} StatusOf(row: Row, events: seq<Event>)
    requires InsertedAll(row, events).Some?
    ensures StatusIs(row, events, InsertedAll(row, events).value)
  {
    if events != [] {
      var front := events[..|events| - 1];
      assert InsertedAll(row, front).Some? && !Ended(InsertedAll(row, front).value.status);
      TakesExactly(row, front);
      StatusOf(row, front);
    }
  }

  lemma NothingBehindEnd(row: Row, events: seq<Event>)
    requires Ended(row.status) && InsertedAll(row, events).Some?
    ensures events == []
  {
  }

  lemma {:induction false} StillEnded(row: Row, events: seq<Event>)
    requires Ended(row.status) && InsertedAll(row, events).Some?
    ensures InsertedAll(row, events).value == row
  {
    if events != [] {
      StillEnded(row, events[..|events| - 1]);
    }
  }

  /** The stored events of a run have consecutive numbers, at most one ends it, that is the last, and the row agrees. */
  lemma {:induction false} StoredInOrder(start: Row, log: seq<Entry>)
    requires !Ended(start.status) && Replay(start, log).Some?
    ensures LogAgrees(EventsOf(log), start.lastSequence, Replay(start, log).value)
  {
    hide LogAgrees, Effect, Added;
    if log == [] {
      EmptyAgrees(start);
    } else {
      StoredInOrder(start, log[..|log| - 1]);
      EntryAgrees(EventsOf(log[..|log| - 1]), start.lastSequence, Replay(start, log[..|log| - 1]).value,
          log[|log| - 1]);
    }
  }

  predicate LogAgrees(events: seq<Event>, n: nat, row: Row)
  {
    InOrder(events, n) && EndAgrees(events, row.status) && row.lastSequence == n + |events|
  }

  lemma EmptyAgrees(start: Row)
    requires !Ended(start.status)
    ensures LogAgrees([], start.lastSequence, start)
  {
  }

  lemma EntryAgrees(events: seq<Event>, n: nat, row: Row, entry: Entry)
    requires LogAgrees(events, n, row) && Effect(row, entry).Some?
    ensures LogAgrees(events + Added(entry), n, Effect(row, entry).value)
  {
    if entry.Stored? && !Ended(row.status) {
      TransactionInOrder(row, entry.events);
    } else if entry.Stored? {
      StillEnded(row, entry.events);
      NothingBehindEnd(row, entry.events);
    }
    if Added(entry) == [] {
      assert events + [] == events;
    }
  }

  /** A run whose row is gone takes no event. */
  lemma {:induction false} GoneTakesNothing(row: Row, events: seq<Event>)
    requires row.gone && InsertedAll(row, events).Some?
    ensures events == []
  {
    if events != [] {
      GoneTakesNothing(row, events[..|events| - 1]);
    }
  }

  /** A lease that is lost is never held again. */
  lemma LeaseNeverBack(row: Row, entry: Entry)
    requires Effect(row, entry).Some?
    ensures Effect(row, entry).value.leased ==> row.leased
  {
    if entry.Stored? { TakesExactly(row, entry.events); }
  }

  lemma StaysGone(row: Row, entry: Entry)
    requires Effect(row, entry).Some? && row.gone
    ensures Effect(row, entry).value.gone && (entry.Stored? ==> entry.events == [] && entry.message.None?)
  {
    if entry.Stored? { GoneTakesNothing(row, entry.events); }
  }

  /**
   A workspace is removed with its conversations, whether or not a run of theirs is in progress:
   the row of a run can be gone that still holds its lease, and that of one that was buried.
   */
  lemma RowGoesWhileExecuting(start: Row, error: string)
    requires start.status.Running? && start.leased && !start.gone
    ensures var removed := [ConversationGone, RowGone];
            Replay(start, removed) == Some(start.(active := false, gone := true))
    ensures var burial := Buried(Event(start.lastSequence + 1, RunFailed(error)));
            var after := Replay(start, [LeaseLost, burial, ConversationGone, RowGone]);
            after.Some? && after.value.gone && after.value.status.Failed?
  {
    var gone := [ConversationGone, RowGone];
    assert gone[..1] == [ConversationGone] && gone[..1][..0] == [];
    assert Replay(start, gone[..1]) == Some(start.(active := false));
    var lost, burial := LeaseLost, Buried(Event(start.lastSequence + 1, RunFailed(error)));
    assert [lost][..0] == [] && [lost, burial][..1] == [lost];
    assert [lost, burial, ConversationGone][..2] == [lost, burial];
    assert [lost, burial, ConversationGone, RowGone][..3] == [lost, burial, ConversationGone];
    assert Replay(start, [lost]) == Some(start.(leased := false));
    assert Replay(start, [lost, burial]).Some?;
  }

  lemma {:induction false} LeaseStaysLost(start: Row, log: seq<Entry>, i: nat)
    requires Replay(start, log).Some? && i < |log| && log[i].LeaseLost?
    ensures !Replay(start, log).value.leased
  {
    var last := log[|log| - 1];
    if i < |log| - 1 {
      LeaseStaysLost(start, log[..|log| - 1], i);
      var before := Replay(start, log[..|log| - 1]).value;
    }
  }

  /** Nothing of the run is stored by this attempt once its lease is lost. */
  lemma {:induction false} NothingAfterLease(start: Row, log: seq<Entry>, i: nat, j: nat)
    requires Replay(start, log).Some? && i < j < |log| && log[i].LeaseLost?
    ensures !log[j].Stored?
  {
    if j < |log| - 1 {
      NothingAfterLease(start, log[..|log| - 1], i, j);
    } else {
      LeaseStaysLost(start, log[..|log| - 1], i);
    }
  }

  lemma {:induction false} CancellingStays(start: Row, log: seq<Entry>, i: nat)
    requires Replay(start, log).Some? && i < |log| && log[i].CancelRequested?
    ensures var status := Replay(start, log).value.status; status.Cancelling? || Ended(status)
  {
    if i < |log| - 1 {
      CancellingStays(start, log[..|log| - 1], i);
      var before, last := Replay(start, log[..|log| - 1]).value, log[|log| - 1];
      if last.Stored? {
        if Ended(before.status) { StillEnded(before, last.events); } else { TransactionInOrder(before, last.events); }
      }
    }
  }

  /** Nothing a worker stores completes or fails a run that was asked to cancel. */
  lemma {:induction false} CancellingEndsCancelled(start: Row, log: seq<Entry>, i: nat, j: nat)
    requires Replay(start, log).Some? && i < j < |log| && log[i].CancelRequested? && log[j].Stored?
    ensures forall e :: e in log[j].events ==> !EndsOrSuspends(e)
  {
    if j < |log| - 1 {
      CancellingEndsCancelled(start, log[..|log| - 1], i, j);
    } else {
      CancellingStays(start, log[..|log| - 1], i);
      var before := Replay(start, log[..|log| - 1]).value;
      if Ended(before.status) {
        NothingBehindEnd(before, log[j].events);
      } else {
        NoneEndsCancelling(before, log[j].events);
      }
    }
  }

  /** So such a run is never completed, and it fails exactly where it is buried with its job after the request. */
  lemma {:induction false} AskedFailsByBurial(start: Row, log: seq<Entry>, i: nat)
    requires !Ended(start.status) && Replay(start, log).Some? && i < |log| && log[i].CancelRequested?
    ensures var status := Replay(start, log).value.status;
            !status.Completed? && (status.Failed? <==> BuriedSince(log, i + 1))
  {
    hide InsertedAll;
    var front, last := log[..|log| - 1], log[|log| - 1];
    var before := Replay(start, front).value;
    if i < |log| - 1 {
      AskedFailsByBurial(start, front, i);
      CancellingStays(start, front, i);
      CancelStatus(before, last);
    }
  }

  predicate BuriedSince(log: seq<Entry>, n: nat) { exists i :: n <= i < |log| && log[i].Buried? }

  /** What a transaction makes of a run that is cancelling, or ended since. */
  lemma CancelStatus(row: Row, entry: Entry)
    requires row.status.Cancelling? || Ended(row.status)
    requires Effect(row, entry).Some?
    ensures var status := Effect(row, entry).value.status;
            if entry.Buried? then status.Failed? && row.status.Cancelling?
            else status == row.status || (row.status.Cancelling? && status.Cancelled?)
  {
    if entry.Stored? {
      if Ended(row.status) { StillEnded(row, entry.events); } else { NoneEndsCancelling(row, entry.events); }
    }
  }

  /** A burial does not look at the request: the run fails although it was asked to cancel. */
  lemma BuriedThoughAsked(start: Row, reason: Option<string>, error: string)
    requires start.status.Running? && start.leased && !start.gone
    ensures var log := [CancelRequested(reason), LeaseLost, Buried(Event(start.lastSequence + 1, RunFailed(error)))];
            Replay(start, log).Some? && Replay(start, log).value.status.Failed?
  {
    var asked, lost, buried := CancelRequested(reason), LeaseLost,
        Buried(Event(start.lastSequence + 1, RunFailed(error)));
    assert Replay(start, []) == Some(start);
    assert [asked][..0] == [] && [asked, lost][..1] == [asked] && [asked, lost, buried][..2] == [asked, lost];
    assert Replay(start, [asked]) == Some(start.(status := Cancelling, reason := reason));
    assert Replay(start, [asked, lost]) == Some(start.(status := Cancelling, reason := reason, leased := false));
  }

  lemma {:induction false} NoneEndsCancelling(row: Row, events: seq<Event>)
    requires row.status.Cancelling? && InsertedAll(row, events).Some?
    ensures forall e :: e in events ==> !EndsOrSuspends(e)
    ensures var status := InsertedAll(row, events).value.status; status.Cancelling? || status.Cancelled?
  {
    if events != [] {
      NoneEndsCancelling(row, events[..|events| - 1]);
      assert forall e :: e in events ==> e in events[..|events| - 1] || e == events[|events| - 1];
    }
  }

  lemma {:induction false} EndedStays(start: Row, log: seq<Entry>, more: seq<Entry>)
    requires Replay(start, log).Some? && Replay(start, log + more).Some? && Ended(Replay(start, log).value.status)
    ensures Replay(start, log + more).value.status == Replay(start, log).value.status
    decreases |more|
  {
    if more == [] {
      assert log + more == log;
    } else {
      var front, last := more[..|more| - 1], more[|more| - 1];
      assert (log + more)[..|log + more| - 1] == log + front;
      EndedStays(start, log, front);
      if last.Stored? {
        StillEnded(Replay(start, log + front).value, last.events);
      }
    }
  }

  // ----- the answer that ends a run

  const HELD_END_MAX_EVENTS := 1000

  predicate EndsRun(events: seq<Event>) { events != [] && Terminal(events[|events| - 1]) }

  predicate HasAnswer(entry: Entry) { entry.Stored? && entry.message.Some? && entry.message.value.final }

  /**
   The answer is stored only with the event that ends the run, unless a write to the conversation
   found it held, or more than the limit was held with it. `spoken` is what such writes found.
   */
  predicate AnswerWithEnd(entry: Entry, spoken: set<RunWrite>)
  {
    HasAnswer(entry) ==>
      || EndsRun(entry.events)
      || RunWrite(entry.message, entry.events) in spoken
      || |entry.events| > HELD_END_MAX_EVENTS
  }

  predicate AnswersWithEnd(log: seq<Entry>, spoken: set<RunWrite>)
  {
    forall i :: 0 <= i < |log| ==> AnswerWithEnd(log[i], spoken)
  }

  predicate EndsWith(log: seq<Entry>, event: Event)
  {
    var events := EventsOf(log); events != [] && events[|events| - 1] == event
  }

  /**
   Wherever the worker is killed: an answer that no write to the conversation found held, and that
   was not held with too many events, stands beside a run that ended, by the event stored with it.
   */
  lemma AnswerMeansEnded(start: Row, log: seq<Entry>, spoken: set<RunWrite>, i: nat)
    requires !Ended(start.status) && Replay(start, log).Some? && AnswersWithEnd(log, spoken)
    requires i < |log| && HasAnswer(log[i]) && RunWrite(log[i].message, log[i].events) !in spoken
        && |log[i].events| <= HELD_END_MAX_EVENTS
    ensures Ended(Replay(start, log).value.status)
    ensures log[i].events != [] && EndsWith(log, log[i].events[|log[i].events| - 1])
  {
    hide Replay, EventsOf;
    var upTo, more := log[..i + 1], log[i + 1..];
    assert log == upTo + more && upTo[..|upTo| - 1] == log[..i] && upTo[|upTo| - 1] == log[i];
    PrefixReplays(start, upTo, more);
    assert AnswerWithEnd(log[i], spoken);
    EndOfTransaction(upTo);
    EndIsLast(start, upTo, more);
  }

  lemma EndOfTransaction(log: seq<Entry>)
    requires log != [] && log[|log| - 1].Stored? && log[|log| - 1].events != []
    ensures var events := log[|log| - 1].events; EndsWith(log, events[|events| - 1])
  {
  }

  lemma EndIsLast(start: Row, log: seq<Entry>, more: seq<Entry>)
    requires !Ended(start.status) && Replay(start, log).Some? && Replay(start, log + more).Some?
    requires EventsOf(log) != [] && Terminal(EventsOf(log)[|EventsOf(log)| - 1])
    ensures Ended(Replay(start, log + more).value.status) && EndsWith(log + more, EventsOf(log)[|EventsOf(log)| - 1])
  {
    hide Replay, EventsOf;
    StoredInOrder(start, log);
    StoredInOrder(start, log + more);
    EventsExtend(log, more);
  }

  lemma {:induction false} PrefixReplays(start: Row, log: seq<Entry>, more: seq<Entry>)
    requires Replay(start, log + more).Some?
    ensures Replay(start, log).Some? && (log != [] ==> Replay(start, log[..|log| - 1]).Some?)
    decreases |more|
  {
    if more == [] {
      assert log + more == log;
    } else {
      assert (log + more)[..|log + more| - 1] == log + more[..|more| - 1];
      PrefixReplays(start, log, more[..|more| - 1]);
    }
  }

  lemma {:induction false} EventsExtend(log: seq<Entry>, more: seq<Entry>)
    ensures EventsOf(log) <= EventsOf(log + more)
    decreases |more|
  {
    if more == [] {
      assert log + more == log;
    } else {
      assert (log + more)[..|log + more| - 1] == log + more[..|more| - 1];
      EventsExtend(log, more[..|more| - 1]);
    }
  }
}
