/**
 The execution of one claimed run: what it holds back, what it stores, and how it closes the run
 exactly once. Between any two lines where the worker waits, `Interfere` may do anything that the
 rest of the system can do: requests to cancel, a lost lease, burial, stops of the worker, and
 the conversation writes of the execution, which come one after the other.
 */
module AgentRunWorker {
  import opened Optional
  import opened RunLog
  import opened RunTrace
  import opened RunWrites
  import opened RunSteps

  /** `LeftOpen` is the error that says the run did not reach a terminal state. */
  datatype Exit = Returned | Failing(outcome: Outcome) | LeftOpen

  /** The transactional store, as far as it concerns this run. */
  class RunStore {
    const start: Row
    var row: Row
    var log: seq<Entry>

    ghost predicate Valid()
      reads this
    {
      start.status.Running? && !start.gone && Replay(start, log) == Some(row)
    }

    constructor (start: Row)
      requires start.status.Running? && !start.gone
      ensures Valid() && log == [] && this.start == start
    {
      this.start, row, log := start, start, [];
    }

    /** One transaction: all of it or nothing. */
    method Commit(entry: Entry) returns (outcome: Outcome)
      requires Valid()
      modifies this
      ensures Valid()
      ensures outcome.Done? <==> Effect(old(row), entry).Some?
      ensures outcome.Done? ==> log == old(log) + [entry] && row == Effect(old(row), entry).value
      ensures !outcome.Done? ==>
          log == old(log) && row == old(row) && outcome == (if old(row).leased then Conflict else LostLease)
      ensures old(row).gone ==> row.gone && (outcome.Done? && entry.Stored? ==> entry.events == [])
      ensures row.leased ==> old(row).leased
    {
      var effect := Effect(row, entry);
      if effect.None? {
        outcome := if row.leased then Conflict else LostLease;
      } else {
        assert (log + [entry])[..|log|] == log;
        if row.gone { StaysGone(row, entry); }
        LeaseNeverBack(row, entry);
        row, log, outcome := effect.value, log + [entry], Done;
      }
    }
  }

  /**
   The closures of one execution over their shared variables. Every method tells what it adds to
   the log, what it leaves in the books of `RunTrace`, and where it fails, which call was not
   answered or which write was refused.
   */
  class Execution {
    const store: RunStore
    /** What becomes of each call of the store this worker makes, and how many it made. */
    const fates: nat -> Fate
    var calls: nat
    /** At which of its turns the execution takes a step of a conversation write, and how many turns it had. */
    const speaks: nat -> bool
    var turns: nat
    var stopCause: Option<Cause>
    /** The job has told this worker that the lease was lost. */
    ghost var toldLost: bool
    /** The failure the run was last closed with, whether or not that succeeded. */
    ghost var closedWith: Option<string>
    var aborted: bool
    /** How many events were given when it was first aborted. */
    ghost var givenAtAbort: nat
    /** The execution is over, and its signal was aborted for that. */
    var over: bool
    var cancellation: Option<Option<string>>
    var held: Option<RunWrite>
    var terminalWritten: bool
    /** Conversation writes that were begun and are not finished. */
    var underway: seq<Entry>
    /** One of the conversation's own methods is running, so no other conversation write begins. */
    var talking: bool
    /** The events given to `Append`, those in the write it is making, and the writes reported as failed. */
    ghost var given: seq<Event>
    ghost var inHand: seq<Event>
    ghost var givenUp: seq<Entry>
    /** What the conversation writes found held: the two methods of the conversation, and those beside the worker. */
    ghost var spoke: set<RunWrite>
    ghost var spokeBeside: set<RunWrite>

    ghost function Spoken(): set<RunWrite>
      reads this
    {
      spoke + spokeBeside
    }

    ghost function Account(): Books
      reads this
    {
      Books(given, inHand, HeldEvents(held), underway, givenUp)
    }

    ghost function Here(): Moment
      reads this, store
    {
      Moment(store.row, store.log, terminalWritten, aborted, givenAtAbort, over, cancellation, stopCause, calls, held,
          talking, given, inHand, givenUp, spoke, spokeBeside)
    }

    ghost predicate Valid()
      reads this, store
    {
      && store.Valid() && AnswersWithEnd(store.log, Spoken())
      && (terminalWritten ==> Ended(store.row.status))
      && (stopCause.Some? ==> aborted) && (stopCause == Some(LeaseWasLost) ==> toldLost || !store.row.leased)
      && (aborted ==> stopCause.Some? || cancellation.Some? || over)
      && (cancellation.Some? ==> Asked(store.log, cancellation.value))
      && (held.Some? ==> |held.value.events| <= HELD_END_MAX_EVENTS)
      && AllSpoken(underway, Spoken())
      && |spokeBeside| <= TimesSpoken(speaks, turns)
      && Balanced(store.log, Account(), cancellation)
    }

    /** Since then a call of the store was not answered, or it refused a write. */
    ghost predicate Failed(since: Moment)
      reads this, store
    {
      FailedTo(fates, store.start, since, Here())
    }

    twostate predicate Same()
      reads this, store
    {
      SameTo(old(Here()), Here())
    }

    twostate predicate Later()
      reads this, store
    {
      LaterTo(old(Here()), Here())
    }

    twostate predicate Beside()
      reads this, store
    {
      BesideTo(old(Here()), Here())
    }

    twostate predicate EndedByOthers()
      reads this, store
    {
      EndedByOthersTo(old(Here()), Here())
    }

    constructor (store: RunStore, fates: nat -> Fate, speaks: nat -> bool)
      requires store.Valid() && store.log == []
      ensures Valid() && this.store == store && this.fates == fates && this.speaks == speaks
      ensures stopCause.None? && cancellation.None? && held.None? && !terminalWritten && !over
      ensures given == inHand == [] && givenUp == [] && !talking && Spoken() == {}
    {
      this.store, this.fates, this.speaks, calls, turns := store, fates, speaks, 0, 0;
      stopCause, aborted, over, cancellation, held, terminalWritten := None, false, false, None, None, false;
      underway, talking, toldLost, closedWith := [], false, false, None;
      given, inHand, givenUp, spoke, spokeBeside, givenAtAbort := [], [], [], {}, {}, 0;
    }

    // ----- what others do

    /** Any number of steps of the others, as many as there may be while the worker waits. */
    method Interfere()
      requires Valid()
      modifies this, store
      ensures Valid() && Beside() && EndedByOthers()
    {
      hide TimesSpoken, Balanced, AnswersWithEnd, Replay, AllSpoken, BesideTo, EndedByOthersTo;
      var n: int := *;
      if n > 0 { OthersAct(n); } else { LaterStays(Here()); }
    }

    method OthersAct(n: nat)
      requires Valid()
      modifies this, store
      ensures Valid() && Beside() && EndedByOthers()
      decreases n
    {
      hide TimesSpoken, Balanced, AnswersWithEnd, Replay, AllSpoken, BesideTo, EndedByOthersTo;
      LaterStays(Here());
      if n == 0 { return; }
      if
      case true => EnvironmentActs();
      case true => CallbackRuns();
      case true => ConversationActs();
      ghost var was := Here();
      OthersAct(n - 1);
      BesideOn(old(Here()), was, Here());
    }

    method EnvironmentActs()
      requires Valid()
      modifies store
      ensures Valid() && Beside() && EndedByOthers()
    {
      hide TimesSpoken, Balanced, AnswersWithEnd, Replay, AllSpoken, BesideTo, EndedByOthersTo;
      if
      case true => var reason: Option<string> := *; CommitOther(CancelRequested(reason));
      case true => CommitOther(LeaseLost);
      case true => var error: string := *; CommitOther(Buried(Event(store.row.lastSequence + 1, RunFailed(error))));
      case true => CommitOther(ConversationGone);
      case true => CommitOther(RowGone);
    }

    method CommitOther(entry: Entry)
      requires Valid() && !entry.Stored?
      modifies store
      ensures Valid() && Beside() && EndedByOthers()
    {
      hide TimesSpoken, Balanced, Replay, Effect, AnswersWithEnd, AllSpoken;
      ghost var before, row := store.log, store.row;
      var outcome := store.Commit(entry);
      LogGrows(before);
      if outcome.Done? { OthersBury(row, entry); }
      AnswersGrow(before, entry, Spoken());
      Grows(before, entry, Account(), cancellation);
      if cancellation.Some? { AskedLater(before, store.log, cancellation.value); }
      if outcome.Done? { assert store.log[|before|] == entry; }
    }

    /** A transaction leaves ended what was ended. */
    lemma LogGrows(before: seq<Entry>)
      requires store.Valid() && before <= store.log && Replay(store.start, before).Some?
      ensures Ended(Replay(store.start, before).value.status) ==> Ended(store.row.status)
    {
      if Ended(Replay(store.start, before).value.status) {
        StaysEnded(store.start, before, store.log);
      }
    }

    /** The first cause stands, but a lost lease outranks the others. */
    method Stop(cause: Cause)
      requires Valid() && (cause.LeaseWasLost? ==> toldLost || !store.row.leased)
      modifies this`stopCause, this`aborted, this`givenAtAbort
      ensures Valid() && Beside() && EndedByOthers() && aborted
      ensures stopCause == (if old(stopCause).None? || cause.LeaseWasLost? then Some(cause) else old(stopCause))
    {
      hide TimesSpoken, Balanced, AnswersWithEnd, Replay, AllSpoken;
      if stopCause.None? || cause.LeaseWasLost? { stopCause := Some(cause); }
      if !aborted { givenAtAbort := |given|; }
      aborted := true;
    }

    /** Callbacks of this process: its stops, and the watch that finds a request to cancel. */
    method CallbackRuns()
      requires Valid()
      modifies this
      ensures Valid() && Beside() && EndedByOthers()
    {
      hide TimesSpoken, Balanced, AnswersWithEnd, Replay, AllSpoken;
      if
      case true => Stop(WorkerStopping);
      case true => Stop(Idle);
      case true =>
        toldLost := true;
        Stop(LeaseWasLost);
      case cancellation.Some? =>
        if !aborted { givenAtAbort := |given|; }
        aborted := true;
      case true =>
        var k: int := *;
        if 0 <= k < |store.log| && store.log[k].CancelRequested? { Learn(store.log[k].reason); }
    }

    /** A request to cancel was found; the one that is known already stands. */
    method Learn(reason: Option<string>)
      requires Valid() && Asked(store.log, reason)
      modifies this`cancellation
      ensures Valid() && Beside() && EndedByOthers()
      ensures cancellation == (if old(cancellation).None? then Some(reason) else old(cancellation))
    {
      hide TimesSpoken, Balanced, AnswersWithEnd, Replay, AllSpoken;
      if cancellation.None? {
        Learns(store.log, Account(), cancellation, reason);
        cancellation := Some(reason);
      }
    }

    /** The conversation writes of the execution, which hold an answer only when what was held is flushed. */
    method ConversationActs()
      requires Valid()
      modifies this, store
      ensures Valid() && Beside() && EndedByOthers()
    {
      hide TimesSpoken, Balanced, Replay, AnswersWithEnd, AllSpoken;
      var text: string := *;
      if
      case !talking && speaks(turns) => Speaks(text);
      case !talking && !speaks(turns) =>
        MoreTurns(speaks, turns);
        turns := turns + 1;
      case underway != [] => FinishOne();
      case true =>
    }

    /** The execution writes to its conversation: it flushes what it finds held, holds an answer, stores a message. */
    method Speaks(text: string)
      requires Valid() && !talking && speaks(turns)
      modifies this
      ensures Valid() && Beside() && EndedByOthers()
    {
      hide TimesSpoken, Balanced, Replay, AnswersWithEnd, AllSpoken;
      if held.Some? {
        FlushBeside();
        return;
      }
      var final: bool := *;
      if final {
        held := Some(RunWrite(Some(Message(text, true)), []));
      } else {
        var entry := Stored(Some(Message(text, false)), []);
        SetsOff(store.log, Account(), cancellation, entry, []);
        OneMoreSpoken(underway, entry, Spoken());
        underway := underway + [entry];
      }
      MoreTurns(speaks, turns);
      turns := turns + 1;
    }

    method FlushBeside()
      requires Valid() && !talking && speaks(turns) && held.Some?
      modifies this
      ensures Valid() && Beside() && EndedByOthers()
    {
      hide TimesSpoken, Balanced, Replay, AnswersWithEnd, AllSpoken;
      var entry := Stored(held.value.message, held.value.events);
      SetsOff(store.log, Account(), cancellation, entry, []);
      SpokenLater(store.log, underway, Spoken(), Spoken() + {held.value});
      OneMoreSpoken(underway, entry, Spoken() + {held.value});
      MoreTurns(speaks, turns);
      assert Spoken() + {held.value} == spoke + (spokeBeside + {held.value});
      assert |spokeBeside + {held.value}| <= |spokeBeside| + 1;
      turns, spokeBeside := turns + 1, spokeBeside + {held.value};
      underway, held := underway + [entry], None;
    }

    /** A write on its way reaches the store, or is given up. */
    method FinishOne()
      requires Valid() && underway != []
      modifies this, store
      ensures Valid() && Beside() && EndedByOthers()
    {
      hide TimesSpoken, Balanced, AnswersWithEnd, Replay, EventsOf, AllSpoken, BesideTo, EndedByOthersTo;
      var reached: bool := *;
      var outcome := Unavailable;
      LaterStays(Here());
      if reached { outcome := StoreUnderway(); }
      ghost var was := Here();
      LeaveUnderway(outcome.Done?);
      BesideOn(old(Here()), was, Here());
    }

    /** The first write on its way is over. */
    method LeaveUnderway(stored: bool)
      requires Valid() && underway != []
      requires stored ==> forall e :: e in underway[0].events ==> e in EventsOf(store.log)
      modifies this`underway, this`givenUp
      ensures Valid() && Beside() && EndedByOthers()
    {
      hide TimesSpoken, Balanced, AnswersWithEnd, Replay, EventsOf, AllSpoken;
      ghost var books := Account();
      FirstSpoken(underway, Spoken());
      if !stored { givenUp := givenUp + [underway[0]]; }
      Arrives(store.log, books, cancellation, givenUp);
      underway := underway[1..];
    }

    method StoreUnderway() returns (outcome: Outcome)
      requires Valid() && underway != []
      modifies store
      ensures Valid() && Beside() && EndedByOthers()
      ensures outcome.Done? ==> forall e :: e in underway[0].events ==> e in EventsOf(store.log)
    {
      hide TimesSpoken, Balanced, Replay, EventsOf, Effect, AnswersWithEnd, Traced;
      ghost var before, row, entry := store.log, store.row, underway[0];
      UnderwayIsTraced(store.log, Account(), cancellation);
      outcome := store.Commit(underway[0]);
      LogGrows(before);
      Grows(before, entry, Account(), cancellation);
      AnswersGrow(before, entry, Spoken());
      if outcome.Done? {
        StoredNoEnd(row, entry);
        assert store.log[|before|] == entry;
        forall e | e in entry.events { StoredIsThere(store.log, |before|, e); }
      }
    }

    // ----- the writes of the worker

    /** `storeWrite`: fenced, and it may fail without saying whether it was stored. */
    method StoreWrite(batch: RunWrite) returns (outcome: Outcome)
      requires Valid() && AnswerWithEnd(Stored(batch.message, batch.events), Spoken())
      requires AllTraced(store.log, given, cancellation, batch.events)
      modifies this, store
      ensures Valid() && Beside() && !outcome.Threw?
      ensures outcome.Done? ==>
          exists i :: |old(store.log)| <= i < |store.log| && store.log[i] == Stored(batch.message, batch.events)
      ensures outcome.Done? && EndsRun(batch.events) ==> Ended(store.row.status) && !old(store.row.gone)
      ensures outcome.LostLease? ==> stopCause == Some(LeaseWasLost)
      ensures !outcome.Done? ==>
          WriteFailed(fates, store.start, old(Here()), Here(), Stored(batch.message, batch.events))
    {
      hide TimesSpoken, Balanced, AnswersWithEnd, AnswerWithEnd, AllSpoken, BesideTo, GrewTo, KeptTo, Replay, Traced,
          Asked, LostCall, RefusedSince;
      Interfere();
      ghost var was := Here();
      BesideMeans(old(Here()), was);
      TracedLater(old(store.log), store.log, given, old(cancellation), cancellation, batch.events);
      AnswerLater(Stored(batch.message, batch.events), old(Spoken()), Spoken());
      var fate := NextFate();
      ghost var sent := Here();
      BesideOn(old(Here()), was, sent);
      if fate.NotSent? {
        CallLost(fates, old(Here()), was, sent);
        return Unavailable;
      }
      outcome := Send(batch);
      ghost var back := Here();
      BesideMeans(sent, back);
      BesideOn(old(Here()), sent, back);
      if fate.NotTold? {
        CallLost(fates, old(Here()), was, back);
        return Unavailable;
      }
      if !outcome.Done? {
        RefusedOn(store.start, store.log, store.log, |sent.log|, |old(store.log)|, Stored(batch.message, batch.events));
      }
      if outcome.LostLease? {
        Stop(LeaseWasLost);
        BesideOn(old(Here()), back, Here());
      }
    }

    /** The call reaches the store, and comes back later. */
    method Send(batch: RunWrite) returns (outcome: Outcome)
      requires Valid() && AnswerWithEnd(Stored(batch.message, batch.events), Spoken())
      requires AllTraced(store.log, given, cancellation, batch.events)
      modifies this, store
      ensures Valid() && Beside() && (outcome.Done? || outcome.Conflict? || outcome.LostLease?)
      ensures outcome.LostLease? ==> !store.row.leased
      ensures outcome.Done? ==>
          exists i :: |old(store.log)| <= i < |store.log| && store.log[i] == Stored(batch.message, batch.events)
      ensures outcome.Done? && EndsRun(batch.events) ==> Ended(store.row.status) && !old(store.row.gone)
      ensures !outcome.Done? ==>
          RefusedSince(store.start, store.log, |old(store.log)|, Stored(batch.message, batch.events))
    {
      hide TimesSpoken, Balanced, AnswersWithEnd, AnswerWithEnd, Refuses, AllSpoken, BesideTo, GrewTo, KeptTo,
          Replay, Traced, Asked;
      ghost var n := |store.log|;
      outcome := TryStore(batch);
      ghost var after := Here();
      Interfere();
      BesideMeans(after, Here());
      BesideOn(old(Here()), after, Here());
      LogGrows(after.log);
      if outcome.Done? { assert store.log[n] == after.log[n]; } else { assert store.log[..n] == after.log; }
    }

    /** One more call of the store. */
    method NextFate() returns (fate: Fate)
      requires Valid()
      modifies this`calls
      ensures Valid() && Beside() && fate == fates(old(calls)) && calls == old(calls) + 1
      ensures !fate.Answered? ==> LostCall(fates, old(calls), calls)
    {
      hide TimesSpoken, Balanced, AnswersWithEnd, Replay, AllSpoken;
      fate := fates(calls);
      calls := calls + 1;
      assert fate == fates(calls - 1);
    }

    method TryStore(batch: RunWrite) returns (outcome: Outcome)
      requires Valid() && AnswerWithEnd(Stored(batch.message, batch.events), Spoken())
      requires AllTraced(store.log, given, cancellation, batch.events)
      modifies store
      ensures Valid() && Beside() && (outcome.Done? || outcome.Conflict? || outcome.LostLease?)
      ensures outcome.LostLease? ==> !store.row.leased
      ensures outcome.Done? ==> store.log == old(store.log) + [Stored(batch.message, batch.events)]
      ensures outcome.Done? && EndsRun(batch.events) ==> Ended(store.row.status) && !old(store.row.gone)
      ensures !outcome.Done? ==>
          store.log == old(store.log) && Refuses(store.start, store.log, Stored(batch.message, batch.events))
    {
      hide TimesSpoken, Balanced, AllSpoken, Replay, Effect, AnswersWithEnd, Traced, AnswerWithEnd;
      ghost var before := store.log;
      outcome := store.Commit(Stored(batch.message, batch.events));
      LogGrows(before);
      Grows(before, Stored(batch.message, batch.events), Account(), cancellation);
      AnswersGrow(before, Stored(batch.message, batch.events), Spoken());
      if outcome.Done? && EndsRun(batch.events) { EndIsStored(store.start, store.log); }
    }

    /** `getAgentRun`: the row as it is at some time during the call, or none where it is gone. */
    method ReadRow() returns (outcome: Outcome, latest: Option<Row>)
      requires Valid()
      modifies this, store
      ensures Valid() && Beside() && (outcome.Done? || outcome.Unavailable?)
      ensures outcome.Unavailable? ==> LostCall(fates, old(calls), calls)
      ensures outcome.Done? && latest.None? ==> store.row.gone
      ensures latest.Some? ==> outcome.Done? && !old(store.row.gone)
      ensures latest.Some? && Ended(latest.value.status) ==> Ended(store.row.status) && EndedByOthers()
      ensures latest.Some? && latest.value.status.Cancelling? ==> Asked(store.log, latest.value.reason)
      ensures latest.Some? ==> RowWas(store.start, store.log, |old(store.log)|, latest.value)
      ensures latest.Some? && old(Ended(store.row.status)) ==> Ended(latest.value.status)
      ensures latest.Some? && old(store.row.status.Cancelling?) ==>
          latest.value.status.Cancelling? || Ended(latest.value.status)
    {
      hide TimesSpoken, Balanced, AnswersWithEnd, AllSpoken, BesideTo, GrewTo, KeptTo, LaterTo, Replay;
      Interfere();
      ghost var was := Here();
      var fate := NextFate();
      ghost var sent := Here();
      BesideOn(old(Here()), was, sent);
      BesideMeans(old(Here()), was);
      if !fate.Answered? { return Unavailable, None; }
      var row := store.row;
      LogGrows(old(store.log));
      if old(store.row.status.Cancelling?) { StaysAsked(store.start, old(store.log), store.log); }
      RequestIsKnown();
      Interfere();
      BesideMeans(sent, Here());
      BesideOn(old(Here()), sent, Here());
      LogGrows(sent.log);
      RowStaysRead(store.start, sent.log, store.log, |old(store.log)|, row);
      if row.status.Cancelling? { AskedLater(sent.log, store.log, row.reason); }
      return Done, if row.gone then None else Some(row);
    }

    /** `write`: where the run was asked to cancel meanwhile, it ends as cancelled. */
    method Write(batch: RunWrite) returns (outcome: Outcome)
      requires Valid() && AnswerWithEnd(Stored(batch.message, batch.events), Spoken()) && inHand == batch.events
      modifies this, store
      ensures Valid() && Later() && !outcome.Threw? && inHand == [] && given == old(given)
      ensures talking == old(talking) && (talking && old(held).None? ==> held.None?)
      ensures outcome.Done? || FlushOrMessage(Stored(batch.message, batch.events), Spoken()) ==>
          OnlyFlushes(old(givenUp), givenUp, Spoken())
      ensures outcome.Done? ==> StoredSince(store.log, |old(store.log)|, batch, cancellation)
      ensures outcome.Done? && EndsRun(batch.events) ==> terminalWritten
      ensures outcome.LostLease? ==> stopCause == Some(LeaseWasLost)
      ensures !outcome.Done? ==>
          |old(givenUp)| < |givenUp| && givenUp[|givenUp| - 1] == Stored(batch.message, batch.events)
          && WriteFailed(fates, store.start, old(Here()), Here(), Stored(batch.message, batch.events))
      ensures !outcome.Done? && !outcome.LostLease? && EndsOtherwise(batch.events) ==>
          TriedCancelled(fates, store.start, old(Here()), Here(), batch)
    {
      hide TimesSpoken, Balanced, AnswersWithEnd, AnswerWithEnd, StoredSince, RefusedSince, LostCall, AllSpoken,
          Replay, GrewTo, BesideTo, LaterTo, FlushOrMessage, WriteFailed, RefusedUnasked, AsCancelled;
      outcome := TryWrite(batch);
      ghost var was := Here();
      BesideMeans(old(Here()), was);
      if outcome.Done? { Settle(batch, |old(store.log)|); } else { GiveUp(batch); }
      SettledOn(old(Here()), was, Here());
      if !outcome.Done? {
        WriteFailedOn(fates, store.start, old(Here()), was, Here(), Stored(batch.message, batch.events));
      }
    }

    /** What is in hand was stored. */
    method Settle(batch: RunWrite, ghost n: nat)
      requires Valid() && inHand == batch.events && StoredSince(store.log, n, batch, cancellation)
      requires EndsRun(batch.events) ==> Ended(store.row.status)
      modifies this`inHand, this`terminalWritten
      ensures Valid() && Same() && inHand == []
      ensures terminalWritten == (old(terminalWritten) || EndsRun(batch.events))
    {
      hide TimesSpoken, Balanced, AnswersWithEnd, StoredSince, AllSpoken, Replay;
      BatchIsStored(store.log, Account(), n, batch, cancellation);
      inHand := [];
      if EndsRun(batch.events) { terminalWritten := true; }
    }

    /** What is in hand was in a write that failed. */
    ghost method GiveUp(batch: RunWrite)
      requires Valid() && inHand == batch.events
      modifies this`inHand, this`givenUp
      ensures Valid() && Same() && inHand == []
      ensures givenUp == old(givenUp) + [Stored(batch.message, batch.events)]
    {
      hide TimesSpoken, Balanced, AnswersWithEnd, AllSpoken, Replay;
      var entry := Stored(batch.message, batch.events);
      HandIsGivenUp(store.log, Account(), cancellation, entry);
      inHand, givenUp := [], givenUp + [entry];
    }

    /** The store call of `write`, and the second one where the first is refused. */
    method TryWrite(batch: RunWrite) returns (outcome: Outcome)
      requires Valid() && AnswerWithEnd(Stored(batch.message, batch.events), Spoken()) && inHand == batch.events
      modifies this, store
      ensures Valid() && Beside() && !outcome.Threw?
      ensures outcome.Done? ==> StoredSince(store.log, |old(store.log)|, batch, cancellation)
      ensures outcome.Done? && EndsRun(batch.events) ==> Ended(store.row.status) && !old(store.row.gone)
      ensures outcome.LostLease? ==> stopCause == Some(LeaseWasLost)
      ensures !outcome.Done? ==>
          WriteFailed(fates, store.start, old(Here()), Here(), Stored(batch.message, batch.events))
      ensures !outcome.Done? && !outcome.LostLease? && EndsOtherwise(batch.events) ==>
          TriedCancelled(fates, store.start, old(Here()), Here(), batch)
    {
      hide TimesSpoken, Balanced, AnswersWithEnd, AnswerWithEnd, RefusedSince, LostCall, AllSpoken, BesideTo,
          WriteFailed, TriedCancelled, RefusedAsCancelled, FoundNotAsked;
      HandIsTraced(store.log, Account(), cancellation);
      outcome := StoreWrite(batch);
      if outcome.Done? {
        ghost var i :| |old(store.log)| <= i < |store.log| && store.log[i] == Stored(batch.message, batch.events);
        assert StoredAt(store.log, i, batch, cancellation);
        return;
      }
      if batch.events == [] { return; }
      var last := batch.events[|batch.events| - 1];
      if !last.kind.RunCompleted? && !last.kind.RunFailed? { return; }
      if outcome.LostLease? { return; }
      ghost var was := Here();
      BesideMeans(old(Here()), was);
      outcome := WriteCancelled(batch, outcome);
      BesideMeans(was, Here());
      BesideOn(old(Here()), was, Here());
      if !outcome.Done? && !outcome.LostLease? { TriedOn(fates, store.start, old(Here()), was, Here(), batch); }
      WriteFailedOn(fates, store.start, old(Here()), was, Here(), Stored(batch.message, batch.events));
    }

    /** The second half of `write`, after the store refused to end the run as completed or failed. */
    method WriteCancelled(batch: RunWrite, refusal: Outcome) returns (outcome: Outcome)
      requires Valid() && EndsRun(batch.events) && inHand == batch.events
      requires refusal.Conflict? || refusal.Unavailable?
      modifies this, store
      ensures Valid() && Beside() && !outcome.Threw?
      ensures outcome.Done? ==> StoredSince(store.log, |old(store.log)|, batch, cancellation)
      ensures outcome.Done? ==> Ended(store.row.status) && !old(store.row.gone)
      ensures outcome.LostLease? ==> stopCause == Some(LeaseWasLost)
      ensures !outcome.Done? && !outcome.LostLease? ==>
          || LostCall(fates, old(calls), calls)
          || FoundNotAsked(store.start, store.log, |old(store.log)|)
          || RefusedAsCancelled(store.start, old(Here()), Here(), batch)
    {
      hide TimesSpoken, Balanced, AnswersWithEnd, AnswerWithEnd, StoredSince, Replay, RefusedSince, LostCall,
          AllSpoken, BesideTo, FoundNotAsked, WriteFailed;
      var read, latest := ReadRow();
      if !read.Done? { return read; }
      if latest.None? || latest.value.status != Cancelling {
        BesideMeans(old(Here()), Here());
        RowFoundUnasked(|old(store.log)|, latest);
        return refusal;
      }
      ghost var was := Here();
      Learn(latest.value.reason);
      ghost var asked := Here();
      BesideOn(old(Here()), was, asked);
      BesideMeans(old(Here()), asked);
      HandIsTraced(store.log, Account(), cancellation);
      CancelledAnswers(batch, Spoken());
      outcome := StoreWrite(batch.(events := AsCancelled(batch.events, cancellation.value)));
      BesideMeans(asked, Here());
      BesideOn(old(Here()), asked, Here());
      if outcome.Done? {
        CancelledIsStored(asked.log, store.log, |old(store.log)|, batch, asked.cancellation.value);
      } else {
        RefusedSoFar(batch, old(Here()), asked);
      }
    }

    lemma RowFoundUnasked(n: nat, latest: Option<Row>)
      requires Valid() && n <= |store.log|
      requires if latest.None? then store.row.gone
               else !latest.value.status.Cancelling? && RowWas(store.start, store.log, n, latest.value)
      ensures FoundNotAsked(store.start, store.log, n)
    {
      hide Replay;
      if latest.None? {
        assert store.log[..|store.log|] == store.log;
        assert NotAsked(store.start, store.log[..|store.log|]);
      } else {
        var k :| n <= k <= |store.log| && Replay(store.start, store.log[..k]) == Some(latest.value);
        assert NotAsked(store.start, store.log[..k]);
      }
    }

    lemma RefusedSoFar(batch: RunWrite, a: Moment, b: Moment)
      requires EndsRun(batch.events) && cancellation.Some? && a.calls <= b.calls && a.log <= b.log
      requires WriteFailed(fates, store.start, b, Here(),
          Stored(batch.message, AsCancelled(batch.events, cancellation.value)))
      ensures LostCall(fates, a.calls, calls) || RefusedAsCancelled(store.start, a, Here(), batch)
    {
      hide Refuses, AsCancelled;
    }

    /** `flushHeldEnd`, for a write to the conversation that found what is held. */
    method FlushHeldEnd() returns (outcome: Outcome)
      requires Valid() && inHand == [] && talking && (held.Some? ==> held.value in spoke)
      modifies this, store
      ensures Valid() && Later() && KeptTo(old(Here()), Here()) && talking && !outcome.Threw? && held.None?
      ensures old(held).None? ==> outcome.Done? && store.log == old(store.log)
      ensures old(held).Some? && outcome.Done? ==>
          StoredSince(store.log, |old(store.log)|, old(held).value, cancellation)
      ensures outcome.LostLease? ==> stopCause == Some(LeaseWasLost)
      ensures !outcome.Done? ==> old(held).Some? && FailedAt(old(Here()), StoredAs(old(held).value))
    {
      hide TimesSpoken, Balanced, AnswersWithEnd, AllSpoken, LostCall, RefusedSince;
      var batch := held;
      if batch.None? { return Done; }
      assert batch.value.events + [] == batch.value.events;
      TakeHeld();
      ghost var was := Here();
      outcome := Write(batch.value);
      GrewOn(old(Here()), was, Here());
      if !outcome.Done? { WriteFailedFrom(fates, store.start, old(Here()), was, Here(), StoredAs(batch.value)); }
    }

    function StoredAs(batch: RunWrite): Entry { Stored(batch.message, batch.events) }

    /** Since then a call was not answered, or the store refused just this write. */
    ghost predicate FailedAt(since: Moment, entry: Entry)
      reads this, store
    {
      WriteFailed(fates, store.start, since, Here(), entry)
    }

    /** What is held is taken in hand, before what is there. */
    method TakeHeld()
      requires Valid() && held.Some?
      modifies this`held, this`inHand
      ensures Valid() && Later() && held.None? && inHand == old(held).value.events + old(inHand)
    {
      hide TimesSpoken, Balanced, AnswersWithEnd, AllSpoken, Replay;
      TakesHeld(store.log, Account(), cancellation);
      inHand := held.value.events + inHand;
      held := None;
    }

    /** The event in hand is held from now on. */
    method Hold(event: Event)
      requires Valid() && held.Some? && |held.value.events| < HELD_END_MAX_EVENTS
      requires inHand == [event] && !Terminal(event)
      modifies this`held, this`inHand
      ensures Valid() && Later() && inHand == [] && held == Some(WithEvent(old(held).value, event))
    {
      assert Unended(given, inHand) by { InHandWasGiven(); }
      hide TimesSpoken, Balanced, AnswersWithEnd, AllSpoken, Replay;
      Holds(store.log, Account(), cancellation);
      held, inHand := Some(WithEvent(held.value, event)), [];
    }

    lemma InHandWasGiven()
      requires Valid()
      ensures forall e :: e in inHand ==> e in given
    {
    }

    /** The event in hand is stored by itself. */
    method AppendAlone(event: Event) returns (outcome: Outcome)
      requires Valid() && inHand == [event] && held.None?
      modifies this, store
      ensures Valid() && Later() && !outcome.Threw? && inHand == [] && given == old(given)
      ensures outcome.Done? ==> OnlyFlushes(old(givenUp), givenUp, Spoken())
      ensures outcome.Done? ==> StoredSince(store.log, |old(store.log)|, RunWrite(None, [event]), cancellation)
      ensures Terminal(event) && outcome.Done? ==> EndedWith(event)
      ensures outcome.LostLease? ==> stopCause == Some(LeaseWasLost)
      ensures !outcome.Done? ==>
                |old(givenUp)| < |givenUp| && givenUp[|givenUp| - 1] == WriteOf(None, event)
                && WriteFailed(fates, store.start, old(Here()), Here(), WriteOf(None, event))
    {
      hide TimesSpoken, Balanced, AnswersWithEnd, StoredSince, EndedBy, Replay, WriteFailed, AllSpoken, LaterTo,
          OnlyFlushes, Asked;
      outcome := Write(RunWrite(None, [event]));
      if outcome.Done? && Terminal(event) {
        StoredEnds(store.log, |old(store.log)|, RunWrite(None, [event]), cancellation);
      }
    }

    /** The event in hand is stored with all that is held, which it ends or makes too much. */
    method AppendHeld(event: Event) returns (outcome: Outcome)
      requires Valid() && inHand == [event] && held.Some?
      requires Terminal(event) || |held.value.events| == HELD_END_MAX_EVENTS
      modifies this, store
      ensures Valid() && Later() && !outcome.Threw? && inHand == [] && given == old(given)
      ensures outcome.Done? ==> OnlyFlushes(old(givenUp), givenUp, Spoken())
      ensures outcome.Done? ==>
          StoredSince(store.log, |old(store.log)|, WithEvent(old(held).value, event), cancellation)
      ensures Terminal(event) && outcome.Done? ==> EndedWith(event)
      ensures outcome.LostLease? ==> stopCause == Some(LeaseWasLost)
      ensures !outcome.Done? ==>
                |old(givenUp)| < |givenUp| && givenUp[|givenUp| - 1] == WriteOf(old(held), event)
                && WriteFailed(fates, store.start, old(Here()), Here(), WriteOf(old(held), event))
    {
      hide TimesSpoken, Balanced, AnswersWithEnd, StoredSince, EndedBy, Replay, WriteFailed, AllSpoken, LaterTo,
          OnlyFlushes, Asked;
      var batch := WithEvent(held.value, event);
      TakeHeld();
      ghost var taken := Here();
      outcome := Write(batch);
      LaterOn(old(Here()), taken, Here());
      if outcome.Done? && Terminal(event) { StoredEnds(store.log, |old(store.log)|, batch, cancellation); }
      if !outcome.Done? { WriteFailedFrom(fates, store.start, old(Here()), taken, Here(), WriteOf(old(held), event)); }
    }

    /** The run was ended with this event, or as cancelled in its place. */
    twostate predicate EndedWith(event: Event)
      reads this, store
    {
      && terminalWritten
      && (|| EndedBy(store.log, |old(store.log)|, event.kind)
          || (cancellation.Some? && EndedBy(store.log, |old(store.log)|, RunCancelled(cancellation.value))))
    }

    /** `append`: holds an event back while an answer is held, and stores all of it with the event that ends the run. */
    method Append(event: Event) returns (outcome: Outcome)
      requires Valid() && inHand == []
      modifies this, store
      ensures Valid() && Later() && !outcome.Threw? && inHand == [] && given == old(given) + [event]
      ensures outcome.Done? ==> OnlyFlushes(old(givenUp), givenUp, Spoken())
      ensures old(held).None? && outcome.Done? ==>
          StoredSince(store.log, |old(store.log)|, RunWrite(None, [event]), cancellation)
      ensures old(held).Some? && outcome.Done?
              && (Terminal(event) || |old(held).value.events| == HELD_END_MAX_EVENTS) ==>
                StoredSince(store.log, |old(store.log)|, WithEvent(old(held).value, event), cancellation)
      ensures old(held).Some? && !Terminal(event) && |old(held).value.events| < HELD_END_MAX_EVENTS ==>
                outcome.Done? && store.log == old(store.log) && held == Some(WithEvent(old(held).value, event))
      ensures Terminal(event) && outcome.Done? ==> EndedWith(event)
      ensures outcome.LostLease? ==> stopCause == Some(LeaseWasLost)
      ensures !outcome.Done? ==>
                |old(givenUp)| < |givenUp| && givenUp[|givenUp| - 1] == WriteOf(old(held), event)
                && WriteFailed(fates, store.start, old(Here()), Here(), WriteOf(old(held), event))
    {
      hide TimesSpoken, Balanced, AnswersWithEnd, StoredSince, EndedBy, Replay, WriteFailed, AllSpoken, LaterTo,
          OnlyFlushes, GrewTo, FlushOrMessage, Asked;
      Give(event);
      ghost var taken := Here();
      if held.None? {
        outcome := AppendAlone(event);
      } else if !Terminal(event) && |held.value.events| < HELD_END_MAX_EVENTS {
        Hold(event);
        NothingFlushed(givenUp, Spoken());
        outcome := Done;
      } else {
        outcome := AppendHeld(event);
      }
      LaterOn(old(Here()), taken, Here());
      if !outcome.Done? { WriteFailedFrom(fates, store.start, old(Here()), taken, Here(), WriteOf(old(held), event)); }
    }

    /** An event is given, and is in hand alone. */
    ghost method Give(event: Event)
      requires Valid() && inHand == []
      modifies this`given, this`inHand
      ensures Valid() && Later() && given == old(given) + [event] && inHand == [event]
    {
      hide TimesSpoken, Balanced, AnswersWithEnd, AllSpoken, Replay;
      Gives(store.log, Account(), cancellation, event);
      given, inHand := given + [event], [event];
    }

    /**
     `closingEvent`: a request to cancel comes before the cause the worker was stopped for, and both
     before the failure.
     */
    function ClosingEvent(sequence: int, failure: string): Event
      reads this
    {
      Event(sequence,
            if cancellation.Some? then RunCancelled(cancellation.value)
            else if stopCause == Some(WorkerStopping) then RunFailed(INTERRUPTED_ERROR)
            else if stopCause == Some(Idle) then RunFailed(IDLE_ERROR)
            else RunFailed(failure))
    }

    method AppendClosing(sequence: int, failure: string) returns (outcome: Outcome)
      requires Valid() && inHand == []
      modifies this, store
      ensures Valid() && Later() && !outcome.Threw? && inHand == [] && OwnEndsTo(failure, old(Here()), Here())
      ensures outcome.Done? ==> terminalWritten && ClosedTo(failure, old(Here()), Here())
      ensures |given| == |old(given)| + 1 && given[|old(given)|].sequence == sequence
      ensures old(held).Some? ==>
          if outcome.Done? then StoredWithEnd(store.log, |old(store.log)|, old(held).value, cancellation)
          else DroppedWithEnd(givenUp, |old(givenUp)|, old(held).value)
      ensures outcome.LostLease? ==> stopCause == Some(LeaseWasLost)
      ensures !outcome.Done? ==> Failed(old(Here()))
    {
      hide TimesSpoken, Balanced, AnswersWithEnd, StoredSince, Replay, RefusedSince, LostCall, AllSpoken,
          OnlyFlushes, LaterTo;
      var event := ClosingEvent(sequence, failure);
      outcome := Append(event);
      LaterMeans(old(Here()), Here());
      if outcome.Done? {
        ghost var kind := if EndedBy(store.log, |old(store.log)|, event.kind) then event.kind
            else RunCancelled(cancellation.value);
        assert EndedBy(store.log, |old(store.log)|, kind);
        assert RightEnd(kind, failure, old(cancellation), old(stopCause), cancellation, stopCause);
      } else if old(held).Some? {
        assert IsEnding(givenUp[|givenUp| - 1], old(held).value);
      }
    }

    /**
     `closeRun`: ends the run, with what is held or else without it, unless it finds nothing to end.
     What is held is never stored apart from the event that ends the run.
     */
    method CloseRun(failure: string) returns (outcome: Outcome)
      requires Valid() && inHand == []
      modifies this, store
      ensures Valid() && Later() && !outcome.Threw? && inHand == [] && OwnEndsTo(failure, old(Here()), Here())
      ensures outcome.Done? ==>
          FoundClosedTo(old(Here()), Here()) || (terminalWritten && ClosedTo(failure, old(Here()), Here()))
      ensures old(held).Some? ==>
          given == old(given) || old(held).value in Spoken() || HeldEndsTo(old(held).value, old(Here()), Here())
      ensures given == old(given) || NumberedByRow(old(Here()))
      ensures old(store.row.status.Cancelling?) ==> CancelsTo(old(Here()), Here())
      ensures old(Ended(store.row.status)) || old(store.row.gone) ==>
          given == old(given) && (outcome.Unavailable? || (outcome.Done? && (store.row.gone || terminalWritten)))
      ensures outcome.LostLease? ==> stopCause == Some(LeaseWasLost)
      ensures !outcome.Done? ==> Failed(old(Here()))
      ensures closedWith == Some(failure)
    {
      hide Valid, LaterTo, OwnEndsTo, FoundClosedTo, ClosedTo, HeldEndsTo, RowWas, NumbersTo, CancelsTo, FailedTo;
      outcome := FindAndClose(failure);
      MarkClosed(failure);
    }

    ghost method MarkClosed(failure: string)
      requires Valid()
      modifies this`closedWith
      ensures Valid() && Here() == old(Here()) && closedWith == Some(failure)
    {
      hide TimesSpoken, Balanced, AnswersWithEnd, AllSpoken, Replay;
      closedWith := Some(failure);
    }

    /** The row is read, and the run closed if it is open. */
    method FindAndClose(failure: string) returns (outcome: Outcome)
      requires Valid() && inHand == []
      modifies this, store
      ensures Valid() && Later() && !outcome.Threw? && inHand == [] && OwnEndsTo(failure, old(Here()), Here())
      ensures outcome.Done? ==>
          FoundClosedTo(old(Here()), Here()) || (terminalWritten && ClosedTo(failure, old(Here()), Here()))
      ensures old(held).Some? ==>
          given == old(given) || old(held).value in Spoken() || HeldEndsTo(old(held).value, old(Here()), Here())
      ensures given == old(given) || NumberedByRow(old(Here()))
      ensures old(store.row.status.Cancelling?) ==> CancelsTo(old(Here()), Here())
      ensures old(Ended(store.row.status)) || old(store.row.gone) ==>
          given == old(given) && (outcome.Unavailable? || (outcome.Done? && (store.row.gone || terminalWritten)))
      ensures outcome.LostLease? ==> stopCause == Some(LeaseWasLost)
      ensures !outcome.Done? ==> Failed(old(Here()))
    {
      hide TimesSpoken, Balanced, AnswersWithEnd, Replay, RefusedSince, LostCall, AllSpoken, OnlyFlushes, LaterTo,
          BesideTo, EndedByOthersTo, HeldEndsTo, ClosedTo, GrewTo, KeptTo, OwnEndsTo, FailedTo, Asked, NumbersTo,
          RowWas, Found;
      var read, latest := ReadRow();
      ghost var was := Here();
      BesideMeans(old(Here()), was);
      NoOwnEnds(failure, old(Here()), was);
      if !read.Done? {
        CallFailed(fates, store.start, old(Here()), was);
        return read;
      }
      if latest.None? { return Done; }
      if Ended(latest.value.status) {
        FindEnded();
        SettledOn(old(Here()), was, Here());
        SameEnd(old(Here()), was, Here());
        NoOwnEnds(failure, old(Here()), Here());
        return Done;
      }
      outcome := CloseFound(latest.value, failure);
      LaterMeans(was, Here());
      if latest.value.status.Cancelling? { assert CancelsTo(was, Here()) && was.given == old(given); }
      NumbersOn(latest.value.lastSequence, old(Here()), was, Here());
      RowStaysRead(store.start, was.log, store.log, |old(store.log)|, latest.value);
      LaterOn(old(Here()), was, Here());
      OwnEndsOn(failure, old(Here()), was, Here());
      if outcome.Done? { ClosedOn(failure, old(Here()), was, Here()); } else { LaterFailed(old(Here()), was); }
      if old(held).Some? { HeldThenEnds(old(Here()), was, Here()); }
    }

    /** Ends that were given are numbered by the row as it was some time since `a`. */
    ghost predicate NumberedByRow(a: Moment)
      reads this, store
    {
      exists row :: RowWas(store.start, store.log, |a.log|, row) && NumbersTo(row.lastSequence, a, Here())
    }

    /** The run was found open, or asked to cancel. */
    method CloseFound(latest: Row, failure: string) returns (outcome: Outcome)
      requires Valid() && inHand == [] && (latest.status.Cancelling? ==> Asked(store.log, latest.reason))
      modifies this, store
      ensures Valid() && Later() && !outcome.Threw? && inHand == [] && OwnEndsTo(failure, old(Here()), Here())
      ensures outcome.Done? ==> terminalWritten && ClosedTo(failure, old(Here()), Here())
      ensures old(held).Some? ==> HeldEndsTo(old(held).value, old(Here()), Here())
      ensures NumbersTo(latest.lastSequence, old(Here()), Here())
      ensures latest.status.Cancelling? ==> CancelsTo(old(Here()), Here())
      ensures outcome.LostLease? ==> stopCause == Some(LeaseWasLost)
      ensures !outcome.Done? ==> Failed(old(Here()))
    {
      hide TimesSpoken, Balanced, AnswersWithEnd, Replay, RefusedSince, LostCall, AllSpoken, OnlyFlushes, LaterTo,
          BesideTo, HeldEndsTo, ClosedTo, GrewTo, KeptTo, OwnEndsTo, FailedTo, EndedByOthersTo, NumbersTo, CancelsTo;
      LaterStays(Here());
      if latest.status.Cancelling? { Learn(latest.reason); }
      ghost var open := Here();
      BesideMeans(old(Here()), open);
      NoOwnEnds(failure, old(Here()), open);
      outcome := CloseOpen(latest.lastSequence, failure);
      if latest.status.Cancelling? { KnownIsTold(failure, old(Here()), open, Here()); }
      LaterMeans(open, Here());
      LaterOn(old(Here()), open, Here());
      OwnEndsOn(failure, old(Here()), open, Here());
      NumbersOn(latest.lastSequence, old(Here()), open, Here());
      if outcome.Done? { ClosedOn(failure, old(Here()), open, Here()); } else { LaterFailed(old(Here()), open); }
      if old(held).Some? { HeldEndsOn(old(held).value, old(Here()), open, Here()); }
    }

    /** Someone else ended the run: nothing is left to store. */
    method FindEnded()
      requires Valid() && Ended(store.row.status)
      modifies this`terminalWritten
      ensures Valid() && Same() && terminalWritten
    {
      hide TimesSpoken, Balanced, AnswersWithEnd, AllSpoken, Replay;
      terminalWritten := true;
    }

    /** The run is open, and `lastSequence` was its last number when it was read. */
    method CloseOpen(lastSequence: nat, failure: string) returns (outcome: Outcome)
      requires Valid() && inHand == []
      modifies this, store
      ensures Valid() && Later() && !outcome.Threw? && inHand == [] && OwnEndsTo(failure, old(Here()), Here())
      ensures outcome.Done? ==> terminalWritten && ClosedTo(failure, old(Here()), Here())
      ensures old(held).Some? ==> HeldEndsTo(old(held).value, old(Here()), Here())
      ensures NumbersTo(lastSequence, old(Here()), Here())
      ensures |given| > |old(given)| && given[|old(given)|].sequence == NumberBehind(old(held), lastSequence)
      ensures old(held).Some? && !outcome.Done? && !outcome.LostLease? ==> |given| == |old(given)| + 2
      ensures outcome.LostLease? ==> stopCause == Some(LeaseWasLost)
      ensures !outcome.Done? ==> Failed(old(Here()))
    {
      hide TimesSpoken, Balanced, AnswersWithEnd, Replay, RefusedSince, LostCall, AllSpoken, OnlyFlushes, LaterTo,
          StoredWithEnd, DroppedWithEnd, ClosedTo, OwnEndsTo;
      if held.None? { outcome := AppendClosing(lastSequence + 1, failure); return; }
      var events := held.value.events;
      var lastHeld := if events == [] then lastSequence else events[|events| - 1].sequence;
      outcome := AppendClosing(lastHeld + 1, failure);
      ghost var first := Here();
      LaterMeans(old(Here()), first);
      if outcome.Done? || outcome.LostLease? { return; }
      outcome := AppendClosing(lastSequence + 1, failure);
      LaterMeans(first, Here());
      LaterOn(old(Here()), first, Here());
      OwnEndsOn(failure, old(Here()), first, Here());
      DroppedOn(old(held).value, old(Here()), first, Here());
      if outcome.Done? {
        ClosedOn(failure, old(Here()), first, Here());
      } else {
        FailedOn(fates, store.start, old(Here()), first, Here(), Here());
      }
    }

    /** What the worker appends for an event of the execution. */
    function Appended(event: Event): Event
      reads this
    {
      if event.kind.RunFailed? && (cancellation.Some? || stopCause.Some?)
          then ClosingEvent(event.sequence, event.kind.error)
      else if event.kind.PermissionRequested? then Event(event.sequence, RunFailed(PERMISSION_UNSUPPORTED_ERROR))
      else event
    }

    /**
     Every event that was given is stored, held, on its way or in a write that was given up, or the
     run ended as cancelled instead.
     */
    ghost predicate NothingMissing()
      reads this, store
    {
      forall e :: e in given ==> Accounted(store.log, Account(), e)
    }

    lemma AllAccounted()
      requires Valid()
      ensures NothingMissing()
    {
    }

    /**
     The loop over the events of the execution, which are left the moment the run is stopped. It
     gives them to `Append` one after the other, and all of them unless the run is stopped or
     ended or a write fails; it throws what the source throws, behind all of its events. Of what was
     given nothing is missing but what a flush of the conversation gave up. `k` events were given.
     */
    method ConsumeEvents(source: Source) returns (outcome: Outcome, ghost k: nat)
      requires Valid() && inHand == [] && !over
      modifies this, store
      ensures Valid() && Later() && inHand == []
      ensures k <= |source.events| && GaveTo(source.events, k, {}, old(Here()), Here())
      ensures LeavesTo(k, old(Here()), Here())
      ensures |given| == |old(given)| + k
          || (|given| == |old(given)| + k + 1 && given[|old(given)| + k].sequence == LastNumber(source.events, k) + 1)
      ensures outcome.LostLease? ==> stopCause == Some(LeaseWasLost)
      ensures outcome.Threw? ==> source.throws && k == |source.events|
      ensures outcome.Done? ==>
          || terminalWritten || stopCause == Some(LeaseWasLost)
          || (!source.throws && k == |source.events|)
      ensures !outcome.Done? && !outcome.Threw? ==> Failed(old(Here()))
      ensures outcome.Done? ==> OnlyFlushes(old(givenUp), givenUp, Spoken())
      ensures NothingMissing()
    {
      hide TimesSpoken, Balanced, AnswersWithEnd, Replay, Accounted, RefusedSince, LostCall, AllSpoken, OnlyFlushes,
          LaterTo, GaveTo, BesideTo, FailedTo, GrewTo, KeptTo, Asked, LeavesTo, Valid, NothingMissing;
      GaveNothing(source.events, {}, old(Here()), Here());
      LeavesNone(old(Here()));
      NothingFlushed(givenUp, Spoken());
      LaterStays(Here());
      var i, lastSequence := 0, 0;
      outcome, k := Done, 0;
      while true
        invariant Valid() && Later() && inHand == [] && !over && 0 <= i <= |source.events| && outcome.Done? && k == i
        invariant OnlyFlushes(old(givenUp), givenUp, Spoken()) && |given| == |old(given)| + i
        invariant GaveTo(source.events, i, {}, old(Here()), Here())
        invariant LeavesTo(i, old(Here()), Here()) && lastSequence == LastNumber(source.events, i)
        decreases |source.events| - i
      {
        ghost var asked := Here();
        var stopped := AwaitNext(source.events, i, old(Here()));
        LaterMeans(old(Here()), Here());
        LaterMeans(asked, Here());
        LaterMeans(old(Here()), asked);
        LaterStays(old(Here()));
        LeavesOn(i, old(Here()), old(Here()), asked, Here());
        if !stopped && i == |source.events| {
          if source.throws { outcome := Threw; }
          break;
        }
        var event := if stopped then Event(lastSequence + 1, RunFailed(ABORTED_ERROR)) else source.events[i];
        if stopCause == Some(LeaseWasLost) { break; }
        ghost var was := Here();
        outcome := PassOn(event, stopped, source.events, i, old(Here()));
        LaterOn(old(Here()), was, Here());
        LaterMeans(old(Here()), Here());
        LaterMeans(was, Here());
        if stopped {
          LeavesOn(i, old(Here()), old(Here()), was, Here());
        } else {
          GrewOn(asked, was, Here());
          LeavesOneMore(i, old(Here()), asked, Here());
        }
        if !outcome.Done? { LaterFailed(old(Here()), was); }
        if !stopped { k := i + 1; }
        if !outcome.Done? || terminalWritten || stopped { break; }
        lastSequence, i := event.sequence, i + 1;
      }
      AllAccounted();
    }

    /** The number of the `k`-th event of the execution. */
    static function LastNumber(events: seq<Event>, k: nat): int
      requires k <= |events|
    {
      if k == 0 then 0 else events[k - 1].sequence
    }

    lemma LaterFailed(a: Moment, b: Moment)
      requires LaterTo(a, b) && LaterTo(b, Here()) && Failed(b)
      ensures Failed(a)
    {
      LaterMeans(a, b);
      LaterMeans(b, Here());
      FailedOn(fates, store.start, a, b, Here(), Here());
    }

    /** `nextEventOrAbort`: the next event of the source, or its end, unless the stop of the run comes first. */
    method AwaitNext(source: seq<Event>, ghost i: nat, ghost first: Moment) returns (stopped: bool)
      requires Valid() && inHand == [] && i <= |source| && |given| == |first.given| + i
      requires LaterTo(first, Here()) && GaveTo(source, i, {}, first, Here())
          && OnlyFlushes(first.givenUp, givenUp, Spoken())
      modifies this, store
      ensures Valid() && inHand == [] && |given| == |first.given| + i && (stopped ==> aborted)
      ensures LaterTo(old(Here()), Here()) && (old(aborted) ==> stopped)
      ensures LaterTo(first, Here()) && GaveTo(source, i, {}, first, Here())
          && OnlyFlushes(first.givenUp, givenUp, Spoken())
    {
      hide TimesSpoken, Balanced, AnswersWithEnd, Replay, AllSpoken, OnlyFlushes, LaterTo, GaveTo, BesideTo;
      stopped := aborted;
      if stopped {
        LaterStays(Here());
        return;
      }
      Interfere();
      BesideMeans(old(Here()), Here());
      LaterMeans(old(Here()), Here());
      LaterOn(first, old(Here()), Here());
      FlushesLater(first.givenUp, old(givenUp), givenUp, old(Spoken()), Spoken());
      GaveBetween(source, i, {}, {}, first, first, old(Here()), Here());
      var abortFirst: bool := *;
      stopped := aborted && abortFirst;
    }

    /** One event of the loop, the `i`-th of the source or the one of a stop. */
    method PassOn(event: Event, own: bool, source: seq<Event>, ghost i: nat, ghost first: Moment)
      returns (outcome: Outcome)
      requires Valid() && inHand == [] && stopCause != Some(LeaseWasLost) && !over
      requires if own then aborted && event.kind == RunFailed(ABORTED_ERROR) else i < |source| && event == source[i]
      requires i <= |source| && |given| == |first.given| + i
      requires LaterTo(first, Here()) && GaveTo(source, i, {}, first, Here())
          && OnlyFlushes(first.givenUp, givenUp, Spoken())
      modifies this, store
      ensures Valid() && Later() && inHand == [] && !outcome.Threw? && |given| == |old(given)| + 1
      ensures given[|old(given)|].sequence == event.sequence
      ensures GaveTo(source, if own then i else i + 1, {}, first, Here())
      ensures own && outcome.Done? ==> terminalWritten
      ensures outcome.Done? ==> OnlyFlushes(first.givenUp, givenUp, Spoken())
      ensures outcome.LostLease? ==> stopCause == Some(LeaseWasLost)
      ensures !outcome.Done? ==> Failed(old(Here()))
    {
      hide TimesSpoken, Balanced, AnswersWithEnd, Replay, StoredSince, EndedBy, OwnEnd, PassedOn, RefusedSince,
          LostCall, AllSpoken, OnlyFlushes, LaterTo, GaveTo, BesideTo;
      var passed := Appended(event);
      LaterMeans(first, Here());
      if own {
        AbortIsOwnEnd(event, passed, first.cancellation);
      } else {
        IsPassedOn(event, passed, first.cancellation);
      }
      outcome := Append(passed);
      ghost var was := Here();
      LaterMeans(old(Here()), was);
      GaveOneMore(source, i, own, passed, first, old(Here()), was);
      if outcome.Done? {
        FlushesLater(first.givenUp, old(givenUp), givenUp, old(Spoken()), Spoken());
        Interfere();
        BesideMeans(was, Here());
        LaterMeans(was, Here());
        LaterOn(old(Here()), was, Here());
        FlushesLater(first.givenUp, was.givenUp, givenUp, was.Spoken(), Spoken());
        GaveBetween(source, if own then i else i + 1, {}, {}, first, first, was, Here());
      }
    }

    /** What a stop gives is never the text of the interruption: its cause, or a request to cancel, is known. */
    lemma AbortIsOwnEnd(event: Event, passed: Event, knew: Option<Option<string>>)
      requires Valid() && aborted && !over && stopCause != Some(LeaseWasLost)
      requires event.kind == RunFailed(ABORTED_ERROR) && passed == Appended(event)
          && (knew.Some? ==> cancellation == knew)
      ensures OwnEnd(passed.kind, {}, knew, cancellation, stopCause) && Terminal(passed)
    {
      if cancellation.None? && stopCause.value != WorkerStopping {
        assert stopCause.value.Idle?;
      }
    }

    lemma IsPassedOn(event: Event, passed: Event, knew: Option<Option<string>>)
      requires passed == Appended(event) && (knew.Some? ==> cancellation == knew)
      ensures PassedOn(event, passed, knew, cancellation, stopCause)
    {
    }

    /** The try block of the execution: its events, and the close where they did not end the run. */
    method Attempt(source: Source) returns (outcome: Outcome, ghost k: nat)
      requires Valid() && inHand == [] && !over
      modifies this, store
      ensures Valid() && Later() && inHand == []
      ensures k <= |source.events| && (!source.starts ==> k == 0)
      ensures GaveTo(source.events, k, EndFailure(source, k), old(Here()), Here())
      ensures LeavesTo(k, old(Here()), Here())
      ensures outcome.Done? ==> terminalWritten || stopCause == Some(LeaseWasLost) || store.row.gone
      ensures outcome.LostLease? ==> stopCause == Some(LeaseWasLost)
      ensures outcome.Threw? ==> !source.starts || (source.throws && k == |source.events|)
      ensures !outcome.Done? && !outcome.Threw? ==> Failed(old(Here()))
    {
      hide TimesSpoken, Balanced, AnswersWithEnd, Replay, RefusedSince, LostCall, AllSpoken, OnlyFlushes, LaterTo,
          GaveTo, BesideTo, FailedTo, OwnEndsTo, ClosedTo, EndedByOthersTo, HeldEndsTo, LeavesTo;
      Interfere();
      ghost var begun := Here();
      BesideMeans(old(Here()), begun);
      LaterMeans(old(Here()), begun);
      if !source.starts {
        GaveNothing(source.events, {}, old(Here()), Here());
        LeavesNone(old(Here()));
        LaterStays(old(Here()));
        LeavesOn(0, old(Here()), old(Here()), old(Here()), Here());
        return Threw, 0;
      }
      outcome, k := ConsumeEvents(source);
      ghost var consumed := Here();
      LaterOn(old(Here()), begun, consumed);
      LaterStays(consumed);
      LaterStays(old(Here()));
      GaveSoMany(source.events, k, {}, begun, consumed);
      LaterMeans(begun, consumed);
      LeavesOn(k, old(Here()), begun, consumed, consumed);
      GaveBetween(source.events, k, {}, {}, old(Here()), begun, consumed, consumed);
      if outcome.Done? && !terminalWritten && stopCause != Some(LeaseWasLost) {
        outcome := CloseRun(EXECUTOR_ENDED_ERROR);
        LaterMeans(old(Here()), consumed);
        LaterMeans(consumed, Here());
        LaterOn(old(Here()), consumed, Here());
        GaveThenEnds(source.events, k, {}, EXECUTOR_ENDED_ERROR, old(Here()), consumed, Here());
        LeavesOn(k, old(Here()), begun, consumed, Here());
        assert {} + {EXECUTOR_ENDED_ERROR} == {EXECUTOR_ENDED_ERROR};
        if !outcome.Done? { LaterFailed(old(Here()), consumed); }
      } else {
        GaveBetween(source.events, k, {}, EndFailure(source, k), old(Here()), old(Here()), consumed, consumed);
        if !outcome.Done? && !outcome.Threw? { LaterFailed(old(Here()), begun); }
      }
    }

    /** The two try blocks of the execution: where the first throws, the run is closed with the worker's failure. */
    method Guarded(source: Source) returns (outcome: Outcome, ghost k: nat)
      requires Valid() && inHand == [] && !over
      modifies this, store
      ensures Valid() && Later() && inHand == []
      ensures k <= |source.events| && (!source.starts ==> k == 0)
      ensures GaveTo(source.events, k, OwnFailures(source, k, Failed(old(Here()))), old(Here()), Here())
      ensures LeavesTo(k, old(Here()), Here())
      ensures outcome.Done? ==> terminalWritten || stopCause == Some(LeaseWasLost) || store.row.gone
      ensures outcome.LostLease? ==> stopCause == Some(LeaseWasLost)
      ensures outcome.Threw? ==> !source.starts || (source.throws && k == |source.events|)
      ensures outcome.Threw? ==> terminalWritten || stopCause == Some(LeaseWasLost)
      ensures !outcome.Done? ==>
          terminalWritten || stopCause == Some(LeaseWasLost) || closedWith == Some(WORKER_FAILURE)
      ensures !outcome.Done? && !outcome.Threw? ==> Failed(old(Here()))
    {
      hide TimesSpoken, Balanced, AnswersWithEnd, Replay, RefusedSince, LostCall, AllSpoken, OnlyFlushes, LaterTo,
          GaveTo, BesideTo, FailedTo, OwnEndsTo, ClosedTo, EndedByOthersTo, HeldEndsTo, LeavesTo;
      outcome, k := Attempt(source);
      ghost var tried, failed := Here(), outcome;
      LaterStays(old(Here()));
      if outcome.Done? || terminalWritten || stopCause == Some(LeaseWasLost) {
        LaterStays(tried);
        GaveBetween(source.events, k, EndFailure(source, k), OwnFailures(source, k, Failed(old(Here()))), old(Here()),
            old(Here()), tried, tried);
        return;
      }
      outcome := CloseRun(WORKER_FAILURE);
      LaterMeans(old(Here()), tried);
      LaterMeans(tried, Here());
      LaterOn(old(Here()), tried, Here());
      GaveThenEnds(source.events, k, EndFailure(source, k), WORKER_FAILURE, old(Here()), tried, Here());
      GaveSoMany(source.events, k, EndFailure(source, k), old(Here()), tried);
      LeavesOn(k, old(Here()), old(Here()), tried, Here());
      if !failed.Threw? { FailedOn(fates, store.start, old(Here()), old(Here()), tried, Here()); }
      if !outcome.Done? { LaterFailed(old(Here()), tried); }
      assert EndFailure(source, k) + {WORKER_FAILURE} == OwnFailures(source, k, Failed(old(Here())));
    }

    /**
     `executeClaimedRun`: returns only where the run is ended, and fails for a lost lease or a
     refused write. The error for a run that was left open is thrown where its row is gone. However
     it ends, the worker gave the store the first `k` events of the execution in their order and its
     own ends behind them, and of a run that began with it the store holds the beginning of that:
     of a completed run all of it, up to the completion. That the execution ended is told only behind
     all of its events, and a failure of the worker only where something failed.
     */
    method Execute(source: Source) returns (exit: Exit, ghost k: nat)
      requires Valid() && inHand == [] && !over
      modifies this, store
      ensures Valid() && GrewTo(old(Here()), Here()) && spoke == old(spoke) && over && aborted && inHand == []
      ensures k <= |source.events| && (!source.starts ==> k == 0)
      ensures GaveTo(source.events, k, OwnFailures(source, k, Failed(old(Here()))), old(Here()), Here())
      ensures LeavesTo(k, old(Here()), Here())
      ensures !exit.Failing? ==> (exit.Returned? <==> terminalWritten)
      ensures exit.Returned? ==> Ended(store.row.status)
      ensures exit.LeftOpen? ==> store.row.gone && stopCause != Some(LeaseWasLost)
      ensures exit.Failing? ==>
          terminalWritten || stopCause == Some(LeaseWasLost) || closedWith == Some(WORKER_FAILURE)
      ensures old(store.row.gone) && !old(terminalWritten) ==> !exit.Returned?
      ensures exit.Failing? ==>
                match exit.outcome
                case LostLease => stopCause == Some(LeaseWasLost)
                case Threw =>
                  && (!source.starts || (source.throws && k == |source.events|))
                  && (terminalWritten || stopCause == Some(LeaseWasLost))
                case Done => false
                case _ => Failed(old(Here()))
      ensures exit.Returned? ==>
                exists e ::
                    EndsWith(store.log, e)
                    && EndComesFrom(e, store.log, source.events, k, old(given),
                           OwnFailures(source, k, Failed(old(Here()))), old(cancellation), cancellation, stopCause)
      ensures old(given) == [] && NumberedOn(source.events, store.start.lastSequence) ==>
          BeginsAs(EventsOf(store.log), source.events)
      ensures old(given) == [] && NumberedOn(source.events, store.start.lastSequence) && store.row.status.Completed? ==>
          EventsOf(store.log) <= source.events
    {
      hide TimesSpoken, Balanced, AnswersWithEnd, Replay, EndComesFrom, EventsOf, BeginsAs, RefusedSince, LostCall,
          AllSpoken, LaterTo, FailedTo, GaveTo, OwnFailures, GrewTo, EndsWith, Asked, LeavesTo;
      var outcome: Outcome;
      outcome, k := Guarded(source);
      ghost var left := Here();
      ghost var failures := OwnFailures(source, k, Failed(old(Here())));
      LaterMeans(old(Here()), left);
      Finish();
      GrewOn(old(Here()), left, Here());
      SameFailed(old(Here()), left);
      SameGiven(source.events, k, failures, old(Here()), left);
      GaveSoMany(source.events, k, failures, old(Here()), left);
      LaterStays(old(Here()));
      LeavesOn(k, old(Here()), old(Here()), left, Here());
      exit := if !outcome.Done? then Failing(outcome) else if terminalWritten then Returned
          else if stopCause == Some(LeaseWasLost) then Failing(LostLease) else LeftOpen;
      if exit.Returned? { EndIsKnown(source.events, k, old(Here()), failures); }
      if old(given) == [] && NumberedOn(source.events, store.start.lastSequence) {
        StoredIsOfSource(source.events, k, old(Here()), failures);
      }
    }

    /** The `finally` of the execution. */
    method Finish()
      requires Valid()
      modifies this`aborted, this`givenAtAbort, this`over
      ensures Valid() && aborted && over && GrewTo(old(Here()), Here())
    {
      hide TimesSpoken, Balanced, AnswersWithEnd, AllSpoken, Replay;
      if !aborted { givenAtAbort := |given|; }
      aborted, over := true, true;
    }

    lemma SameFailed(a: Moment, b: Moment)
      requires b.calls == calls && b.log == store.log && b.givenUp == givenUp
      ensures Failed(a) == FailedTo(fates, store.start, a, b)
    {
    }

    lemma SameGiven(source: seq<Event>, k: nat, failures: set<string>, a: Moment, b: Moment)
      requires k <= |source| && GaveTo(source, k, failures, a, b)
      requires b.given == given && b.cancellation == cancellation && b.stopCause == stopCause
      ensures GaveTo(source, k, failures, a, Here())
    {
    }

    /** The event that ends the run, and where it came from. */
    lemma EndIsKnown(source: seq<Event>, k: nat, first: Moment, failures: set<string>)
      requires Valid() && Ended(store.row.status) && GrewTo(first, Here())
      requires k <= |source| && GaveTo(source, k, failures, first, Here())
      ensures exists e ::
          EndsWith(store.log, e)
          && EndComesFrom(e, store.log, source, k, first.given, failures, first.cancellation, cancellation, stopCause)
    {
      StoredInOrder(store.start, store.log);
      var events := EventsOf(store.log);
      var e := events[|events| - 1];
      assert EndsWith(store.log, e) && e in events && Traced(store.log, given, cancellation, e);
      hide EventsOf, Replay, PassedOn, OwnEnd;
      if e in given {
        var i :| 0 <= i < |given| && given[i] == e;
        GivenCameFrom(source, k, first.given, given, i, failures, first.cancellation, cancellation, stopCause);
      } else if CancelledFor(given, cancellation, e) {
        CancelledIsOwn(e, failures, first.cancellation, cancellation, stopCause);
      }
    }

    /** The store holds the beginning of what the source gave out. */
    lemma StoredIsOfSource(source: seq<Event>, k: nat, first: Moment, failures: set<string>)
      requires Valid() && NumberedOn(source, store.start.lastSequence) && first.given == []
      requires k <= |source| && GaveTo(source, k, failures, first, Here())
      ensures BeginsAs(EventsOf(store.log), source)
      ensures store.row.status.Completed? ==> EventsOf(store.log) <= source
    {
      assert given[0..] == given;
      hide EventsOf, Replay, Balanced, PassedOn, OwnEnd;
      forall i | 0 <= i < |given| ensures PassedOrEnds(source, given, i, k, store.start.lastSequence) {
        PassedOrOwn(source, k, given, failures, first.cancellation, cancellation, stopCause,
            store.start.lastSequence, i);
      }
      GivenIsNumbered(source, given, k, store.start.lastSequence);
      StoredAsGiven(store.start, store.log, Account(), cancellation);
      StoredInOrder(store.start, store.log);
      BeginsAsSource(EventsOf(store.log), given, source, k, store.start.lastSequence);
      if store.row.status.Completed? {
        CompletedIsWhole(store.start, store.log, Account(), cancellation);
        CompletedCameFrom(store.start, store.log, given, source, k);
      }
    }

    /**
     At every wait of the worker, and so wherever it is killed: an answer that stands beside a run
     that is not ended was found by a write to the conversation, or held with too many events.
     */
    lemma AnswerBesideOpenRun(i: nat)
      requires Valid() && i < |store.log| && HasAnswer(store.log[i])
      ensures || RunWrite(store.log[i].message, store.log[i].events) in Spoken()
              || |store.log[i].events| > HELD_END_MAX_EVENTS
              || (Ended(store.row.status) && EndsRun(store.log[i].events)
                  && EndsWith(store.log, store.log[i].events[|store.log[i].events| - 1]))
    {
      if RunWrite(store.log[i].message, store.log[i].events) !in Spoken()
          && |store.log[i].events| <= HELD_END_MAX_EVENTS {
        AnswerMeansEnded(store.start, store.log, Spoken(), i);
        assert AnswerWithEnd(store.log[i], Spoken());
      }
    }

    // ----- the conversation of the execution

    /** A method of the conversation begins, and finds what is held. */
    method Speak()
      requires Valid() && !talking
      modifies this`spoke, this`talking
      ensures Valid() && talking && GrewTo(old(Here()), Here()) && KeptTo(old(Here()), Here()) && over == old(over)
      ensures spoke == old(spoke) + Found(held)
    {
      hide TimesSpoken, Balanced, Replay;
      SpokenLater(store.log, underway, Spoken(), Spoken() + Found(held));
      spoke := spoke + Found(held);
      talking := true;
    }

    method FallSilent()
      requires Valid()
      modifies this`talking
      ensures Valid() && Same() && KeptTo(old(Here()), Here()) && !talking
    {
      hide TimesSpoken, Balanced, Replay, AnswersWithEnd, AllSpoken;
      talking := false;
    }

    /** Any message but the answer that ends the run. What was held is stored first. */
    method AppendMessage(text: string) returns (outcome: Outcome)
      requires Valid() && inHand == [] && !talking
      modifies this, store
      ensures Valid() && GrewTo(old(Here()), Here()) && KeptTo(old(Here()), Here()) && !talking
      ensures spoke == old(spoke) + Found(old(held)) && over == old(over)
      ensures outcome.Done? ==>
          StoredSince(store.log, |old(store.log)|, RunWrite(Some(Message(text, false)), []), cancellation)
      ensures outcome.Done? && old(held).Some? ==>
                StoredBefore(store.log, |old(store.log)|, old(held).value,
                             RunWrite(Some(Message(text, false)), []), cancellation)
      ensures !outcome.Done? ==>
          || FailedAt(old(Here()), Stored(Some(Message(text, false)), []))
          || (old(held).Some? && FailedAt(old(Here()), StoredAs(old(held).value)))
    {
      hide TimesSpoken, Balanced, AnswersWithEnd, Replay, AllSpoken, RefusedSince, LostCall, BesideTo, LaterTo,
          KeptTo, GrewTo, StoredSince, StoredBefore, WriteFailed, Asked, Traced, OnlyFlushes;
      Speak();
      ghost var begun := Here();
      outcome := FlushHeldEnd();
      ghost var last := Here();
      LaterMeans(begun, last);
      GrewOn(old(Here()), begun, last);
      KeptOn(old(Here()), begun, last);
      ghost var flushed, entry := last, if outcome.Done? then Stored(Some(Message(text, false)), [])
          else StoredAs(old(held).value);
      if outcome.Done? {
        outcome := StoreMessage(text, old(Here()));
        last := Here();
      } else {
        flushed := begun;
      }
      FallSilent();
      if !outcome.Done? {
        WriteFailedSince(fates, store.start, old(Here()), flushed, last, Here(), entry);
      }
      GrewOn(old(Here()), last, Here());
      KeptOn(old(Here()), last, Here());
    }

    /** The message itself, behind what was flushed for it since `first`. */
    method StoreMessage(text: string, ghost first: Moment) returns (outcome: Outcome)
      requires Valid() && inHand == [] && GrewTo(first, Here()) && KeptTo(first, Here())
      requires first.held.Some? ==> StoredSince(store.log, |first.log|, first.held.value, cancellation)
      modifies this, store
      ensures Valid() && GrewTo(first, Here()) && KeptTo(first, Here()) && spoke == old(spoke) && over == old(over)
      ensures outcome.Done? ==>
          StoredSince(store.log, |first.log|, RunWrite(Some(Message(text, false)), []), cancellation)
      ensures outcome.Done? && first.held.Some? ==>
                StoredBefore(store.log, |first.log|, first.held.value,
                             RunWrite(Some(Message(text, false)), []), cancellation)
      ensures !outcome.Done? ==> FailedAt(old(Here()), Stored(Some(Message(text, false)), []))
    {
      hide TimesSpoken, Balanced, AnswersWithEnd, Replay, AllSpoken, WriteFailed, BesideTo, LaterTo, KeptTo, GrewTo,
          StoredSince, StoredBefore, Asked, Traced, OnlyFlushes;
      outcome := StoreWrite(RunWrite(Some(Message(text, false)), []));
      BesideMeans(old(Here()), Here());
      GrewOn(first, old(Here()), Here());
      KeptOn(first, old(Here()), Here());
      if outcome.Done? { MessageStored(first, old(Here()), Here(), RunWrite(Some(Message(text, false)), [])); }
    }

    /** The message was stored behind what was flushed for it. */
    lemma MessageStored(a: Moment, flushed: Moment, b: Moment, batch: RunWrite)
      requires GrewTo(a, flushed) && GrewTo(flushed, b)
      requires a.held.Some? ==> StoredSince(flushed.log, |a.log|, a.held.value, flushed.cancellation)
      requires exists j :: |flushed.log| <= j < |b.log| && b.log[j] == Stored(batch.message, batch.events)
      ensures StoredSince(b.log, |a.log|, batch, b.cancellation)
      ensures a.held.Some? ==> StoredBefore(b.log, |a.log|, a.held.value, batch, b.cancellation)
    {
      LogGrew(a, flushed);
      var j :| |flushed.log| <= j < |b.log| && b.log[j] == Stored(batch.message, batch.events);
      assert StoredAt(b.log, j, batch, b.cancellation);
      if a.held.Some? {
        var i :| |a.log| <= i < |flushed.log| && StoredAt(flushed.log, i, a.held.value, flushed.cancellation);
        StoredAtLater(flushed.log, b.log, i, a.held.value, flushed.cancellation, b.cancellation);
      }
    }

    /** `holdFinalMessage` */
    method HoldAnswer(text: string)
      requires Valid() && held.None?
      modifies this`held
      ensures Valid() && Same() && KeptTo(old(Here()), Here()) && held == Some(RunWrite(Some(Message(text, true)), []))
    {
      hide TimesSpoken, Balanced, Replay, AnswersWithEnd, AllSpoken;
      held := Some(RunWrite(Some(Message(text, true)), []));
    }

    /** The answer that ends the run is held, and nothing of it is stored yet. */
    method AppendFinalMessage(text: string) returns (outcome: Outcome)
      requires Valid() && inHand == [] && !talking
      modifies this, store
      ensures Valid() && GrewTo(old(Here()), Here()) && KeptTo(old(Here()), Here()) && !talking
      ensures spoke == old(spoke) + Found(old(held)) && over == old(over)
      ensures outcome.Done? ==> held == Some(RunWrite(Some(Message(text, true)), []))
      ensures old(held).None? ==> outcome.Done? && store.log == old(store.log)
      ensures outcome.Done? && old(held).Some? ==>
          StoredSince(store.log, |old(store.log)|, old(held).value, cancellation)
      ensures !outcome.Done? ==>
          held.None? && old(held).Some? && FailedAt(old(Here()), StoredAs(old(held).value))
    {
      hide TimesSpoken, Balanced, AnswersWithEnd, Replay, AllSpoken, RefusedSince, LostCall, BesideTo, LaterTo,
          KeptTo, GrewTo, WriteFailed;
      Speak();
      ghost var begun := Here();
      outcome := FlushHeldEnd();
      ghost var flushed := Here();
      LaterMeans(begun, flushed);
      GrewOn(old(Here()), begun, flushed);
      KeptOn(old(Here()), begun, flushed);
      FallSilent();
      ghost var silent := Here();
      GrewOn(old(Here()), flushed, silent);
      KeptOn(old(Here()), flushed, silent);
      if !outcome.Done? {
        WriteFailedSince(fates, store.start, old(Here()), begun, flushed, silent, StoredAs(old(held).value));
        return;
      }
      HoldAnswer(text);
      GrewOn(old(Here()), silent, Here());
      KeptOn(old(Here()), silent, Here());
    }

    /** A row that is cancelling was asked to cancel, with the reason it carries. */
    lemma RequestIsKnown()
      requires store.Valid()
      ensures store.row.status.Cancelling? ==> Asked(store.log, store.row.reason)
    {
      CancellingWasAsked(store.start, store.log);
    }
  }
}
