/**
 How the state of a worker goes on: what never goes back, what everybody else may change beside
 it, and what can fail on the way. A step is seen as the two moments before and behind it, so that
 steps behind each other are one step.

 What only grows are the transactions of the run, the events the worker was given, the writes it
 gave up, its calls of the store, and what writes to the conversation found held. A failure is a
 call that was not answered, or a transaction the store refuses at the row it then has: both can be
 told from the moments alone.
 */
module RunSteps {
  import opened Optional
  import opened RunLog
  import opened RunWrites

  /** What becomes of one call of the store: it may not reach it, or its answer may not come back. */
  datatype Fate = Answered | NotSent | NotTold

  /** The row and the transactions of a run, and the state of its worker. */
  datatype Moment = Moment(row: Row, log: seq<Entry>, terminalWritten: bool, aborted: bool, givenAtAbort: nat,
      over: bool, cancellation: Option<Option<string>>, stopCause: Option<Cause>, calls: nat, held: Option<RunWrite>,
      talking: bool, given: seq<Event>, inHand: seq<Event>, givenUp: seq<Entry>, spoke: set<RunWrite>,
      spokeBeside: set<RunWrite>)
  {
    function Spoken(): set<RunWrite> { spoke + spokeBeside }
  }

  /** What never goes back: what is stored, that the run is ended, and why it is stopped. */
  predicate GrewTo(a: Moment, b: Moment)
  {
    && a.log <= b.log && a.given <= b.given && a.givenUp <= b.givenUp && a.calls <= b.calls
    && a.spoke <= b.spoke && a.spokeBeside <= b.spokeBeside
    && (a.terminalWritten ==> b.terminalWritten)
    && (if a.aborted then b.aborted && b.givenAtAbort == a.givenAtAbort
        else b.aborted ==> |a.given| <= b.givenAtAbort <= |b.given|)
    && (a.cancellation.Some? ==> b.cancellation == a.cancellation)
    && CauseLater(a.stopCause, b.stopCause)
    && (a.row.gone ==> b.row.gone) && (b.row.leased ==> a.row.leased)
  }

  /** The same, where the worker itself writes nothing to the conversation, and does not end a run whose row is gone. */
  predicate LaterTo(a: Moment, b: Moment) { SameTo(a, b) && (a.row.gone && b.terminalWritten ==> a.terminalWritten) }

  predicate SameTo(a: Moment, b: Moment) { GrewTo(a, b) && b.spoke == a.spoke && b.over == a.over }

  /** The run was ended by a write that began at `a`, and was found stored at `b`. */
  lemma SettledOn(a: Moment, b: Moment, c: Moment)
    requires LaterTo(a, b) && SameTo(b, c) && (a.row.gone && c.terminalWritten ==> b.terminalWritten)
    ensures LaterTo(a, c)
  {
  }

  /**
   Nothing was given to `Append`, of what was given up all was the conversation's, and what was held
   still is, or a write to the conversation found it. Another answer that is held is held alone.
   */
  predicate KeptTo(a: Moment, b: Moment)
  {
    && b.given == a.given && b.inHand == a.inHand && OnlyFlushes(a.givenUp, b.givenUp, b.Spoken())
    && (a.held.Some? ==> b.held == a.held || a.held.value in b.Spoken())
    && (b.held.Some? ==> b.held == a.held || b.held.value.events == [])
  }

  /** What others do, and what a call of the store does beside it. */
  predicate BesideTo(a: Moment, b: Moment)
  {
    && LaterTo(a, b) && KeptTo(a, b) && b.terminalWritten == a.terminalWritten
    && b.talking == a.talking && (b.talking && a.held.None? ==> b.held.None?)
  }

  /** How often the execution wrote to its conversation in its first turns. */
  function TimesSpoken(speaks: nat -> bool, turns: nat): nat
  {
    if turns == 0 then 0 else TimesSpoken(speaks, turns - 1) + if speaks(turns - 1) then 1 else 0
  }

  lemma MoreTurns(speaks: nat -> bool, turns: nat)
    ensures TimesSpoken(speaks, turns + 1) == TimesSpoken(speaks, turns) + if speaks(turns) then 1 else 0
  {
  }

  /** What a write to the conversation finds held. */
  function Found(held: Option<RunWrite>): set<RunWrite> { if held.Some? then {held.value} else {} }

  /** A run that is ended was ended before, or has been buried. */
  predicate EndedByOthersTo(a: Moment, b: Moment)
  {
    Ended(b.row.status) ==> Ended(a.row.status) || BuriedSince(b.log, |a.log|)
  }

  lemma SameEnd(a: Moment, b: Moment, c: Moment)
    requires EndedByOthersTo(a, b) && c.row == b.row && c.log == b.log
    ensures EndedByOthersTo(a, c)
  {
  }

  lemma GrewOn(a: Moment, b: Moment, c: Moment)
    requires GrewTo(a, b) && GrewTo(b, c)
    ensures GrewTo(a, c)
  {
  }

  lemma KeptOn(a: Moment, b: Moment, c: Moment)
    requires KeptTo(a, b) && KeptTo(b, c) && GrewTo(a, b) && GrewTo(b, c)
    ensures KeptTo(a, c)
  {
    FlushesLater(a.givenUp, b.givenUp, c.givenUp, b.Spoken(), c.Spoken());
  }

  lemma BesideOn(a: Moment, b: Moment, c: Moment)
    requires BesideTo(a, b) && BesideTo(b, c)
    ensures BesideTo(a, c)
    ensures EndedByOthersTo(a, b) && EndedByOthersTo(b, c) ==> EndedByOthersTo(a, c)
  {
    LaterOn(a, b, c);
    hide GrewTo, KeptTo;
    KeptOn(a, b, c);
    assert a.log <= b.log <= c.log by { LogGrew(a, b); LogGrew(b, c); }
    if BuriedSince(b.log, |a.log|) { BuriedEarlier(b.log, c.log, |a.log|); }
  }

  lemma LogGrew(a: Moment, b: Moment)
    requires GrewTo(a, b)
    ensures a.log <= b.log && a.given <= b.given && a.givenUp <= b.givenUp && a.calls <= b.calls
  {
  }

  lemma LaterOn(a: Moment, b: Moment, c: Moment)
    requires LaterTo(a, b) && LaterTo(b, c)
    ensures LaterTo(a, c)
  {
  }

  lemma LaterMeans(a: Moment, b: Moment)
    requires LaterTo(a, b)
    ensures GrewTo(a, b) && b.spoke == a.spoke && b.over == a.over
    ensures a.row.gone && b.terminalWritten ==> a.terminalWritten
  {
  }

  lemma LaterStays(a: Moment)
    ensures LaterTo(a, a) && GrewTo(a, a) && BesideTo(a, a) && EndedByOthersTo(a, a)
  {
  }

  lemma BesideMeans(a: Moment, b: Moment)
    requires BesideTo(a, b)
    ensures LaterTo(a, b) && GrewTo(a, b) && KeptTo(a, b) && b.terminalWritten == a.terminalWritten
    ensures b.talking == a.talking && (b.talking && a.held.None? ==> b.held.None?)
    ensures b.given == a.given && b.inHand == a.inHand && b.spoke == a.spoke && b.over == a.over
    ensures a.log <= b.log && a.calls <= b.calls && a.Spoken() <= b.Spoken() && (a.row.gone ==> b.row.gone)
    ensures b.row.leased ==> a.row.leased
    ensures a.cancellation.Some? ==> b.cancellation == a.cancellation
  {
  }

  // ----- what can fail

  /** A call was not answered. */
  ghost predicate LostCall(fates: nat -> Fate, from: nat, to: nat)
  {
    exists c :: from <= c < to && !fates(c).Answered?
  }

  predicate Refuses(start: Row, log: seq<Entry>, entry: Entry)
  {
    Replay(start, log).Some? && Effect(Replay(start, log).value, entry).None?
  }

  /** The store refused this transaction, as its row was after some transaction at `n` or later. */
  ghost predicate RefusedSince(start: Row, log: seq<Entry>, n: nat, entry: Entry)
  {
    exists k :: n <= k <= |log| && Refuses(start, log[..k], entry)
  }

  /** The run was not asked to cancel, or its row was gone. */
  predicate NotAsked(start: Row, log: seq<Entry>)
  {
    var row := Replay(start, log);
    row.Some? && (row.value.gone || !row.value.status.Cancelling?)
  }

  /** At `n` or later. */
  ghost predicate FoundNotAsked(start: Row, log: seq<Entry>, n: nat)
  {
    exists k :: n <= k <= |log| && NotAsked(start, log[..k])
  }

  /** The store refused a write, and some time later the run was not asked to cancel. */
  ghost predicate RefusedUnasked(start: Row, log: seq<Entry>, n: nat, entry: Entry)
  {
    exists j, k :: n <= j <= k <= |log| && Refuses(start, log[..j], entry) && NotAsked(start, log[..k])
  }

  predicate EndsOtherwise(events: seq<Event>)
  {
    events != [] && (events[|events| - 1].kind.RunCompleted? || events[|events| - 1].kind.RunFailed?)
  }

  /**
   Of a refused end: a call was not answered, or the run was then found not to be asked to cancel,
   or the store refused the end as cancelled too.
   */
  ghost predicate TriedCancelled(fates: nat -> Fate, start: Row, a: Moment, b: Moment, batch: RunWrite)
  {
    || LostCall(fates, a.calls, b.calls)
    || RefusedUnasked(start, b.log, |a.log|, Stored(batch.message, batch.events))
    || RefusedAsCancelled(start, a, b, batch)
  }

  ghost predicate RefusedAsCancelled(start: Row, a: Moment, b: Moment, batch: RunWrite)
  {
    b.cancellation.Some? && EndsRun(batch.events)
    && RefusedSince(start, b.log, |a.log|, Stored(batch.message, AsCancelled(batch.events, b.cancellation.value)))
  }

  /** What came of the second try, after the first was refused between `a` and `b`. */
  lemma TriedOn(fates: nat -> Fate, start: Row, a: Moment, b: Moment, c: Moment, batch: RunWrite)
    requires BesideTo(a, b) && BesideTo(b, c)
    requires WriteFailed(fates, start, a, b, Stored(batch.message, batch.events))
    requires LostCall(fates, b.calls, c.calls) || FoundNotAsked(start, c.log, |b.log|)
        || RefusedAsCancelled(start, b, c, batch)
    ensures TriedCancelled(fates, start, a, c, batch)
  {
    hide Refuses, NotAsked, AsCancelled;
    var entry := Stored(batch.message, batch.events);
    BesideMeans(a, b);
    BesideMeans(b, c);
    if !LostCall(fates, a.calls, b.calls) && FoundNotAsked(start, c.log, |b.log|) {
      var j :| |a.log| <= j <= |b.log| && Refuses(start, b.log[..j], entry);
      assert b.log[..j] == c.log[..j];
    }
  }

  /** A call was not answered, or the store refused this write. */
  ghost predicate WriteFailed(fates: nat -> Fate, start: Row, a: Moment, b: Moment, entry: Entry)
  {
    LostCall(fates, a.calls, b.calls) || RefusedSince(start, b.log, |a.log|, entry)
  }

  /** The call that began behind `b` was not answered. */
  lemma CallLost(fates: nat -> Fate, a: Moment, b: Moment, c: Moment)
    requires a.calls <= b.calls < c.calls && !fates(b.calls).Answered?
    ensures LostCall(fates, a.calls, c.calls)
  {
  }

  lemma CallFailed(fates: nat -> Fate, start: Row, a: Moment, b: Moment)
    requires LostCall(fates, a.calls, b.calls)
    ensures FailedTo(fates, start, a, b)
  {
  }

  lemma WriteFailedOn(fates: nat -> Fate, start: Row, a: Moment, b: Moment, c: Moment, entry: Entry)
    requires GrewTo(b, c) && WriteFailed(fates, start, a, b, entry)
    ensures WriteFailed(fates, start, a, c, entry)
  {
    if LostCall(fates, a.calls, b.calls) {
      var k :| a.calls <= k < b.calls && !fates(k).Answered?;
    } else {
      RefusedOn(start, b.log, c.log, |a.log|, |a.log|, entry);
    }
  }

  lemma WriteFailedSince(fates: nat -> Fate, start: Row, a: Moment, b: Moment, c: Moment, d: Moment, entry: Entry)
    requires GrewTo(a, b) && GrewTo(c, d) && WriteFailed(fates, start, b, c, entry)
    ensures WriteFailed(fates, start, a, d, entry)
  {
    if LostCall(fates, b.calls, c.calls) {
      var k :| b.calls <= k < c.calls && !fates(k).Answered?;
    } else {
      RefusedOn(start, c.log, d.log, |b.log|, |a.log|, entry);
    }
  }

  lemma WriteFailedFrom(fates: nat -> Fate, start: Row, a: Moment, b: Moment, c: Moment, entry: Entry)
    requires WriteFailed(fates, start, b, c, entry) && a.calls == b.calls && a.log == b.log
    ensures WriteFailed(fates, start, a, c, entry)
  {
  }

  /** A call was not answered, or the store refused a write that was given up. */
  ghost predicate FailedTo(fates: nat -> Fate, start: Row, a: Moment, b: Moment)
  {
    || LostCall(fates, a.calls, b.calls)
    || exists i :: |a.givenUp| <= i < |b.givenUp| && RefusedSince(start, b.log, |a.log|, b.givenUp[i])
  }

  lemma RefusedOn(start: Row, log: seq<Entry>, later: seq<Entry>, n: nat, first: nat, entry: Entry)
    requires log <= later && first <= n && RefusedSince(start, log, n, entry)
    ensures RefusedSince(start, later, first, entry)
  {
    var k :| n <= k <= |log| && Refuses(start, log[..k], entry);
    assert later[..k] == log[..k];
  }

  /** Seen from before and from later, what failed has failed. */
  lemma FailedOn(fates: nat -> Fate, start: Row, a: Moment, b: Moment, c: Moment, d: Moment)
    requires GrewTo(a, b) && GrewTo(b, c) && GrewTo(c, d) && FailedTo(fates, start, b, c)
    ensures FailedTo(fates, start, a, d)
  {
    LogGrew(a, b);
    LogGrew(b, c);
    LogGrew(c, d);
    if LostCall(fates, b.calls, c.calls) {
      var k :| b.calls <= k < c.calls && !fates(k).Answered?;
      assert LostCall(fates, a.calls, d.calls);
    } else {
      var i :| |b.givenUp| <= i < |c.givenUp| && RefusedSince(start, c.log, |b.log|, c.givenUp[i]);
      RefusedOn(start, c.log, d.log, |b.log|, |a.log|, c.givenUp[i]);
      assert d.givenUp[i] == c.givenUp[i];
    }
  }

  // ----- what is given

  /** What was given between the two is the worker's own end, written once or twice. */
  predicate OwnEndsTo(failure: string, a: Moment, b: Moment)
  {
    && a.given <= b.given
    && forall i :: |a.given| <= i < |b.given| ==>
        OwnEnd(b.given[i].kind, {failure}, a.cancellation, b.cancellation, b.stopCause)
  }

  lemma NoOwnEnds(failure: string, a: Moment, b: Moment)
    requires b.given == a.given
    ensures OwnEndsTo(failure, a, b)
  {
  }

  lemma OwnEndsOn(failure: string, a: Moment, b: Moment, c: Moment)
    requires OwnEndsTo(failure, a, b) && OwnEndsTo(failure, b, c) && GrewTo(a, b) && GrewTo(b, c)
    ensures OwnEndsTo(failure, a, c)
  {
    hide OwnEnd;
    forall i | |a.given| <= i < |c.given|
      ensures OwnEnd(c.given[i].kind, {failure}, a.cancellation, c.cancellation, c.stopCause)
    {
      if i < |b.given| {
        assert c.given[i] == b.given[i];
        OwnEndLater(b.given[i].kind, {failure}, {failure}, a.cancellation, a.cancellation, b.cancellation,
            c.cancellation, b.stopCause, c.stopCause);
      } else {
        OwnEndLater(c.given[i].kind, {failure}, {failure}, b.cancellation, a.cancellation, c.cancellation,
            c.cancellation, c.stopCause, c.stopCause);
      }
    }
  }

  /** Every end given is a cancellation. */
  predicate CancelsTo(a: Moment, b: Moment)
  {
    a.given <= b.given && forall i :: |a.given| <= i < |b.given| ==> b.given[i].kind.RunCancelled?
  }

  lemma KnownIsTold(failure: string, a: Moment, b: Moment, c: Moment)
    requires b.given == a.given && OwnEndsTo(failure, b, c) && b.cancellation.Some?
    ensures CancelsTo(a, c)
  {
  }

  /** The number behind what is held, or behind the last one stored. */
  function NumberBehind(held: Option<RunWrite>, last: int): int
  {
    if held.Some? && held.value.events != [] then held.value.events[|held.value.events| - 1].sequence + 1 else last + 1
  }

  /**
   The numbers of the ends given: the first one is behind what was held, unless a write to the
   conversation found that, and any other one is behind the last number of the row.
   */
  predicate NumbersTo(last: int, a: Moment, b: Moment)
  {
    && |b.given| <= |a.given| + 2
    && (|b.given| > |a.given| ==>
          var first := b.given[|a.given|].sequence;
          first == NumberBehind(a.held, last)
              || (first == last + 1 && a.held.Some? && a.held.value in b.Spoken()))
    && (|b.given| == |a.given| + 2 ==> b.given[|a.given| + 1].sequence == last + 1)
  }

  lemma NumbersOn(last: int, a: Moment, b: Moment, c: Moment)
    requires BesideTo(a, b) && GrewTo(b, c) && NumbersTo(last, b, c)
    ensures NumbersTo(last, a, c)
  {
  }

  /** Given were the first `k` events of the source, one after the other, and then own ends with these failures. */
  predicate GaveTo(source: seq<Event>, k: nat, failures: set<string>, a: Moment, b: Moment)
    requires k <= |source|
  {
    && a.given <= b.given
    && GaveFirst(source, k, b.given[|a.given|..], failures, a.cancellation, b.cancellation, b.stopCause)
  }

  lemma GaveNothing(source: seq<Event>, failures: set<string>, a: Moment, b: Moment)
    requires b.given == a.given
    ensures GaveTo(source, 0, failures, a, b)
  {
  }

  /** Nothing is given before, nor behind. */
  lemma GaveBetween(source: seq<Event>, k: nat, failures: set<string>, more: set<string>, a: Moment, b: Moment,
      c: Moment, d: Moment)
    requires k <= |source| && GaveTo(source, k, failures, b, c) && failures <= more
    requires GrewTo(a, b) && GrewTo(c, d) && a.given == b.given && c.given == d.given
    ensures GaveTo(source, k, more, a, d)
  {
    var part := c.given[|b.given|..];
    GaveSinceBefore(source, k, part, failures, b.cancellation, a.cancellation, c.cancellation, c.stopCause);
    GaveLater(source, k, part, failures, more, a.cancellation, c.cancellation, d.cancellation, c.stopCause,
        d.stopCause);
  }

  lemma GaveThenEnds(source: seq<Event>, k: nat, failures: set<string>, failure: string, a: Moment, b: Moment,
      c: Moment)
    requires k <= |source| && GaveTo(source, k, failures, a, b) && OwnEndsTo(failure, b, c)
    requires GrewTo(a, b) && GrewTo(b, c)
    ensures GaveTo(source, k, failures + {failure}, a, c)
  {
    assert b.given[|a.given|..] <= c.given[|a.given|..];
    OwnEndsBehind(source, k, b.given[|a.given|..], c.given[|a.given|..], failures, failure, a.cancellation,
        b.cancellation, c.cancellation, b.stopCause, c.stopCause);
  }

  /**
   A run that is stopped leaves its events: none of `k` was given where it was aborted before, and at
   most one where it was aborted meanwhile, the one that came first.
   */
  predicate LeavesTo(k: nat, a: Moment, b: Moment)
  {
    if a.aborted then k == 0 else b.aborted ==> |a.given| + k <= b.givenAtAbort + 1
  }

  lemma LeavesOn(k: nat, a: Moment, b: Moment, c: Moment, d: Moment)
    requires GrewTo(a, b) && GrewTo(b, c) && GrewTo(c, d) && LeavesTo(k, b, c)
    requires a.given == b.given && |b.given| + k <= |c.given|
    ensures LeavesTo(k, a, d)
  {
  }

  lemma LeavesNone(a: Moment)
    ensures LeavesTo(0, a, a)
  {
  }

  lemma LeavesOneMore(i: nat, a: Moment, b: Moment, c: Moment)
    requires GrewTo(a, b) && GrewTo(b, c) && !b.aborted && |a.given| + i == |b.given|
    ensures LeavesTo(i + 1, a, c)
  {
  }

  lemma GaveSoMany(source: seq<Event>, k: nat, failures: set<string>, a: Moment, b: Moment)
    requires k <= |source| && GaveTo(source, k, failures, a, b)
    ensures |a.given| + k <= |b.given|
  {
  }

  /** One event more is given, that of the source or an own end. */
  lemma GaveOneMore(source: seq<Event>, i: nat, own: bool, passed: Event, a: Moment, b: Moment, c: Moment)
    requires i <= |source| && GaveTo(source, i, {}, a, b) && |b.given| == |a.given| + i
    requires if own then OwnEnd(passed.kind, {}, a.cancellation, b.cancellation, b.stopCause)
             else i < |source| && PassedOn(source[i], passed, a.cancellation, b.cancellation, b.stopCause)
    requires GrewTo(b, c) && c.given == b.given + [passed]
    ensures GaveTo(source, if own then i else i + 1, {}, a, c)
  {
    var part := b.given[|a.given|..];
    GivesOneMore(source, i, part, passed, own, a.cancellation, b.cancellation, b.stopCause);
    assert c.given[|a.given|..] == part + [passed];
    GaveLater(source, if own then i else i + 1, part + [passed], {}, {}, a.cancellation, b.cancellation,
        c.cancellation, b.stopCause, c.stopCause);
  }

  // ----- how a run is closed

  /** The run was ended by an event stored between the two, and by the right one. */
  ghost predicate ClosedTo(failure: string, a: Moment, b: Moment)
  {
    EndedRightly(b.log, |a.log|, failure, a.cancellation, a.stopCause, b.cancellation, b.stopCause)
  }

  lemma ClosedOn(failure: string, a: Moment, b: Moment, c: Moment)
    requires GrewTo(a, b) && GrewTo(b, c) && ClosedTo(failure, b, c)
    ensures ClosedTo(failure, a, c)
  {
    LogGrew(a, b);
    var kind :| EndedBy(c.log, |b.log|, kind)
        && RightEnd(kind, failure, b.cancellation, b.stopCause, c.cancellation, c.stopCause);
    assert EndedBy(c.log, |a.log|, kind);
    assert RightEnd(kind, failure, a.cancellation, a.stopCause, c.cancellation, c.stopCause);
  }

  /** What is held goes with the event that ends the run: both are stored together, or the write of both is given up. */
  ghost predicate HeldEndsTo(batch: RunWrite, a: Moment, b: Moment)
  {
    || StoredWithEnd(b.log, |a.log|, batch, b.cancellation)
    || DroppedWithEnd(b.givenUp, |a.givenUp|, batch)
  }

  lemma HeldEndsOn(batch: RunWrite, a: Moment, b: Moment, c: Moment)
    requires GrewTo(a, b) && HeldEndsTo(batch, b, c)
    ensures HeldEndsTo(batch, a, c)
  {
    LogGrew(a, b);
    if e :| Terminal(e) && StoredSince(c.log, |b.log|, WithEvent(batch, e), c.cancellation) {
      assert StoredSince(c.log, |a.log|, WithEvent(batch, e), c.cancellation);
    }
  }

  /** What is still held when the run is found open ends with it. */
  lemma HeldThenEnds(a: Moment, b: Moment, c: Moment)
    requires BesideTo(a, b) && LaterTo(b, c) && a.held.Some?
    requires b.held.Some? ==> HeldEndsTo(b.held.value, b, c)
    ensures a.held.value in c.Spoken() || HeldEndsTo(a.held.value, a, c)
  {
    if b.held == a.held { HeldEndsOn(a.held.value, a, b, c); }
  }

  lemma DroppedOn(batch: RunWrite, a: Moment, b: Moment, c: Moment)
    requires GrewTo(b, c) && DroppedWithEnd(b.givenUp, |a.givenUp|, batch)
    ensures HeldEndsTo(batch, a, c)
  {
    var i :| |a.givenUp| <= i < |b.givenUp| && IsEnding(b.givenUp[i], batch);
    assert c.givenUp[i] == b.givenUp[i];
  }

  /** Nothing was given: the run was found ended, by an event stored before or by its burial, or its row gone. */
  ghost predicate FoundClosedTo(a: Moment, b: Moment)
  {
    && b.given == a.given
    && ((b.terminalWritten && EndedByOthersTo(a, b)) || (b.row.gone && b.terminalWritten == a.terminalWritten))
  }
}
