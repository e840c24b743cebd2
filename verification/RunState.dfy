/**
 The live state of a run: an append-only log of events, a small lifecycle, and the queue of
 writes behind it. An observer reads the log while it grows.
 */
module RunState {
  import opened Optional

  datatype Status = Running | Cancelling | Completed | Cancelled | Failed

  datatype Kind =
    | MessageDelta(delta: string)
    | ReasoningDelta(id: string, text: string)
    | MessageCompleted(message: string)
    | ToolEvent(name: string)
    | RunCompleted
    | RunCancelled(reason: Option<string>)
    | RunFailed(code: string)

  datatype Event = Event(sequence: nat, kind: Kind)

  const PERSISTENCE_FAILED := "OBSERVATION_PERSISTENCE_FAILED"

  predicate Ends(kind: Kind) { kind.RunCompleted? || kind.RunCancelled? || kind.RunFailed? }

  function EndStatus(kind: Kind): Status
    requires Ends(kind)
  {
    if kind.RunCompleted? then Completed else if kind.RunCancelled? then Cancelled else Failed
  }

  /** The text a reader of the log has: the last whole message, and the deltas since. */
  function Streamed(events: seq<Event>): string
  {
    if events == [] then ""
    else
      var kind := events[|events| - 1].kind;
      if kind.MessageCompleted? then kind.message
      else Streamed(events[..|events| - 1]) + (if kind.MessageDelta? then kind.delta else "")
  }

  function Reasoning(events: seq<Event>, id: string): string
  {
    if events == [] then ""
    else
      var kind := events[|events| - 1].kind;
      Reasoning(events[..|events| - 1], id) + (if kind.ReasoningDelta? && kind.id == id then kind.text else "")
  }

  lemma ReadsOn(events: seq<Event>, event: Event)
    ensures Streamed(events + [event]) ==
            if event.kind.MessageCompleted? then event.kind.message
                else Streamed(events) + (if event.kind.MessageDelta? then event.kind.delta else "")
    ensures HasMessage(events + [event]) <==> HasMessage(events) || event.kind.MessageCompleted?
    ensures forall id :: Reasoning(events + [event], id) ==
                         Reasoning(events, id)
                             + (if event.kind.ReasoningDelta? && event.kind.id == id then event.kind.text else "")
  {
  }

  ghost predicate ReasoningRead(reasoning: map<string, string>, events: seq<Event>)
  {
    forall id :: SummaryOf(reasoning, id) == Reasoning(events, id)
  }

  function SummaryOf(reasoning: map<string, string>, id: string): string
  {
    if id in reasoning then reasoning[id] else ""
  }

  lemma ReasoningOn(reasoning: map<string, string>, events: seq<Event>, event: Event)
    requires ReasoningRead(reasoning, events)
    ensures ReasoningRead(if event.kind.ReasoningDelta?
                          then reasoning[event.kind.id := SummaryOf(reasoning, event.kind.id) + event.kind.text]
                          else reasoning, events + [event])
  {
    ReadsOn(events, event);
    hide Reasoning, Streamed, HasMessage;
  }

  lemma EndBehind(events: seq<Event>, end: Event)
    ensures SomeEnd(events + [end]) <==> SomeEnd(events) || Ends(end.kind)
    ensures Ends(end.kind) ==> (EndsAtLast(events + [end]) <==> !SomeEnd(events))
  {
    assert (events + [end])[|events|] == end;
    if i :| 0 <= i < |events| && Ends(events[i].kind) {
      assert (events + [end])[i] == events[i];
    }
  }

  predicate HasMessage(events: seq<Event>) { exists i :: 0 <= i < |events| && events[i].kind.MessageCompleted? }

  /** Every event that ends the run is the last one. */
  predicate EndsAtLast(events: seq<Event>)
  {
    forall i :: 0 <= i < |events| && Ends(events[i].kind) ==> i == |events| - 1
  }

  predicate SomeEnd(events: seq<Event>) { exists i :: 0 <= i < |events| && Ends(events[i].kind) }

  /** What a cancelled run may still append: its partial message, and the event that ends it. */
  predicate OwnEnd(events: seq<Event>)
  {
    || (|events| == 1 && Ends(events[0].kind))
    || (|events| == 2 && events[0].kind.MessageCompleted? && events[1].kind.RunCancelled?)
  }

  /** The event may end a log that was frozen there. */
  predicate EndsFrozen(events: seq<Event>, frozen: nat, kind: Kind)
    requires frozen <= |events|
  {
    OwnEnd(events[frozen..] + [Event(0, kind)])
  }

  lemma FrozenEnds(events: seq<Event>, frozen: nat, kind: Kind, sequence: nat)
    requires frozen <= |events| && EndsFrozen(events, frozen, kind)
    ensures OwnEnd((events + [Event(sequence, kind)])[frozen..])
  {
    assert (events + [Event(sequence, kind)])[frozen..] == events[frozen..] + [Event(sequence, kind)];
  }

  lemma EndsBehindPartial(events: seq<Event>, partial: Event, reason: Option<string>)
    requires partial.kind.MessageCompleted?
    ensures EndsFrozen(events + [partial], |events|, RunCancelled(reason))
  {
    assert (events + [partial])[|events|..] == [partial];
  }

  class RunState {
    const persists: bool
    var status: Status
    var sequence: nat
    var closed: bool
    var cancellationStarted: bool
    var messageCompleted: bool
    var streamedText: string
    var reasoning: map<string, string>
    var events: seq<Event>
    /** How many events the queue of writes is done with. */
    var settled: nat
    var persistenceFailed: bool
    /** Where the log stood when cancellation started. */
    ghost var frozen: nat
    /** Whether an event that ends the run came in from outside, by `Emit`. */
    ghost var strayEnd: bool

    /** The log ends the run at most once, with its last event, and the status agrees. */
    ghost predicate EndsOnce()
      reads this
    {
      && EndsAtLast(events)
      && (closed <==> events != [] && Ends(events[|events| - 1].kind))
      && (closed ==> status == EndStatus(events[|events| - 1].kind))
    }

    ghost predicate Numbered()
      reads this`sequence, this`events
    {
      sequence == |events| && forall i :: 0 <= i < |events| ==> events[i].sequence == i + 1
    }

    ghost predicate Read()
      reads this`streamedText, this`messageCompleted, this`reasoning, this`events
    {
      && streamedText == Streamed(events)
      && (messageCompleted <==> HasMessage(events))
      && ReasoningRead(reasoning, events)
    }

    ghost predicate Valid()
      reads this
    {
      && Numbered() && Read()
      && (!closed ==> status == if cancellationStarted then Cancelling else Running)
      && (closed ==> events != [] && Ends(events[|events| - 1].kind) && status == EndStatus(events[|events| - 1].kind))
      && settled <= |events| && (persistenceFailed ==> closed)
      && (strayEnd <==> !EndsOnce())
      && (cancellationStarted ==> frozen <= |events| && if closed then OwnEnd(events[frozen..]) else frozen == |events|)
    }

    constructor (persists: bool)
      ensures Valid() && events == [] && status == Running && !closed && !strayEnd && !cancellationStarted
    {
      this.persists, status, sequence, closed := persists, Running, 0, false;
      cancellationStarted, messageCompleted, persistenceFailed := false, false, false;
      streamedText, reasoning, events, settled := "", map[], [], 0;
      frozen, strayEnd := 0, false;
    }

    /** `emitRuntimeEvent` once it appends. */
    method Append(kind: Kind)
      requires Numbered() && Read()
      modifies `sequence, `streamedText, `reasoning, `messageCompleted, `events
      ensures Numbered() && Read()
      ensures events == old(events) + [Event(|old(events)| + 1, kind)]
    {
      hide Streamed, Reasoning, HasMessage, ReasoningRead;
      sequence := sequence + 1;
      var event := Event(sequence, kind);
      ReadsOn(events, event);
      ReasoningOn(reasoning, events, event);
      if kind.MessageDelta? { streamedText := streamedText + kind.delta; }
      if kind.ReasoningDelta? {
        reasoning := reasoning[kind.id := SummaryOf(reasoning, kind.id) + kind.text];
      }
      if kind.MessageCompleted? {
        messageCompleted := true;
        streamedText := kind.message;
      }
      events := events + [event];
    }

    /** Nothing is appended to a closed run, or to one whose cancellation has started. */
    method Emit(kind: Kind)
      requires Valid()
      modifies this
      ensures Valid() && closed == old(closed) && status == old(status)
          && cancellationStarted == old(cancellationStarted)
      ensures events == old(events) + (if closed || cancellationStarted then [] else [Event(|old(events)| + 1, kind)])
      ensures strayEnd == (old(strayEnd) || (!closed && !cancellationStarted && Ends(kind)))
      ensures settled == old(settled) && persistenceFailed == old(persistenceFailed)
    {
      hide Streamed, Reasoning, HasMessage, Read;
      if closed || cancellationStarted { return; }
      ghost var before := events;
      Append(kind);
      strayEnd := strayEnd || Ends(kind);
      assert events[..|before|] == before;
      assert EndsAtLast(before) && !(before != [] && Ends(before[|before| - 1].kind)) ==> EndsAtLast(events);
      assert !EndsAtLast(before) ==> !EndsAtLast(events) by {
        if !EndsAtLast(before) {
          var i :| 0 <= i < |before| && Ends(before[i].kind) && i != |before| - 1;
          assert events[i] == before[i];
        }
      }
      assert before != [] && Ends(before[|before| - 1].kind) ==> events[|before| - 1] == before[|before| - 1];
    }

    method CompleteMessage(text: string)
      requires Valid()
      modifies this
      ensures Valid() && closed == old(closed) && strayEnd == old(strayEnd) && settled == old(settled)
      ensures cancellationStarted == old(cancellationStarted)
      ensures events == old(events)
          + (if closed || cancellationStarted then [] else [Event(|old(events)| + 1, MessageCompleted(text))])
    {
      Emit(MessageCompleted(text));
    }

    method Message(text: string)
      requires Valid()
      modifies this
      ensures Valid() && closed == old(closed) && strayEnd == old(strayEnd) && settled == old(settled)
      ensures cancellationStarted == old(cancellationStarted)
      ensures events == old(events) + (if closed || cancellationStarted then []
                                       else [Event(|old(events)| + 1, MessageDelta(text)),
                                           Event(|old(events)| + 2, MessageCompleted(text))])
    {
      hide Streamed, Reasoning, HasMessage;
      Emit(MessageDelta(text));
      CompleteMessage(text);
    }

    /** Freezes the log, and returns what was streamed of a message that is not complete. */
    method BeginCancellation() returns (partial: Option<string>)
      requires Valid()
      modifies this
      ensures Valid() && events == old(events) && closed == old(closed) && strayEnd == old(strayEnd)
          && settled == old(settled)
      ensures !closed ==> status == Cancelling && cancellationStarted
      ensures partial == if !closed && !HasMessage(events) && Streamed(events) != "" then Some(Streamed(events))
          else None
    {
      if closed { return None; }
      if !cancellationStarted { frozen := |events|; }
      status := Cancelling;
      cancellationStarted := true;
      partial := if !messageCompleted && |streamedText| > 0 then Some(streamedText) else None;
    }

    /** The event that ends the run, and the close behind it. */
    method Close(kind: Kind)
      requires Ends(kind) && Numbered() && Read() && !closed && settled <= |events|
      requires cancellationStarted ==> frozen <= |events| && EndsFrozen(events, frozen, kind)
      requires strayEnd <==> SomeEnd(events)
      modifies this
      ensures Valid() && closed && status == EndStatus(kind) && strayEnd == old(strayEnd) && settled == old(settled)
      ensures events == old(events) + [Event(|old(events)| + 1, kind)]
      ensures persistenceFailed == old(persistenceFailed)
    {
      hide Streamed, Reasoning, HasMessage, Read, EndsAtLast, SomeEnd, OwnEnd, EndsFrozen;
      status := EndStatus(kind);
      ghost var before := events;
      EndBehind(before, Event(|before| + 1, kind));
      Append(kind);
      closed := true;
      assert events[|before|].kind == kind && forall i :: 0 <= i < |before| ==> events[i] == before[i];
      if cancellationStarted { FrozenEnds(before, frozen, kind, |before| + 1); }
    }

    method Complete()
      requires Valid()
      modifies this
      ensures Valid() && closed && strayEnd == old(strayEnd) && settled == old(settled)
      ensures events == old(events) + (if old(closed) then [] else [Event(|old(events)| + 1, RunCompleted)])
      ensures status == if old(closed) then old(status) else Completed
    {
      if closed { return; }
      Close(RunCompleted);
    }

    method Fail(code: string)
      requires Valid()
      modifies this
      ensures Valid() && closed && strayEnd == old(strayEnd) && settled == old(settled)
      ensures events == old(events) + (if old(closed) then [] else [Event(|old(events)| + 1, RunFailed(code))])
      ensures status == if old(closed) then old(status) else Failed
      ensures persistenceFailed == old(persistenceFailed)
    {
      if closed { return; }
      Close(RunFailed(code));
    }

    /** A partial message is appended only where no message was completed. */
    method Cancel(reason: Option<string>, partial: Option<string>)
      requires Valid()
      modifies this
      ensures Valid() && closed && strayEnd == old(strayEnd) && settled == old(settled)
      ensures status == if old(closed) then old(status) else Cancelled
      ensures events == old(events) +
                        (if old(closed) then []
                         else if partial.Some? && !HasMessage(old(events)) then
                           [Event(|old(events)| + 1, MessageCompleted(partial.value)),
                               Event(|old(events)| + 2, RunCancelled(reason))]
                         else [Event(|old(events)| + 1, RunCancelled(reason))])
    {
      if closed { return; }
      hide Streamed, Reasoning, EndsOnce, SomeEnd, EndsAtLast, OwnEnd, EndsFrozen, Numbered;
      if !cancellationStarted { frozen := |events|; }
      cancellationStarted := true;
      if partial.Some? && !messageCompleted {
        CloseBehind(partial.value, reason);
      } else {
        Close(RunCancelled(reason));
      }
    }

    /** The partial message, and behind it the cancellation. */
    method CloseBehind(text: string, reason: Option<string>)
      requires Numbered() && Read() && !closed && settled <= |events|
      requires cancellationStarted && frozen == |events| && (strayEnd <==> SomeEnd(events))
      modifies this
      ensures Valid() && closed && status == Cancelled && strayEnd == old(strayEnd) && settled == old(settled)
      ensures events == old(events)
          + [Event(|old(events)| + 1, MessageCompleted(text)), Event(|old(events)| + 2, RunCancelled(reason))]
    {
      hide Streamed, Reasoning, HasMessage, Read, EndsOnce, SomeEnd, EndsAtLast, OwnEnd, EndsFrozen;
      ghost var message := Event(|events| + 1, MessageCompleted(text));
      EndsBehindPartial(events, message, reason);
      AppendPartial(text);
      Close(RunCancelled(reason));
    }

    /** The partial message of a run that is being cancelled. */
    method AppendPartial(text: string)
      requires Numbered() && Read()
      modifies `sequence, `streamedText, `reasoning, `messageCompleted, `events
      ensures Numbered() && Read() && (SomeEnd(events) <==> SomeEnd(old(events)))
      ensures events == old(events) + [Event(|old(events)| + 1, MessageCompleted(text))]
    {
      EndBehind(events, Event(|events| + 1, MessageCompleted(text)));
      Append(MessageCompleted(text));
    }

    /** The write of the next event in the queue settles. A failed one fails the run, once, unless it is closed. */
    method SettleWrite(ok: bool)
      requires Valid() && persists && settled < |events|
      modifies this
      ensures Valid() && settled == old(settled) + 1 && strayEnd == old(strayEnd)
      ensures closed == (old(closed) || !ok)
      ensures events == old(events)
          + (if ok || old(closed) then [] else [Event(|old(events)| + 1, RunFailed(PERSISTENCE_FAILED))])
    {
      hide Streamed, Reasoning, HasMessage;
      settled := settled + 1;
      if !ok && !closed && !persistenceFailed {
        Fail(PERSISTENCE_FAILED);
        persistenceFailed := true;
      }
    }

    twostate predicate GrewSince()
      reads this
    {
      && old(events) <= events && (old(closed) ==> closed && events == old(events))
      && old(settled) <= settled && (old(strayEnd) ==> strayEnd)
    }

    /** What the run may do while an observer waits. */
    method Interfere()
      requires Valid()
      modifies this
      ensures Valid() && GrewSince()
    {
      var n: int := *;
      while n > 0
        invariant Valid() && GrewSince()
        decreases n
      {
        n := n - 1;
        Act();
      }
    }

    method Act()
      requires Valid()
      modifies this
      ensures Valid() && GrewSince()
    {
      var kind: Kind, text: Option<string>, ok: bool := *, *, *;
      if
      case true => Emit(kind);
      case text.Some? => Message(text.value);
      case true => var partial := BeginCancellation();
      case true => Complete();
      case true => Cancel(None, text);
      case true => Fail("INTERNAL");
      case persists && settled < |events| => SettleWrite(ok);
      case true =>
    }

    /** Waits for the writes queued so far. */
    method AwaitWrites()
      requires Valid()
      modifies this
      ensures Valid() && GrewSince()
      ensures persists ==> settled >= |old(events)|
    {
      var queued := |events|;
      Interfere();
      while persists && settled < queued
        invariant Valid() && GrewSince()
        decreases queued - settled
      {
        var ok: bool := *;
        SettleWrite(ok);
      }
    }

    /** Where an observer begins: behind `after`, or behind everything there is. */
    function StartIndex(after: nat): nat
      reads this
    {
      if after < |events| then after else |events|
    }

    method FindIndex(after: nat) returns (index: nat)
      requires Valid()
      ensures index == StartIndex(after) <= |events|
      ensures forall i :: 0 <= i < index ==> events[i].sequence <= after
      ensures index < |events| ==> events[index].sequence > after
    {
      index := 0;
      while index < |events| && events[index].sequence <= after
        invariant 0 <= index <= |events| && index <= after
      {
        index := index + 1;
      }
    }

    /**
     The observer, until it ends or its reader leaves after so many turns. It yields exactly the log
     from where it began, an event a turn while there is one; once it has yielded all of a closed
     run, the stores are written through its end.
     */
    method Observe(after: nat, turns: nat) returns (yielded: seq<Event>, finished: bool)
      requires Valid()
      modifies this
      ensures Valid() && GrewSince() && old(StartIndex(after)) + |yielded| <= |events|
      ensures yielded == events[old(StartIndex(after))..][..|yielded|]
      ensures after <= old(|events|) ==> forall i :: 0 <= i < |yielded| ==> yielded[i].sequence == after + i + 1
      ensures old(StartIndex(after)) + |yielded| >= old(|events|) || |yielded| == turns
      ensures old(closed) && old(StartIndex(after)) + turns > old(|events|) ==> finished
      ensures finished ==> closed && yielded == events[old(StartIndex(after))..] && (persists ==> settled == |events|)
      ensures !strayEnd && yielded != [] && Ends(yielded[|yielded| - 1].kind) ==> EndIsStored()
    {
      var start := FindIndex(after);
      yielded, finished := YieldFrom(start, turns);
      NumbersFrom(start, yielded);
    }

    /** What an observer yields from its first event on. */
    method YieldFrom(start: nat, turns: nat) returns (yielded: seq<Event>, finished: bool)
      requires Valid() && start <= |events|
      modifies this
      ensures Valid() && GrewSince() && start + |yielded| <= |events|
      ensures yielded == events[start..start + |yielded|]
      ensures start + |yielded| >= old(|events|) || |yielded| == turns
      ensures old(closed) && start + turns > old(|events|) ==> finished
      ensures finished ==> closed && start + |yielded| == |events| && (persists ==> settled == |events|)
      ensures !strayEnd && yielded != [] && Ends(yielded[|yielded| - 1].kind) ==> EndIsStored()
    {
      hide Numbered, Read, EndsOnce, OwnEnd, EndStatus;
      var index := start;
      yielded, finished := [], false;
      for turn := 0 to turns
        invariant Valid() && GrewSince() && start <= index <= |events| && yielded == events[start..index]
        invariant !strayEnd && yielded != [] && Ends(yielded[|yielded| - 1].kind) ==> EndIsStored()
        invariant index >= old(|events|) || |yielded| == turn
        invariant old(closed) ==> |yielded| == turn
      {
        if index < |events| {
          ghost var before := events;
          var event := TakeNext(index);
          assert events[start..index] == before[start..index]
              && events[start..index + 1] == events[start..index] + [event];
          yielded := yielded + [event];
          index := index + 1;
        } else if closed {
          AwaitWrites();
          finished := true;
          return;
        } else {
          Interfere();
        }
      }
    }

    lemma NumbersFrom(start: nat, yielded: seq<Event>)
      requires Valid() && start + |yielded| <= |events| && yielded == events[start..start + |yielded|]
      ensures forall i :: 0 <= i < |yielded| ==> yielded[i].sequence == start + i + 1
    {
    }

    /** The next event of an observer. An end is given only once the writes queued so far are through. */
    method TakeNext(index: nat) returns (event: Event)
      requires Valid() && index < |events|
      modifies this
      ensures Valid() && GrewSince() && event == old(events)[index] && event == events[index]
      ensures !strayEnd && Ends(event.kind) ==> EndIsStored()
    {
      event := events[index];
      if Ends(event.kind) { AwaitWrites(); } else { Interfere(); }
    }

    predicate EndIsStored()
      reads this
    {
      closed && (persists ==> settled == |events|)
    }
  }
}
