/**
 The observer of a run that a worker executes. It reads the stored events in batches and waits
 between two reads; it subscribes before it reads, so that no event falls between the two.
 */
module RunObservation {
  import opened RunLog
  import opened RunSignal

  const BATCH_SIZE := 100

  /** What an observer that has read up to `sequence` has still to read. */
  function Behind(events: seq<Event>, sequence: nat): seq<Event>
  {
    if sequence <= |events| then events[sequence..] else []
  }

  function Batch(events: seq<Event>, sequence: nat): seq<Event>
  {
    var behind := Behind(events, sequence);
    if |behind| <= BATCH_SIZE then behind else behind[..BATCH_SIZE]
  }

  /** How many events so many turns yield of what is stored when they begin. */
  function AtLeast(events: seq<Event>, sequence: nat, turns: nat): nat
  {
    if |Behind(events, sequence)| <= turns * BATCH_SIZE then |Behind(events, sequence)| else turns * BATCH_SIZE
  }

  predicate HasEnd(events: seq<Event>) { events != [] && Terminal(events[|events| - 1]) }

  predicate AnyEnd(batch: seq<Event>) { exists i :: 0 <= i < |batch| && Terminal(batch[i]) }

  lemma BatchIsBehind(events: seq<Event>, sequence: nat)
    requires InOrder(events, 0)
    ensures Batch(events, sequence) <= Behind(events, sequence)
    ensures Batch(events, sequence) == [] ==> |events| <= sequence
    ensures AnyEnd(Batch(events, sequence)) ==> HasEnd(events) && Batch(events, sequence) == Behind(events, sequence)
  {
  }

  /** One read holds what one turn yields at least, and the end of a run that is within its reach. */
  lemma BatchReaches(events: seq<Event>, sequence: nat)
    ensures |Batch(events, sequence)| == AtLeast(events, sequence, 1)
    ensures HasEnd(events) && |events| <= sequence + BATCH_SIZE ==>
        if |events| <= sequence then Batch(events, sequence) == [] else AnyEnd(Batch(events, sequence))
  {
    if HasEnd(events) && sequence < |events| <= sequence + BATCH_SIZE {
      assert Batch(events, sequence)[|events| - 1 - sequence] == events[|events| - 1];
    }
  }

  /** One turn more yields what one more batch holds. */
  lemma OneTurnMore(events: seq<Event>, now: seq<Event>, after: nat, turns: nat, yielded: nat, batch: nat)
    requires events <= now && yielded >= AtLeast(events, after, turns)
    requires batch >= AtLeast(now, after + yielded, 1)
    ensures yielded + batch >= AtLeast(events, after, turns + 1)
    ensures |events| > after + yielded + BATCH_SIZE ==> |events| > after + (turns + 1) * BATCH_SIZE
  {
  }

  lemma AllIsEnough(events: seq<Event>, now: seq<Event>, after: nat, turns: nat)
    requires events <= now
    ensures |Behind(now, after)| >= AtLeast(events, after, turns)
  {
  }

  lemma BehindIsNumbered(events: seq<Event>, after: nat, yielded: seq<Event>)
    requires InOrder(events, 0) && yielded <= Behind(events, after)
    ensures forall i :: 0 <= i < |yielded| ==> yielded[i].sequence == after + i + 1
  {
  }

  lemma NoTurnYet(events: seq<Event>, after: nat)
    ensures AtLeast(events, after, 0) == 0 && [] <= Behind(events, after)
  {
  }

  lemma NothingBehind(events: seq<Event>, sequence: nat)
    requires |events| <= sequence
    ensures Behind(events, sequence) == []
  {
  }

  lemma BehindGrows(a: seq<Event>, b: seq<Event>, sequence: nat)
    requires a <= b
    ensures Behind(a, sequence) <= Behind(b, sequence)
  {
  }

  /** The stored events of one run, the signal of this process, and everybody else who uses both. */
  class Observed {
    const run: RunId
    const signal: Signal
    var events: seq<Event>
    /** The worker has stored an event and not told of it yet. */
    var owed: bool
    /** The subscriptions of all other observers, of this run and of others. */
    var others: seq<Subscription>

    ghost predicate Valid()
      reads this, signal, signal.sets
    {
      && signal.Valid() && InOrder(events, 0)
      && forall i :: 0 <= i < |others| ==> others[i] in signal.all
    }

    constructor (run: RunId)
      ensures Valid() && this.run == run && events == [] && fresh(signal) && fresh(signal.sets)
    {
      this.run, events, owed, others := run, [], false, [];
      signal := new Signal();
    }

    /**
     `s` is one observer's own, and what was stored beyond `sequence` has woken it, or will by a
     notification still to come.
     */
    ghost predicate Heard(s: Subscription, sequence: nat)
      reads this, signal
    {
      && s in signal.all && s.run == run && s !in others
      && (s.resolver in signal.live || s.resolver in signal.woken)
      && (|events| > sequence ==> s.resolver in signal.woken || owed)
    }

    twostate predicate Goes()
      reads this
    {
      old(events) <= events && (HasEnd(old(events)) ==> events == old(events))
    }

    /** The worker stores an event, which it cannot behind the end of the run. */
    method Store(kind: Kind)
      requires Valid()
      modifies this`events, this`owed
      ensures Valid() && Goes() && (events == old(events) || owed) && (old(owed) ==> owed)
    {
      if HasEnd(events) { return; }
      events := events + [Event(|events| + 1, kind)];
      owed := true;
    }

    /** The worker tells of what it stored. */
    method Tell()
      requires Valid()
      modifies this`owed, signal
      ensures Valid() && !owed && signal.all == old(signal.all) && signal.sets == old(signal.sets)
      ensures forall id: nat :: id in signal.woken <==>
          id in old(signal.woken) || (id in old(signal.live) && signal.all[id].run == run)
      ensures forall id: nat :: id in signal.live <==> id in old(signal.live) && signal.all[id].run != run
    {
      signal.Notify(run);
      owed := false;
    }

    method OthersSubscribe(name: RunId, ghost mine: Subscription)
      requires Valid() && mine in signal.all && mine !in others
      modifies this`others, signal, signal.sets
      ensures Valid() && mine in signal.all && mine !in others
      ensures old(signal.sets) <= signal.sets && fresh(signal.sets - old(signal.sets))
      ensures signal.woken == old(signal.woken) && old(signal.live) <= signal.live
    {
      ghost var n := |signal.all|;
      var s := signal.Subscribe(name);
      assert mine.resolver < n;
      others := others + [s];
    }

    method OthersStop(k: nat, ghost mine: Subscription)
      requires Valid() && k < |others| && mine in signal.all && mine !in others
      modifies signal, signal.sets
      ensures Valid() && signal.all == old(signal.all) && signal.sets == old(signal.sets)
          && signal.woken == old(signal.woken)
      ensures mine.resolver in old(signal.live) ==> mine.resolver in signal.live
    {
      assert others[k].resolver != mine.resolver;
      signal.Stop(others[k]);
    }

    method Act(ghost mine: Subscription, ghost sequence: nat)
      requires Valid() && Heard(mine, sequence)
      modifies this, signal, signal.sets
      ensures Valid() && Goes() && Heard(mine, sequence)
      ensures old(signal.sets) <= signal.sets && fresh(signal.sets - old(signal.sets))
    {
      var kind: Kind, name: RunId, k: int := *, *, *;
      assert signal.all[mine.resolver] == mine;
      if
      case true => Store(kind);
      case true => Tell();
      case name != run => signal.Notify(name);
      case true => OthersSubscribe(name, mine);
      case 0 <= k < |others| => OthersStop(k, mine);
    }

    /** What happens while the observer waits for an answer, or for its reader. */
    method Interfere(ghost mine: Subscription, ghost sequence: nat)
      requires Valid() && Heard(mine, sequence)
      modifies this, signal, signal.sets
      ensures Valid() && Goes() && Heard(mine, sequence)
      ensures old(signal.sets) <= signal.sets && fresh(signal.sets - old(signal.sets))
    {
      var n: int := *;
      while n > 0
        invariant Valid() && Goes() && Heard(mine, sequence)
        invariant old(signal.sets) <= signal.sets && fresh(signal.sets - old(signal.sets))
        decreases n
      {
        n := n - 1;
        Act(mine, sequence);
      }
    }

    /**
     Ends at the next poll, or earlier when the subscription is woken. Nothing is waited for that
     was stored without waking it: every event beyond the last one read is heard of.
     */
    method WaitForNextRead(mine: Subscription, ghost sequence: nat)
      requires Valid() && Heard(mine, sequence)
      modifies this, signal, signal.sets
      ensures Valid() && Goes() && Heard(mine, sequence)
      ensures old(signal.sets) <= signal.sets && fresh(signal.sets - old(signal.sets))
    {
      Interfere(mine, sequence);
    }

    method Begin() returns (mine: Subscription)
      requires Valid()
      modifies this, signal, signal.sets
      ensures Valid() && events == old(events) && Heard(mine, |events|)
      ensures old(signal.sets) <= signal.sets && fresh(signal.sets - old(signal.sets))
    {
      ghost var n := |signal.all|;
      mine := signal.Subscribe(run);
      assert mine !in others by {
        if mine in others { assert false; }
      }
    }

    method Stop(mine: Subscription)
      requires Valid() && mine in signal.all
      modifies signal, signal.sets
      ensures Valid() && signal.sets == old(signal.sets)
    {
      signal.Stop(mine);
    }

    /**
     One turn of the observer: a read, and a wait where nothing came. What was stored before and not
     read is yielded, as much of it as a batch holds, and a run that ended before is finished with it.
     */
    method Turn(sequence: nat) returns (batch: seq<Event>, finished: bool)
      requires Valid()
      modifies this, signal, signal.sets
      ensures Valid() && Goes() && batch <= Behind(events, sequence)
      ensures finished ==> HasEnd(events) && batch == Behind(events, sequence)
      ensures |batch| >= AtLeast(old(events), sequence, 1)
      ensures old(HasEnd(events)) && old(|events|) <= sequence + BATCH_SIZE ==> finished
      ensures old(signal.sets) <= signal.sets && fresh(signal.sets - old(signal.sets))
    {
      hide Batch, Behind, InOrder, AnyEnd, AtLeast, HasEnd, Observed.Heard;
      BatchReaches(events, sequence);
      var mine := Begin();
      batch := ReadBatch(mine, sequence);
      finished := AnyEnd(batch);
      if batch == [] {
        if HasEnd(events) && sequence >= |events| {
          NothingBehind(events, sequence);
          finished := true;
        } else {
          WaitForNextRead(mine, sequence);
        }
      }
      Stop(mine);
    }

    /** `listRunObservations`, and what happens before its answer is here and while it is read. */
    method ReadBatch(mine: Subscription, sequence: nat) returns (batch: seq<Event>)
      requires Valid() && Heard(mine, |events|)
      modifies this, signal, signal.sets
      ensures Valid() && Goes() && batch <= Behind(events, sequence)
      ensures AnyEnd(batch) ==> HasEnd(events) && batch == Behind(events, sequence)
      ensures |batch| >= |Batch(old(events), sequence)|
      ensures old(HasEnd(events)) ==> batch == Batch(old(events), sequence)
      ensures mine in signal.all && (batch == [] ==> Heard(mine, sequence))
      ensures old(signal.sets) <= signal.sets && fresh(signal.sets - old(signal.sets))
    {
      hide InOrder, AnyEnd;
      Interfere(mine, |events|);
      batch := Batch(events, sequence);
      ghost var seen := events;
      BatchIsBehind(seen, sequence);
      Interfere(mine, |seen|);
      BehindGrows(seen, events, sequence);
    }

    /**
     The observer, until it ends or its reader leaves after so many turns: it yields every event
     behind `after`, once and in order, at least those stored before that its turns hold, and it ends
     only where the run has ended and nothing of it is left to yield. A run that ended before it
     finishes as soon as the turns hold what is left.
     */
    method Observe(after: nat, turns: nat) returns (yielded: seq<Event>, finished: bool)
      requires Valid()
      modifies this, signal, signal.sets
      ensures Valid() && Goes() && yielded <= Behind(events, after)
      ensures finished ==> HasEnd(events) && yielded == Behind(events, after)
      ensures |yielded| >= AtLeast(old(events), after, turns)
      ensures old(HasEnd(events)) && turns > 0 && old(|events|) <= after + turns * BATCH_SIZE ==> finished
      ensures forall i :: 0 <= i < |yielded| ==> yielded[i].sequence == after + i + 1
    {
      hide Behind, InOrder, HasEnd, AtLeast, Heard;
      NoTurnYet(events, after);
      var sequence := after;
      yielded, finished := [], false;
      for turn := 0 to turns
        invariant Valid() && Goes() && yielded <= Behind(events, after) && sequence == after + |yielded|
        invariant |yielded| >= AtLeast(old(events), after, turn) && !finished
        invariant old(HasEnd(events)) && turn > 0 ==> old(|events|) > after + turn * BATCH_SIZE
        invariant old(signal.sets) <= signal.sets && fresh(signal.sets - old(signal.sets))
      {
        ghost var before := events;
        var batch, ended := Turn(sequence);
        Further(before, events, after, yielded, batch);
        OneTurnMore(old(events), before, after, turn, |yielded|, |batch|);
        yielded := yielded + batch;
        if batch != [] { sequence := batch[|batch| - 1].sequence; }
        if ended {
          AllIsEnough(old(events), events, after, turns);
          finished := true;
          break;
        }
      }
      BehindIsNumbered(events, after, yielded);
    }

    lemma Further(before: seq<Event>, now: seq<Event>, after: nat, yielded: seq<Event>, batch: seq<Event>)
      requires before <= now && InOrder(now, 0) && yielded <= Behind(before, after)
          && batch <= Behind(now, after + |yielded|)
      ensures yielded + batch <= Behind(now, after)
      ensures batch != [] ==> batch[|batch| - 1].sequence == after + |yielded| + |batch|
      ensures batch == Behind(now, after + |yielded|) ==> yielded + batch == Behind(now, after)
    {
    }
  }
}
