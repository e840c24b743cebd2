/**
 Where the events of a run are while its worker executes it: what the store holds was given to
 the worker, and what was given is stored, waits, is on its way, or was in a write that failed.
 Numbers then make order and wholeness of what is stored out of that.
 */
module RunTrace {
  import opened Optional
  import opened RunLog

  /**
   `given` are the events the worker was told to append, in order. Of those, `inHand` are in the
   write it is making and `held` wait behind the answer; `underway` are the writes begun beside
   it, and `givenUp` those reported as failed.
   */
  datatype Books = Books(given: seq<Event>, inHand: seq<Event>, held: seq<Event>, underway: seq<Entry>,
      givenUp: seq<Entry>)

  predicate InSome(entries: seq<Entry>, e: Event)
  {
    exists i :: 0 <= i < |entries| && entries[i].Stored? && e in entries[i].events
  }

  /** Where a stored event comes from; `knows` is the request to cancel the worker knows of. */
  predicate Traced(log: seq<Entry>, given: seq<Event>, knows: Option<Option<string>>, e: Event)
  {
    e in given || Buried(e) in log || CancelledFor(given, knows, e)
  }

  /** The cancellation that ends the run in place of an event that would end it. */
  predicate CancelledFor(given: seq<Event>, knows: Option<Option<string>>, e: Event)
  {
    && e.kind.RunCancelled? && knows == Some(e.kind.reason)
    && exists k :: 0 <= k < |given| && Terminal(given[k]) && given[k].sequence == e.sequence
  }

  predicate Accounted(log: seq<Entry>, books: Books, e: Event)
  {
    || e in EventsOf(log) || e in books.inHand || e in books.held
    || InSome(books.underway, e) || InSome(books.givenUp, e)
    || (Terminal(e) && exists i ::
        0 <= i < |EventsOf(log)| && EventsOf(log)[i].kind.RunCancelled? && EventsOf(log)[i].sequence == e.sequence)
  }

  ghost predicate Balanced(log: seq<Entry>, books: Books, knows: Option<Option<string>>)
  {
    && (forall e :: e in EventsOf(log) ==> Traced(log, books.given, knows, e))
    && (forall e :: e in books.given ==> Accounted(log, books, e))
    && (forall e :: e in books.inHand ==> e in books.given)
    && Unended(books.given, books.held)
    && (forall i :: 0 <= i < |books.underway| ==>
        books.underway[i].Stored? && Unended(books.given, books.underway[i].events))
    && forall i :: 0 <= i < |books.givenUp| ==> WasGiven(books.given, books.givenUp[i])
  }

  /** A write of events that were given. */
  predicate WasGiven(given: seq<Event>, entry: Entry)
  {
    entry.Stored? && forall e :: e in entry.events ==> e in given
  }

  /** Events that were given and do not end the run. */
  predicate Unended(given: seq<Event>, events: seq<Event>)
  {
    forall e :: e in events ==> e in given && !Terminal(e)
  }

  lemma EventsGrow(log: seq<Entry>, entry: Entry)
    ensures EventsOf(log + [entry]) == EventsOf(log) + Added(entry)
  {
    assert (log + [entry])[..|log|] == log;
  }

  // ----- what keeps the books balanced

  /** A transaction that stores what can be traced. */
  lemma Grows(log: seq<Entry>, entry: Entry, books: Books, knows: Option<Option<string>>)
    requires Balanced(log, books, knows)
    requires entry.Stored? ==> forall e :: e in entry.events ==> Traced(log, books.given, knows, e)
    ensures Balanced(log + [entry], books, knows)
  {
    EventsGrow(log, entry);
    hide EventsOf;
    forall e | e in EventsOf(log + [entry]) ensures Traced(log + [entry], books.given, knows, e) {
      if e in Added(entry) && entry.Buried? { assert (log + [entry])[|log|] == Buried(e); }
    }
    forall e | e in books.given ensures Accounted(log + [entry], books, e) {
      assert Accounted(log, books, e);
      StaysAccounted(log, entry, books, e);
    }
  }

  lemma StaysAccounted(log: seq<Entry>, entry: Entry, books: Books, e: Event)
    requires Accounted(log, books, e)
    ensures Accounted(log + [entry], books, e)
  {
    EventsGrow(log, entry);
    hide EventsOf;
    if i :| 0 <= i < |EventsOf(log)| && EventsOf(log)[i].kind.RunCancelled? && EventsOf(log)[i].sequence == e.sequence {
      assert EventsOf(log + [entry])[i] == EventsOf(log)[i];
    }
  }

  /** A request to cancel becomes known. */
  lemma Learns(log: seq<Entry>, books: Books, knows: Option<Option<string>>, reason: Option<string>)
    requires Balanced(log, books, knows) && knows.None?
    ensures Balanced(log, books, Some(reason))
  {
    hide EventsOf;
    forall e | e in EventsOf(log) ensures Traced(log, books.given, Some(reason), e) {
      assert Traced(log, books.given, knows, e);
    }
  }

  /** One more event is given, and is in hand alone. */
  lemma Gives(log: seq<Entry>, books: Books, knows: Option<Option<string>>, e: Event)
    requires Balanced(log, books, knows) && books.inHand == []
    ensures Balanced(log, books.(given := books.given + [e], inHand := [e]), knows)
  {
    var next := books.(given := books.given + [e], inHand := [e]);
    hide EventsOf;
    GivenMore(log, books, knows, [e]);
    forall d | d in next.given ensures Accounted(log, next, d) {
      if d in books.given { assert Accounted(log, books, d); }
    }
  }

  lemma GivenMore(log: seq<Entry>, books: Books, knows: Option<Option<string>>, more: seq<Event>)
    requires Balanced(log, books, knows)
    ensures forall e :: e in EventsOf(log) ==> Traced(log, books.given + more, knows, e)
    ensures Unended(books.given + more, books.held)
    ensures forall i :: 0 <= i < |books.underway| ==> Unended(books.given + more, books.underway[i].events)
    ensures forall i :: 0 <= i < |books.givenUp| ==> WasGiven(books.given + more, books.givenUp[i])
  {
    hide EventsOf;
    forall e | e in EventsOf(log) ensures Traced(log, books.given + more, knows, e) {
      assert Traced(log, books.given, knows, e);
      if CancelledFor(books.given, knows, e) {
        var k :| 0 <= k < |books.given| && Terminal(books.given[k]) && books.given[k].sequence == e.sequence;
        assert (books.given + more)[k] == books.given[k];
      }
    }
  }

  /** What is in hand is held from now on. */
  lemma Holds(log: seq<Entry>, books: Books, knows: Option<Option<string>>)
    requires Balanced(log, books, knows) && Unended(books.given, books.inHand)
    ensures Balanced(log, books.(held := books.held + books.inHand, inHand := []), knows)
  {
    var next := books.(held := books.held + books.inHand, inHand := []);
    hide EventsOf;
    forall e | e in next.given ensures Accounted(log, next, e) {
      assert Accounted(log, books, e);
    }
  }

  /** What is held is taken in hand, before what is there. */
  lemma TakesHeld(log: seq<Entry>, books: Books, knows: Option<Option<string>>)
    requires Balanced(log, books, knows)
    ensures Balanced(log, books.(held := [], inHand := books.held + books.inHand), knows)
  {
    var next := books.(held := [], inHand := books.held + books.inHand);
    hide EventsOf;
    forall e | e in next.given ensures Accounted(log, next, e) {
      assert Accounted(log, books, e);
    }
  }

  lemma HandIsGivenUp(log: seq<Entry>, books: Books, knows: Option<Option<string>>, entry: Entry)
    requires Balanced(log, books, knows) && entry.Stored? && entry.events == books.inHand
    ensures Balanced(log, books.(inHand := [], givenUp := books.givenUp + [entry]), knows)
  {
    var next := books.(inHand := [], givenUp := books.givenUp + [entry]);
    hide EventsOf;
    assert next.givenUp[|books.givenUp|] == entry;
    forall e | e in next.given ensures Accounted(log, next, e) {
      assert Accounted(log, books, e);
      SomeExtended(books.givenUp, entry, e);
    }
  }

  lemma SomeExtended(entries: seq<Entry>, entry: Entry, e: Event)
    ensures InSome(entries, e) ==> InSome(entries + [entry], e)
    ensures entry.Stored? && e in entry.events ==> InSome(entries + [entry], e)
  {
    if i :| 0 <= i < |entries| && entries[i].Stored? && e in entries[i].events {
      assert (entries + [entry])[i] == entries[i];
    }
    assert (entries + [entry])[|entries|] == entry;
  }

  /** A write begins beside the worker: of what is held, or of no event. */
  lemma SetsOff(log: seq<Entry>, books: Books, knows: Option<Option<string>>, entry: Entry, held: seq<Event>)
    requires Balanced(log, books, knows) && entry.Stored?
    requires (entry.events == books.held && held == []) || (entry.events == [] && held == books.held)
    ensures Balanced(log, books.(held := held, underway := books.underway + [entry]), knows)
  {
    var next := books.(held := held, underway := books.underway + [entry]);
    hide EventsOf;
    forall e | e in next.given ensures Accounted(log, next, e) {
      assert Accounted(log, books, e);
      SomeExtended(books.underway, entry, e);
    }
  }

  /** The first write on its way is over, stored or given up. */
  lemma Arrives(log: seq<Entry>, books: Books, knows: Option<Option<string>>, givenUp: seq<Entry>)
    requires Balanced(log, books, knows) && books.underway != []
    requires givenUp == books.givenUp + [books.underway[0]]
             || (givenUp == books.givenUp && forall e :: e in books.underway[0].events ==> e in EventsOf(log))
    ensures Balanced(log, books.(underway := books.underway[1..], givenUp := givenUp), knows)
  {
    var next := books.(underway := books.underway[1..], givenUp := givenUp);
    hide EventsOf;
    forall e | e in next.given ensures Accounted(log, next, e) {
      assert Accounted(log, books, e);
      if i :| 0 <= i < |books.underway| && books.underway[i].Stored? && e in books.underway[i].events {
        if i > 0 { assert next.underway[i - 1] == books.underway[i]; }
      }
      SomeExtended(books.givenUp, books.underway[0], e);
    }
  }

  // ----- what balanced books say of the store

  /** Numbered on from `n`, as far as the events do not end the run. */
  predicate Numbered(given: seq<Event>, n: int)
  {
    forall k :: 0 <= k < |given| && !Terminal(given[k]) ==> given[k].sequence == n + k + 1
  }

  lemma {:induction false} BurialEnds(start: Row, log: seq<Entry>, e: Event)
    requires Replay(start, log).Some? && Buried(e) in log
    ensures e.kind.RunFailed?
  {
    if log[|log| - 1] != Buried(e) { BurialEnds(start, log[..|log| - 1], e); }
  }

  /**
   At any time, and whatever was interrupted: what is stored is the beginning of what was given,
   in its order and without a gap, and behind it at most the event that ends the run.
   */
  lemma StoredAsGiven(start: Row, log: seq<Entry>, books: Books, knows: Option<Option<string>>)
    requires !Ended(start.status) && Replay(start, log).Some? && Balanced(log, books, knows)
    requires Numbered(books.given, start.lastSequence)
    ensures BeginsAs(EventsOf(log), books.given)
  {
    StoredInOrder(start, log);
    var events := EventsOf(log);
    forall i | 0 <= i < |events|
      ensures (Terminal(events[i]) && i == |events| - 1) || (i < |books.given| && events[i] == books.given[i])
    {
      hide EventsOf, Replay;
      if !Terminal(events[i]) {
        assert Traced(log, books.given, knows, events[i]);
        if Buried(events[i]) in log { BurialEnds(start, log, events[i]); }
        var k :| 0 <= k < |books.given| && books.given[k] == events[i];
      }
    }
  }

  predicate BeginsAs(events: seq<Event>, given: seq<Event>)
  {
    forall i :: 0 <= i < |events| ==>
        (Terminal(events[i]) && i == |events| - 1) || (i < |given| && events[i] == given[i])
  }

  /** A run that is completed has stored everything it was given up to its completion. */
  lemma CompletedIsWhole(start: Row, log: seq<Entry>, books: Books, knows: Option<Option<string>>)
    requires !Ended(start.status) && Replay(start, log).Some? && Balanced(log, books, knows)
    requires Numbered(books.given, start.lastSequence) && Replay(start, log).value.status.Completed?
    requires forall k :: 0 <= k < |books.given| && books.given[k].kind.RunCompleted? ==>
        books.given[k].sequence == start.lastSequence + k + 1
    ensures EventsOf(log) <= books.given
  {
    StoredInOrder(start, log);
    StoredAsGiven(start, log, books, knows);
    hide EventsOf, Replay;
    var events := EventsOf(log);
    var last := events[|events| - 1];
    assert last in events && Traced(log, books.given, knows, last);
    if Buried(last) in log { BurialEnds(start, log, last); }
    var k :| 0 <= k < |books.given| && books.given[k] == last;
  }
}
