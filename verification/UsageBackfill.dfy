/**
 A maintenance pass over all usage events, in batches, with its state in the database: every batch
 is one transaction with the state behind it. A process may be killed between two transactions,
 and the next tick of any process goes on from the stored state.

 Other writers add, remove and clear events between any two transactions. What the stored state
 says of the pass under way stays true all the same, and so do the daily sums, or the state says
 that they are owed a comparison.
 */
module UsageBackfill {
  import opened Optional

  // ----- the stored state

  datatype Json = JString(s: string) | JNumber(n: int) | JBool(b: bool) | JNull | JArray
      | JObject(fields: map<string, Json>)

  datatype Position = Position(createdAt: string, id: string)

  datatype State = State(after: Option<Position>, changedInPass: int, verifiedAt: Option<string>, repairNeeded: bool)

  function Field(fields: map<string, Json>, name: string): Json { if name in fields then fields[name] else JNull }

  function ReadPosition(after: Json): Option<Position>
  {
    if after.JObject? && Field(after.fields, "createdAt").JString? && Field(after.fields, "id").JString?
    then Some(Position(after.fields["createdAt"].s, after.fields["id"].s))
    else None
  }

  /** `readState`: whatever is stored, also nothing or something else, is read as a state. */
  function ReadState(stored: Option<map<string, Json>>): State
  {
    var fields := if stored.None? then map[] else stored.value;
    State(ReadPosition(Field(fields, "after")),
          if Field(fields, "changedInPass").JNumber? then fields["changedInPass"].n else 0,
          if Field(fields, "verifiedAt").JString? then Some(fields["verifiedAt"].s) else None,
          Field(fields, "repairNeeded") == JBool(true))
  }

  function StoredState(state: State): map<string, Json>
  {
    var counted := map["changedInPass" := JNumber(state.changedInPass)];
    var placed := if state.after.None? then counted
                  else counted["after" :=
                      JObject(map["createdAt" := JString(state.after.value.createdAt),
                      "id" := JString(state.after.value.id)])];
    var verified := if state.verifiedAt.None? || state.verifiedAt.value == "" then placed
        else placed["verifiedAt" := JString(state.verifiedAt.value)];
    if state.repairNeeded then verified["repairNeeded" := JBool(true)] else verified
  }

  /** A state comes back as it was stored, exactly where its moment of verification is not the empty text. */
  lemma StateComesBack(state: State)
    ensures ReadState(Some(StoredState(state))) == state <==> state.verifiedAt != Some("")
  {
    if state.after.Some? {
      var after := map["createdAt" := JString(state.after.value.createdAt), "id" := JString(state.after.value.id)];
      assert ReadPosition(JObject(after)) == state.after;
    }
  }

  lemma SameStored(state: State)
    ensures StoredState(state) == StoredState(state.(verifiedAt := NotEmpty(state.verifiedAt)))
  {
  }

  // ----- the store

  datatype Attributes = Attributes(purpose: Option<string>, region: Option<string>, binding: Option<string>,
      user: Option<string>, workspace: Option<string>)

  datatype Event = Event(position: Position, attributes: Attributes)

  const BATCH := 5000

  predicate InOrder(order: Position -> nat, events: seq<Event>)
  {
    forall i, j :: 0 <= i < j < |events| ==> order(events[i].position) < order(events[j].position)
  }

  lemma InsertKeepsOrder(order: Position -> nat, events: seq<Event>, k: nat, e: Event)
    requires InOrder(order, events) && k <= |events|
    requires k > 0 ==> order(events[k - 1].position) < order(e.position)
    requires k < |events| ==> order(e.position) < order(events[k].position)
    ensures InOrder(order, events[..k] + [e] + events[k..])
  {
    var longer := events[..k] + [e] + events[k..];
    forall i, j | 0 <= i < j < |longer| ensures order(longer[i].position) < order(longer[j].position) {
      assert longer[i] == if i < k then events[i] else if i == k then e else events[i - 1];
      assert longer[j] == if j < k then events[j] else if j == k then e else events[j - 1];
    }
  }

  function SetOf(events: seq<Event>): set<Event> { set e | e in events }

  lemma SetWith(events: seq<Event>, k: nat, e: Event)
    requires k <= |events|
    ensures SetOf(events[..k] + [e] + events[k..]) == SetOf(events) + {e}
  {
    var longer := events[..k] + [e] + events[k..];
    assert events == events[..k] + events[k..] && e == longer[k];
  }

  lemma SetWithChange(order: Position -> nat, events: seq<Event>, k: nat, e: Event)
    requires InOrder(order, events) && k < |events| && e.position == events[k].position
    ensures InOrder(order, events[k := e])
    ensures SetOf(events[k := e]) == SetOf(events) - {events[k]} + {e}
  {
    var changed := events[k := e];
    assert forall i :: 0 <= i < |events| ==> changed[i].position == events[i].position;
    forall d | d in SetOf(events) - {events[k]} + {e} ensures d in changed {
      if d != e {
        var i :| 0 <= i < |events| && events[i] == d;
        assert changed[i] == d;
      } else {
        assert changed[k] == e;
      }
    }
  }

  lemma SamePlaces(order: Position -> nat, a: seq<Event>, b: seq<Event>)
    requires InOrder(order, a) && |a| == |b| && forall i :: 0 <= i < |a| ==> a[i].position == b[i].position
    ensures InOrder(order, b)
  {
  }

  /** At how many places two lists of events differ. */
  function Differing(a: seq<Event>, b: seq<Event>): (n: nat)
    requires |a| == |b|
    ensures n == 0 <==> a == b
  {
    if a == [] then 0
    else
      assert a == [a[0]] + a[1..] && b == [b[0]] + b[1..];
      (if a[0] == b[0] then 0 else 1) + Differing(a[1..], b[1..])
  }

  lemma {:induction false} DiffersAtOneMore(a: seq<Event>, b: seq<Event>, i: nat, e: Event)
    requires |a| == |b| && i < |a| && a[i] == b[i]
    ensures Differing(a, b[i := e]) == Differing(a, b) + (if e == a[i] then 0 else 1)
  {
    if i > 0 {
      DiffersAtOneMore(a[1..], b[1..], i - 1, e);
      assert b[i := e][1..] == b[1..][i - 1 := e];
    } else {
      assert b[0 := e][1..] == b[1..];
    }
  }

  class UsageStore {
    /** The order of the positions, and what a batch fills an event with. */
    const order: Position -> nat
    const fill: Event -> Attributes

    var events: seq<Event>
    var record: Option<map<string, Json>>

    /** What the daily sums add up: every event as it is counted in them. */
    var counted: set<Event>
    /**
     Of the pass under way: the events there were when it began and nobody else changed since, by
     their place, and how many it changed.
     */
    ghost var begunWith: set<nat>
    ghost var changed: nat
    /** How many batches were run so far, and how many passes came to their end. */
    ghost var batchesRun: nat
    ghost var passesEnded: nat
    /** The places any event ever had. */
    var used: set<nat>

    ghost predicate Sorted()
      reads this`events, this`used
    {
      && InOrder(order, events)
      && forall i :: 0 <= i < |events| ==> order(events[i].position) in used
    }

    ghost predicate Filled(e: Event)
    {
      fill(e) == e.attributes
    }

    /** The daily sums are those of the events there are. */
    ghost predicate SumsAgree()
      reads this
    {
      counted == SetOf(events)
    }

    /** A state tells the truth about the pass under way. */
    ghost predicate PassKnown(state: State)
      reads this`events, this`used, this`begunWith, this`changed
    {
      && state.changedInPass == changed && begunWith <= used && (state.after.None? ==> changed == 0)
      && (changed == 0 && state.after.Some? ==>
            forall i :: 0 <= i < |events| && order(events[i].position) <= order(state.after.value) ==>
                FilledOrNew(events[i]))
    }

    /** An event that was there when the pass began, and was not changed by others since, is filled. */
    ghost predicate FilledOrNew(e: Event)
      reads this`begunWith
    {
      order(e.position) in begunWith ==> Filled(e)
    }

    ghost predicate Valid()
      reads this
    {
      && Sorted() && PassKnown(ReadState(record))
      && (ReadState(record).repairNeeded || SumsAgree())
    }

    constructor (order: Position -> nat, fill: Event -> Attributes)
      ensures Valid() && SumsAgree() && record.None? && events == []
    {
      this.order, this.fill, events, record := order, fill, [], None;
      counted, begunWith, changed, used, batchesRun, passesEnded := {}, {}, 0, {}, 0, 0;
    }

    // ----- other writers

    /** An event that is written comes to a place no event had, and keeps the order. */
    predicate MayStand(k: nat, e: Event)
      requires k <= |events|
      reads this
    {
      && order(e.position) !in used
      && (k > 0 ==> order(events[k - 1].position) < order(e.position))
      && (k < |events| ==> order(e.position) < order(events[k].position))
    }

    method OthersAdd(k: nat, e: Event)
      requires Valid() && k <= |events| && MayStand(k, e)
      modifies this`events, this`used, this`counted
      ensures Valid() && events == old(events[..k]) + [e] + old(events[k..])
    {
      hide ReadState, InOrder, SetOf, Filled;
      ghost var before := events;
      InsertKeepsOrder(order, events, k, e);
      SetWith(before, k, e);
      events := events[..k] + [e] + events[k..];
      assert forall i :: 0 <= i < |events| ==>
          events[i] == if i < k then before[i] else if i == k then e else before[i - 1];
      used, counted := used + {order(e.position)}, counted + {e};
    }

    method OthersRemove(k: nat)
      requires Valid() && k < |events|
      modifies this`events, this`counted
      ensures Valid() && events == old(events[..k]) + old(events[k + 1..])
    {
      hide ReadState;
      counted := counted - {events[k]};
      events := events[..k] + events[k + 1..];
    }

    /**
     The deletion of an account or of a workspace takes it off an event, in place. The daily sums do
     not tell the two apart; for the pass under way the event is a new one.
     */
    method OthersClear(k: nat, account: bool)
      requires Valid() && k < |events|
      modifies this`events, this`counted, this`begunWith
      ensures Valid() && |events| == |old(events)| && begunWith == old(begunWith) - {order(old(events)[k].position)}
      ensures events == old(events)[k := events[k]] && events[k].position == old(events)[k].position
      ensures events[k].attributes ==
              if account then old(events)[k].attributes.(user := None)
              else old(events)[k].attributes.(workspace := None)
      ensures old(SumsAgree()) ==> SumsAgree()
    {
      hide ReadState, Filled, SetOf, InOrder;
      ghost var before := events;
      var e := events[k].(attributes := if account then events[k].attributes.(user := None)
                                        else events[k].attributes.(workspace := None));
      SetWithChange(order, before, k, e);
      begunWith := begunWith - {order(e.position)};
      if events[k] in counted { counted := counted - {events[k]} + {e}; }
      InSet(before, k);
      events := events[k := e];
    }

    lemma InSet(events: seq<Event>, k: nat)
      requires k < |events|
      ensures events[k] in SetOf(events)
    {
    }

    // ----- the transactions of the backfill

    ghost function Places(): set<nat>
      reads this
    {
      set e | e in events :: order(e.position)
    }

    /** The first event behind a position. */
    method FirstAfter(after: Option<Position>) returns (from: nat)
      requires Sorted()
      ensures from <= |events| && (after.None? ==> from == 0)
      ensures after.Some? ==> forall i :: 0 <= i < |events| ==>
          (i < from <==> order(events[i].position) <= order(after.value))
    {
      from := 0;
      if after.None? { return; }
      while from < |events| && order(events[from].position) <= order(after.value)
        invariant from <= |events| && forall i :: 0 <= i < from ==> order(events[i].position) <= order(after.value)
      {
        from := from + 1;
      }
    }

    /** Fills the events of a batch, and counts those that change. */
    method FillRange(from: nat, to: nat) returns (filled: seq<Event>, count: nat)
      requires from <= to <= |events|
      ensures |filled| == |events|
      ensures forall i :: 0 <= i < |events| ==>
                            filled[i] == if from <= i < to then Event(events[i].position, fill(events[i]))
                                else events[i]
      ensures count == Differing(events, filled)
    {
      filled, count := events, 0;
      for i := from to to
        invariant |filled| == |events|
        invariant forall k :: 0 <= k < |events| ==>
                                filled[k] == if from <= k < i then Event(events[k].position, fill(events[k]))
                                    else events[k]
        invariant count == Differing(events, filled)
      {
        var attributes := fill(events[i]);
        DiffersAtOneMore(events, filled, i, Event(events[i].position, attributes));
        if attributes != events[i].attributes { count := count + 1; }
        filled := filled[i := Event(events[i].position, attributes)];
      }
    }

    /** Where a batch ends that begins at `from`. */
    function BatchEnd(from: nat): (end: nat)
      requires from <= |events|
      reads this`events
      ensures from <= end <= |events| && end <= from + BATCH && (end < |events| ==> end == from + BATCH)
    {
      if from + BATCH <= |events| then from + BATCH else |events|
    }

    /** `from` is the first place behind a position. */
    ghost predicate FirstBehind(from: nat, after: Option<Position>)
      reads this`events
    {
      && from <= |events| && (after.None? ==> from == 0)
      && (after.Some? ==> forall i :: 0 <= i < |events| ==>
          (i < from <==> order(events[i].position) <= order(after.value)))
    }

    /** The events of the batch that begins at `from` are filled, and all others are as they were. */
    twostate predicate BatchFilled(from: nat)
      reads this`events
    {
      && |events| == |old(events)|
      && forall i :: 0 <= i < |events| ==>
           events[i] == if from <= i < BatchEnd(from) then Event(old(events)[i].position, fill(old(events)[i]))
               else old(events)[i]
    }

    /** The events of one batch. */
    method FillBatch(state: State, from: nat) returns (count: nat)
      requires Valid() && state == ReadState(record) && from < |events| && FirstBehind(from, state.after)
      modifies `events, `begunWith, `changed
      ensures |events| == |old(events)| && BatchFilled(from) && count == Differing(old(events), events)
      ensures Sorted()
          && PassKnown(State(Some(events[BatchEnd(from) - 1].position), state.changedInPass + count, None,
          state.repairNeeded || count > 0))
      ensures changed == old(changed) + count
      ensures begunWith == if state.after.None? then old(Places()) else old(begunWith)
    {
      hide ReadState, Differing, InOrder;
      var to := BatchEnd(from);
      var filled;
      filled, count := FillRange(from, to);
      ghost var before := events;
      if state.after.None? { begunWith := Places(); }
      changed := changed + count;
      SamePlaces(order, before, filled);
      events := filled;
      forall i | changed == 0 && 0 <= i < to ensures FilledOrNew(events[i]) {
        if i >= from { assert before[i] == filled[i]; }
      }
    }

    /**
     One batch and the state behind it, in one transaction. The batch begins behind the last event
     of the one before, and fills exactly its own events. The state counts those that changed, and
     from the first of them on it owes the comparison. A pass ends with the batch that finds no
     event: it is verified exactly where none of its batches changed an event, and then every event
     that was there when it began is filled.
     */
    method BackfillBatch(state: State, now: string) returns (next: State, ended: bool, ghost from: nat)
      requires Valid() && state == ReadState(record) && now != ""
      modifies `events, `begunWith, `changed, `record, `batchesRun, `passesEnded
      ensures Valid() && next == ReadState(record)
      ensures batchesRun == old(batchesRun) + 1 && passesEnded == old(passesEnded) + if ended then 1 else 0
      ensures old(FirstBehind(from, state.after)) && BatchFilled(from) && (ended <==> from == |events|)
      ensures next.repairNeeded <==> state.repairNeeded || events != old(events)
      ensures !ended ==> next.after == Some(events[BatchEnd(from) - 1].position) && next.verifiedAt.None?
      ensures !ended ==> next.changedInPass == state.changedInPass + Differing(old(events), events)
      ensures begunWith == if !ended && state.after.None? then old(Places()) else old(begunWith)
      ensures changed == if ended then 0 else old(changed) + Differing(old(events), events)
      ensures ended ==> next.after.None? && (next.verifiedAt.Some? <==> old(changed) == 0)
      ensures ended && next.verifiedAt.Some? ==> forall i :: 0 <= i < |events| ==> FilledOrNew(events[i])
    {
      hide ReadState, StoredState, Differing, InOrder, SetOf;
      var start := FirstAfter(state.after);
      from, ended := start, start == |events|;
      if ended {
        next := EndPass(state, now);
      } else {
        next := StoreBatch(state, start);
      }
    }

    /** The batch that finds no event. */
    method EndPass(state: State, now: string) returns (next: State)
      requires Valid() && state == ReadState(record) && now != "" && FirstBehind(|events|, state.after)
      modifies `changed, `record, `batchesRun, `passesEnded
      ensures Valid()
          && next == ReadState(record)
          == State(None, 0, if old(changed) == 0 then Some(now) else None, state.repairNeeded)
      ensures changed == 0 && batchesRun == old(batchesRun) + 1 && passesEnded == old(passesEnded) + 1
      ensures next.verifiedAt.Some? ==> forall i :: 0 <= i < |events| ==> FilledOrNew(events[i])
    {
      hide ReadState, StoredState, InOrder, SetOf;
      next := State(None, 0, if state.changedInPass == 0 then Some(now) else None, state.repairNeeded);
      changed := 0;
      StateComesBack(next);
      record := Some(StoredState(next));
      batchesRun, passesEnded := batchesRun + 1, passesEnded + 1;
    }

    /** A batch that finds events, and the state behind it. */
    method StoreBatch(state: State, from: nat) returns (next: State)
      requires Valid() && state == ReadState(record) && from < |events| && FirstBehind(from, state.after)
      modifies `events, `begunWith, `changed, `record, `batchesRun
      ensures Valid() && next == ReadState(record) && BatchFilled(from)
      ensures next
          == State(Some(events[BatchEnd(from) - 1].position), state.changedInPass + Differing(old(events), events),
          None,
                            state.repairNeeded || events != old(events))
      ensures changed == old(changed) + Differing(old(events), events) && batchesRun == old(batchesRun) + 1
      ensures begunWith == if state.after.None? then old(Places()) else old(begunWith)
    {
      hide ReadState, StoredState, Differing, InOrder, SetOf, FilledOrNew, FirstBehind, BatchFilled, PassKnown, Sorted;
      var count := FillBatch(state, from);
      var last := events[BatchEnd(from) - 1].position;
      next := State(Some(last), state.changedInPass + count, None, state.repairNeeded || count > 0);
      StateComesBack(next);
      record := Some(StoredState(next));
      batchesRun := batchesRun + 1;
    }

    /** The comparison of the daily sums with all events, and the state that no longer owes it. */
    method Reconcile(state: State)
      requires Valid() && state == ReadState(record)
      modifies this`record, this`counted
      ensures Valid() && SumsAgree()
          && ReadState(record) == state.(repairNeeded := false, verifiedAt := NotEmpty(state.verifiedAt))
    {
      hide ReadState, StoredState;
      var i := 0;
      counted := {};
      while i < |events|
        invariant i <= |events| && counted == SetOf(events[..i])
      {
        assert events[..i + 1] == events[..i] + [events[i]];
        counted, i := counted + {events[i]}, i + 1;
      }
      assert events[..i] == events;
      var repaired := state.(repairNeeded := false);
      StateComesBack(repaired.(verifiedAt := NotEmpty(state.verifiedAt)));
      SameStored(repaired);
      record := Some(StoredState(repaired));
    }

    // ----- the ticks

    /** What other processes do between two transactions. */
    method Interfere()
      requires Valid()
      modifies this`events, this`used, this`counted, this`begunWith
      ensures Valid()
    {
      hide ReadState, InOrder;
      var n: int := *;
      while n > 0
        invariant Valid()
        decreases n
      {
        n := n - 1;
        var k: int, e: Event := *, *;
        if
        case 0 <= k <= |events| && MayStand(k, e) => OthersAdd(k, e);
        case 0 <= k < |events| => OthersRemove(k);
        case 0 <= k < |events| => OthersClear(k, true);
        case 0 <= k < |events| => OthersClear(k, false);
        case true =>
      }
    }

    /** A pass from where the state stands. It is stopped or killed behind `budget` batches, if it has not ended. */
    method Pass(from: State, budget: nat) returns (state: Option<State>)
      requires Valid() && from == ReadState(record)
      modifies this
      ensures Valid() && (state.Some? ==> state.value == ReadState(record) && state.value.after.None?)
      ensures state.Some? && state.value.verifiedAt.Some? ==> forall i :: 0 <= i < |events| ==> FilledOrNew(events[i])
      ensures passesEnded == old(passesEnded) + (if state.Some? then 1 else 0)
      ensures batchesRun <= old(batchesRun) + budget && (state.None? ==> batchesRun == old(batchesRun) + budget)
    {
      var current, left := from, budget;
      while left > 0
        invariant Valid() && current == ReadState(record) && passesEnded == old(passesEnded)
        invariant 0 <= left <= budget && batchesRun == old(batchesRun) + (budget - left)
      {
        left := left - 1;
        Interfere();
        var now: string := *;
        var ended;
        ghost var batch;
        current, ended, batch := BackfillBatch(current, if now == "" then "now" else now);
        if ended { return Some(current); }
      }
      state := None;
    }

    /**
     One tick, of at most `budget` batches. Whatever a process that was killed left, a tick that comes
     to its end leaves daily sums that are those of the events; and it has ended a pass, unless the
     last verification is `recent`. It comes to its end unless it is stopped or `killed`.
     */
    method Run(budget: nat, recent: bool, killed: bool) returns (finished: bool)
      requires Valid()
      modifies this
      ensures Valid() && (finished ==> SumsAgree() && !ReadState(record).repairNeeded)
      ensures var skips := old(ReadState(record)).verifiedAt.Some? && recent;
              && (skips ==> batchesRun == old(batchesRun) && passesEnded == old(passesEnded))
              && (finished && !skips ==> passesEnded == old(passesEnded) + 1)
              && (!finished ==> killed || (!skips && batchesRun == old(batchesRun) + budget))
    {
      var found := ReadState(record);
      Interfere();
      var state := Some(found);
      if !(found.verifiedAt.Some? && recent) { state := Pass(found, budget); }
      if state.None? { return false; }
      if !state.value.repairNeeded { return true; }
      Interfere();
      if killed { return false; }
      Reconcile(state.value);
      finished := true;
    }
  }

  function NotEmpty(text: Option<string>): Option<string> { if text == Some("") then None else text }
}
