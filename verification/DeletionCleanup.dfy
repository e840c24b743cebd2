/**
 The cleanup of deleted conversations, batch by batch, until nothing is left or something fails.
 A cleanup that reports done may leave its conversation on the list; the loop must still end.
 */
module DeletionCleanup {
  import opened Optional
  import opened SetSizes

  type Id = string

  datatype Summary = Summary(completed: nat, failed: nat)

  /** How the loop ended. */
  datatype End = NothingLeft | Failed | ShortBatch | NoProgress(first: Id)

  const BATCH_SIZE := 100

  function Listed(order: seq<Id>, left: set<Id>): (r: seq<Id>)
    ensures forall id :: id in r <==> id in order && id in left
    ensures |r| <= |order|
  {
    if order == [] then []
    else
      assert forall id :: id in order <==> id == order[0] || id in order[1..];
      (if order[0] in left then [order[0]] else []) + Listed(order[1..], left)
  }

  function Batch(list: seq<Id>, limit: nat): seq<Id> { if |list| <= limit then list else list[..limit] }

  /** The conversations of one scope, in the order the list has. `honest`: what is reported done leaves the list. */
  class Cleanups {
    const order: seq<Id>
    const honest: bool
    var left: set<Id>
    /** How many attempts have failed so far. */
    ghost var failures: nat

    ghost predicate Valid()
      reads this
    {
      forall id :: id in left ==> id in order
    }

    constructor (order: seq<Id>, honest: bool)
      ensures Valid() && this.order == order && this.honest == honest && left == set id | id in order
    {
      this.order, this.honest, left, failures := order, honest, set id | id in order, 0;
    }

    function Pending(): seq<Id>
      reads this
    {
      Listed(order, left)
    }

    /** `attemptConversationDataCleanup`, and what other processes clean up meanwhile. */
    method Attempt(id: Id) returns (done: bool)
      requires Valid()
      modifies this
      ensures Valid() && left <= old(left) && (honest && done ==> id !in left)
      ensures failures == old(failures) + if done then 0 else 1
    {
      var others: set<Id>, cleaned: bool := *, *;
      left := left - others;
      done := *;
      if done && (honest || cleaned) { left := left - {id}; }
      if !done { failures := failures + 1; }
    }

    /** One pass over at most `limit` conversations. */
    method RetryPass(limit: nat) returns (summary: Summary, ghost visited: seq<Id>)
      requires Valid()
      modifies this
      ensures Valid() && left <= old(left)
      ensures visited <= old(Pending()) && |visited| <= limit && (|visited| == limit || visited == old(Pending()))
      ensures summary.completed + summary.failed == |visited| && summary.failed == failures - old(failures)
      ensures honest && summary.failed == 0 ==> forall id :: id in visited ==> id !in left
    {
      var pending := Batch(Pending(), limit);
      visited := pending;
      summary := Summary(0, 0);
      for i := 0 to |pending|
        invariant Valid() && left <= old(left) && summary.completed + summary.failed == i
        invariant summary.failed == failures - old(failures)
        invariant honest && summary.failed == 0 ==> forall k :: 0 <= k < i ==> pending[k] !in left
      {
        var done := Attempt(pending[i]);
        summary := if done then summary.(completed := summary.completed + 1)
            else summary.(failed := summary.failed + 1);
      }
    }

    method FirstPending() returns (first: Option<Id>)
      requires Valid()
      ensures first == if Pending() == [] then None else Some(Pending()[0])
    {
      var pending := Pending();
      first := if pending == [] then None else Some(pending[0]);
    }

    /**
     `retryPendingCleanup`: it ends, because each turn that goes on has taken the first entry off the
     list. Where reports are honest, it ends with nothing left or with a cleanup that failed.
     */
    method RetryAll() returns (end: End)
      requires Valid()
      modifies this
      ensures Valid() && left <= old(left)
      ensures end.NothingLeft? ==> Pending() == []
      ensures end.Failed? <==> failures > old(failures)
      ensures honest ==> !end.NoProgress? && (end.Failed? || Pending() == [])
      ensures end.NoProgress? ==> Pending() != [] && Pending()[0] == end.first
    {
      while true
        invariant Valid() && left <= old(left) && failures == old(failures)
        decreases |left|
      {
        ghost var before, list := left, Pending();
        var first := FirstPending();
        if first.None? { return NothingLeft; }
        var summary, visited := RetryPass(BATCH_SIZE);
        if summary.failed > 0 { return Failed; }
        var now := FirstPending();
        assert visited[0] == first.value && list == Listed(order, before);
        assert Pending() != [] ==> Pending()[0] in Pending();
        if now == first {
          return NoProgress(first.value);
        }
        if summary.completed < BATCH_SIZE {
          assert visited == list;
          assert Pending() != [] ==> Pending()[0] in list;
          return ShortBatch;
        }
        assert left != before;
        SubsetIsSmaller(left, before);
      }
    }
  }
}
