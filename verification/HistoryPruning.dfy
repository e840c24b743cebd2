/**
 What is left of a projected history once tool calls without all their results are taken out, and
 why trimming it to whole chunks before that changes nothing of what is left.
 */
module HistoryPruning {
  import opened ModelMessages
  import opened HistoryProjection

  type Messages = seq<ModelMessage>

  type Render = ChatMessage -> Content

  /** One message as the model sees it. A tool message without result metadata is not seen. */
  function ToModel(m: ChatMessage, render: Render): Messages
  {
    if m.metadata.Decision? then [ModelMessage(System, render(m), [], "")]
    else match m.role
      case User => [ModelMessage(User, render(m), [], "")]
      case System => [ModelMessage(System, render(m), [], "")]
      case Assistant => [ModelMessage(Assistant, render(m), CallsOf(m), "")]
      case Tool => if m.metadata.ToolResult? then [ModelMessage(Tool, render(m), [], m.metadata.callId)] else []
  }

  function Seen(messages: History, render: Render): Messages
  {
    if messages == [] then [] else ToModel(messages[0], render) + Seen(messages[1..], render)
  }

  // ----- pruning

  /** The results that directly follow a call, up to the first one that is unexpected or comes again. */
  function AnswerRun(ms: Messages, expected: set<string>, seen: set<string>): (n: nat)
    ensures n <= |ms|
    ensures forall i :: 0 <= i < n ==> ms[i].role.Tool?
  {
    if ms == [] || !ms[0].role.Tool? || ms[0].callId !in expected || ms[0].callId in seen then 0
    else if seen + {ms[0].callId} == expected then 1
    else
      assert forall i :: 0 < i < |ms| ==> ms[i] == ms[1..][i - 1];
      1 + AnswerRun(ms[1..], expected, seen + {ms[0].callId})
  }

  function Answers(ms: Messages): set<string> { set m | m in ms :: m.callId }

  function WithoutCalls(m: ModelMessage): ModelMessage { m.(calls := []) }

  predicate AllTools(ms: Messages) { forall i :: 0 <= i < |ms| ==> ms[i].role.Tool? }

  predicate HasCalls(m: ModelMessage) { m.role.Assistant? && m.calls != [] }

  /** A call with its run of results: kept whole, or only its text. */
  function PrunedCall(m: ModelMessage, run: Messages): Messages
  {
    if Answers(run) == IdSet(m.calls) then [m] + run
    else if HasText(m.content) then [WithoutCalls(m)] else []
  }

  function Pruned(ms: Messages): Messages
    decreases |ms|
  {
    if ms == [] then []
    else if ms[0].role.Tool? then Pruned(ms[1..])
    else if !HasCalls(ms[0]) then [ms[0]] + Pruned(ms[1..])
    else
      var n := AnswerRun(ms[1..], IdSet(ms[0].calls), {});
      PrunedCall(ms[0], ms[1..][..n]) + Pruned(ms[1..][n..])
  }

  method RemoveIncompleteToolContext(ms: Messages) returns (active: Messages)
    ensures active == Pruned(ms)
  {
    active := [];
    var index := 0;
    assert ms[0..] == ms;
    while index < |ms|
      invariant 0 <= index <= |ms|
      invariant active + Pruned(ms[index..]) == Pruned(ms)
    {
      var message := ms[index];
      if message.role.Tool? {
        PrunedAtOther(ms, index, active);
        index := index + 1;
      } else if !HasCalls(message) {
        PrunedAtOther(ms, index, active);
        active := active + [message];
        index := index + 1;
      } else {
        var expected := IdSet(message.calls);
        var cursor := AnswersEnd(ms, index + 1, expected);
        var run := ms[index + 1..cursor];
        PrunedAtCall(ms, index, cursor, active);
        ghost var before := active;
        if Answers(run) == expected {
          active := active + ([message] + run);
        } else if HasText(message.content) {
          active := active + [WithoutCalls(message)];
        }
        assert active == before + PrunedCall(message, run);
        index := cursor;
      }
    }
    assert ms[index..] == [];
  }

  lemma PrunedAtOther(ms: Messages, index: nat, active: Messages)
    requires index < |ms| && !HasCalls(ms[index])
    ensures var m := if ms[index].role.Tool? then [] else [ms[index]];
            active + Pruned(ms[index..]) == active + m + Pruned(ms[index + 1..])
  {
    hide Pruned;
    PrunedOfOther(ms[index], ms[index + 1..]);
    assert ms[index..] == [ms[index]] + ms[index + 1..];
  }

  lemma PrunedAtCall(ms: Messages, index: nat, cursor: nat, active: Messages)
    requires index < cursor <= |ms| && HasCalls(ms[index])
    requires cursor - index - 1 == AnswerRun(ms[index + 1..], IdSet(ms[index].calls), {})
    ensures active + Pruned(ms[index..]) == active + PrunedCall(ms[index], ms[index + 1..cursor]) + Pruned(ms[cursor..])
  {
    hide Pruned, AnswerRun;
    var tail, n := ms[index + 1..], cursor - index - 1;
    PrunedOfCall(ms[index], tail);
    assert ms[index..] == [ms[index]] + tail;
    assert tail[..n] == ms[index + 1..cursor] && tail[n..] == ms[cursor..];
  }

  lemma PrunedOfCall(call: ModelMessage, tail: Messages)
    requires HasCalls(call)
    ensures var n := AnswerRun(tail, IdSet(call.calls), {});
            Pruned([call] + tail) == PrunedCall(call, tail[..n]) + Pruned(tail[n..])
  {
  }

  method AnswersEnd(ms: Messages, start: nat, expected: set<string>) returns (cursor: nat)
    requires start <= |ms|
    ensures start <= cursor <= |ms| && cursor - start == AnswerRun(ms[start..], expected, {})
  {
    var seen, whole := {}, false;
    cursor := start;
    while !whole && cursor < |ms| && ms[cursor].role.Tool? && ms[cursor].callId in expected
        && ms[cursor].callId !in seen
      invariant start <= cursor <= |ms|
      invariant AnswerRun(ms[start..], expected, {}) == cursor - start
          + (if whole then 0 else AnswerRun(ms[cursor..], expected, seen))
    {
      assert ms[cursor..][1..] == ms[cursor + 1..];
      seen := seen + {ms[cursor].callId};
      cursor := cursor + 1;
      whole := seen == expected;
    }
  }

  // ----- what is left

  predicate Distinct(ids: Messages)
  {
    forall i, j :: 0 <= i < j < |ids| ==> ids[i].callId != ids[j].callId
  }

  /** A call with exactly one result for each of its ids. */
  predicate Group(m: ModelMessage, run: Messages)
  {
    && HasCalls(m) && Answers(run) == IdSet(m.calls) && Distinct(run)
    && AllTools(run)
  }

  /**
   Every assistant message with calls is followed directly by one result for each id, and no
   other tool message is there.
   */
  ghost predicate WellFormed(ms: Messages)
    decreases |ms|
  {
    || ms == []
    || (!ms[0].role.Tool? && !HasCalls(ms[0]) && WellFormed(ms[1..]))
    || (exists n :: GroupAt(ms, n) && WellFormed(ms[1 + n..]))
  }

  predicate GroupAt(ms: Messages, n: int)
  {
    0 <= n < |ms| && Group(ms[0], ms[1..1 + n])
  }

  lemma DistinctOn(first: ModelMessage, rest: Messages)
    ensures Answers([first] + rest) == {first.callId} + Answers(rest)
    ensures Distinct([first] + rest) <==> Distinct(rest) && first.callId !in Answers(rest)
  {
    var all := [first] + rest;
    assert forall m :: m in all <==> m == first || m in rest;
    assert forall i :: 0 <= i < |rest| ==> all[i + 1] == rest[i];
    if first.callId in Answers(rest) {
      var i :| 0 <= i < |rest| && rest[i].callId == first.callId;
      assert all[0].callId == all[i + 1].callId;
    }
  }

  lemma {:induction false} RunIsDistinct(ms: Messages, expected: set<string>, seen: set<string>)
    ensures var run := ms[..AnswerRun(ms, expected, seen)];
            Distinct(run) && Answers(run) !! seen && Answers(run) <= expected
  {
    var n := AnswerRun(ms, expected, seen);
    if n == 0 {
      assert ms[..0] == [];
    } else {
      var first, rest := ms[0], ms[1..][..n - 1];
      assert ms[..n] == [first] + rest && first.callId in expected && first.callId !in seen;
      if n == 1 {
        assert rest == [];
        assert Distinct(rest) && Answers(rest) == {};
      } else {
        RunIsDistinct(ms[1..], expected, seen + {first.callId});
        assert rest == ms[1..][..AnswerRun(ms[1..], expected, seen + {first.callId})];
      }
      hide Distinct, Answers, AnswerRun;
      DistinctOn(first, rest);
    }
  }

  lemma {:induction false} PrunedIsWellFormed(ms: Messages)
    ensures WellFormed(Pruned(ms))
    decreases |ms|
  {
    if ms != [] {
      if ms[0].role.Tool? {
        PrunedIsWellFormed(ms[1..]);
      } else if !HasCalls(ms[0]) {
        PrunedIsWellFormed(ms[1..]);
        assert ([ms[0]] + Pruned(ms[1..]))[1..] == Pruned(ms[1..]);
      } else {
        var n := AnswerRun(ms[1..], IdSet(ms[0].calls), {});
        var run, rest := ms[1..][..n], Pruned(ms[1..][n..]);
        PrunedIsWellFormed(ms[1..][n..]);
        RunIsDistinct(ms[1..], IdSet(ms[0].calls), {});
        if Answers(run) == IdSet(ms[0].calls) {
          var out := [ms[0]] + run + rest;
          assert out[1..1 + n] == run && out[1 + n..] == rest && GroupAt(out, n);
        } else if HasText(ms[0].content) {
          assert ([WithoutCalls(ms[0])] + rest)[1..] == rest;
        } else {
          assert [] + rest == rest;
        }
      }
    }
  }

  /** A whole group is taken as it stands. */
  lemma {:induction false} RunTakesGroup(run: Messages, rest: Messages, expected: set<string>, seen: set<string>)
    requires run != [] && Distinct(run) && AllTools(run)
    requires Answers(run) !! seen && Answers(run) + seen == expected
    ensures AnswerRun(run + rest, expected, seen) == |run|
  {
    var first, tail := run[0], run[1..];
    assert run == [first] + tail && run + rest == [first] + (tail + rest);
    DistinctOn(first, tail);
    AnswerStep(first, tail + rest, expected, seen);
    if tail == [] {
      assert Answers(tail) == {};
    } else {
      assert tail[0].callId in Answers(tail);
      hide Distinct, Answers, AnswerRun;
      RunTakesGroup(tail, rest, expected, seen + {first.callId});
    }
  }

  lemma {:induction false} WellFormedIsKept(ms: Messages)
    requires WellFormed(ms)
    ensures Pruned(ms) == ms
    decreases |ms|
  {
    hide Pruned, GroupAt;
    if ms == [] {
      NothingPruned();
    } else if !ms[0].role.Tool? && !HasCalls(ms[0]) {
      PrunedOfOther(ms[0], ms[1..]);
      HeadHasNoGroup(ms);
      WellFormedIsKept(ms[1..]);
      assert ms == [ms[0]] + ms[1..];
    } else {
      var n := GroupAhead(ms);
      GroupIsKept(ms, n);
      WellFormedIsKept(ms[1 + n..]);
      assert ms == ms[..1 + n] + ms[1 + n..];
    }
  }

  lemma HeadHasNoGroup(ms: Messages)
    requires ms != [] && WellFormed(ms) && !HasCalls(ms[0])
    ensures WellFormed(ms[1..])
  {
  }

  lemma NothingPruned()
    ensures Pruned([]) == []
  {
  }

  lemma PrunedOfOther(m: ModelMessage, tail: Messages)
    requires !HasCalls(m)
    ensures Pruned([m] + tail) == (if m.role.Tool? then [] else [m]) + Pruned(tail)
  {
  }

  lemma GroupAhead(ms: Messages) returns (n: nat)
    requires ms != [] && WellFormed(ms) && (ms[0].role.Tool? || HasCalls(ms[0]))
    ensures GroupAt(ms, n) && 0 <= n < |ms| && WellFormed(ms[1 + n..])
  {
    n :| GroupAt(ms, n) && WellFormed(ms[1 + n..]);
  }

  lemma GroupHasResults(m: ModelMessage, run: Messages)
    requires Group(m, run)
    ensures run != []
  {
    assert m.calls[0] in IdSet(m.calls);
    assert m.calls[0] in Answers(run);
  }

  lemma HeadRunRest(ms: Messages, n: nat)
    requires n < |ms|
    ensures var run, rest := ms[1..1 + n], ms[1 + n..];
            && ms == [ms[0]] + (run + rest) && ms[..1 + n] == [ms[0]] + run
            && |run| == n && (run + rest)[..n] == run && (run + rest)[n..] == rest
  {
  }

  lemma GroupIsKept(ms: Messages, n: nat)
    requires n < |ms| && GroupAt(ms, n)
    ensures Pruned(ms) == ms[..1 + n] + Pruned(ms[1 + n..])
  {
    var run, rest := ms[1..1 + n], ms[1 + n..];
    GroupHasResults(ms[0], run);
    hide Pruned, AnswerRun, Distinct, Answers;
    RunTakesGroup(run, rest, IdSet(ms[0].calls), {});
    PrunedOfCall(ms[0], run + rest);
    HeadRunRest(ms, n);
    assert PrunedCall(ms[0], run) == [ms[0]] + run;
  }

  /** Pruning twice is pruning once. */
  lemma PruningTwice(ms: Messages)
    ensures Pruned(Pruned(ms)) == Pruned(ms)
  {
    PrunedIsWellFormed(ms);
    WellFormedIsKept(Pruned(ms));
  }

  /** What was said: all but the tool messages and the calls without text, each without its calls. */
  function Spoken(ms: Messages): Messages
  {
    if ms == [] then [] else SpokenBy(ms[0]) + Spoken(ms[1..])
  }

  function SpokenBy(m: ModelMessage): Messages
  {
    if m.role.Tool? then [] else if !HasCalls(m) then [m] else if HasText(m.content) then [WithoutCalls(m)] else []
  }

  lemma {:induction false} SpokenApart(a: Messages, b: Messages)
    ensures Spoken(a + b) == Spoken(a) + Spoken(b)
  {
    if a == [] {
      assert a + b == b;
    } else {
      assert (a + b)[0] == a[0] && (a + b)[1..] == a[1..] + b;
      SpokenApart(a[1..], b);
    }
  }

  lemma {:induction false} ToolsSayNothing(a: Messages)
    requires AllTools(a)
    ensures Spoken(a) == []
  {
    if a != [] {
      ToolsSayNothing(a[1..]);
    }
  }

  lemma CallKeepsSpoken(call: ModelMessage, run: Messages, before: Messages, after: Messages)
    requires HasCalls(call) && AllTools(run) && Spoken(after) == Spoken(before)
    ensures Spoken(PrunedCall(call, run) + after) == Spoken([call] + run + before)
  {
    SpokenApart([call] + run, before);
    SpokenApart([call], run);
    ToolsSayNothing(run);
    SpokenApart(PrunedCall(call, run), after);
  }

  /** Nothing said is lost: every user and system message and every assistant text stays, in order. */
  lemma {:induction false} PruningKeepsSpoken(ms: Messages)
    ensures Spoken(Pruned(ms)) == Spoken(ms)
    decreases |ms|
  {
    hide Pruned, AnswerRun;
    if ms == [] {
      NothingPruned();
    } else {
      assert ms == [ms[0]] + ms[1..];
      if !HasCalls(ms[0]) {
        PrunedOfOther(ms[0], ms[1..]);
        PruningKeepsSpoken(ms[1..]);
        SpokenApart([ms[0]], Pruned(ms[1..]));
        SpokenApart([], Pruned(ms[1..]));
      } else {
        var n := AnswerRun(ms[1..], IdSet(ms[0].calls), {});
        PrunedOfCall(ms[0], ms[1..]);
        PruningKeepsSpoken(ms[1..][n..]);
        CallKeepsSpoken(ms[0], ms[1..][..n], ms[1..][n..], Pruned(ms[1..][n..]));
        assert ms == [ms[0]] + ms[1..][..n] + ms[1..][n..];
      }
    }
  }

  lemma {:induction false} RunStops(a: Messages, b: Messages, expected: set<string>, seen: set<string>)
    requires b != [] ==> !b[0].role.Tool?
    ensures AnswerRun(a + b, expected, seen) == AnswerRun(a, expected, seen)
  {
    if a == [] {
      assert a + b == b;
    } else {
      assert (a + b)[0] == a[0] && (a + b)[1..] == a[1..] + b;
      RunStops(a[1..], b, expected, seen + {a[0].callId});
    }
  }

  /** What comes before a message that is not a result is pruned on its own. */
  lemma {:induction false} PrunedApart(a: Messages, b: Messages)
    requires b != [] ==> !b[0].role.Tool?
    ensures Pruned(a + b) == Pruned(a) + Pruned(b)
    decreases |a|
  {
    hide Pruned, AnswerRun;
    if a == [] {
      assert a + b == b;
      NothingPruned();
    } else {
      var m, tail := a[0], a[1..];
      assert a == [m] + tail && a + b == [m] + (tail + b);
      if !HasCalls(m) {
        PrunedOfOther(m, tail);
        PrunedOfOther(m, tail + b);
        PrunedApart(tail, b);
      } else {
        var n := AnswerRun(tail, IdSet(m.calls), {});
        PrunedOfCall(m, tail);
        PrunedOfCall(m, tail + b);
        RunStops(tail, b, IdSet(m.calls), {});
        CutInside(tail, b, n);
        PrunedApart(tail[n..], b);
      }
    }
  }

  /** A call that has all its results directly behind it is kept with them, wherever it stands. */
  lemma CompleteCallIsKept(before: Messages, call: ModelMessage, run: Messages, after: Messages)
    requires Group(call, run)
    ensures Pruned(before + ([call] + run + after)) == Pruned(before) + ([call] + run + Pruned(after))
  {
    hide Pruned;
    var ms := [call] + run + after;
    PrunedApart(before, ms);
    assert ms[1..1 + |run|] == run && ms[1 + |run|..] == after && ms[..1 + |run|] == [call] + run;
    GroupIsKept(ms, |run|);
  }

  // ----- trimming and pruning

  /** Every tool message carries the metadata of its result (one that is a decision is not read as a result). */
  predicate ResultsMarked(messages: History)
  {
    forall i :: 0 <= i < |messages| && messages[i].role.Tool? ==> Marked(messages[i])
  }

  predicate Marked(m: ChatMessage) { m.metadata.ToolResult? || m.metadata.Decision? }

  lemma {:induction false} SeenApart(a: History, b: History, render: Render)
    ensures Seen(a + b, render) == Seen(a, render) + Seen(b, render)
  {
    if a == [] {
      assert a + b == b;
    } else {
      assert (a + b)[0] == a[0] && (a + b)[1..] == a[1..] + b;
      SeenApart(a[1..], b, render);
    }
  }

  lemma {:induction false} SeenOneByOne(messages: History, render: Render)
    requires ResultsMarked(messages)
    ensures |Seen(messages, render)| == |messages|
    ensures forall i :: 0 <= i < |messages| ==> [Seen(messages, render)[i]] == ToModel(messages[i], render)
  {
    if messages != [] {
      assert forall i :: 0 <= i < |messages[1..]| ==> messages[1..][i] == messages[i + 1];
      SeenOneByOne(messages[1..], render);
      var first := ToModel(messages[0], render);
      assert |first| == 1;
      assert forall i :: 0 < i < |messages| ==>
          (first + Seen(messages[1..], render))[i] == Seen(messages[1..], render)[i - 1];
    }
  }

  lemma {:induction false} ToolsAreDropped(tools: Messages, rest: Messages)
    requires AllTools(tools)
    ensures Pruned(tools + rest) == Pruned(rest)
  {
    if tools == [] {
      assert tools + rest == rest;
    } else {
      assert (tools + rest)[1..] == tools[1..] + rest;
      ToolsAreDropped(tools[1..], rest);
    }
  }

  /**
   The two scanners on the results behind a call: pruning never takes more than the chunk has,
   and what it takes does not depend on what follows the chunk.
   */
  lemma {:induction false} RunsAgree(results: History, rest: History, expected: set<string>, seen: set<string>,
      render: Render)
    requires ResultsMarked(results + rest) && seen <= expected
    requires ResultRun(results + rest, expected, seen) == |results|
    ensures var r := Seen(results, render);
            && AnswerRun(r + Seen(rest, render), expected, seen) == AnswerRun(r, expected, seen)
            && AllTools(r)
    decreases |results|
  {
    var r := Seen(results, render);
    if results == [] {
      assert results + rest == rest && r + Seen(rest, render) == Seen(rest, render);
    } else {
      hide AnswerRun, Seen, ResultRun, ResultsMarked, AllTools;
      var first := FirstOfRun(results, rest, expected, seen, render);
      var tail, next := results[1..], seen + {first.callId};
      if next != expected { RunsAgree(tail, rest, expected, next, render); }
      AgreesOn(first, Seen(tail, render), Seen(rest, render), expected, seen);
    }
  }

  lemma AgreesOn(first: ModelMessage, tail: Messages, rest: Messages, expected: set<string>, seen: set<string>)
    requires first.role.Tool? && AllTools(tail)
    requires var next := seen + {first.callId};
             next != expected ==> AnswerRun(tail + rest, expected, next) == AnswerRun(tail, expected, next)
    ensures AnswerRun([first] + tail + rest, expected, seen) == AnswerRun([first] + tail, expected, seen)
        && AllTools([first] + tail)
  {
    hide AnswerRun;
    assert [first] + tail + rest == [first] + (tail + rest);
    AnswerStep(first, tail + rest, expected, seen);
    AnswerStep(first, tail, expected, seen);
  }

  lemma FirstOfRun(results: History, rest: History, expected: set<string>, seen: set<string>, render: Render)
      returns (first: ModelMessage)
    requires results != [] && ResultsMarked(results + rest) && ResultRun(results + rest, expected, seen) == |results|
    ensures first.role.Tool? && first.callId in expected && Seen(results, render) == [first]
        + Seen(results[1..], render)
    ensures ResultsMarked(results[1..] + rest)
    ensures var next := seen + {first.callId};
            if next == expected then results[1..] == [] && Seen(results[1..], render) == []
            else ResultRun(results[1..] + rest, expected, next) == |results[1..]|
    ensures AllTools([])
  {
    var m, tail := results[0], results[1..];
    assert (results + rest)[0] == m && (results + rest)[1..] == tail + rest;
    assert ResultsMarked(tail + rest) by {
      assert forall i :: 0 <= i < |tail + rest| ==> (tail + rest)[i] == (results + rest)[i + 1];
    }
    first := ToModel(m, render)[0];
  }

  lemma AnswerStep(first: ModelMessage, tail: Messages, expected: set<string>, seen: set<string>)
    requires first.role.Tool?
    ensures AnswerRun([first] + tail, expected, seen) ==
            if first.callId !in expected || first.callId in seen then 0
            else if seen + {first.callId} == expected then 1
            else 1 + AnswerRun(tail, expected, seen + {first.callId})
  {
  }

  lemma OneIsSeen(m: ChatMessage, render: Render)
    ensures Seen([m], render) == ToModel(m, render)
    ensures CallsOf(m) == [] ==>
        |ToModel(m, render)| <= 1 && forall i :: 0 <= i < |ToModel(m, render)| ==> !HasCalls(ToModel(m, render)[i])
  {
    assert [m][1..] == [];
  }

  lemma CallIsSeen(m: ChatMessage, results: History, render: Render) returns (call: ModelMessage)
    requires CallsOf(m) != []
    ensures HasCalls(call) && call.calls == CallsOf(m)
    ensures Seen([m] + results, render) == [call] + Seen(results, render)
  {
    call := ToModel(m, render)[0];
    assert ([m] + results)[1..] == results;
  }

  /** A chunk is pruned on its own. */
  lemma ChunkIsPrunedAlone(messages: History, render: Render)
    requires messages != [] && ResultsMarked(messages)
    ensures var n := ChunkLength(messages);
            Pruned(Seen(messages, render)) == Pruned(Seen(messages[..n], render)) + Pruned(Seen(messages[n..], render))
  {
    hide Pruned, AnswerRun, ResultRun, DecisionRun, Seen, ToModel, AllPlain, AllTools;
    var n := ChunkLength(messages);
    var chunk, rest := messages[..n], messages[n..];
    assert messages == chunk + rest;
    SeenApart(chunk, rest, render);
    if messages[0].metadata.Decision? {
      DecisionsArePlain(messages, render);
      PlainApart(Seen(chunk, render), Seen(rest, render));
    } else if CallsOf(messages[0]) == [] {
      assert chunk == [messages[0]] && messages[1..] == rest;
      OneIsSeen(messages[0], render);
      SingleApart(Seen(chunk, render), Seen(rest, render));
    } else {
      var results := chunk[1..];
      assert messages[1..] == results + rest && chunk == [messages[0]] + results;
      RunsAgree(results, rest, IdSet(CallsOf(messages[0])), {}, render);
      var call := CallIsSeen(messages[0], results, render);
      CallApart(call, Seen(results, render), Seen(rest, render));
    }
  }

  lemma CallApart(call: ModelMessage, results: Messages, rest: Messages)
    requires HasCalls(call) && AllTools(results)
    requires AnswerRun(results + rest, IdSet(call.calls), {}) == AnswerRun(results, IdSet(call.calls), {})
    ensures Pruned([call] + results + rest) == Pruned([call] + results) + Pruned(rest)
  {
    hide Pruned, AnswerRun;
    CallTakes(call, results, rest);
    assert results + [] == results && [call] + results == [call] + (results + []);
    CallTakes(call, results, []);
    assert [call] + results + rest == [call] + (results + rest);
    NothingPruned();
  }

  /** What the call does not take of the results behind it is dropped. */
  lemma CallTakes(call: ModelMessage, results: Messages, rest: Messages)
    requires HasCalls(call) && AllTools(results)
    requires AnswerRun(results + rest, IdSet(call.calls), {}) <= |results|
    ensures var n := AnswerRun(results + rest, IdSet(call.calls), {});
            Pruned([call] + (results + rest)) == PrunedCall(call, results[..n]) + Pruned(rest)
  {
    var n := AnswerRun(results + rest, IdSet(call.calls), {});
    PrunedOfCall(call, results + rest);
    CutInside(results, rest, n);
    ToolsAreDropped(results[n..], rest);
  }

  lemma CutInside(a: Messages, b: Messages, n: nat)
    requires n <= |a|
    ensures (a + b)[..n] == a[..n] && (a + b)[n..] == a[n..] + b
  {
  }

  lemma SingleApart(a: Messages, rest: Messages)
    requires |a| <= 1 && (a != [] ==> !HasCalls(a[0]))
    ensures Pruned(a + rest) == Pruned(a) + Pruned(rest)
  {
    if a == [] {
      assert a + rest == rest;
    } else {
      assert (a + rest)[1..] == rest && a[1..] == [];
    }
  }

  predicate AllPlain(a: Messages)
  {
    forall i :: 0 <= i < |a| ==> !a[i].role.Tool? && !HasCalls(a[i])
  }

  lemma {:induction false} PlainApart(a: Messages, rest: Messages)
    requires AllPlain(a)
    ensures Pruned(a + rest) == Pruned(a) + Pruned(rest)
  {
    if a == [] {
      assert a + rest == rest;
    } else {
      assert (a + rest)[1..] == a[1..] + rest;
      PlainApart(a[1..], rest);
    }
  }

  lemma {:induction false} DecisionsArePlain(messages: History, render: Render)
    ensures AllPlain(Seen(messages[..DecisionRun(messages)], render))
  {
    var n := DecisionRun(messages);
    if n > 0 {
      DecisionsArePlain(messages[1..], render);
      assert messages[..n][1..] == messages[1..][..n - 1];
    }
  }

  /** Chunk by chunk. */
  function PrunedChunks(chunks: seq<History>, render: Render): Messages
  {
    if chunks == [] then [] else Pruned(Seen(chunks[0], render)) + PrunedChunks(chunks[1..], render)
  }

  lemma {:induction false} PrunedByChunks(messages: History, render: Render)
    requires ResultsMarked(messages)
    ensures Pruned(Seen(messages, render)) == PrunedChunks(Chunks(messages), render)
    decreases |messages|
  {
    if messages != [] {
      var n := ChunkLength(messages);
      ChunkIsPrunedAlone(messages, render);
      assert ResultsMarked(messages[n..]);
      PrunedByChunks(messages[n..], render);
      assert Chunks(messages)[1..] == Chunks(messages[n..]);
    }
  }

  lemma {:induction false} PrunedChunksApart(a: seq<History>, b: seq<History>, render: Render)
    ensures PrunedChunks(a + b, render) == PrunedChunks(a, render) + PrunedChunks(b, render)
  {
    if a == [] {
      assert a + b == b;
    } else {
      assert (a + b)[0] == a[0] && (a + b)[1..] == a[1..] + b;
      PrunedChunksApart(a[1..], b, render);
    }
  }

  /** Cutting a history at chunk borders cuts its list of chunks. */
  lemma {:induction false} ChunksOfSuffix(messages: History, k: nat)
    requires k <= |Chunks(messages)|
    ensures Chunks(Flat(Chunks(messages)[k..])) == Chunks(messages)[k..]
    decreases |messages|
  {
    ChunksAreAll(messages);
    if k == 0 {
      assert Chunks(messages)[0..] == Chunks(messages);
    } else {
      var n := ChunkLength(messages);
      assert Chunks(messages)[k..] == Chunks(messages[n..])[k - 1..];
      ChunksOfSuffix(messages[n..], k - 1);
    }
  }

  lemma {:induction false} DecisionRunOfPrefix(messages: History, p: nat)
    requires DecisionRun(messages) <= p <= |messages|
    ensures DecisionRun(messages[..p]) == DecisionRun(messages)
  {
    if DecisionRun(messages) > 0 {
      DecisionRunOfPrefix(messages[1..], p - 1);
      assert messages[..p][1..] == messages[1..][..p - 1];
    }
  }

  lemma {:induction false} ResultRunOfPrefix(messages: History, p: nat, expected: set<string>, seen: set<string>)
    requires ResultRun(messages, expected, seen) <= p <= |messages|
    ensures ResultRun(messages[..p], expected, seen) == ResultRun(messages, expected, seen)
  {
    if ResultRun(messages, expected, seen) > 0 {
      var next := seen + {messages[0].metadata.callId};
      assert messages[..p][1..] == messages[1..][..p - 1];
      if next != expected {
        ResultRunOfPrefix(messages[1..], p - 1, expected, next);
      }
    }
  }

  lemma ChunkOfPrefix(messages: History, p: nat)
    requires messages != [] && ChunkLength(messages) <= p <= |messages|
    ensures ChunkLength(messages[..p]) == ChunkLength(messages)
  {
    if messages[0].metadata.Decision? {
      DecisionRunOfPrefix(messages, p);
    } else if CallsOf(messages[0]) != [] {
      assert messages[..p][1..] == messages[1..][..p - 1];
      ResultRunOfPrefix(messages[1..], p - 1, IdSet(CallsOf(messages[0])), {});
    }
  }

  lemma {:induction false} ChunksOfPrefix(messages: History, k: nat)
    requires k <= |Chunks(messages)|
    ensures Flat(Chunks(messages)[..k]) <= messages && Chunks(Flat(Chunks(messages)[..k])) == Chunks(messages)[..k]
    decreases |messages|
  {
    hide ChunkLength;
    if k > 0 {
      var n := ChunkLength(messages);
      var first, rest := messages[..n], messages[n..];
      ChunksOfPrefix(rest, k - 1);
      var tail := Flat(Chunks(rest)[..k - 1]);
      assert Chunks(messages)[..k] == [first] + Chunks(rest)[..k - 1];
      assert Chunks(messages)[..k][1..] == Chunks(rest)[..k - 1];
      ChunkThenPrefix(messages, tail);
    }
  }

  lemma ChunkThenPrefix(messages: History, tail: History)
    requires messages != [] && tail <= messages[ChunkLength(messages)..]
    ensures var first := messages[..ChunkLength(messages)];
            first + tail <= messages && Chunks(first + tail) == [first] + Chunks(tail)
  {
    var n := ChunkLength(messages);
    var prefix := messages[..n] + tail;
    assert messages == messages[..n] + messages[n..];
    assert prefix == messages[..|prefix|];
    ChunkOfPrefix(messages, |prefix|);
    assert prefix[..n] == messages[..n] && prefix[n..] == tail;
  }

  /** `projectAgentVisibleHistory`: ordered, seen, pruned. */
  function Projected(messages: History, render: Render): Messages
  {
    Pruned(Seen(Ordered(messages), render))
  }

  // ----- who says what

  /** What the model sees under one role. */
  function OfRole(ms: Messages, role: Role): Messages
  {
    if ms == [] then [] else (if ms[0].role == role then [ms[0]] else []) + OfRole(ms[1..], role)
  }

  /** A decision is a note of the system; everybody else speaks in their own role, a call only with its text. */
  predicate SpeaksAs(m: ChatMessage, role: Role, render: Render)
  {
    match role
    case User => IsUserTurn(m)
    case System => m.metadata.Decision? || m.role.System?
    case Assistant => m.role.Assistant? && !m.metadata.Decision? && (CallsOf(m) == [] || HasText(render(m)))
    case Tool => false
  }

  function SaidAs(messages: History, role: Role, render: Render): Messages
  {
    if messages == [] then []
    else
      var m := messages[0];
      var first := if SpeaksAs(m, role, render) then [ModelMessage(role, render(m), [], "")] else [];
      first + SaidAs(messages[1..], role, render)
  }

  lemma {:induction false} OfRoleApart(a: Messages, b: Messages, role: Role)
    ensures OfRole(a + b, role) == OfRole(a, role) + OfRole(b, role)
  {
    if a == [] {
      assert a + b == b;
    } else {
      var first := if a[0].role == role then [a[0]] else [];
      assert (a + b)[0] == a[0] && (a + b)[1..] == a[1..] + b;
      OfRoleApart(a[1..], b, role);
      assert first + (OfRole(a[1..], role) + OfRole(b, role)) == (first + OfRole(a[1..], role)) + OfRole(b, role);
    }
  }

  lemma OneSpeaks(m: ChatMessage, render: Render, role: Role)
    ensures OfRole(Spoken(ToModel(m, render)), role) == SaidAs([m], role, render)
  {
    var seen := ToModel(m, render);
    if seen != [] {
      assert seen == [seen[0]] && Spoken(seen) == SpokenBy(seen[0]) + Spoken([]);
    }
    assert [m][1..] == [];
  }

  lemma {:induction false} SeenSpeaks(messages: History, render: Render, role: Role)
    ensures OfRole(Spoken(Seen(messages, render)), role) == SaidAs(messages, role, render)
  {
    hide SaidAs, OfRole, Spoken, ToModel;
    if messages == [] {
      NothingSaid(role, render);
    } else {
      var first, rest := ToModel(messages[0], render), Seen(messages[1..], render);
      SaidStep(messages, role, render);
      SpokenApart(first, rest);
      OfRoleApart(Spoken(first), Spoken(rest), role);
      OneSpeaks(messages[0], render, role);
      SeenSpeaks(messages[1..], render, role);
    }
  }

  lemma NothingSaid(role: Role, render: Render)
    ensures OfRole(Spoken([]), role) == [] && SaidAs([], role, render) == []
  {
  }

  lemma SaidStep(messages: History, role: Role, render: Render)
    requires messages != []
    ensures SaidAs(messages, role, render) == SaidAs([messages[0]], role, render) + SaidAs(messages[1..], role, render)
  {
    assert [messages[0]][1..] == [];
  }

  lemma {:induction false} OthersSpeakWhole(ms: Messages, role: Role)
    requires role.User? || role.System?
    ensures OfRole(Spoken(ms), role) == OfRole(ms, role)
  {
    if ms != [] {
      OfRoleApart(SpokenBy(ms[0]), Spoken(ms[1..]), role);
      OthersSpeakWhole(ms[1..], role);
      assert OfRole(SpokenBy(ms[0]), role) == if ms[0].role == role then [ms[0]] else [];
    }
  }

  /**
   Everybody speaks in their own role, in the order of the ordered history: the user's turns under
   the user, the decisions among the notes of the system, and every answer of the assistant.
   */
  lemma EachSpeaksAsItself(messages: History, render: Render, role: Role)
    ensures OfRole(Spoken(Projected(messages, render)), role) == SaidAs(Ordered(messages), role, render)
    ensures role.User? || role.System? ==>
        OfRole(Projected(messages, render), role) == SaidAs(Ordered(messages), role, render)
  {
    hide Spoken, OfRole, Pruned, Seen, SaidAs;
    var seen := Seen(Ordered(messages), render);
    PruningKeepsSpoken(seen);
    SeenSpeaks(Ordered(messages), render, role);
    if role.User? || role.System? {
      OthersSpeakWhole(Pruned(seen), role);
    }
  }

  lemma {:induction false} TurnsWithoutDecisions(messages: History, render: Render)
    ensures SaidAs(Only(messages, false), User, render) == SaidAs(messages, User, render)
  {
    if messages != [] {
      var rest := Only(messages[1..], false);
      assert ([messages[0]] + rest)[1..] == rest && [] + rest == rest;
      TurnsWithoutDecisions(messages[1..], render);
    }
  }

  /** The user's turns are seen as they came: ordering does not touch them. */
  lemma UserTurnsAreSeen(messages: History, render: Render)
    ensures OfRole(Projected(messages, render), User) == SaidAs(messages, User, render)
  {
    hide OfRole, SaidAs, Only, Projected;
    EachSpeaksAsItself(messages, render, User);
    OrderingKeepsAll(messages);
    TurnsWithoutDecisions(messages, render);
    TurnsWithoutDecisions(Ordered(messages), render);
  }

  /**
   Trimming commutes with projection: the projection of the whole history is the projection of
   what was dropped followed by the projection of what was selected.
   */
  lemma TrimmingCommutes(messages: History, limit: nat, render: Render)
    requires limit >= 1 && ResultsMarked(messages)
    ensures exists dropped ::
              && Ordered(messages) == dropped + Selected(messages, limit)
              && Projected(messages, render) == Pruned(Seen(dropped, render))
                  + Projected(Selected(messages, limit), render)
  {
    var ordered, selected := Ordered(messages), Selected(messages, limit);
    OrderingKeepsMarks(messages);
    SelectedIsOrdered(messages, limit);
    if |ordered| <= limit {
      assert ordered == [] + selected && Pruned(Seen([], render)) + Projected(selected, render)
          == Projected(selected, render);
    } else {
      SelectedIsRecent(messages, limit);
      var chunks := Chunks(ordered);
      var first :| 0 <= first < |chunks| && selected == Flat(chunks[first..])
          && ordered == Flat(chunks[..first]) + selected;
      ProjectedAtBorder(ordered, first, render);
    }
  }

  lemma ProjectedAtBorder(ordered: History, k: nat, render: Render)
    requires ResultsMarked(ordered) && k <= |Chunks(ordered)|
    requires ordered == Flat(Chunks(ordered)[..k]) + Flat(Chunks(ordered)[k..])
    ensures var dropped, selected := Flat(Chunks(ordered)[..k]), Flat(Chunks(ordered)[k..]);
            Pruned(Seen(ordered, render)) == Pruned(Seen(dropped, render)) + Pruned(Seen(selected, render))
  {
    hide Pruned, Seen, Chunks, PrunedChunks, Flat;
    var chunks := Chunks(ordered);
    var dropped, selected := Flat(chunks[..k]), Flat(chunks[k..]);
    PrunedByChunks(ordered, render);
    assert chunks == chunks[..k] + chunks[k..];
    PrunedChunksApart(chunks[..k], chunks[k..], render);
    assert Pruned(Seen(dropped, render)) == PrunedChunks(chunks[..k], render) by {
      assert ResultsMarked(dropped) by { assert forall i :: 0 <= i < |dropped| ==> dropped[i] == ordered[i]; }
      PrunedByChunks(dropped, render);
      ChunksOfPrefix(ordered, k);
    }
    assert Pruned(Seen(selected, render)) == PrunedChunks(chunks[k..], render) by {
      assert ResultsMarked(selected)
          by { assert forall i :: 0 <= i < |selected| ==> selected[i] == ordered[|dropped| + i]; }
      PrunedByChunks(selected, render);
      ChunksOfSuffix(ordered, k);
    }
  }

  lemma {:induction false} OrderWithMembers(messages: History, decisions: History, m: ChatMessage)
    requires m in OrderWith(messages, decisions)
    ensures m in messages || m in decisions
    decreases |messages|
  {
    if messages != [] {
      var head, rest := messages[0], messages[1..];
      if head.metadata.Decision? {
        OrderWithMembers(rest, decisions + [head], m);
      } else if head.role.User? {
        if m in OrderWith(rest, []) { OrderWithMembers(rest, [], m); }
      } else {
        if m in OrderWith(rest, decisions) { OrderWithMembers(rest, decisions, m); }
      }
    }
  }

  lemma OrderingKeepsMarks(messages: History)
    requires ResultsMarked(messages)
    ensures ResultsMarked(Ordered(messages))
  {
    var ordered := Ordered(messages);
    forall i | 0 <= i < |ordered| && ordered[i].role.Tool? ensures Marked(ordered[i]) {
      OrderWithMembers(messages, [], ordered[i]);
    }
  }

  // ----- where trimming commutes, exactly

  /** A call at the end of what is dropped, which only with results from what is selected has all of them. */
  predicate CompletedAcross(dropped: Messages, selected: Messages)
  {
    exists k :: 0 <= k < |dropped| && CompletedFrom(dropped, k, selected)
  }

  predicate CompletedFrom(dropped: Messages, k: nat, selected: Messages)
    requires k < |dropped|
  {
    HasCalls(dropped[k]) && AllTools(dropped[k + 1..]) && CompletesCall(dropped[k], dropped[k + 1..], selected)
  }

  /** The results before and behind the cut are all the call asked for, and some are behind it. */
  predicate CompletesCall(call: ModelMessage, results: Messages, selected: Messages)
  {
    var n := AnswerRun(results + selected, IdSet(call.calls), {});
    n > |results| && Answers((results + selected)[..n]) == IdSet(call.calls)
  }

  lemma CutBehindCall(dropped: Messages, k: nat, selected: Messages)
    requires k < |dropped| && !dropped[k].role.Tool? && AllTools(dropped[k + 1..]) && HasCalls(dropped[k])
    requires Pruned(dropped) == Pruned(dropped[..k]) + Pruned([dropped[k]] + dropped[k + 1..])
    requires Pruned(dropped + selected) ==
             Pruned(dropped[..k]) + Pruned([dropped[k]] + (dropped[k + 1..] + selected))
    ensures Pruned(dropped + selected) == Pruned(dropped) + Pruned(selected) <==> !CompletedAcross(dropped, selected)
  {
    hide Pruned, AnswerRun, CompletedFrom, CompletesCall, CompletedAcross;
    var before, m, results := dropped[..k], dropped[k], dropped[k + 1..];
    CallAtCut(m, results, selected);
    PartsCancel(Pruned(before), Pruned([m] + (results + selected)), Pruned([m] + results) + Pruned(selected), []);
    assert Pruned(dropped) + Pruned(selected) == Pruned(before) + (Pruned([m] + results) + Pruned(selected));
    OnlyLastCall(dropped, k, selected);
    CompletedHere(dropped, k, selected);
  }

  lemma CutBehindOther(dropped: Messages, k: nat, selected: Messages)
    requires k < |dropped| && !dropped[k].role.Tool? && AllTools(dropped[k + 1..]) && !HasCalls(dropped[k])
    requires Pruned(dropped) == Pruned(dropped[..k]) + Pruned([dropped[k]] + dropped[k + 1..])
    requires Pruned(dropped + selected) ==
             Pruned(dropped[..k]) + Pruned([dropped[k]] + (dropped[k + 1..] + selected))
    ensures Pruned(dropped + selected) == Pruned(dropped) + Pruned(selected) <==> !CompletedAcross(dropped, selected)
  {
    hide Pruned, AnswerRun, CompletedFrom, CompletesCall, CompletedAcross;
    var m, results := dropped[k], dropped[k + 1..];
    PrunedOfOther(m, results);
    PrunedOfOther(m, results + selected);
    ToolsAreDropped(results, selected);
    assert results + [] == results;
    ToolsAreDropped(results, []);
    NothingPruned();
    OnlyLastCall(dropped, k, selected);
    CompletedHere(dropped, k, selected);
  }

  /**
   Pruning the two parts of a history apart is pruning it whole, if and only if no call gets its
   results across the cut.
   */
  lemma CutIsSeen(dropped: Messages, selected: Messages)
    ensures Pruned(dropped + selected) == Pruned(dropped) + Pruned(selected) <==> !CompletedAcross(dropped, selected)
  {
    hide Pruned, AnswerRun, CompletedFrom, CompletesCall, CompletedAcross;
    var k := LastOther(dropped);
    if k == |dropped| {
      ToolsAreDropped(dropped, selected);
      assert dropped + [] == dropped;
      ToolsAreDropped(dropped, []);
      NothingPruned();
      NoCallAmongTools(dropped, selected);
    } else {
      var before, m, results := dropped[..k], dropped[k], dropped[k + 1..];
      assert dropped == before + ([m] + results) && dropped + selected == before + ([m] + (results + selected));
      PrunedApart(before, [m] + results);
      PrunedApart(before, [m] + (results + selected));
      if HasCalls(m) { CutBehindCall(dropped, k, selected); } else { CutBehindOther(dropped, k, selected); }
    }
  }

  /** Where the last message stands that is no result; behind it are results alone. */
  function LastOther(ms: Messages): (k: nat)
    ensures k <= |ms|
    ensures k < |ms| ==> !ms[k].role.Tool? && AllTools(ms[k + 1..])
    ensures k == |ms| ==> AllTools(ms)
  {
    if ms == [] then 0
    else
      var rest := LastOther(ms[1..]);
      if rest < |ms| - 1 then
        assert ms[1..][rest + 1..] == ms[rest + 2..];
        1 + rest
      else if ms[0].role.Tool? then
        assert forall i :: 0 < i < |ms| ==> ms[i] == ms[1..][i - 1];
        |ms|
      else 0
  }

  lemma NoCallAmongTools(dropped: Messages, selected: Messages)
    requires AllTools(dropped)
    ensures !CompletedAcross(dropped, selected)
  {
    hide AnswerRun;
  }

  lemma OnlyLastCall(dropped: Messages, k: nat, selected: Messages)
    requires k < |dropped| && !dropped[k].role.Tool? && AllTools(dropped[k + 1..])
    ensures forall i :: 0 <= i < |dropped| && i != k ==> !CompletedFrom(dropped, i, selected)
  {
    hide AnswerRun;
    forall i | 0 <= i < |dropped| && i != k ensures !CompletedFrom(dropped, i, selected) {
      if i < k {
        assert dropped[i + 1..][k - i - 1] == dropped[k];
      } else {
        assert dropped[k + 1..][i - k - 1] == dropped[i];
      }
    }
  }

  lemma PartsCancel(front: Messages, a: Messages, b: Messages, back: Messages)
    ensures front + a == front + b <==> a == b
    ensures a + back == b + back <==> a == b
  {
    if front + a == front + b {
      assert a == (front + a)[|front|..] && b == (front + b)[|front|..];
    }
    if a + back == b + back {
      assert |a| == |b| && a == (a + back)[..|a|] && b == (b + back)[..|b|];
    }
  }

  lemma CompletedHere(dropped: Messages, k: nat, selected: Messages)
    requires k < |dropped| && AllTools(dropped[k + 1..])
    requires forall i :: 0 <= i < |dropped| && i != k ==> !CompletedFrom(dropped, i, selected)
    ensures CompletedAcross(dropped, selected) <==>
        HasCalls(dropped[k]) && CompletesCall(dropped[k], dropped[k + 1..], selected)
  {
    assert CompletedFrom(dropped, k, selected) <==>
        HasCalls(dropped[k]) && CompletesCall(dropped[k], dropped[k + 1..], selected);
    hide CompletesCall, CompletedFrom;
    if CompletedAcross(dropped, selected) {
      var i :| 0 <= i < |dropped| && CompletedFrom(dropped, i, selected);
      assert i == k;
    }
  }

  lemma CallAtCut(call: ModelMessage, results: Messages, selected: Messages)
    requires HasCalls(call) && AllTools(results)
    ensures Pruned([call] + (results + selected)) == Pruned([call] + results) + Pruned(selected)
            <==> !CompletesCall(call, results, selected)
  {
    var n := AnswerRun(results + selected, IdSet(call.calls), {});
    hide Pruned, AnswerRun;
    if n <= |results| {
      RunEndsInside(results, selected, IdSet(call.calls), {});
      CallApart(call, results, selected);
      assert [call] + results + selected == [call] + (results + selected);
    } else {
      CallBeyondCut(call, results, selected, n);
    }
  }

  /** A run that ends before the cut ends there without what follows. */
  lemma {:induction false} RunEndsInside(a: Messages, b: Messages, expected: set<string>, seen: set<string>)
    requires AnswerRun(a + b, expected, seen) <= |a|
    ensures AnswerRun(a, expected, seen) == AnswerRun(a + b, expected, seen)
  {
    if a != [] {
      assert (a + b)[0] == a[0] && (a + b)[1..] == a[1..] + b;
      if AnswerRun(a + b, expected, seen) > 1 {
        RunEndsInside(a[1..], b, expected, seen + {a[0].callId});
      } else if a[0].role.Tool? && a[0].callId in expected && a[0].callId !in seen && seen + {a[0].callId} != expected {
        RunEndsInside(a[1..], b, expected, seen + {a[0].callId});
      }
    }
  }

  /** A run that goes on behind the cut takes all before it, and does not have all results there. */
  lemma {:induction false} RunTakesAll(a: Messages, b: Messages, expected: set<string>, seen: set<string>)
    requires AnswerRun(a + b, expected, seen) > |a| && AllTools(a)
    ensures AnswerRun(a, expected, seen) == |a|
    ensures seen != expected ==> seen + Answers(a) != expected
    decreases |a|
  {
    if a != [] {
      var first, rest := a[0], a[1..];
      assert a == [first] + rest && (a + b)[0] == first && (a + b)[1..] == rest + b;
      DistinctOn(first, rest);
      RunTakesAll(rest, b, expected, seen + {first.callId});
      assert seen + Answers(a) == seen + {first.callId} + Answers(rest);
    } else {
      assert seen + Answers(a) == seen;
    }
  }

  lemma CallBeyondCut(call: ModelMessage, results: Messages, selected: Messages, n: nat)
    requires HasCalls(call) && AllTools(results)
        && n == AnswerRun(results + selected, IdSet(call.calls), {}) > |results|
    ensures Pruned([call] + (results + selected)) == Pruned([call] + results) + Pruned(selected)
            <==> Answers((results + selected)[..n]) != IdSet(call.calls)
  {
    var all := results + selected;
    CallOpenAtCut(call, results, selected);
    CallTakes(call, results + [], []);
    PrunedOfCall(call, all);
    hide Pruned, AnswerRun, Answers, PrunedCall;
    NothingPruned();
    assert results + [] == results && (results + []) + [] == results && results[..|results|] == results;
    ResultsBehindCut(results, selected, n);
    PartsCancel([], PrunedCall(call, all[..n]), PrunedCall(call, results), Pruned(all[n..]));
    assert PrunedCall(call, results) + [] == PrunedCall(call, results);
  }

  lemma CallOpenAtCut(call: ModelMessage, results: Messages, selected: Messages)
    requires HasCalls(call) && AllTools(results) && AnswerRun(results + selected, IdSet(call.calls), {}) > |results|
    ensures AnswerRun(results, IdSet(call.calls), {}) == |results| && Answers(results) != IdSet(call.calls)
  {
    hide AnswerRun;
    assert call.calls[0] in IdSet(call.calls);
    RunTakesAll(results, selected, IdSet(call.calls), {});
    assert {} + Answers(results) == Answers(results);
  }

  lemma ResultsBehindCut(results: Messages, selected: Messages, n: nat)
    requires |results| <= n <= |results + selected| && AllTools((results + selected)[..n])
    ensures Pruned((results + selected)[n..]) == Pruned(selected)
  {
    hide Pruned;
    var taken, left := selected[..n - |results|], selected[n - |results|..];
    assert selected == taken + left && (results + selected)[n..] == left;
    assert AllTools(taken)
        by { assert forall i :: 0 <= i < |taken| ==> taken[i] == (results + selected)[..n][|results| + i]; }
    ToolsAreDropped(taken, left);
  }

  /** What the selection leaves out. */
  function Dropped(messages: History, limit: nat): History
  {
    var ordered := Ordered(messages);
    if |Selected(messages, limit)| <= |ordered| then ordered[..|ordered| - |Selected(messages, limit)|] else []
  }

  lemma OrderedIsCut(messages: History, limit: nat)
    requires limit >= 1
    ensures Ordered(messages) == Dropped(messages, limit) + Selected(messages, limit)
  {
    if |Ordered(messages)| > limit { SelectedIsRecent(messages, limit); }
  }

  /**
   For every history, with result metadata or without: trimming commutes with projection if and
   only if no call that is dropped gets the last of its results from what is selected.
   */
  lemma TrimmingCommutesExactly(messages: History, limit: nat, render: Render)
    requires limit >= 1
    ensures var dropped, selected := Dropped(messages, limit), Selected(messages, limit);
            Projected(messages, render) == Pruned(Seen(dropped, render)) + Projected(selected, render)
            <==> !CompletedAcross(Seen(dropped, render), Seen(selected, render))
  {
    hide Pruned, Seen, Selected, Dropped, Ordered, CompletedAcross;
    OrderedIsCut(messages, limit);
    SelectedIsOrdered(messages, limit);
    SeenApart(Dropped(messages, limit), Selected(messages, limit), render);
    CutIsSeen(Seen(Dropped(messages, limit), render), Seen(Selected(messages, limit), render));
  }

  /** Where every result carries its metadata, no call gets results across the cut. */
  lemma MarkedNeverAcross(messages: History, limit: nat, render: Render)
    requires limit >= 1 && ResultsMarked(messages)
    ensures !CompletedAcross(Seen(Dropped(messages, limit), render), Seen(Selected(messages, limit), render))
  {
    hide Pruned, Seen, Selected, Dropped, Ordered, CompletedAcross, Projected, ResultsMarked;
    TrimmingCommutes(messages, limit, render);
    TrimmingCommutesExactly(messages, limit, render);
    OrderedIsCut(messages, limit);
    var dropped :| Ordered(messages) == dropped + Selected(messages, limit)
                   && Projected(messages, render) == Pruned(Seen(dropped, render))
                       + Projected(Selected(messages, limit), render);
    assert dropped == Ordered(messages)[..|dropped|] && |dropped| == |Dropped(messages, limit)|;
    assert Dropped(messages, limit) == Ordered(messages)[..|dropped|];
  }

  /**
   Without result metadata on every tool message, trimming can change what the model sees: a
   result the projection skips lets a later one complete a call that the chunk had closed.
   */
  lemma UnmarkedResultsMatter(render: Render)
    ensures exists messages: History ::
              && !ResultsMarked(messages)
              && Chunks(messages) != []
              && var k := |Chunks(messages)[0]|;
                 && k <= |messages|
                 && Pruned(Seen(messages, render)) != Pruned(Seen(messages[..k], render))
                     + Pruned(Seen(messages[k..], render))
  {
    hide Pruned, Seen;
    var call := ChatMessage("1", Assistant, "", ToolCalls(["a"]));
    var unmarked := ChatMessage("2", Tool, "", NoMetadata);
    var result := ChatMessage("3", Tool, "", ToolResult("a"));
    var messages := [call, unmarked, result];
    assert messages[1].role.Tool? && !Marked(messages[1]);
    assert ChunkLength(messages) == 1 && messages[..1] == [call] && messages[1..] == [unmarked, result];
    assert Chunks(messages)[0] == [call];
    UnmarkedSeen(call, unmarked, result, render);
    UnmarkedPruned(ToModel(call, render)[0], ToModel(result, render)[0]);
  }

  lemma UnmarkedSeen(call: ChatMessage, unmarked: ChatMessage, result: ChatMessage, render: Render)
    requires call == ChatMessage("1", Assistant, "", ToolCalls(["a"]))
        && unmarked == ChatMessage("2", Tool, "", NoMetadata)
    requires result == ChatMessage("3", Tool, "", ToolResult("a"))
    ensures var m, r := ToModel(call, render)[0], ToModel(result, render)[0];
            && Seen([call, unmarked, result], render) == [m, r] && Seen([call], render) == [m]
            && Seen([unmarked, result], render) == [r]
  {
    var m, r := ToModel(call, render)[0], ToModel(result, render)[0];
    assert [call, unmarked, result][1..] == [unmarked, result];
    assert Seen([result], render) == [r] + Seen([], render)
        && Seen([unmarked, result], render) == [] + Seen([result], render) by {
      assert [unmarked, result][1..] == [result];
    }
    assert Seen([call, unmarked, result], render) == [m] + Seen([unmarked, result], render)
        && Seen([call], render) == [m] + Seen([], render);
  }

  lemma UnmarkedPruned(m: ModelMessage, r: ModelMessage)
    requires m.role.Assistant? && m.calls == ["a"] && r.role.Tool? && r.callId == "a"
    ensures |Pruned([m, r])| >= 2 && |Pruned([m])| <= 1 && Pruned([r]) == []
  {
    assert IdSet(m.calls) == {"a"} by { assert m.calls == ["a"]; }
    assert AnswerRun([r], {"a"}, {}) == 1 && Answers([r]) == {"a"};
    assert [m, r][1..] == [r] && [r][..1] == [r];
    assert |Pruned([m, r])| >= 2;
    assert AnswerRun([], {"a"}, {}) == 0 && [m][1..] == [] && Answers([]) == {};
    assert "a" in IdSet(m.calls) && |Pruned([m])| <= 1;
    assert [r][1..] == [] && Pruned([r]) == Pruned([]);
  }
}
