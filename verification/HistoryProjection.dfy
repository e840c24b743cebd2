/**
 The history of a conversation as the model sees it: decisions are moved to the next user turn,
 the newest complete chunks are selected, and tool calls without all their results are pruned.
 */
module HistoryProjection {
  import opened ModelMessages

  datatype Metadata = NoMetadata | Decision | ToolCalls(calls: seq<string>) | ToolResult(callId: string)

  datatype ChatMessage = ChatMessage(id: string, role: Role, text: string, metadata: Metadata)

  type History = seq<ChatMessage>

  // ----- decisions

  predicate IsUserTurn(m: ChatMessage) { m.role.User? && !m.metadata.Decision? }

  /** The order the model sees, with `decisions` waiting for the next user turn. */
  function OrderWith(messages: History, decisions: History): History
    decreases |messages|
  {
    if messages == [] then decisions
    else if messages[0].metadata.Decision? then OrderWith(messages[1..], decisions + [messages[0]])
    else if messages[0].role.User? then decisions + [messages[0]] + OrderWith(messages[1..], [])
    else [messages[0]] + OrderWith(messages[1..], decisions)
  }

  function Ordered(messages: History): History { OrderWith(messages, []) }

  method OrderApprovalDecisions(messages: History) returns (r: History)
    ensures r == Ordered(messages)
  {
    var ordered: History, decisions: History := [], [];
    assert messages[0..] == messages;
    for i := 0 to |messages|
      invariant ordered + OrderWith(messages[i..], decisions) == Ordered(messages)
    {
      var message := messages[i];
      assert messages[i..][1..] == messages[i + 1..];
      if message.metadata.Decision? {
        decisions := decisions + [message];
      } else {
        if message.role.User? {
          assert ordered + (decisions + [message] + OrderWith(messages[i + 1..], []))
              == ordered + decisions + [message] + OrderWith(messages[i + 1..], []);
          ordered, decisions := ordered + decisions, [];
        } else {
          assert ordered + ([message] + OrderWith(messages[i + 1..], decisions)) == ordered + [message]
              + OrderWith(messages[i + 1..], decisions);
        }
        ordered := ordered + [message];
      }
    }
    assert messages[|messages|..] == [];
    r := ordered + decisions;
  }

  /** A decision is followed by another decision or by the user turn it waited for. */
  predicate DecisionsWait(messages: History)
  {
    forall i :: 0 <= i < |messages| - 1 && messages[i].metadata.Decision? ==>
                  messages[i + 1].metadata.Decision? || IsUserTurn(messages[i + 1])
  }

  predicate AllDecisions(messages: History)
  {
    forall m :: m in messages ==> m.metadata.Decision?
  }

  lemma {:induction false} OrderedDecisionsWait(messages: History, decisions: History)
    requires AllDecisions(decisions)
    ensures DecisionsWait(OrderWith(messages, decisions))
    decreases |messages|
  {
    if messages != [] {
      var m, rest := messages[0], messages[1..];
      if m.metadata.Decision? {
        OrderedDecisionsWait(rest, decisions + [m]);
      } else if m.role.User? {
        OrderedDecisionsWait(rest, []);
      } else {
        OrderedDecisionsWait(rest, decisions);
      }
    }
  }

  lemma {:induction false} OrdersUpToTurn(a: History, u: ChatMessage, b: History, decisions: History)
    requires IsUserTurn(u)
    ensures OrderWith(a + [u] + b, decisions) == OrderWith(a, decisions) + [u] + Ordered(b)
    decreases |a|
  {
    hide OrderWith;
    var all := a + [u] + b;
    OrderStep(all, decisions);
    OrderStep(a, decisions);
    if a == [] {
      assert all[0] == u && all[1..] == b;
    } else {
      assert all[0] == a[0] && all[1..] == a[1..] + [u] + b;
      if a[0].metadata.Decision? {
        OrdersUpToTurn(a[1..], u, b, decisions + [a[0]]);
      } else if a[0].role.User? {
        OrdersUpToTurn(a[1..], u, b, []);
      } else {
        OrdersUpToTurn(a[1..], u, b, decisions);
      }
    }
  }

  /** A decision moves to the next user turn and no further: on both sides of a user turn the order is its own. */
  lemma OrderedAroundTurn(a: History, u: ChatMessage, b: History)
    requires IsUserTurn(u)
    ensures Ordered(a + [u] + b) == Ordered(a) + [u] + Ordered(b)
  {
    OrdersUpToTurn(a, u, b, []);
  }

  /** Between two user turns, and behind the last one, the decisions come after everything else. */
  lemma {:induction false} OrderedBetweenTurns(messages: History, decisions: History)
    requires forall m :: m in messages ==> !IsUserTurn(m)
    ensures OrderWith(messages, decisions) == Only(messages, false) + (decisions + Only(messages, true))
    decreases |messages|
  {
    hide Only, OrderWith;
    OrderStep(messages, decisions);
    OnlyStep(messages, false);
    OnlyStep(messages, true);
    if messages == [] {
      assert [] + (decisions + []) == decisions;
    } else {
      var m, rest := messages[0], messages[1..];
      assert m in messages;
      if m.metadata.Decision? {
        OrderedBetweenTurns(rest, decisions + [m]);
        assert decisions + [m] + Only(rest, true) == decisions + ([m] + Only(rest, true));
      } else {
        OrderedBetweenTurns(rest, decisions);
        assert [m] + (Only(rest, false) + (decisions + Only(rest, true)))
            == [m] + Only(rest, false) + (decisions + Only(rest, true));
      }
    }
  }

  /** Where every decision waits for its turn already, ordering changes nothing. */
  lemma {:induction false} OrderingTwice(decisions: History, messages: History)
    requires AllDecisions(decisions) && DecisionsWait(decisions + messages)
    ensures OrderWith(messages, decisions) == decisions + messages
    decreases |messages|
  {
    if messages != [] {
      var m, rest := messages[0], messages[1..];
      assert decisions + messages == (decisions + [m]) + rest;
      if m.metadata.Decision? {
        OrderingTwice(decisions + [m], rest);
      } else {
        assert (decisions + messages)[|decisions|] == m;
        assert decisions != [] ==> (decisions + messages)[|decisions| - 1] in decisions;
        assert [] + rest == rest && DecisionsWait(rest) by {
          assert forall i :: 0 <= i < |rest| ==> rest[i] == (decisions + messages)[|decisions| + 1 + i];
        }
        OrderingTwice([], rest);
      }
    }
  }

  function Only(messages: History, decisions: bool): History
  {
    if messages == [] then []
    else (if messages[0].metadata.Decision? == decisions then [messages[0]] else []) + Only(messages[1..], decisions)
  }

  lemma {:induction false} OnlyApart(a: History, b: History, decisions: bool)
    ensures Only(a + b, decisions) == Only(a, decisions) + Only(b, decisions)
  {
    if a == [] {
      assert a + b == b;
    } else {
      assert (a + b)[0] == a[0] && (a + b)[1..] == a[1..] + b;
      OnlyApart(a[1..], b, decisions);
    }
  }

  lemma OnlyAfter(a: History, m: ChatMessage, b: History, decisions: bool)
    ensures Only(a + [m] + b, decisions) == Only(a, decisions)
        + (if m.metadata.Decision? == decisions then [m] else []) + Only(b, decisions)
  {
    OnlyApart(a, [m], decisions);
    OnlyApart(a + [m], b, decisions);
  }

  lemma {:induction false} OnlyOfDecisions(a: History)
    requires AllDecisions(a)
    ensures Only(a, true) == a && Only(a, false) == []
  {
    if a != [] {
      OnlyOfDecisions(a[1..]);
    }
  }

  lemma {:induction false} OrderingKeepsOthers(messages: History, decisions: History)
    requires AllDecisions(decisions)
    ensures Only(OrderWith(messages, decisions), false) == Only(messages, false)
    decreases |messages|
  {
    hide Only, OrderWith, AllDecisions;
    OnlyOfDecisions(decisions);
    OrderStep(messages, decisions);
    OnlyStep(messages, false);
    if messages != [] {
      var m, rest := messages[0], messages[1..];
      if m.metadata.Decision? {
        OneMoreDecision(decisions, m);
        OrderingKeepsOthers(rest, decisions + [m]);
      } else if m.role.User? {
        OneMoreDecision([], m);
        OrderingKeepsOthers(rest, []);
        OnlyAfter(decisions, m, OrderWith(rest, []), false);
      } else {
        OrderingKeepsOthers(rest, decisions);
        OnlyStep([m] + OrderWith(rest, decisions), false);
      }
    }
  }

  lemma OneMoreDecision(decisions: History, m: ChatMessage)
    ensures AllDecisions([])
    ensures AllDecisions(decisions) && m.metadata.Decision? ==> AllDecisions(decisions + [m])
  {
  }

  lemma OrderStep(messages: History, decisions: History)
    ensures OrderWith(messages, decisions) ==
            if messages == [] then decisions
            else if messages[0].metadata.Decision? then OrderWith(messages[1..], decisions + [messages[0]])
            else if messages[0].role.User? then decisions + [messages[0]] + OrderWith(messages[1..], [])
            else [messages[0]] + OrderWith(messages[1..], decisions)
  {
  }

  lemma OnlyStep(messages: History, decisions: bool)
    ensures Only(messages, decisions) ==
            if messages == [] then []
            else if messages[0].metadata.Decision? == decisions then [messages[0]] + Only(messages[1..], decisions)
            else Only(messages[1..], decisions)
  {
  }

  lemma {:induction false} OrderingKeepsDecisions(messages: History, decisions: History)
    ensures Only(OrderWith(messages, decisions), true) == Only(decisions, true) + Only(messages, true)
    decreases |messages|
  {
    if messages != [] {
      var m, rest := messages[0], messages[1..];
      if m.metadata.Decision? {
        OrderingKeepsDecisions(rest, decisions + [m]);
        OnlyAfter(decisions, m, [], true);
        assert decisions + [m] + [] == decisions + [m];
      } else if m.role.User? {
        OrderingKeepsDecisions(rest, []);
        OnlyAfter(decisions, m, OrderWith(rest, []), true);
      } else {
        OrderingKeepsDecisions(rest, decisions);
        OnlyAfter([], m, OrderWith(rest, decisions), true);
        assert [] + [m] + OrderWith(rest, decisions) == [m] + OrderWith(rest, decisions);
      }
    }
  }

  /** Ordering loses nothing: the decisions keep their order, and so do all other messages. */
  lemma OrderingKeepsAll(messages: History)
    ensures Only(Ordered(messages), false) == Only(messages, false)
    ensures Only(Ordered(messages), true) == Only(messages, true)
  {
    OrderingKeepsOthers(messages, []);
    OrderingKeepsDecisions(messages, []);
  }

  // ----- chunks

  /** The calls of an assistant message; none where they are absent or empty. */
  function CallsOf(m: ChatMessage): seq<string>
  {
    if m.role.Assistant? && m.metadata.ToolCalls? then m.metadata.calls else []
  }

  function DecisionRun(messages: History): (n: nat)
    ensures n <= |messages| && (forall i :: 0 <= i < n ==> messages[i].metadata.Decision?)
    ensures n < |messages| ==> !messages[n].metadata.Decision?
  {
    if messages == [] || !messages[0].metadata.Decision? then 0 else 1 + DecisionRun(messages[1..])
  }

  /** How many messages the chunk of a call takes as its results; a result that comes twice is taken twice. */
  function ResultRun(messages: History, expected: set<string>, seen: set<string>): (n: nat)
    ensures n <= |messages|
  {
    if messages == [] || !messages[0].role.Tool? || !messages[0].metadata.ToolResult?
        || messages[0].metadata.callId !in expected then 0
    else if seen + {messages[0].metadata.callId} == expected then 1
    else 1 + ResultRun(messages[1..], expected, seen + {messages[0].metadata.callId})
  }

  function ChunkLength(messages: History): (n: nat)
    requires messages != []
    ensures 1 <= n <= |messages|
  {
    if messages[0].metadata.Decision? then DecisionRun(messages)
    else if CallsOf(messages[0]) == [] then 1
    else 1 + ResultRun(messages[1..], IdSet(CallsOf(messages[0])), {})
  }

  function Chunks(messages: History): seq<History>
    decreases |messages|
  {
    if messages == [] then [] else [messages[..ChunkLength(messages)]] + Chunks(messages[ChunkLength(messages)..])
  }

  function Flat(chunks: seq<History>): History
  {
    if chunks == [] then [] else chunks[0] + Flat(chunks[1..])
  }

  lemma {:induction false} ChunksAreAll(messages: History)
    ensures Flat(Chunks(messages)) == messages
    ensures forall i :: 0 <= i < |Chunks(messages)| ==> Chunks(messages)[i] != []
    decreases |messages|
  {
    hide ChunkLength;
    if messages != [] {
      ChunksAreAll(messages[ChunkLength(messages)..]);
    }
  }

  /** A result of one of the calls. */
  predicate AnswersCall(m: ChatMessage, calls: set<string>)
  {
    m.role.Tool? && m.metadata.ToolResult? && m.metadata.callId in calls
  }

  /** The calls that have a result. */
  function Answered(results: History): set<string>
  {
    if results == [] then {}
    else (if results[0].metadata.ToolResult? then {results[0].metadata.callId} else {}) + Answered(results[1..])
  }

  /** One message, decisions alone, or a call and then results of its own, up to the one that makes it complete. */
  predicate IsChunk(chunk: History)
  {
    && chunk != []
    && var calls := IdSet(CallsOf(chunk[0]));
       if chunk[0].metadata.Decision? then AllDecisions(chunk)
       else if CallsOf(chunk[0]) == [] then |chunk| == 1
       else
         && (forall i :: 1 <= i < |chunk| ==> AnswersCall(chunk[i], calls))
         && (forall i :: 1 <= i < |chunk| ==> Answered(chunk[1..i]) != calls)
  }

  /** Nothing that belongs to a chunk stands behind it. */
  predicate EndsBefore(chunk: History, next: ChatMessage)
    requires chunk != []
  {
    var calls := IdSet(CallsOf(chunk[0]));
    if chunk[0].metadata.Decision? then !next.metadata.Decision?
    else CallsOf(chunk[0]) == [] || Answered(chunk[1..]) == calls || !AnswersCall(next, calls)
  }

  predicate IsCutting(chunks: seq<History>)
  {
    && (forall i :: 0 <= i < |chunks| ==> IsChunk(chunks[i]))
    && (forall i :: 0 <= i < |chunks| - 1 ==> EndsBefore(chunks[i], chunks[i + 1][0]))
  }

  lemma {:induction false} RunOfResults(messages: History, calls: set<string>, seen: set<string>)
    requires seen != calls
    ensures var n := ResultRun(messages, calls, seen);
        && (forall i :: 0 <= i < n ==> AnswersCall(messages[i], calls))
        && (forall i :: 0 <= i < n ==> seen + Answered(messages[..i]) != calls)
        && (n < |messages| ==> seen + Answered(messages[..n]) == calls || !AnswersCall(messages[n], calls))
  {
    var n := ResultRun(messages, calls, seen);
    if n > 0 {
      var next := seen + {messages[0].metadata.callId};
      forall i | 0 < i <= n ensures seen + Answered(messages[..i]) == next + Answered(messages[1..][..i - 1]) {
        assert messages[..i][0] == messages[0] && messages[..i][1..] == messages[1..][..i - 1];
      }
      if next != calls {
        RunOfResults(messages[1..], calls, next);
      }
    }
  }

  lemma {:induction false} RunIsOfResults(results: History, rest: History, calls: set<string>, seen: set<string>)
    requires seen != calls
    requires forall i :: 0 <= i < |results| ==> AnswersCall(results[i], calls)
    requires forall i :: 0 <= i < |results| ==> seen + Answered(results[..i]) != calls
    requires rest == [] || seen + Answered(results) == calls || !AnswersCall(rest[0], calls)
    ensures ResultRun(results + rest, calls, seen) == |results|
  {
    if results != [] {
      var next := seen + {results[0].metadata.callId};
      assert (results + rest)[0] == results[0] && (results + rest)[1..] == results[1..] + rest;
      forall i | 0 <= i < |results| ensures next + Answered(results[1..][..i]) == seen + Answered(results[..i + 1]) {
        assert results[..i + 1][0] == results[0] && results[..i + 1][1..] == results[1..][..i];
      }
      assert results[1..][..0] == [];
      assert results[..|results|] == results && results[1..][..|results| - 1] == results[1..];
      if next == calls {
        assert next + Answered(results[1..][..0]) == next;
      } else {
        RunIsOfResults(results[1..], rest, calls, next);
      }
    }
  }

  lemma CallsAreSome(m: ChatMessage)
    requires CallsOf(m) != []
    ensures IdSet(CallsOf(m)) != {}
  {
    assert CallsOf(m)[0] in IdSet(CallsOf(m));
  }

  lemma FirstIsChunk(messages: History)
    requires messages != []
    ensures var n := ChunkLength(messages);
        IsChunk(messages[..n]) && (n < |messages| ==> EndsBefore(messages[..n], messages[n]))
  {
    var n := ChunkLength(messages);
    var chunk, calls := messages[..n], IdSet(CallsOf(messages[0]));
    if !messages[0].metadata.Decision? && CallsOf(messages[0]) != [] {
      CallsAreSome(messages[0]);
      RunOfResults(messages[1..], calls, {});
      forall i | 1 <= i <= n ensures chunk[1..i] == messages[1..][..i - 1] {}
      forall i | 1 <= i < n ensures AnswersCall(chunk[i], calls) && Answered(chunk[1..i]) != calls {
        assert AnswersCall(messages[1..][i - 1], calls) && {} + Answered(messages[1..][..i - 1]) != calls;
      }
      assert chunk[1..] == messages[1..][..n - 1];
    }
  }

  lemma ChunkIsFirst(chunk: History, rest: History)
    requires IsChunk(chunk) && (rest != [] ==> EndsBefore(chunk, rest[0]))
    ensures ChunkLength(chunk + rest) == |chunk|
  {
    var all := chunk + rest;
    assert all[0] == chunk[0];
    if chunk[0].metadata.Decision? {
      forall i | 0 <= i < |chunk| ensures all[i].metadata.Decision? {
        assert chunk[i] in chunk;
      }
      assert rest != [] ==> all[|chunk|] == rest[0];
    } else if CallsOf(chunk[0]) != [] {
      var calls := IdSet(CallsOf(chunk[0]));
      CallsAreSome(chunk[0]);
      assert all[1..] == chunk[1..] + rest;
      forall i | 0 <= i < |chunk[1..]|
        ensures AnswersCall(chunk[1..][i], calls) && {} + Answered(chunk[1..][..i]) != calls
      {
        assert chunk[1..][i] == chunk[i + 1] && chunk[1..][..i] == chunk[1..i + 1];
      }
      RunIsOfResults(chunk[1..], rest, calls, {});
    }
  }

  lemma {:induction false} ChunksAreCutting(messages: History)
    ensures IsCutting(Chunks(messages))
    decreases |messages|
  {
    hide IsChunk, EndsBefore, ChunkLength;
    if messages != [] {
      var n := ChunkLength(messages);
      var rest := Chunks(messages[n..]);
      FirstIsChunk(messages);
      ChunksAreCutting(messages[n..]);
      assert n < |messages| ==> rest[0][0] == messages[n];
    }
  }

  /** The chunks of a history are its only cutting into whole chunks. */
  lemma {:induction false} OneCutting(messages: History, chunks: seq<History>)
    ensures Flat(chunks) == messages && IsCutting(chunks) <==> chunks == Chunks(messages)
    decreases |chunks|
  {
    hide IsChunk, EndsBefore, ChunkLength;
    if chunks == Chunks(messages) {
      ChunksAreAll(messages);
      ChunksAreCutting(messages);
    } else if Flat(chunks) == messages && IsCutting(chunks) && chunks != [] {
      var first, rest := chunks[0], chunks[1..];
      FirstNotEmpty(first);
      if rest != [] {
        FirstNotEmpty(rest[0]);
        assert Flat(rest)[0] == rest[0][0];
        assert EndsBefore(chunks[0], chunks[1][0]);
      }
      ChunkIsFirst(first, Flat(rest));
      assert messages[..|first|] == first && messages[|first|..] == Flat(rest);
      assert IsCutting(rest);
      OneCutting(Flat(rest), rest);
    }
  }

  lemma FirstNotEmpty(chunk: History)
    requires IsChunk(chunk)
    ensures chunk != []
  {
  }

  lemma ChunksStep(messages: History, start: nat, end: nat)
    requires start < end <= |messages| && end - start == ChunkLength(messages[start..])
    ensures Chunks(messages[start..]) == [messages[start..end]] + Chunks(messages[end..])
  {
    var tail := messages[start..];
    assert tail[end - start..] == messages[end..] && tail[..end - start] == messages[start..end];
  }

  method ChunkHistory(messages: History) returns (chunks: seq<History>)
    ensures chunks == Chunks(messages)
  {
    chunks := [];
    var index := 0;
    assert messages[0..] == messages;
    while index < |messages|
      invariant 0 <= index <= |messages|
      invariant chunks + Chunks(messages[index..]) == Chunks(messages)
    {
      var next := ChunkEnd(messages, index);
      ChunksStep(messages, index, next);
      assert chunks + ([messages[index..next]] + Chunks(messages[next..])) == chunks + [messages[index..next]]
          + Chunks(messages[next..]);
      chunks := chunks + [messages[index..next]];
      index := next;
    }
    assert messages[index..] == [];
  }

  /** Where the chunk that begins at `start` ends. */
  method ChunkEnd(messages: History, start: nat) returns (index: nat)
    requires start < |messages|
    ensures start < index <= |messages| && index - start == ChunkLength(messages[start..])
  {
    ghost var tail := messages[start..];
    var message := messages[start];
    index := start + 1;
    assert tail[1..] == messages[index..];
    if message.metadata.Decision? {
      while index < |messages| && messages[index].metadata.Decision?
        invariant start < index <= |messages|
        invariant DecisionRun(tail) == index - start + DecisionRun(messages[index..])
      {
        assert messages[index..][1..] == messages[index + 1..];
        index := index + 1;
      }
    } else if CallsOf(message) != [] {
      index := ResultsEnd(messages, index, IdSet(CallsOf(message)));
    }
  }

  method ResultsEnd(messages: History, start: nat, expected: set<string>) returns (index: nat)
    requires start <= |messages|
    ensures start <= index <= |messages| && index - start == ResultRun(messages[start..], expected, {})
  {
    var seen, whole := {}, false;
    index := start;
    while !whole && index < |messages| && messages[index].role.Tool? && messages[index].metadata.ToolResult?
          && messages[index].metadata.callId in expected
      invariant start <= index <= |messages|
      invariant ResultRun(messages[start..], expected, {}) == index - start
          + (if whole then 0 else ResultRun(messages[index..], expected, seen))
    {
      assert messages[index..][1..] == messages[index + 1..];
      seen := seen + {messages[index].metadata.callId};
      index := index + 1;
      whole := seen == expected;
    }
  }

  // ----- the selected messages

  /** The first chunk selected, walking back from before `index` with `count` messages selected behind it. */
  function FirstSelected(chunks: seq<History>, index: nat, count: nat, limit: nat): (first: nat)
    requires index <= |chunks|
    ensures first <= index
  {
    if index == 0 then 0
    else if count > 0 && count + |chunks[index - 1]| > limit then index - 1
    else if count + |chunks[index - 1]| >= limit then index - 1
    else FirstSelected(chunks, index - 1, count + |chunks[index - 1]|, limit)
  }

  function Selected(messages: History, limit: nat): History
  {
    var ordered := Ordered(messages);
    if |ordered| <= limit then ordered
    else var chunks := Chunks(ordered); Flat(chunks[FirstSelected(chunks, |chunks|, 0, limit)..])
  }

  method SelectRecentCompleteHistory(messages: History, limit: nat) returns (selected: History)
    ensures selected == Selected(messages, limit)
  {
    var ordered := OrderApprovalDecisions(messages);
    if |ordered| <= limit { return ordered; }
    var chunks := ChunkHistory(ordered);
    var taken := NewestChunks(chunks, limit);
    selected := Flatten(taken);
  }

  method NewestChunks(chunks: seq<History>, limit: nat) returns (taken: seq<History>)
    ensures taken == chunks[FirstSelected(chunks, |chunks|, 0, limit)..]
  {
    var count: nat, index: nat := 0, |chunks|;
    taken := [];
    ghost var first := FirstSelected(chunks, |chunks|, 0, limit);
    var stop := false;
    while index > 0 && !stop
      invariant 0 <= index <= |chunks| && taken == chunks[index..]
      invariant if stop then index == first else first == FirstSelected(chunks, index, count, limit)
      decreases index, !stop
    {
      var chunk := chunks[index - 1];
      assert [chunk] + chunks[index..] == chunks[index - 1..];
      taken := [chunk] + taken;
      index := index - 1;
      if count > 0 && count + |chunk| > limit {
        stop := true;
      } else {
        count := count + |chunk|;
        stop := count >= limit;
      }
    }
  }

  method Flatten(chunks: seq<History>) returns (flat: History)
    ensures flat == Flat(chunks)
  {
    flat := [];
    assert chunks[0..] == chunks;
    for i := 0 to |chunks|
      invariant flat + Flat(chunks[i..]) == Flat(chunks)
    {
      assert chunks[i..][1..] == chunks[i + 1..];
      assert flat + (chunks[i] + Flat(chunks[i + 1..])) == flat + chunks[i] + Flat(chunks[i + 1..]);
      flat := flat + chunks[i];
    }
    assert chunks[|chunks|..] == [];
  }

  lemma {:induction false} FlatApart(a: seq<History>, b: seq<History>)
    ensures Flat(a + b) == Flat(a) + Flat(b)
  {
    if a == [] {
      assert a + b == b;
    } else {
      assert (a + b)[0] == a[0] && (a + b)[1..] == a[1..] + b;
      FlatApart(a[1..], b);
    }
  }

  lemma FlatStep(chunks: seq<History>, index: nat)
    requires index < |chunks|
    ensures Flat(chunks[index..]) == chunks[index] + Flat(chunks[index + 1..])
  {
  }

  lemma FirstSelectedStep(chunks: seq<History>, index: nat, count: nat, limit: nat)
    requires index <= |chunks|
    ensures FirstSelected(chunks, index, count, limit) ==
            if index == 0 then 0
            else if count + |chunks[index - 1]| >= limit then index - 1
            else FirstSelected(chunks, index - 1, count + |chunks[index - 1]|, limit)
  {
  }

  lemma {:induction false} SelectionSize(chunks: seq<History>, index: nat, count: nat, limit: nat)
    requires index <= |chunks| && count == |Flat(chunks[index..])| && count < limit
    ensures var first := FirstSelected(chunks, index, count, limit);
            && (first < |chunks| ==> |Flat(chunks[first + 1..])| < limit)
            && (first == 0 || |Flat(chunks[first..])| >= limit)
  {
    hide Flat, FirstSelected;
    FirstSelectedStep(chunks, index, count, limit);
    if index > 0 {
      FlatStep(chunks, index - 1);
      if count + |chunks[index - 1]| < limit {
        SelectionSize(chunks, index - 1, count + |chunks[index - 1]|, limit);
      }
    } else {
      if chunks != [] { FlatStep(chunks, 0); }
    }
  }

  /**
   The selection is a suffix of the ordered history made of whole chunks. It holds `limit`
   messages or all there are, and less than `limit` without its oldest chunk.
   */
  lemma SelectedIsRecent(messages: History, limit: nat)
    requires limit >= 1 && |Ordered(messages)| > limit
    ensures var chunks := Chunks(Ordered(messages));
            exists first :: 0 <= first < |chunks| && Selected(messages, limit) == Flat(chunks[first..])
                            && Ordered(messages) == Flat(chunks[..first]) + Selected(messages, limit)
                            && |Selected(messages, limit)| >= limit && |Flat(chunks[first + 1..])| < limit
  {
    hide Chunks, Ordered, Flat, FirstSelected;
    var ordered := Ordered(messages);
    var chunks := Chunks(ordered);
    var first := FirstSelected(chunks, |chunks|, 0, limit);
    ChunksAreAll(ordered);
    NoChunks(chunks);
    SelectionSize(chunks, |chunks|, 0, limit);
    assert chunks == chunks[..first] + chunks[first..];
    FlatApart(chunks[..first], chunks[first..]);
  }

  predicate IsPlain(m: ChatMessage) { !m.metadata.Decision? && CallsOf(m) == [] }

  lemma PlainIsOrdered(messages: History)
    requires forall m :: m in messages ==> IsPlain(m)
    ensures Ordered(messages) == messages
  {
    assert [] + messages == messages;
    assert forall i :: 0 <= i < |messages| ==> messages[i] in messages && IsPlain(messages[i]);
    OrderingTwice([], messages);
  }

  lemma PlainChunkIsOne(chunks: seq<History>, first: nat, front: History, messages: History)
    requires IsCutting(chunks) && first < |chunks| && messages == front + Flat(chunks[first..])
    requires forall m :: m in messages ==> IsPlain(m)
    ensures |Flat(chunks[first..])| == 1 + |Flat(chunks[first + 1..])|
  {
    hide Flat;
    FlatStep(chunks, first);
    FirstNotEmpty(chunks[first]);
    assert messages[|front|] == chunks[first][0];
    assert chunks[first][0] in messages && IsChunk(chunks[first]);
  }

  /** Of a history without calls and decisions exactly the newest `limit` messages are selected. */
  lemma PlainHistoryIsTrimmed(messages: History, limit: nat)
    requires 1 <= limit < |messages| && forall m :: m in messages ==> IsPlain(m)
    ensures Selected(messages, limit) == messages[|messages| - limit..]
  {
    hide Chunks, Flat, Selected, Ordered, IsCutting, IsPlain;
    PlainIsOrdered(messages);
    SelectedIsRecent(messages, limit);
    var chunks, selected := Chunks(messages), Selected(messages, limit);
    var first :| 0 <= first < |chunks| && selected == Flat(chunks[first..])
                 && messages == Flat(chunks[..first]) + selected
                 && |selected| >= limit && |Flat(chunks[first + 1..])| < limit;
    ChunksAreCutting(messages);
    PlainChunkIsOne(chunks, first, Flat(chunks[..first]), messages);
  }

  lemma NoChunks(chunks: seq<History>)
    ensures Flat(chunks[|chunks|..]) == [] && chunks[0..] == chunks
  {
  }

  lemma SuffixWaits(a: History, b: History)
    requires DecisionsWait(a + b)
    ensures DecisionsWait(b)
  {
    assert forall i :: 0 <= i < |b| ==> b[i] == (a + b)[|a| + i];
  }

  /** A selection is ordered already. */
  lemma SelectedIsOrdered(messages: History, limit: nat)
    requires limit >= 1
    ensures Ordered(Selected(messages, limit)) == Selected(messages, limit)
  {
    var ordered, selected := Ordered(messages), Selected(messages, limit);
    OrderedDecisionsWait(messages, []);
    if |ordered| > limit {
      SelectedIsRecent(messages, limit);
      var chunks := Chunks(ordered);
      var first :| 0 <= first < |chunks| && selected == Flat(chunks[first..])
          && ordered == Flat(chunks[..first]) + selected;
      SuffixWaits(Flat(chunks[..first]), selected);
    }
    assert [] + selected == selected;
    OrderingTwice([], selected);
  }
}
