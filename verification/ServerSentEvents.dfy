/**
 Reading an event stream that arrives in arbitrary pieces. The text of the stream alone decides
 what is read, for every stream in which no carriage return stands before a carriage return and
 line feed; where one does, the pieces matter.

 A piece may end inside a line ending, so the reader folds the endings of what it has each time it
 reads. The blocks are then read line by line, and what the server wrote comes back, however the
 stream was cut on its way.
 */
module ServerSentEvents {
  import opened Optional

  type Blocks = seq<string>

  // ----- line endings

  /** `replaceAll("\r\n", "\n")` */
  function Folded(s: string): string
  {
    if s == "" then ""
    else if |s| >= 2 && s[0] == '\r' && s[1] == '\n' then "\n" + Folded(s[2..])
    else [s[0]] + Folded(s[1..])
  }

  predicate CutsPair(a: string, b: string) { a != "" && b != "" && a[|a| - 1] == '\r' && b[0] == '\n' }

  lemma {:induction false} FoldedApart(a: string, b: string)
    requires !CutsPair(a, b)
    ensures Folded(a + b) == Folded(a) + Folded(b)
  {
    hide Folded;
    var s := a + b;
    FoldedStep(a);
    FoldedStep(s);
    if a == "" {
      assert s == b;
    } else if BeginsWithPair(a) {
      assert s[2..] == a[2..] + b;
      FoldedApart(a[2..], b);
      assert "\n" + (Folded(a[2..]) + Folded(b)) == "\n" + Folded(a[2..]) + Folded(b);
    } else {
      assert s[0] == a[0] && s[1..] == a[1..] + b;
      FoldedApart(a[1..], b);
      assert [a[0]] + (Folded(a[1..]) + Folded(b)) == [a[0]] + Folded(a[1..]) + Folded(b);
    }
  }

  predicate BeginsWithPair(s: string) { |s| >= 2 && s[0] == '\r' && s[1] == '\n' }

  lemma FoldedStep(s: string)
    ensures Folded(s) ==
            if s == "" then "" else if BeginsWithPair(s) then "\n" + Folded(s[2..]) else [s[0]] + Folded(s[1..])
  {
  }

  lemma FoldedPair(a: string, b: string)
    ensures Folded(a + "\r" + ("\n" + b)) == Folded(a) + "\n" + Folded(b)
  {
    var pair := "\r\n" + b;
    assert a + "\r" + ("\n" + b) == a + pair && pair[2..] == b;
    FoldedApart(a, pair);
  }

  lemma FoldedReturn(a: string)
    ensures Folded(a + "\r") == Folded(a) + "\r"
  {
    FoldedApart(a, "\r");
  }

  predicate PairAt(s: string, i: int) { 0 <= i < |s| - 1 && s[i] == '\r' && s[i + 1] == '\n' }

  predicate HasPair(s: string) { exists i :: 0 <= i < |s| && PairAt(s, i) }

  /** A carriage return before a carriage return and line feed. */
  predicate TripleAt(s: string, i: int) { 0 <= i < |s| - 2 && s[i] == '\r' && PairAt(s, i + 1) }

  predicate HasTriple(s: string) { exists i :: 0 <= i < |s| && TripleAt(s, i) }

  lemma {:induction false} FoldedIsSettled(s: string)
    requires !HasPair(s)
    ensures Folded(s) == s
  {
    if s != "" {
      assert !PairAt(s, 0);
      assert forall i :: PairAt(s[1..], i) ==> PairAt(s, i + 1);
      FoldedIsSettled(s[1..]);
    }
  }

  /** Without a carriage return before a pair, no pair is left once the pairs are folded. */
  lemma {:induction false} NoPairIsLeft(s: string)
    requires !HasTriple(s)
    ensures !HasPair(Folded(s))
    ensures s != "" && s[0] != '\n' && !PairAt(s, 0) ==> Folded(s)[0] == s[0]
  {
    if s != "" {
      var n := if PairAt(s, 0) then 2 else 1;
      assert forall i :: TripleAt(s[n..], i) ==> TripleAt(s, i + n);
      NoPairIsLeft(s[n..]);
      var head, rest := if n == 2 then '\n' else s[0], Folded(s[n..]);
      assert Folded(s) == [head] + rest;
      assert !TripleAt(s, 0);
      assert forall i :: PairAt([head] + rest, i) && i > 0 ==> PairAt(rest, i - 1);
      assert head == '\r' && rest != "" ==> rest[0] != '\n';
    }
  }

  // ----- blocks

  predicate GapAt(s: string, i: int) { 0 <= i < |s| - 1 && s[i] == '\n' && s[i + 1] == '\n' }

  /** Where the first blank line is, or the length of the text. */
  function FirstGap(s: string): (i: nat)
    ensures i <= |s| && (i == |s| || GapAt(s, i))
    ensures forall k :: 0 <= k < i ==> !GapAt(s, k)
  {
    if s == "" || GapAt(s, 0) then 0
    else
      assert forall k :: GapAt(s, k) && k > 0 ==> GapAt(s[1..], k - 1);
      assert forall k :: GapAt(s[1..], k) ==> GapAt(s, k + 1);
      1 + FirstGap(s[1..])
  }

  /** `split("\n\n")` */
  function Split(s: string): (r: Blocks)
    ensures r != []
    decreases |s|
  {
    var i := FirstGap(s);
    if i == |s| then [s] else [s[..i]] + Split(s[i + 2..])
  }

  function Front(r: Blocks): Blocks
    requires r != []
  {
    r[..|r| - 1]
  }

  function Last(r: Blocks): string
    requires r != []
  {
    r[|r| - 1]
  }

  /** Splitting goes on from the last block. */
  lemma {:induction false} SplitGoesOn(x: string, y: string)
    ensures Split(x + y) == Front(Split(x)) + Split(Last(Split(x)) + y)
    decreases |x|
  {
    hide FirstGap, Split, GapAt, Front, Last;
    var i := FirstGap(x);
    if i == |x| {
      SplitNone(x);
      FrontOfOne(x);
      assert [] + Split(x + y) == Split(x + y);
    } else {
      SplitStep(x);
      SplitGoesOn(x[i + 2..], y);
      GapStays(x, y);
      SplitStep(x + y);
      FrontOfMore(x[..i], Split(x[i + 2..]));
      Regroup([x[..i]], Front(Split(x[i + 2..])), Split(Last(Split(x[i + 2..])) + y));
    }
  }

  lemma Regroup(a: Blocks, b: Blocks, c: Blocks)
    ensures a + (b + c) == a + b + c
  {
  }

  lemma SplitNone(s: string)
    requires FirstGap(s) == |s|
    ensures Split(s) == [s]
  {
  }

  lemma FrontOfOne(s: string)
    ensures Front([s]) == [] && Last([s]) == s
  {
  }

  /** The first gap of a text stays where it is when the text goes on. */
  lemma GapStays(x: string, y: string)
    requires FirstGap(x) < |x|
    ensures var i := FirstGap(x);
            FirstGap(x + y) == i && i + 2 <= |x| && (x + y)[..i] == x[..i] && (x + y)[i + 2..] == x[i + 2..] + y
  {
    hide FirstGap;
    var i := FirstGap(x);
    assert GapAt(x + y, i) && forall k :: GapAt(x + y, k) && k < i ==> GapAt(x, k);
  }

  lemma SplitStep(s: string)
    requires FirstGap(s) < |s|
    ensures FirstGap(s) + 2 <= |s| && Split(s) == [s[..FirstGap(s)]] + Split(s[FirstGap(s) + 2..])
  {
    hide FirstGap, GapAt;
    var i := FirstGap(s);
    GapFits(s);
    var rest := Split(s[i + 2..]);
    assert Split(s) == [s[..i]] + rest;
  }

  lemma GapFits(s: string)
    requires FirstGap(s) < |s|
    ensures FirstGap(s) + 2 <= |s| && s[FirstGap(s) + 1] == '\n'
  {
  }

  lemma FrontOfMore(block: string, r: Blocks)
    requires r != []
    ensures Front([block] + r) == [block] + Front(r) && Last([block] + r) == Last(r)
  {
  }

  /** The last block holds no blank line, and the text ends with it. */
  lemma {:induction false} LastBlock(x: string)
    ensures EndsIn(x, Last(Split(x))) && FirstGap(Last(Split(x))) == |Last(Split(x))|
    decreases |x|
  {
    hide Split, FirstGap, EndsIn, Last;
    var i := FirstGap(x);
    LastOfSplit(x);
    if i < |x| {
      GapFits(x);
      LastBlock(x[i + 2..]);
      EndsInRest(x, i + 2, Last(Split(x[i + 2..])));
    } else {
      EndsInItself(x);
    }
  }

  lemma LastOfSplit(x: string)
    ensures Last(Split(x)) == if FirstGap(x) == |x| then x else Last(Split(x[FirstGap(x) + 2..]))
  {
    hide FirstGap, Split;
    SplitOnce(x);
    if FirstGap(x) < |x| { LastBehind(x[..FirstGap(x)], Split(x[FirstGap(x) + 2..])); }
  }

  lemma SplitOnce(x: string)
    ensures var i := FirstGap(x);
            Split(x) == if i == |x| then [x] else [x[..i]] + Split(x[i + 2..])
  {
    hide FirstGap;
  }

  lemma LastBehind(head: string, tail: Blocks)
    requires tail != []
    ensures Last([head] + tail) == Last(tail)
  {
  }

  /** The text ends in a part, of its own or behind a line feed. */
  predicate EndsIn(x: string, last: string)
  {
    |last| <= |x| && x[|x| - |last|..] == last && (|last| < |x| ==> x[|x| - |last| - 1] == '\n')
  }

  lemma EndsInItself(x: string)
    ensures EndsIn(x, x)
  {
  }

  lemma EndsInRest(x: string, from: nat, last: string)
    requires 0 < from <= |x| && x[from - 1] == '\n' && EndsIn(x[from..], last)
    ensures EndsIn(x, last)
  {
  }

  // ----- the reader

  /** The blocks one read gives, and the text it keeps. */
  function Fed(buffer: string, piece: string): (r: Blocks)
    ensures r != []
  {
    Split(Folded(buffer + piece))
  }

  /** Where a reader stands that has read `text` in pieces: what it gave, and what it keeps. */
  ghost predicate ReadSoFar(text: string, given: Blocks, buffer: string)
  {
    Split(Folded(text)) == given + [buffer]
  }

  /** One more piece: the reader gives and keeps what it would have, had the text come at once. */
  lemma PieceGoesOn(text: string, given: Blocks, buffer: string, piece: string)
    requires !HasTriple(text) && ReadSoFar(text, given, buffer)
    ensures Split(Folded(text + piece)) == given + Fed(buffer, piece)
  {
    hide Split, Folded, Front, Last, HasTriple, HasPair, FirstGap;
    var x := Folded(text);
    FrontAndLast(given, buffer);
    LastBlock(x);
    NoPairIsLeft(text);
    SuffixHasNone(x, |x| - |buffer|);
    FoldedIsSettled(buffer);
    if CutsPair(text, piece) {
      PairGoesOn(text, given, buffer, piece);
    } else {
      FoldedApart(text, piece);
      SplitGoesOn(x, Folded(piece));
      BufferCutsNone(text, buffer, piece);
      FoldedApart(buffer, piece);
    }
  }

  lemma FrontAndLast(given: Blocks, buffer: string)
    ensures Front(given + [buffer]) == given && Last(given + [buffer]) == buffer
  {
  }

  lemma BufferCutsNone(text: string, buffer: string, piece: string)
    requires |buffer| <= |Folded(text)| && Folded(text)[|Folded(text)| - |buffer|..] == buffer && !CutsPair(text, piece)
    ensures !CutsPair(buffer, piece)
  {
    LastStays(text);
    var x := Folded(text);
    if buffer != "" { assert buffer[|buffer| - 1] == x[|x| - 1]; }
  }

  lemma SuffixHasNone(s: string, from: nat)
    requires from <= |s| && !HasPair(s)
    ensures !HasPair(s[from..])
  {
    assert forall i :: PairAt(s[from..], i) ==> PairAt(s, from + i);
  }

  /** Folding keeps a last character that is not part of a pair. */
  lemma LastStays(text: string)
    ensures text != "" ==> Folded(text) != "" && Folded(text)[|Folded(text)| - 1] == text[|text| - 1]
    ensures text == "" ==> Folded(text) == ""
  {
  }

  /** A pair cut in two: its carriage return waits at the end of the buffer. */
  lemma PairGoesOn(text: string, given: Blocks, buffer: string, piece: string)
    requires CutsPair(text, piece) && ReadSoFar(text, given, buffer) && Folded(buffer) == buffer
    ensures Split(Folded(text + piece)) == given + Fed(buffer, piece)
  {
    hide Split, Folded, Front, Last, FirstGap;
    var front, rest := text[..|text| - 1], piece[1..];
    assert text == front + "\r" && piece == "\n" + rest;
    FoldedReturn(front);
    var x := Folded(front);
    var last := Last(Split(x));
    ReturnJoinsLast(x);
    FrontAndLast(given, buffer);
    FrontAndLast(Front(Split(x)), last + "\r");
    FoldedPair(front, rest);
    FoldedPair(last, rest);
    FoldedReturn(last);
    SameBeforeReturn(Folded(last), last);
    OneText(x, Folded(rest));
    OneText(last, Folded(rest));
    SplitGoesOn(x, "\n" + Folded(rest));
  }

  lemma SameBeforeReturn(a: string, b: string)
    requires a + "\r" == b + "\r"
    ensures a == b
  {
    assert (a + "\r")[..|a|] == a && (b + "\r")[..|b|] == b;
  }

  lemma OneText(a: string, b: string)
    ensures a + "\n" + b == a + ("\n" + b)
  {
  }

  /** A carriage return behind a text goes to its last block. */
  lemma ReturnJoinsLast(x: string)
    ensures Split(x + "\r") == Front(Split(x)) + [Last(Split(x)) + "\r"]
  {
    hide Split, Front, Last, FirstGap;
    var last := Last(Split(x));
    SplitGoesOn(x, "\r");
    LastBlock(x);
    assert forall k :: GapAt(last + "\r", k) ==> GapAt(last, k);
    NoGap(last + "\r");
    SplitNone(last + "\r");
  }

  /** So does a carriage return and line feed. */
  lemma PairJoinsLast(x: string)
    ensures Split(x + "\r\n") == Front(Split(x)) + [Last(Split(x)) + "\r\n"]
  {
    hide Split, Front, Last, FirstGap;
    var last := Last(Split(x));
    SplitGoesOn(x, "\r\n");
    LastBlock(x);
    assert forall k :: GapAt(last + "\r\n", k) ==> GapAt(last, k);
    NoGap(last + "\r\n");
    SplitNone(last + "\r\n");
  }

  lemma NoGap(s: string)
    requires forall k :: !GapAt(s, k)
    ensures FirstGap(s) == |s|
  {
  }

  function Joined(pieces: seq<string>): string { if pieces == [] then "" else pieces[0] + Joined(pieces[1..]) }

  /** The blocks a reader gives that holds `buffer`, of these pieces and of what the decoder holds back at the end. */
  function BlocksRead(buffer: string, pieces: seq<string>, rest: string): Blocks
    decreases |pieces|
  {
    if pieces == [] then Fed(buffer, rest)
    else Front(Fed(buffer, pieces[0])) + BlocksRead(Last(Fed(buffer, pieces[0])), pieces[1..], rest)
  }

  lemma PrefixHasNone(s: string, t: string)
    requires !HasTriple(s + t)
    ensures !HasTriple(s)
  {
    assert forall i :: TripleAt(s, i) ==> TripleAt(s + t, i);
  }

  lemma {:induction false} PiecesGoOn(text: string, given: Blocks, buffer: string, pieces: seq<string>, rest: string)
    requires ReadSoFar(text, given, buffer) && !HasTriple(text + (Joined(pieces) + rest))
    ensures given + BlocksRead(buffer, pieces, rest) == Split(Folded(text + (Joined(pieces) + rest)))
    decreases |pieces|
  {
    hide Split, Folded, Front, Last, HasTriple;
    PrefixHasNone(text, Joined(pieces) + rest);
    if pieces == [] {
      assert Joined(pieces) + rest == rest;
      PieceGoesOn(text, given, buffer, rest);
    } else {
      var fed := Fed(buffer, pieces[0]);
      var more := Joined(pieces[1..]) + rest;
      PieceGoesOn(text, given, buffer, pieces[0]);
      FrontThenLast(fed);
      Regroup(given, Front(fed), [Last(fed)]);
      Regroup(given, Front(fed), BlocksRead(Last(fed), pieces[1..], rest));
      assert text + (Joined(pieces) + rest) == text + pieces[0] + more;
      PiecesGoOn(text + pieces[0], given + Front(fed), Last(fed), pieces[1..], rest);
    }
  }

  lemma FrontThenLast(r: Blocks)
    requires r != []
    ensures Front(r) + [Last(r)] == r
  {
  }

  /** However the text is cut, the blocks are those of the whole text. */
  lemma PiecesDoNotMatter(pieces: seq<string>, rest: string)
    requires !HasTriple(Joined(pieces) + rest)
    ensures BlocksRead("", pieces, rest) == Split(Folded(Joined(pieces) + rest))
  {
    hide Split, Folded, HasTriple;
    EmptyText();
    assert "" + (Joined(pieces) + rest) == Joined(pieces) + rest;
    PiecesGoOn("", [], "", pieces, rest);
    assert [] + BlocksRead("", pieces, rest) == BlocksRead("", pieces, rest);
  }

  lemma EmptyText()
    ensures ReadSoFar("", [], "")
  {
  }

  /** The length of the text these blocks come from. */
  function Size(r: Blocks): nat { if r == [] then 0 else |r[0]| + (if |r| > 1 then 2 else 0) + Size(r[1..]) }

  lemma {:induction false} SizeApart(a: Blocks, b: Blocks)
    requires b != []
    ensures Size(a + b) == Size(a + [""]) + Size(b)
  {
    if a == [] {
      assert a + b == b && a + [""] == [""];
    } else {
      assert (a + b)[1..] == a[1..] + b && (a + [""])[1..] == a[1..] + [""];
      SizeApart(a[1..], b);
    }
  }

  lemma {:induction false} SplitSize(s: string)
    ensures Size(Split(s)) == |s|
    decreases |s|
  {
    hide FirstGap;
    if FirstGap(s) < |s| {
      SplitStep(s);
      SplitSize(s[FirstGap(s) + 2..]);
      assert ([s[..FirstGap(s)]] + Split(s[FirstGap(s) + 2..]))[1..] == Split(s[FirstGap(s) + 2..]);
    } else {
      SplitNone(s);
    }
  }

  lemma {:induction false} FoldedIsShorter(s: string)
    ensures |Folded(s)| <= |s|
  {
    if s != "" {
      FoldedIsShorter(s[if PairAt(s, 0) then 2 else 1..]);
    }
  }

  /**
   Where a carriage return stands before a pair, the pieces matter: read up to that pair first, the
   text loses the carriage return, which read as a whole it keeps.
   */
  lemma PiecesMatter(before: string, rest: string)
    ensures BlocksRead("", [before + "\r\r\n"], rest) != Split(Folded(before + "\r\r\n" + rest))
  {
    hide Split, Folded, Front, Last, FirstGap, Size;
    var piece, y := before + "\r\r\n", Folded(before);
    var last := Last(Split(y));
    ReadToPair(before);
    FoldedApart(piece, rest);
    SplitSize(y + "\r\n" + Folded(rest));
    // read in two pieces
    var given, buffer := Front(Split(y)), last + "\r\n";
    FrontAndLast(given, buffer);
    assert "" + piece == piece;
    assert BlocksRead("", [piece], rest) == given + Split(Folded(buffer + rest)) by {
      assert [piece][1..] == [] && BlocksRead(buffer, [], rest) == Fed(buffer, rest);
    }
    FoldedPair(last, rest);
    assert buffer + rest == last + "\r" + ("\n" + rest);
    FoldedIsShorter(last);
    SplitSize(Folded(buffer + rest));
    SplitSize(y + "\r\n");
    SizeApart(given, Split(Folded(buffer + rest)));
    SizeApart(given, [buffer]);
    SizeOfOne(buffer);
  }

  lemma SizeOfOne(block: string)
    ensures Size([block]) == |block|
  {
  }

  lemma ReadToPair(before: string)
    ensures var y := Folded(before);
            && Folded(before + "\r\r\n") == y + "\r\n"
            && Split(y + "\r\n") == Front(Split(y)) + [Last(Split(y)) + "\r\n"]
  {
    hide Split, Front, Last, Folded;
    var y := Folded(before);
    assert before + "\r\r\n" == before + "\r" + "\r" + ("\n" + "");
    FoldedPair(before + "\r", "");
    FoldedReturn(before);
    FoldedStep("");
    assert y + "\r" + "\n" + "" == y + "\r\n";
    PairJoinsLast(y);
  }

  /** The pieces never matter for exactly the texts without a carriage return before a pair. */
  lemma PiecesMatterForTriples(text: string)
    ensures (forall pieces, rest :: Joined(pieces) + rest == text ==>
        BlocksRead("", pieces, rest) == Split(Folded(text))) <==> !HasTriple(text)
  {
    hide Split, Folded;
    if HasTriple(text) {
      var i :| 0 <= i < |text| && TripleAt(text, i);
      var before, rest := text[..i], text[i + 3..];
      assert text == before + "\r\r\n" + rest;
      PiecesMatter(before, rest);
      assert Joined([before + "\r\r\n"]) == before + "\r\r\n" + Joined([]);
      assert Joined([before + "\r\r\n"]) + rest == text;
    } else {
      forall pieces, rest | Joined(pieces) + rest == text ensures BlocksRead("", pieces, rest) == Split(Folded(text)) {
        PiecesDoNotMatter(pieces, rest);
      }
    }
  }

  // ----- the data of a block

  function Lines(block: string): seq<string>
  {
    if block == "" then [""]
    else
      var rest := Lines(block[1..]);
      if block[0] == '\n' then [""] + rest else if rest == [] then [block] else [[block[0]] + rest[0]] + rest[1..]
  }

  const FIELD := "data:"

  /** What a line adds to the data of its event; none where it is another field or a comment. */
  function DataOf(line: string): Option<string>
  {
    if FIELD <= line then
      var value := line[|FIELD|..];
      Some(if value != "" && value[0] == ' ' then value[1..] else value)
    else None
  }

  function DataLines(lines: seq<string>): seq<string>
  {
    if lines == [] then []
    else (if DataOf(lines[0]).Some? then [DataOf(lines[0]).value] else []) + DataLines(lines[1..])
  }

  function JoinLines(lines: seq<string>): string
  {
    if lines == [] then "" else if |lines| == 1 then lines[0] else lines[0] + "\n" + JoinLines(lines[1..])
  }

  /** An event without data is not given. */
  function EventData(block: string): Option<string>
  {
    var data := JoinLines(DataLines(Lines(block)));
    if data == "" then None else Some(data)
  }

  function EventsOf(blocks: Blocks): seq<string>
  {
    if blocks == [] then []
    else
      var last := EventData(blocks[|blocks| - 1]);
      EventsOf(blocks[..|blocks| - 1]) + (if last.Some? then [last.value] else [])
  }

  lemma {:induction false} EventsApart(a: Blocks, b: Blocks)
    ensures EventsOf(a + b) == EventsOf(a) + EventsOf(b)
    decreases |b|
  {
    if b == [] {
      assert a + b == a;
    } else {
      assert (a + b)[..|a + b| - 1] == a + b[..|b| - 1];
      EventsApart(a, b[..|b| - 1]);
    }
  }

  // ----- the lines of a block

  lemma {:induction false} LineThenMore(line: string, more: string)
    requires '\n' !in line
    ensures Lines(line + ("\n" + more)) == [line] + Lines(more)
    ensures Lines(line) == [line]
  {
    if line == "" {
      assert line + ("\n" + more) == "\n" + more && ("\n" + more)[1..] == more;
    } else {
      var s := line + ("\n" + more);
      assert s[1..] == line[1..] + ("\n" + more) && s[0] == line[0];
      LineThenMore(line[1..], more);
      var rest := [line[1..]] + Lines(more);
      assert Lines(s) == [[line[0]] + rest[0]] + rest[1..];
      assert [line[0]] + line[1..] == line && rest[1..] == Lines(more);
    }
  }

  /** Splitting into lines and joining them are inverse. */
  lemma {:induction false} LinesJoined(lines: seq<string>)
    requires lines != [] && forall i :: 0 <= i < |lines| ==> '\n' !in lines[i]
    ensures Lines(JoinLines(lines)) == lines
  {
    if |lines| == 1 {
      LineThenMore(lines[0], "");
    } else {
      LinesJoined(lines[1..]);
      LineThenMore(lines[0], JoinLines(lines[1..]));
      assert lines[0] + "\n" + JoinLines(lines[1..]) == lines[0] + ("\n" + JoinLines(lines[1..]));
    }
  }

  /** A line of data, with a space before its text or without, or any other line. */
  datatype Line = Spaced(text: string) | Bare(text: string) | Other(text: string)
  {
    function Written(): string
    {
      match this
      case Spaced(text) => "data: " + text
      case Bare(text) => "data:" + text
      case Other(text) => text
    }

    predicate Valid()
    {
      && '\n' !in text
      && (Bare? && text != "" ==> text[0] != ' ')
      && (Other? ==> !("data:" <= text))
    }
  }

  function WrittenAll(lines: seq<Line>): seq<string>
  {
    if lines == [] then [] else [lines[0].Written()] + WrittenAll(lines[1..])
  }

  function DataIn(lines: seq<Line>): seq<string>
  {
    if lines == [] then [] else if lines[0].Other? then DataIn(lines[1..]) else [lines[0].text] + DataIn(lines[1..])
  }

  lemma LineHasData(line: Line)
    requires line.Valid()
    ensures '\n' !in line.Written()
    ensures DataOf(line.Written()) == if line.Other? then None else Some(line.text)
  {
    if line.Spaced? {
      assert line.Written()[|FIELD|..] == " " + line.text && (" " + line.text)[1..] == line.text;
    } else if line.Bare? {
      assert line.Written()[|FIELD|..] == line.text;
    }
  }

  lemma {:induction false} LinesHaveData(lines: seq<Line>)
    requires forall i :: 0 <= i < |lines| ==> lines[i].Valid()
    ensures |WrittenAll(lines)| == |lines| && forall i :: 0 <= i < |lines| ==> '\n' !in WrittenAll(lines)[i]
    ensures DataLines(WrittenAll(lines)) == DataIn(lines)
  {
    hide DataOf;
    if lines != [] {
      LineHasData(lines[0]);
      LinesHaveData(lines[1..]);
      assert WrittenAll(lines)[1..] == WrittenAll(lines[1..]);
    }
  }

  /**
   The data of an event is that of its data lines, one line each, without one leading space; the
   other lines say nothing of it, and an event without data is not given.
   */
  lemma DataOfBlock(lines: seq<Line>)
    requires lines != [] && forall i :: 0 <= i < |lines| ==> lines[i].Valid()
    ensures EventData(JoinLines(WrittenAll(lines)))
        == if JoinLines(DataIn(lines)) == "" then None else Some(JoinLines(DataIn(lines)))
  {
    LinesHaveData(lines);
    LinesJoined(WrittenAll(lines));
  }

  /** The loop of the reader: one read after the other, and what the decoder holds back at the end. */
  method ReadServerSentEvents(pieces: seq<string>, rest: string) returns (events: seq<string>)
    ensures events == EventsOf(BlocksRead("", pieces, rest))
  {
    hide Fed, EventsOf, BlocksRead, Front, Last;
    var buffer := "";
    events := [];
    var n, finished := 0, false;
    assert pieces[0..] == pieces;
    NoEvents(EventsOf(BlocksRead(buffer, pieces, rest)));
    while !finished
      invariant 0 <= n <= |pieces|
      invariant EventsOf(BlocksRead("", pieces, rest)) == if finished then events
          else events + EventsOf(BlocksRead(buffer, pieces[n..], rest))
      decreases |pieces| - n, !finished
    {
      var done := n == |pieces|;
      var blocks := Fed(buffer, if done then rest else pieces[n]);
      finished := done;
      ghost var held := buffer;
      if done {
        ReadsRest(held, pieces[n..], rest);
        buffer := "";
        var given := GiveAll(blocks);
        events := events + given;
      } else {
        ReadsOneMore(events, held, pieces, n, rest);
        buffer := blocks[|blocks| - 1];
        var given := GiveAll(blocks[..|blocks| - 1]);
        n := n + 1;
        events := events + given;
      }
    }
  }

  lemma NoEvents(events: seq<string>)
    ensures [] + events == events
  {
  }

  lemma ReadsOneMore(events: seq<string>, buffer: string, pieces: seq<string>, n: nat, rest: string)
    requires n < |pieces|
    ensures var fed := Fed(buffer, pieces[n]);
            events + EventsOf(BlocksRead(buffer, pieces[n..], rest)) == events + EventsOf(fed[..|fed| - 1])
                + EventsOf(BlocksRead(fed[|fed| - 1], pieces[n + 1..], rest))
  {
    hide Fed, EventsOf, BlocksRead;
    assert pieces[n..][1..] == pieces[n + 1..];
    ReadsOne(buffer, pieces[n..], rest);
    var fed := Fed(buffer, pieces[n]);
    Regroup(events, EventsOf(fed[..|fed| - 1]), EventsOf(BlocksRead(fed[|fed| - 1], pieces[n + 1..], rest)));
  }

  lemma ReadsRest(buffer: string, pieces: seq<string>, rest: string)
    requires pieces == []
    ensures BlocksRead(buffer, pieces, rest) == Fed(buffer, rest)
  {
  }

  lemma ReadsOne(buffer: string, pieces: seq<string>, rest: string)
    requires pieces != []
    ensures var fed := Fed(buffer, pieces[0]);
            EventsOf(BlocksRead(buffer, pieces, rest)) == EventsOf(fed[..|fed| - 1])
                + EventsOf(BlocksRead(fed[|fed| - 1], pieces[1..], rest))
  {
    var fed := Fed(buffer, pieces[0]);
    EventsApart(Front(fed), BlocksRead(Last(fed), pieces[1..], rest));
  }

  method GiveAll(blocks: Blocks) returns (events: seq<string>)
    ensures events == EventsOf(blocks)
  {
    events := [];
    for i := 0 to |blocks|
      invariant events == EventsOf(blocks[..i])
    {
      var data := EventData(blocks[i]);
      assert blocks[..i + 1][..i] == blocks[..i];
      if data.Some? { events := events + [data.value]; }
    }
    assert blocks[..|blocks|] == blocks;
  }

  // ----- what the server writes

  datatype Observation = Observation(id: string, event: string, json: string)

  function Frame(o: Observation): string { Block(o) + "\n\n" }

  function Block(o: Observation): string { "id: " + o.id + ("\nevent: " + o.event + ("\ndata: " + o.json)) }

  function Stream(observations: seq<Observation>): string
  {
    if observations == [] then "" else Frame(observations[0]) + Stream(observations[1..])
  }

  predicate OneLine(s: string) { forall i :: 0 <= i < |s| ==> s[i] != '\n' && s[i] != '\r' }

  predicate Writable(o: Observation) { OneLine(o.id) && OneLine(o.event) && OneLine(o.json) && o.json != "" }

  predicate AllWritable(observations: seq<Observation>) {
    forall i :: 0 <= i < |observations| ==> Writable(observations[i])
  }

  function JsonOf(observations: seq<Observation>): seq<string>
  {
    if observations == [] then [] else [observations[0].json] + JsonOf(observations[1..])
  }

  lemma BlockHasJson(o: Observation)
    requires Writable(o)
    ensures EventData(Block(o)) == Some(o.json)
  {
    hide Lines, Block, DataOf;
    var lines := ["id: " + o.id, "event: " + o.event, "data: " + o.json];
    BlockHasLines(o);
    FieldsOfBlock(o);
    assert lines[1..] == ["event: " + o.event, "data: " + o.json] && lines[1..][1..] == ["data: " + o.json];
    assert DataLines(lines[1..][1..]) == [o.json] + DataLines(lines[1..][1..][1..]);
    assert DataLines(lines[1..]) == [] + DataLines(lines[1..][1..]);
    assert DataLines(lines) == [] + DataLines(lines[1..]);
  }

  lemma BlockHasLines(o: Observation)
    requires Writable(o)
    ensures Lines(Block(o)) == ["id: " + o.id, "event: " + o.event, "data: " + o.json]
  {
    hide Lines;
    var id, event, data := "id: " + o.id, "event: " + o.event, "data: " + o.json;
    BlockInLines(o);
    LineThenMore(id, event + ("\n" + data));
    LineThenMore(event, data);
    LineThenMore(data, "");
  }

  lemma BlockInLines(o: Observation)
    ensures Block(o) == "id: " + o.id + ("\n" + ("event: " + o.event + ("\n" + ("data: " + o.json))))
  {
  }

  lemma FieldsOfBlock(o: Observation)
    ensures DataOf("id: " + o.id).None? && DataOf("event: " + o.event).None?
        && DataOf("data: " + o.json) == Some(o.json)
  {
    var data := "data: " + o.json;
    assert ("id: " + o.id)[0] == 'i' && ("event: " + o.event)[0] == 'e' && FIELD[0] == 'd';
    assert data[..5] == FIELD && data[5..] == " " + o.json && (" " + o.json)[1..] == o.json;
  }

  lemma BlockHasNoGap(o: Observation)
    requires Writable(o)
    ensures forall k :: !GapAt(Block(o), k)
    ensures Block(o) != "" && Block(o)[|Block(o)| - 1] != '\n'
  {
  }

  lemma FrameEndsAtGap(o: Observation, more: string)
    requires Block(o) != "" && (forall k :: !GapAt(Block(o), k)) && Block(o)[|Block(o)| - 1] != '\n'
    ensures FirstGap(Frame(o) + more) == |Block(o)| && (Frame(o) + more)[..|Block(o)|] == Block(o)
    ensures (Frame(o) + more)[|Block(o)| + 2..] == more
  {
    hide Block;
    var s := Frame(o) + more;
    assert GapAt(s, |Block(o)|);
    assert forall k :: GapAt(s, k) && k + 1 < |Block(o)| ==> GapAt(Block(o), k);
  }

  /** The blocks of what the server writes are its observations, and an empty one behind them. */
  lemma {:induction false} StreamSplits(observations: seq<Observation>)
    requires AllWritable(observations)
    ensures EventsOf(Split(Stream(observations))) == JsonOf(observations)
    decreases |observations|
  {
    hide FirstGap, EventData, Block;
    if observations == [] {
      SplitNone("");
      NoData();
    } else {
      var o, more := observations[0], Stream(observations[1..]);
      BlockHasNoGap(o);
      FrameEndsAtGap(o, more);
      SplitStep(Frame(o) + more);
      StreamSplits(observations[1..]);
      EventsApart([Block(o)], Split(more));
      BlockHasJson(o);
      assert EventsOf([Block(o)]) == EventsOf([]) + [o.json];
    }
  }

  lemma NoData()
    ensures EventsOf([""]) == [] && FirstGap("") == 0
  {
  }

  lemma {:induction false} StreamHasNoReturn(observations: seq<Observation>)
    requires AllWritable(observations)
    ensures forall i :: 0 <= i < |Stream(observations)| ==> Stream(observations)[i] != '\r'
  {
    if observations != [] {
      var o, more := observations[0], Stream(observations[1..]);
      StreamHasNoReturn(observations[1..]);
      assert forall i :: 0 <= i < |Frame(o) + more| && i >= |Frame(o)| ==> (Frame(o) + more)[i] == more[i - |Frame(o)|];
    }
  }

  /** What the server writes comes back: each observation once and in order, however the stream is cut. */
  lemma StreamComesBack(observations: seq<Observation>, pieces: seq<string>, rest: string)
    requires AllWritable(observations) && Joined(pieces) + rest == Stream(observations)
    ensures EventsOf(BlocksRead("", pieces, rest)) == JsonOf(observations)
  {
    hide Stream, Split, Folded, EventsOf, BlocksRead;
    var text := Stream(observations);
    StreamHasNoReturn(observations);
    FoldedIsSettled(text);
    PiecesDoNotMatter(pieces, rest);
    StreamSplits(observations);
  }
}
