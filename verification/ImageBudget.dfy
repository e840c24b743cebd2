/**
 The images of one model request, kept within a budget of bytes: those of the newest user message
 first, then all others, newest first, until one does not fit.
 */
module ImageBudget {
  import opened ModelMessages

  type Messages = seq<ModelMessage>

  datatype Entry = Entry(index: nat, image: Part)

  function ImagesOf(content: Content): seq<Part>
  {
    if content.Plain? then [] else ImageParts(content.parts)
  }

  function ImageParts(parts: seq<Part>): (r: seq<Part>)
    ensures forall i :: 0 <= i < |r| ==> r[i].ImagePart? && r[i] in parts
  {
    if parts == [] then []
    else
      assert forall p :: p in parts <==> p == parts[0] || p in parts[1..];
      (if parts[0].ImagePart? then [parts[0]] else []) + ImageParts(parts[1..])
  }

  function EntriesOf(images: seq<Part>, index: nat): seq<Entry>
  {
    if images == [] then [] else [Entry(index, images[0])] + EntriesOf(images[1..], index)
  }

  /** The images of the messages with the message of each, in order. */
  function Entries(messages: Messages): (r: seq<Entry>)
  {
    if messages == [] then []
    else Entries(messages[..|messages| - 1]) + EntriesOf(ImagesOf(messages[|messages| - 1].content), |messages| - 1)
  }

  function Chosen(entries: seq<Entry>, index: int, same: bool): seq<Entry>
  {
    if entries == [] then []
    else (if (entries[0].index == index) == same then [entries[0]] else []) + Chosen(entries[1..], index, same)
  }

  function Reversed(entries: seq<Entry>): seq<Entry>
  {
    if entries == [] then [] else Reversed(entries[1..]) + [entries[0]]
  }

  /** The newest user message, or -1. */
  function NewestUser(messages: Messages): (r: int)
    ensures -1 <= r < |messages| && (r >= 0 ==> messages[r].role.User?)
    ensures forall i :: r < i < |messages| ==> !messages[i].role.User?
  {
    if messages == [] then -1
    else if messages[|messages| - 1].role.User? then |messages| - 1 else NewestUser(messages[..|messages| - 1])
  }

  /** The order images are kept in: those of the newest user message in their order, then all others newest first. */
  function ByPriority(messages: Messages): seq<Entry>
  {
    var entries, user := Entries(messages), NewestUser(messages);
    Chosen(entries, user, true) + Reversed(Chosen(entries, user, false))
  }

  lemma {:induction false} ChosenApart(a: seq<Entry>, b: seq<Entry>, index: int, same: bool)
    ensures Chosen(a + b, index, same) == Chosen(a, index, same) + Chosen(b, index, same)
  {
    if a == [] {
      assert a + b == b;
    } else {
      assert (a + b)[0] == a[0] && (a + b)[1..] == a[1..] + b;
      ChosenApart(a[1..], b, index, same);
    }
  }

  lemma {:induction false} ReversedApart(a: seq<Entry>, b: seq<Entry>)
    ensures Reversed(a + b) == Reversed(b) + Reversed(a)
  {
    if a == [] {
      assert a + b == b;
    } else {
      assert (a + b)[0] == a[0] && (a + b)[1..] == a[1..] + b;
      ReversedApart(a[1..], b);
    }
  }

  lemma {:induction false} ReversedTwice(a: seq<Entry>)
    ensures Reversed(Reversed(a)) == a
  {
    if a != [] {
      ReversedTwice(a[1..]);
      ReversedApart(Reversed(a[1..]), [a[0]]);
      assert Reversed([a[0]]) == [] + [a[0]];
    }
  }

  lemma {:induction false} ChosenReversed(a: seq<Entry>, index: int, same: bool)
    ensures Chosen(Reversed(a), index, same) == Reversed(Chosen(a, index, same))
  {
    if a != [] {
      ChosenReversed(a[1..], index, same);
      ChosenApart(Reversed(a[1..]), [a[0]], index, same);
      var head := if (a[0].index == index) == same then [a[0]] else [];
      assert Chosen([a[0]], index, same) == head + [] && [a[0]][1..] == [];
      ReversedApart(head, Chosen(a[1..], index, same));
      assert Reversed(head) == head by { if head != [] { assert head[1..] == [] && Reversed([]) + [a[0]] == [a[0]]; } }
    }
  }

  /** The order as the source builds it, from the entries newest first. */
  method Prioritize(messages: Messages) returns (byPriority: seq<Entry>)
    ensures byPriority == ByPriority(messages)
  {
    var newestFirst, user := Reversed(Entries(messages)), NewestUser(messages);
    ChosenReversed(Entries(messages), user, true);
    ChosenReversed(Entries(messages), user, false);
    ReversedTwice(Chosen(Entries(messages), user, true));
    byPriority := Reversed(Chosen(newestFirst, user, true)) + Chosen(newestFirst, user, false);
  }

  // ----- the budget

  function Bytes(entries: seq<Entry>): nat
  {
    if entries == [] then 0 else Bytes(entries[..|entries| - 1]) + Size(entries[|entries| - 1].image)
  }

  function Images(entries: seq<Entry>): set<Part> { set e | e in entries :: e.image }

  /** How many images of the order fit: the longest part of it within the budget. */
  ghost predicate LongestFit(entries: seq<Entry>, n: nat, maxBytes: nat)
  {
    n <= |entries| && Bytes(entries[..n]) <= maxBytes && (n < |entries| ==> Bytes(entries[..n + 1]) > maxBytes)
  }

  /** `text` is what `omitModelVisibleImages` makes of the text of a message and the images left out of it. */
  function Omitted(content: Content, omitted: set<Part>, text: (string, seq<Part>) -> string): Content
  {
    if content.Plain? || omitted == {} then content
    else
      var gone := Selected(ImageParts(content.parts), omitted, true);
      var left := Selected(ImageParts(content.parts), omitted, false);
      if gone == [] then content
      else if left == [] then Plain(text(TextOf(content.parts), gone))
      else Parts([TextPart(text(TextOf(content.parts), gone))] + left)
  }

  function TextOf(parts: seq<Part>): string
  {
    if parts == [] then "" else (if parts[0].TextPart? then parts[0].text else "") + TextOf(parts[1..])
  }

  /** The texts of the parts one behind the other, with nothing of the images between them. */
  lemma {:induction false} TextTogether(before: seq<Part>, part: Part, behind: seq<Part>)
    ensures TextOf(before + [part] + behind)
        == TextOf(before) + (if part.TextPart? then part.text else "") + TextOf(behind)
    ensures TextOf([]) == ""
  {
    var all := before + [part] + behind;
    if before == [] {
      assert all[0] == part && all[1..] == behind;
    } else {
      assert all[0] == before[0] && all[1..] == before[1..] + [part] + behind;
      TextTogether(before[1..], part, behind);
    }
  }

  /** The text of a content: of several parts, all their texts. */
  function ContentText(content: Content): string
  {
    if content.Plain? then content.text else TextOf(content.parts)
  }

  /** Some of the images are left out. */
  predicate Loses(images: seq<Part>, omitted: set<Part>)
  {
    exists i :: 0 <= i < |images| && images[i] in omitted
  }

  /** A content that loses images keeps its text, as `text` makes it with those images; any other stays as it is. */
  lemma TextLeft(content: Content, omitted: set<Part>, text: (string, seq<Part>) -> string)
    ensures if Loses(ImagesOf(content), omitted)
            then
              && ContentText(Omitted(content, omitted, text))
                  == text(ContentText(content), Selected(ImagesOf(content), omitted, true))
              && (Omitted(content, omitted, text).Plain? <==> Selected(ImagesOf(content), omitted, false) == [])
            else Omitted(content, omitted, text) == content
  {
    hide Selected, TextOf, ImageParts;
    if content.Parts? && omitted != {} {
      var images := ImageParts(content.parts);
      var gone, left := Selected(images, omitted, true), Selected(images, omitted, false);
      GoneIsLost(images, omitted);
      if gone != [] {
        forall k | 0 <= k < |left| ensures left[k].ImagePart? { assert left[k] in images; }
        TextBesideImages(text(TextOf(content.parts), gone), left);
      }
    }
  }

  lemma GoneIsLost(images: seq<Part>, omitted: set<Part>)
    ensures Selected(images, omitted, true) != [] <==> Loses(images, omitted)
  {
    hide Selected;
    var gone := Selected(images, omitted, true);
    assert gone != [] ==> gone[0] in gone;
    assert forall i :: 0 <= i < |images| && images[i] in omitted ==> images[i] in gone;
  }

  lemma TextBesideImages(text: string, images: seq<Part>)
    requires forall k :: 0 <= k < |images| ==> images[k].ImagePart?
    ensures TextOf([TextPart(text)] + images) == text
  {
    ImagesHaveNoText(images);
    assert ([TextPart(text)] + images)[1..] == images;
  }

  lemma {:induction false} ImagesHaveNoText(images: seq<Part>)
    requires forall i :: 0 <= i < |images| ==> images[i].ImagePart?
    ensures TextOf(images) == ""
  {
    if images != [] {
      ImagesHaveNoText(images[1..]);
    }
  }

  function Selected(images: seq<Part>, omitted: set<Part>, gone: bool): (r: seq<Part>)
    ensures forall p :: p in r <==> p in images && ((p in omitted) == gone)
  {
    if images == [] then []
    else
      assert forall p :: p in images <==> p == images[0] || p in images[1..];
      (if (images[0] in omitted) == gone then [images[0]] else []) + Selected(images[1..], omitted, gone)
  }

  function Rewritten(m: ModelMessage, omitted: set<Part>, text: (string, seq<Part>) -> string): ModelMessage
  {
    m.(content := Omitted(m.content, omitted, text))
  }

  lemma {:induction false} ImagesAreImages(images: seq<Part>)
    requires forall i :: 0 <= i < |images| ==> images[i].ImagePart?
    ensures ImageParts(images) == images
  {
    if images != [] {
      ImagesAreImages(images[1..]);
    }
  }

  lemma {:induction false} NoneSelected(images: seq<Part>, omitted: set<Part>)
    requires omitted == {} || Selected(images, omitted, true) == []
    ensures Selected(images, omitted, false) == images
  {
    if images != [] {
      assert images[0] in Selected(images, omitted, true) <==> images[0] in omitted;
      NoneSelected(images[1..], omitted);
    }
  }

  /** The images left in a content are those not omitted, in their order. */
  lemma ImagesLeft(content: Content, omitted: set<Part>, text: (string, seq<Part>) -> string)
    ensures ImagesOf(Omitted(content, omitted, text)) == Selected(ImagesOf(content), omitted, false)
  {
    if content.Parts? {
      var images := ImageParts(content.parts);
      var gone, left := Selected(images, omitted, true), Selected(images, omitted, false);
      if omitted == {} || gone == [] {
        NoneSelected(images, omitted);
      } else {
        forall i | 0 <= i < |left| ensures left[i].ImagePart? { assert left[i] in images; }
        ImagesAreImages(left);
        assert ([TextPart(text(TextOf(content.parts), gone))] + left)[1..] == left;
      }
    }
  }

  /** Counts the images in order of priority, and leaves out every one from the first that does not fit. */
  method LeaveOut(byPriority: seq<Entry>, maxBytes: nat) returns (omitted: set<Part>, ghost kept: nat)
    ensures LongestFit(byPriority, kept, maxBytes) && omitted == Images(byPriority[kept..])
  {
    var remaining, exhausted := maxBytes, false;
    omitted, kept := {}, 0;
    hide Bytes, Images;
    for i := 0 to |byPriority|
      invariant kept <= i && (!exhausted ==> kept == i) && remaining >= 0
      invariant Bytes(byPriority[..kept]) + remaining == maxBytes
      invariant exhausted ==> kept < i && Bytes(byPriority[..kept + 1]) > maxBytes
      invariant omitted == Images(byPriority[kept..i]) && (!exhausted ==> omitted == {})
    {
      var image := byPriority[i].image;
      BytesOn(byPriority, i);
      ImagesOn(byPriority, kept, i);
      exhausted := exhausted || Size(image) > remaining;
      if exhausted {
        omitted := omitted + {image};
      } else {
        remaining := remaining - Size(image);
        kept := i + 1;
      }
    }
    assert byPriority[kept..|byPriority|] == byPriority[kept..];
  }

  lemma BytesOn(entries: seq<Entry>, i: nat)
    requires i < |entries|
    ensures Bytes(entries[..i + 1]) == Bytes(entries[..i]) + Size(entries[i].image)
  {
    assert entries[..i + 1][..i] == entries[..i];
  }

  lemma ImagesOn(entries: seq<Entry>, from: nat, i: nat)
    requires from <= i < |entries|
    ensures Images(entries[from..i + 1]) == Images(entries[from..i]) + {entries[i].image}
  {
  }

  /** `applyModelInputImageBudget`: every message stays in its place, without the images left out. */
  method ApplyBudget(messages: Messages, maxBytes: nat, text: (string, seq<Part>) -> string)
    returns (r: Messages, omittedCount: nat)
    ensures exists kept :: Kept(messages, maxBytes, text, kept, r, omittedCount)
    ensures Total(r) <= maxBytes && (SentOnce(messages) ==> RightOnesStay(messages, maxBytes, r))
  {
    var byPriority := Prioritize(messages);
    var omitted;
    ghost var kept;
    omitted, kept := LeaveOut(byPriority, maxBytes);
    omittedCount := |omitted|;
    r := [];
    assert messages[..0] == [];
    for i := 0 to |messages|
      invariant r == AllRewritten(messages[..i], omitted, text)
    {
      assert messages[..i + 1][..i] == messages[..i];
      r := r + [Rewritten(messages[i], omitted, text)];
    }
    assert messages[..|messages|] == messages;
    BudgetHolds(messages, maxBytes, kept, text);
    assert Kept(messages, maxBytes, text, kept, r, omittedCount);
    if SentOnce(messages) { KeepsTheRightOnes(messages, maxBytes, text, kept, r, omittedCount); }
  }

  /** The first `kept` images of the order are the longest part that fits; all others are left out and counted. */
  ghost predicate Kept(messages: Messages, maxBytes: nat, text: (string, seq<Part>) -> string, kept: nat,
      r: Messages, omittedCount: nat)
  {
    var byPriority := ByPriority(messages);
    && LongestFit(byPriority, kept, maxBytes)
    && omittedCount == |Images(byPriority[kept..])|
    && r == AllRewritten(messages, Images(byPriority[kept..]), text)
  }

  function AllRewritten(messages: Messages, omitted: set<Part>, text: (string, seq<Part>) -> string): (r: Messages)
    ensures |r| == |messages|
    ensures forall i :: 0 <= i < |r| ==> r[i] == Rewritten(messages[i], omitted, text)
  {
    if messages == [] then []
    else AllRewritten(messages[..|messages| - 1], omitted, text) + [Rewritten(messages[|messages| - 1], omitted, text)]
  }

  // ----- what is kept

  function Size(image: Part): nat { if image.ImagePart? then image.byteLength else 0 }

  function ByteSum(parts: seq<Part>): nat
  {
    if parts == [] then 0 else (if parts[0].ImagePart? then parts[0].byteLength else 0) + ByteSum(parts[1..])
  }

  /** The bytes of all images in the messages. */
  function Total(messages: Messages): nat
  {
    if messages == [] then 0
    else Total(messages[..|messages| - 1]) + ByteSum(ImagesOf(messages[|messages| - 1].content))
  }

  /** The bytes of the entries whose image is not omitted. */
  function Weight(entries: seq<Entry>, omitted: set<Part>): nat
  {
    if entries == [] then 0
    else (if entries[0].image in omitted then 0 else Size(entries[0].image)) + Weight(entries[1..], omitted)
  }

  lemma {:induction false} WeightApart(a: seq<Entry>, b: seq<Entry>, omitted: set<Part>)
    ensures Weight(a + b, omitted) == Weight(a, omitted) + Weight(b, omitted)
  {
    if a == [] {
      assert a + b == b;
    } else {
      assert (a + b)[0] == a[0] && (a + b)[1..] == a[1..] + b;
      WeightApart(a[1..], b, omitted);
    }
  }

  lemma {:induction false} WeightReversed(a: seq<Entry>, omitted: set<Part>)
    ensures Weight(Reversed(a), omitted) == Weight(a, omitted)
  {
    if a != [] {
      WeightReversed(a[1..], omitted);
      WeightApart(Reversed(a[1..]), [a[0]], omitted);
      assert [a[0]][1..] == [];
    }
  }

  lemma {:induction false} WeightChosen(a: seq<Entry>, index: int, omitted: set<Part>)
    ensures Weight(Chosen(a, index, true), omitted) + Weight(Chosen(a, index, false), omitted) == Weight(a, omitted)
  {
    if a != [] {
      var rest := a[1..];
      WeightChosen(rest, index, omitted);
      var hit := a[0].index == index;
      WeightApart([a[0]], Chosen(rest, index, hit), omitted);
      assert [a[0]][1..] == [] && [] + Chosen(rest, index, !hit) == Chosen(rest, index, !hit);
    }
  }

  lemma {:induction false} WeightFits(entries: seq<Entry>, omitted: set<Part>)
    ensures Weight(entries, omitted) <= Bytes(entries)
    decreases |entries|
  {
    if entries != [] {
      var front, last := entries[..|entries| - 1], entries[|entries| - 1];
      assert entries == front + [last] && [last][1..] == [];
      WeightApart(front, [last], omitted);
      WeightFits(front, omitted);
    }
  }

  lemma {:induction false} WeightOfOmitted(entries: seq<Entry>, omitted: set<Part>)
    requires forall i :: 0 <= i < |entries| ==> entries[i].image in omitted
    ensures Weight(entries, omitted) == 0
  {
    if entries != [] {
      WeightOfOmitted(entries[1..], omitted);
    }
  }

  lemma {:induction false} SumOfLeft(images: seq<Part>, index: nat, omitted: set<Part>)
    ensures ByteSum(Selected(images, omitted, false)) == Weight(EntriesOf(images, index), omitted)
  {
    if images != [] {
      SumOfLeft(images[1..], index, omitted);
      assert EntriesOf(images, index)[1..] == EntriesOf(images[1..], index);
      var rest := Selected(images[1..], omitted, false);
      if images[0] !in omitted { assert ([images[0]] + rest)[1..] == rest; } else { assert [] + rest == rest; }
    }
  }

  lemma {:induction false} TotalIsWeight(messages: Messages, omitted: set<Part>, text: (string, seq<Part>) -> string)
    ensures Total(AllRewritten(messages, omitted, text)) == Weight(Entries(messages), omitted)
    decreases |messages|
  {
    if messages != [] {
      var front, last := messages[..|messages| - 1], messages[|messages| - 1];
      TotalIsWeight(front, omitted, text);
      var r := AllRewritten(messages, omitted, text);
      assert r[..|r| - 1] == AllRewritten(front, omitted, text);
      ImagesLeft(last.content, omitted, text);
      SumOfLeft(ImagesOf(last.content), |front|, omitted);
      WeightApart(Entries(front), EntriesOf(ImagesOf(last.content), |front|), omitted);
    }
  }

  /** The images left in all messages are within the budget. */
  lemma BudgetHolds(messages: Messages, maxBytes: nat, kept: nat, text: (string, seq<Part>) -> string)
    requires LongestFit(ByPriority(messages), kept, maxBytes)
    ensures Total(AllRewritten(messages, Images(ByPriority(messages)[kept..]), text)) <= maxBytes
  {
    hide Weight, Bytes, Entries, Chosen, Reversed, NewestUser, Total, AllRewritten;
    var byPriority, entries, user := ByPriority(messages), Entries(messages), NewestUser(messages);
    var omitted := Images(byPriority[kept..]);
    TotalIsWeight(messages, omitted, text);
    WeightChosen(entries, user, omitted);
    WeightReversed(Chosen(entries, user, false), omitted);
    WeightApart(Chosen(entries, user, true), Reversed(Chosen(entries, user, false)), omitted);
    assert byPriority == byPriority[..kept] + byPriority[kept..];
    WeightApart(byPriority[..kept], byPriority[kept..], omitted);
    WeightFits(byPriority[..kept], omitted);
    WeightOfOmitted(byPriority[kept..], omitted);
  }

  predicate DistinctImages(entries: seq<Entry>)
  {
    forall i, j :: 0 <= i < j < |entries| ==> entries[i].image != entries[j].image
  }

  lemma {:induction false} ChosenMembers(entries: seq<Entry>, index: int, same: bool)
    ensures forall e :: e in Chosen(entries, index, same) <==> e in entries && ((e.index == index) == same)
  {
    if entries != [] {
      ChosenMembers(entries[1..], index, same);
      assert forall e :: e in entries <==> e == entries[0] || e in entries[1..];
    }
  }

  lemma {:induction false} ReversedMembers(entries: seq<Entry>)
    ensures forall e :: e in Reversed(entries) <==> e in entries
  {
    if entries != [] {
      ReversedMembers(entries[1..]);
      assert forall e :: e in entries <==> e == entries[0] || e in entries[1..];
    }
  }

  lemma {:induction false} EntriesOfImages(images: seq<Part>, index: nat)
    ensures forall e :: e in EntriesOf(images, index) ==> e.index == index && e.image in images
  {
    if images != [] {
      EntriesOfImages(images[1..], index);
    }
  }

  lemma {:induction false} EntryIsSent(messages: Messages, e: Entry)
    requires e in Entries(messages)
    ensures 0 <= e.index < |messages| && e.image in ImagesOf(messages[e.index].content)
    decreases |messages|
  {
    var front, last := messages[..|messages| - 1], messages[|messages| - 1];
    EntriesOfImages(ImagesOf(last.content), |front|);
    if e in Entries(front) { EntryIsSent(front, e); }
  }

  /** An image of the order is an image of the message it came with. */
  lemma PriorityIsSent(messages: Messages, j: nat)
    requires j < |ByPriority(messages)|
    ensures var e := ByPriority(messages)[j];
            0 <= e.index < |messages| && e.image in ImagesOf(messages[e.index].content)
  {
    hide Entries, Chosen, Reversed, NewestUser;
    var entries, user := Entries(messages), NewestUser(messages);
    ChosenMembers(entries, user, true);
    ChosenMembers(entries, user, false);
    ReversedMembers(Chosen(entries, user, false));
    assert ByPriority(messages)[j] in ByPriority(messages);
    EntryIsSent(messages, ByPriority(messages)[j]);
  }

  /**
   Where no image object is sent twice: an image is in its message after the budget was applied
   exactly where it belongs to the longest part of the order that fits, and the count is that of
   the others.
   */
  lemma KeptExactly(messages: Messages, maxBytes: nat, text: (string, seq<Part>) -> string, kept: nat, r: Messages,
      omittedCount: nat)
    requires Kept(messages, maxBytes, text, kept, r, omittedCount) && DistinctImages(ByPriority(messages))
    ensures var byPriority := ByPriority(messages);
            && |r| == |messages| && omittedCount == |byPriority| - kept
            && forall j :: 0 <= j < |byPriority| ==>
                 && 0 <= byPriority[j].index < |r|
                 && (byPriority[j].image in ImagesOf(r[byPriority[j].index].content) <==> j < kept)
  {
    hide ByPriority, ImagesOf, Rewritten;
    var byPriority := ByPriority(messages);
    var omitted := Images(byPriority[kept..]);
    CountDistinct(byPriority[kept..]);
    forall j | 0 <= j < |byPriority|
      ensures 0 <= byPriority[j].index < |r|
      ensures byPriority[j].image in ImagesOf(r[byPriority[j].index].content) <==> j < kept
    {
      var e := byPriority[j];
      PriorityIsSent(messages, j);
      StaysUnlessOmitted(messages[e.index], omitted, text, e.image);
      if kept <= j { assert byPriority[kept..][j - kept] == e; }
    }
  }

  lemma StaysUnlessOmitted(m: ModelMessage, omitted: set<Part>, text: (string, seq<Part>) -> string, image: Part)
    requires image in ImagesOf(m.content)
    ensures image in ImagesOf(Rewritten(m, omitted, text).content) <==> image !in omitted
  {
    hide Omitted;
    ImagesLeft(m.content, omitted, text);
  }

  lemma {:induction false} CountDistinct(entries: seq<Entry>)
    requires DistinctImages(entries)
    ensures |Images(entries)| == |entries|
  {
    if entries != [] {
      var front, last := entries[..|entries| - 1], entries[|entries| - 1];
      CountDistinct(front);
      assert last.image !in Images(front);
      hide Images, DistinctImages;
      ImagesOn(entries, 0, |front|);
      assert entries[0..|front|] == front && entries[0..|front| + 1] == entries;
    }
  }

  // ----- which images stay, told by their places

  /** The image at `p` among those of message `i`. */
  predicate Place(messages: Messages, i: nat, p: nat) { i < |messages| && p < |ImagesOf(messages[i].content)| }

  function ImageAt(messages: Messages, i: nat, p: nat): (image: Part)
    requires Place(messages, i, p)
    ensures image.ImagePart?
  {
    ImagesOf(messages[i].content)[p]
  }

  /** No image object is sent twice. */
  ghost predicate SentOnce(messages: Messages)
  {
    forall i: nat, p: nat, j: nat, q: nat :: Place(messages, i, p) && Place(messages, j, q) && (i != j || p != q) ==>
        ImageAt(messages, i, p) != ImageAt(messages, j, q)
  }

  /** It is still in its message after the budget was applied. */
  predicate StaysAt(messages: Messages, r: Messages, i: nat, p: nat)
    requires Place(messages, i, p) && |r| == |messages|
  {
    ImageAt(messages, i, p) in ImagesOf(r[i].content)
  }

  /**
   Which of two images has to go first: any other before one of the user's newest message `user`;
   of two others the earlier one; within the user's newest message the later one.
   */
  predicate GoesFirst(user: int, i: nat, p: nat, j: nat, q: nat)
  {
    if i == user then j == user && q < p
    else j == user || i < j || (i == j && p < q)
  }

  /** How many images are in the messages before `i`. */
  function Start(messages: Messages, i: nat): nat
    requires i <= |messages|
  {
    |Entries(messages[..i])|
  }

  lemma {:induction false} EntriesOfAt(images: seq<Part>, index: nat)
    ensures |EntriesOf(images, index)| == |images|
    ensures forall p :: 0 <= p < |images| ==> EntriesOf(images, index)[p] == Entry(index, images[p])
  {
    if images != [] {
      EntriesOfAt(images[1..], index);
    }
  }

  lemma StartStep(messages: Messages, i: nat)
    requires i < |messages|
    ensures Start(messages, i + 1) == Start(messages, i) + |ImagesOf(messages[i].content)|
  {
    EntriesStep(messages, i);
  }

  lemma EntriesStep(messages: Messages, i: nat)
    requires i < |messages|
    ensures Entries(messages[..i + 1]) == Entries(messages[..i]) + EntriesOf(ImagesOf(messages[i].content), i)
    ensures Start(messages, i + 1) == Start(messages, i) + |ImagesOf(messages[i].content)|
  {
    assert messages[..i + 1][..i] == messages[..i];
    EntriesOfAt(ImagesOf(messages[i].content), i);
  }

  lemma {:induction false} EntriesGrow(messages: Messages, i: nat, j: nat)
    requires i <= j <= |messages|
    ensures Start(messages, i) <= Start(messages, j)
    ensures Entries(messages[..j])[..Start(messages, i)] == Entries(messages[..i])
    decreases j - i
  {
    hide Entries;
    if i < j {
      EntriesGrow(messages, i, j - 1);
      EntriesStep(messages, j - 1);
    }
  }

  lemma EntryAt(messages: Messages, i: nat, p: nat)
    requires Place(messages, i, p)
    ensures Start(messages, i) + p < Start(messages, i + 1) <= |Entries(messages)|
    ensures Entries(messages)[Start(messages, i) + p] == Entry(i, ImageAt(messages, i, p))
  {
    hide Entries;
    EntriesStep(messages, i);
    EntriesOfAt(ImagesOf(messages[i].content), i);
    EntriesGrow(messages, i + 1, |messages|);
    assert messages[..|messages|] == messages;
    assert Entries(messages)[Start(messages, i) + p] == Entries(messages[..i + 1])[Start(messages, i) + p];
  }

  lemma {:induction false} PlaceBefore(messages: Messages, n: nat, k: nat) returns (i: nat, p: nat)
    requires n <= |messages| && k < Start(messages, n)
    ensures Place(messages, i, p) && k == Start(messages, i) + p
    decreases n
  {
    hide Start, Entries, ImagesOf;
    NothingBefore(messages);
    StartStep(messages, n - 1);
    if k < Start(messages, n - 1) {
      i, p := PlaceBefore(messages, n - 1, k);
    } else {
      i, p := n - 1, k - Start(messages, n - 1);
    }
  }

  lemma NothingBefore(messages: Messages)
    ensures Start(messages, 0) == 0 && Start(messages, |messages|) == |Entries(messages)|
  {
    assert messages[..|messages|] == messages;
  }

  lemma PlaceOf(messages: Messages, k: nat) returns (i: nat, p: nat)
    requires k < |Entries(messages)|
    ensures Place(messages, i, p) && k == Start(messages, i) + p
    ensures Entries(messages)[k] == Entry(i, ImageAt(messages, i, p))
  {
    hide Entries, Start;
    NothingBefore(messages);
    i, p := PlaceBefore(messages, |messages|, k);
    EntryAt(messages, i, p);
  }

  lemma SentOnceIsDistinct(messages: Messages)
    requires SentOnce(messages)
    ensures DistinctImages(Entries(messages))
  {
    hide Entries, Start, Place;
    var entries := Entries(messages);
    forall k, l | 0 <= k < l < |entries| ensures entries[k].image != entries[l].image {
      var i, p := PlaceOf(messages, k);
      var j, q := PlaceOf(messages, l);
    }
  }

  // ----- the order of priority, told by places

  ghost predicate Precedes(entries: seq<Entry>, a: Entry, b: Entry)
  {
    exists x, y :: 0 <= x < y < |entries| && entries[x] == a && entries[y] == b
  }

  lemma PrecedesApart(x: seq<Entry>, y: seq<Entry>, a: Entry, b: Entry)
    ensures Precedes(x, a, b) || Precedes(y, a, b) || (a in x && b in y) ==> Precedes(x + y, a, b)
  {
    if Precedes(x, a, b) {
      var i, j :| 0 <= i < j < |x| && x[i] == a && x[j] == b;
      assert (x + y)[i] == a && (x + y)[j] == b;
    } else if Precedes(y, a, b) {
      var i, j :| 0 <= i < j < |y| && y[i] == a && y[j] == b;
      assert (x + y)[|x| + i] == a && (x + y)[|x| + j] == b;
    } else if a in x && b in y {
      var i, j :| 0 <= i < |x| && x[i] == a && 0 <= j < |y| && y[j] == b;
      assert (x + y)[i] == a && (x + y)[|x| + j] == b;
    }
  }

  lemma PrecedesHead(entries: seq<Entry>, a: Entry, b: Entry)
    requires Precedes(entries, a, b)
    ensures entries != [] && ((entries[0] == a && b in entries[1..]) || Precedes(entries[1..], a, b))
  {
    var x, y :| 0 <= x < y < |entries| && entries[x] == a && entries[y] == b;
    assert entries[1..][y - 1] == b;
    if x > 0 { assert entries[1..][x - 1] == a; }
  }

  lemma {:induction false} ChosenPrecedes(entries: seq<Entry>, index: int, same: bool, a: Entry, b: Entry)
    requires Precedes(entries, a, b) && ((a.index == index) == same) && ((b.index == index) == same)
    ensures Precedes(Chosen(entries, index, same), a, b)
  {
    hide Precedes;
    PrecedesHead(entries, a, b);
    var head := if (entries[0].index == index) == same then [entries[0]] else [];
    ChosenMembers(entries[1..], index, same);
    if Precedes(entries[1..], a, b) { ChosenPrecedes(entries[1..], index, same, a, b); }
    PrecedesApart(head, Chosen(entries[1..], index, same), a, b);
  }

  lemma {:induction false} ReversedPrecedes(entries: seq<Entry>, a: Entry, b: Entry)
    requires Precedes(entries, a, b)
    ensures Precedes(Reversed(entries), b, a)
  {
    hide Precedes;
    PrecedesHead(entries, a, b);
    ReversedMembers(entries[1..]);
    if Precedes(entries[1..], a, b) { ReversedPrecedes(entries[1..], a, b); }
    PrecedesApart(Reversed(entries[1..]), [entries[0]], b, a);
  }

  /** What has to go first stands behind in the order of priority. */
  lemma GoesFirstIsBehind(messages: Messages, i: nat, p: nat, j: nat, q: nat)
    requires Place(messages, i, p) && Place(messages, j, q) && GoesFirst(NewestUser(messages), i, p, j, q)
    ensures Precedes(ByPriority(messages), Entry(j, ImageAt(messages, j, q)), Entry(i, ImageAt(messages, i, p)))
  {
    hide Entries, Chosen, Reversed, NewestUser, Precedes;
    var entries, user := Entries(messages), NewestUser(messages);
    var first, other := Entry(i, ImageAt(messages, i, p)), Entry(j, ImageAt(messages, j, q));
    EntryAt(messages, i, p);
    EntryAt(messages, j, q);
    ChosenMembers(entries, user, true);
    ChosenMembers(entries, user, false);
    ReversedMembers(Chosen(entries, user, false));
    if i == user {
      InOrder(messages, j, q, i, p);
      ChosenPrecedes(entries, user, true, other, first);
    } else if j != user {
      InOrder(messages, i, p, j, q);
      ChosenPrecedes(entries, user, false, first, other);
      ReversedPrecedes(Chosen(entries, user, false), first, other);
    }
    PrecedesApart(Chosen(entries, user, true), Reversed(Chosen(entries, user, false)), other, first);
  }

  lemma InOrder(messages: Messages, i: nat, p: nat, j: nat, q: nat)
    requires Place(messages, i, p) && Place(messages, j, q) && (i < j || (i == j && p < q))
    ensures Precedes(Entries(messages), Entry(i, ImageAt(messages, i, p)), Entry(j, ImageAt(messages, j, q)))
  {
    hide Entries, Start, ImagesOf, ImageAt, Precedes;
    EntryAt(messages, i, p);
    EntryAt(messages, j, q);
    if i < j { EntriesGrow(messages, i + 1, j); }
    PrecedesAt(Entries(messages), Start(messages, i) + p, Start(messages, j) + q);
  }

  lemma PrecedesAt(entries: seq<Entry>, x: nat, y: nat)
    requires x < y < |entries|
    ensures Precedes(entries, entries[x], entries[y])
  {
  }

  lemma DistinctApart(a: seq<Entry>, b: seq<Entry>)
    requires DistinctImages(a) && DistinctImages(b)
    requires forall e, f :: e in a && f in b ==> e.image != f.image
    ensures DistinctImages(a + b)
  {
  }

  lemma DistinctTail(entries: seq<Entry>)
    requires DistinctImages(entries) && entries != []
    ensures DistinctImages(entries[1..]) && forall e :: e in entries[1..] ==> e.image != entries[0].image
  {
  }

  lemma {:induction false} ChosenDistinct(entries: seq<Entry>, index: int, same: bool)
    requires DistinctImages(entries)
    ensures DistinctImages(Chosen(entries, index, same))
  {
    hide DistinctImages;
    if entries == [] {
      NoneIsDistinct(ANY);
    } else {
      DistinctTail(entries);
      ChosenDistinct(entries[1..], index, same);
      ChosenMembers(entries[1..], index, same);
      NoneIsDistinct(entries[0]);
      var head := if (entries[0].index == index) == same then [entries[0]] else [];
      DistinctApart(head, Chosen(entries[1..], index, same));
    }
  }

  const ANY := Entry(0, TextPart(""))

  lemma NoneIsDistinct(e: Entry)
    ensures DistinctImages([]) && DistinctImages([e])
  {
  }

  lemma {:induction false} ReversedDistinct(entries: seq<Entry>)
    requires DistinctImages(entries)
    ensures DistinctImages(Reversed(entries))
  {
    hide DistinctImages;
    if entries == [] {
      NoneIsDistinct(ANY);
    } else {
      DistinctTail(entries);
      ReversedDistinct(entries[1..]);
      ReversedMembers(entries[1..]);
      NoneIsDistinct(entries[0]);
      DistinctApart(Reversed(entries[1..]), [entries[0]]);
    }
  }

  lemma PriorityIsDistinct(messages: Messages)
    requires SentOnce(messages)
    ensures DistinctImages(ByPriority(messages))
    ensures forall e :: e in ByPriority(messages) <==> e in Entries(messages)
  {
    hide Entries, Chosen, Reversed, NewestUser;
    var entries, user := Entries(messages), NewestUser(messages);
    SentOnceIsDistinct(messages);
    ChosenMembers(entries, user, true);
    ChosenMembers(entries, user, false);
    ReversedMembers(Chosen(entries, user, false));
    ChosenDistinct(entries, user, true);
    ChosenDistinct(entries, user, false);
    ReversedDistinct(Chosen(entries, user, false));
    DistinctApart(Chosen(entries, user, true), Reversed(Chosen(entries, user, false)));
  }

  lemma {:induction false} WeightOfLeft(entries: seq<Entry>, omitted: set<Part>)
    requires forall i :: 0 <= i < |entries| ==> entries[i].image !in omitted
    ensures Weight(entries, omitted) == Bytes(entries)
    decreases |entries|
  {
    if entries != [] {
      var front, last := entries[..|entries| - 1], entries[|entries| - 1];
      assert entries == front + [last] && [last][1..] == [];
      WeightApart(front, [last], omitted);
      WeightOfLeft(front, omitted);
    }
  }

  lemma TotalIsKept(messages: Messages, maxBytes: nat, kept: nat, text: (string, seq<Part>) -> string)
    requires DistinctImages(ByPriority(messages)) && kept <= |ByPriority(messages)|
    ensures Total(AllRewritten(messages, Images(ByPriority(messages)[kept..]), text))
        == Bytes(ByPriority(messages)[..kept])
  {
    hide Weight, Bytes, Entries, Chosen, Reversed, NewestUser, Total, AllRewritten;
    var byPriority, entries, user := ByPriority(messages), Entries(messages), NewestUser(messages);
    var omitted := Images(byPriority[kept..]);
    TotalIsWeight(messages, omitted, text);
    WeightChosen(entries, user, omitted);
    WeightReversed(Chosen(entries, user, false), omitted);
    WeightApart(Chosen(entries, user, true), Reversed(Chosen(entries, user, false)), omitted);
    assert byPriority == byPriority[..kept] + byPriority[kept..];
    WeightApart(byPriority[..kept], byPriority[kept..], omitted);
    WeightOfLeft(byPriority[..kept], omitted);
    WeightOfOmitted(byPriority[kept..], omitted);
  }

  /** It is left out, and nothing that goes later is. */
  ghost predicate LastToGo(messages: Messages, r: Messages, i: nat, p: nat)
    requires Place(messages, i, p) && |r| == |messages|
  {
    && !StaysAt(messages, r, i, p)
    && forall j: nat, q: nat :: Place(messages, j, q) && GoesFirst(NewestUser(messages), i, p, j, q) ==>
         StaysAt(messages, r, j, q)
  }

  /**
   The right images stay: what has to go first stays only with what goes later, and the last one
   to go would not have fitted.
   */
  ghost predicate RightOnesStay(messages: Messages, maxBytes: nat, r: Messages)
  {
    var user := NewestUser(messages);
    && |r| == |messages|
    && (forall i: nat, p: nat, j: nat, q: nat ::
          Place(messages, i, p) && Place(messages, j, q) && GoesFirst(user, i, p, j, q) ==>
            StaysAt(messages, r, i, p) ==> StaysAt(messages, r, j, q))
    && (forall i: nat, p: nat :: Place(messages, i, p) && LastToGo(messages, r, i, p) ==>
          Total(r) + ImageAt(messages, i, p).byteLength > maxBytes)
  }

  /** Where an image stands in the order of priority, and that it stays if it is among the first `kept`. */
  lemma RankOf(messages: Messages, maxBytes: nat, text: (string, seq<Part>) -> string, kept: nat, r: Messages,
      omittedCount: nat, i: nat, p: nat) returns (x: nat)
    requires Kept(messages, maxBytes, text, kept, r, omittedCount) && SentOnce(messages) && Place(messages, i, p)
    ensures x < |ByPriority(messages)| && ByPriority(messages)[x] == Entry(i, ImageAt(messages, i, p))
    ensures |r| == |messages| && (StaysAt(messages, r, i, p) <==> x < kept)
  {
    hide ByPriority, Entries, Kept, DistinctImages, SentOnce, Start;
    PriorityIsDistinct(messages);
    KeptExactly(messages, maxBytes, text, kept, r, omittedCount);
    EntryAt(messages, i, p);
    assert Entry(i, ImageAt(messages, i, p)) in ByPriority(messages);
    x :| 0 <= x < |ByPriority(messages)| && ByPriority(messages)[x] == Entry(i, ImageAt(messages, i, p));
  }

  lemma RanksInOrder(messages: Messages, x: nat, y: nat, a: Entry, b: Entry)
    requires DistinctImages(ByPriority(messages)) && Precedes(ByPriority(messages), a, b)
    requires x < |ByPriority(messages)| && y < |ByPriority(messages)|
    requires ByPriority(messages)[x] == a && ByPriority(messages)[y] == b
    ensures x < y
  {
    hide ByPriority;
  }

  lemma FirstOutOverflows(messages: Messages, maxBytes: nat, text: (string, seq<Part>) -> string, kept: nat,
      r: Messages, omittedCount: nat)
    requires Kept(messages, maxBytes, text, kept, r, omittedCount) && SentOnce(messages)
    requires kept < |ByPriority(messages)|
    ensures Total(r) + Size(ByPriority(messages)[kept].image) > maxBytes
  {
    hide ByPriority, Bytes, Images, Total, Entries;
    PriorityIsDistinct(messages);
    TotalIsKept(messages, maxBytes, kept, text);
    BytesOn(ByPriority(messages), kept);
  }

  /** Where no image object is sent twice, the right ones stay. */
  lemma KeepsTheRightOnes(messages: Messages, maxBytes: nat, text: (string, seq<Part>) -> string, kept: nat,
      r: Messages, omittedCount: nat)
    requires Kept(messages, maxBytes, text, kept, r, omittedCount) && SentOnce(messages)
    ensures RightOnesStay(messages, maxBytes, r)
  {
    hide ByPriority, Kept, Precedes, SentOnce, DistinctImages, NewestUser, StaysAt, Total;
    var user := NewestUser(messages);
    PriorityIsDistinct(messages);
    KeptExactly(messages, maxBytes, text, kept, r, omittedCount);
    forall i: nat, p: nat, j: nat, q: nat |
      Place(messages, i, p) && Place(messages, j, q) && GoesFirst(user, i, p, j, q) && StaysAt(messages, r, i, p)
      ensures StaysAt(messages, r, j, q)
    {
      var x := RankOf(messages, maxBytes, text, kept, r, omittedCount, i, p);
      var y := RankOf(messages, maxBytes, text, kept, r, omittedCount, j, q);
      GoesFirstIsBehind(messages, i, p, j, q);
      RanksInOrder(messages, y, x, Entry(j, ImageAt(messages, j, q)), Entry(i, ImageAt(messages, i, p)));
    }
    forall i: nat, p: nat | Place(messages, i, p) && LastToGo(messages, r, i, p)
      ensures Total(r) + ImageAt(messages, i, p).byteLength > maxBytes
    {
      LastOutOverflows(messages, maxBytes, text, kept, r, omittedCount, i, p);
    }
  }

  lemma LastOutOverflows(messages: Messages, maxBytes: nat, text: (string, seq<Part>) -> string, kept: nat,
      r: Messages, omittedCount: nat, i: nat, p: nat)
    requires Kept(messages, maxBytes, text, kept, r, omittedCount) && SentOnce(messages) && Place(messages, i, p)
    requires |r| == |messages| && LastToGo(messages, r, i, p)
    ensures Total(r) + ImageAt(messages, i, p).byteLength > maxBytes
  {
    hide ByPriority, Kept, Precedes, SentOnce, DistinctImages, NewestUser, StaysAt, LastToGo, Total, Place,
        GoesFirst, Entries;
    var x := RankOf(messages, maxBytes, text, kept, r, omittedCount, i, p);
    LastIsOut(messages, r, i, p);
    PriorityIsDistinct(messages);
    FirstOutOverflows(messages, maxBytes, text, kept, r, omittedCount);
    var j, q := PlaceOfRank(messages, kept);
    var y := RankOf(messages, maxBytes, text, kept, r, omittedCount, j, q);
    RanksOnce(messages, y, kept);
    OneGoesFirst(messages, r, i, p, j, q);
    if i == j && p == q {
      RanksOnce(messages, x, kept);
    } else {
      GoesFirstIsBehind(messages, j, q, i, p);
      RanksInOrder(messages, x, y, Entry(i, ImageAt(messages, i, p)), Entry(j, ImageAt(messages, j, q)));
    }
  }

  lemma LastIsOut(messages: Messages, r: Messages, i: nat, p: nat)
    requires Place(messages, i, p) && |r| == |messages| && LastToGo(messages, r, i, p)
    ensures !StaysAt(messages, r, i, p)
  {
  }

  /** Of two images left out, where nothing goes later than the first. */
  lemma OneGoesFirst(messages: Messages, r: Messages, i: nat, p: nat, j: nat, q: nat)
    requires Place(messages, i, p) && Place(messages, j, q) && |r| == |messages|
    requires LastToGo(messages, r, i, p) && !StaysAt(messages, r, j, q)
    ensures (i == j && p == q) || GoesFirst(NewestUser(messages), j, q, i, p)
  {
    hide StaysAt, Place;
  }

  lemma PlaceOfRank(messages: Messages, k: nat) returns (i: nat, p: nat)
    requires k < |ByPriority(messages)| && SentOnce(messages)
    ensures Place(messages, i, p) && ByPriority(messages)[k] == Entry(i, ImageAt(messages, i, p))
  {
    hide Entries, ByPriority, SentOnce;
    PriorityIsDistinct(messages);
    assert ByPriority(messages)[k] in ByPriority(messages);
    var at :| 0 <= at < |Entries(messages)| && Entries(messages)[at] == ByPriority(messages)[k];
    i, p := PlaceOf(messages, at);
  }

  lemma RanksOnce(messages: Messages, x: nat, y: nat)
    requires DistinctImages(ByPriority(messages)) && x < |ByPriority(messages)| && y < |ByPriority(messages)|
    requires ByPriority(messages)[x] == ByPriority(messages)[y]
    ensures x == y
  {
    hide ByPriority;
  }
}
