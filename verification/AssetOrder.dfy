/**
 What a batch of config assets does not depend on: a set is valid by what it holds under each key,
 so the order of a sync's items decides neither whether it is accepted nor what it stores, and the
 second validation, of what the mutations replay to, is passed where the first one was.

 What the order can decide is the default of a kind: it follows the order exactly where the sync
 makes a default for a kind that two or more of the items of the batch put.
 */
module AssetOrder {
  import opened Optional
  import opened AssetWrites
  import opened AssetBatches

  // ----- a set is valid by what it holds under each key

  /** Of each kind, every definition has a name of its own. */
  ghost predicate Named(kinds: seq<Kind>, set_: AssetSet)
  {
    forall k :: k in kinds ==> AllNamed(Of(set_, k.id))
  }

  predicate AllNamed(definitions: seq<Definition>)
  {
    DistinctNames(definitions) && forall d :: d in definitions ==> d.name.Some?
  }

  /** What the validation asks of one kind. */
  ghost predicate KindFits(kind: Kind, set_: AssetSet)
  {
    && (forall name :: At(set_, Key(kind.id, name)).Some? ==> kind.read(At(set_, Key(kind.id, name)).value).Some?)
    && (kind.holdsDefault ==>
          if Holds(set_, kind.id) then set_.default.Some? && At(set_, Key(kind.id, set_.default.value)).Some?
              else set_.default.None?)
  }

  ghost predicate Holds(set_: AssetSet, kind: string)
  {
    exists name :: At(set_, Key(kind, name)).Some?
  }

  lemma FindsEach(definitions: seq<Definition>, i: nat)
    requires AllNamed(definitions) && i < |definitions|
    ensures definitions[i].name.Some? && Find(definitions, definitions[i].name.value) == Some(definitions[i])
  {
    assert definitions[i] in definitions;
    var found := Find(definitions, definitions[i].name.value);
    var j :| 0 <= j < |definitions| && definitions[j] == found.value;
  }

  lemma HoldsAny(set_: AssetSet, kind: string)
    requires AllNamed(Of(set_, kind))
    ensures Of(set_, kind) == [] <==> !Holds(set_, kind)
  {
    if Of(set_, kind) != [] {
      FindsEach(Of(set_, kind), 0);
      assert At(set_, Key(kind, Of(set_, kind)[0].name.value)).Some?;
    }
  }

  lemma {:induction false} ReadsAll(kind: Kind, definitions: seq<Definition>)
    ensures ReadAll(kind, definitions).Some? <==> forall d :: d in definitions ==> kind.read(d).Some?
    ensures ReadAll(kind, definitions).Some? ==>
              && |ReadAll(kind, definitions).value| == |definitions|
              && forall i :: 0 <= i < |definitions| ==>
                  Some(ReadAll(kind, definitions).value[i]) == kind.read(definitions[i])
  {
    if definitions != [] {
      ReadsAll(kind, definitions[1..]);
      assert forall d :: d in definitions <==> d == definitions[0] || d in definitions[1..];
    }
  }

  lemma KindAccepted(kinds: seq<Kind>, kind: Kind, set_: AssetSet)
    requires KeepsNames(kinds) && kind in kinds && AllNamed(Of(set_, kind.id))
    ensures var read := ReadAll(kind, Of(set_, kind.id));
            (read.Some? && DistinctNames(read.value)
                && (kind.holdsDefault ==> DefaultFits(read.value, set_.default))) <==> KindFits(kind, set_)
  {
    var definitions := Of(set_, kind.id);
    var read := ReadAll(kind, definitions);
    ReadsAll(kind, definitions);
    HoldsAny(set_, kind.id);
    if read.Some? {
      assert DistinctNames(read.value);
      forall name ensures Find(read.value, name).Some? <==> At(set_, Key(kind.id, name)).Some? {
        FindRead(kind, definitions, name);
      }
    }
    if forall name :: At(set_, Key(kind.id, name)).Some? ==> kind.read(At(set_, Key(kind.id, name)).value).Some? {
      forall d | d in definitions ensures kind.read(d).Some? {
        var i :| 0 <= i < |definitions| && definitions[i] == d;
        FindsEach(definitions, i);
        assert At(set_, Key(kind.id, d.name.value)) == Some(d);
      }
    }
  }

  lemma {:induction false} AcceptedByKey(kinds: seq<Kind>, set_: AssetSet)
    requires KeepsNames(kinds) && Named(kinds, set_)
    ensures Accepted(kinds, set_).Some? <==> forall k :: k in kinds ==> KindFits(k, set_)
  {
    hide KindFits, AllNamed;
    if kinds != [] {
      assert forall k :: k in kinds <==> k == kinds[0] || k in kinds[1..];
      AcceptedByKey(kinds[1..], set_);
      KindAccepted(kinds, kinds[0], set_);
    }
  }

  // ----- the reference checks of the kinds

  /**
   The checks of all kinds together: whether they find nothing wrong. They see, by kind and name, the
   accepted definitions and what is stored, which tells them what a write changes.
   */
  type Checks = (imap<Key, Definition>, imap<Key, Definition>) -> bool

  ghost function ByKey(set_: AssetSet): imap<Key, Definition>
  {
    imap key: Key | At(set_, key).Some? :: At(set_, key).value
  }

  /** The whole validation: every kind accepts its definitions, and then the checks find nothing. */
  ghost predicate Passes(kinds: seq<Kind>, checks: Checks, stored: AssetSet, set_: AssetSet)
  {
    Accepted(kinds, set_).Some? && checks(ByKey(Accepted(kinds, set_).value), ByKey(stored))
  }

  /** What the kinds read of a set. */
  ghost function ReadAt(kinds: seq<Kind>, set_: AssetSet, key: Key): Option<Definition>
  {
    if KindOf(kinds, key.kind).None? || At(set_, key).None? then None
    else KindOf(kinds, key.kind).value.read(At(set_, key).value)
  }

  ghost function ReadByKey(kinds: seq<Kind>, set_: AssetSet): imap<Key, Definition>
  {
    imap key: Key | ReadAt(kinds, set_, key).Some? :: ReadAt(kinds, set_, key).value
  }

  lemma AcceptedIsRead(kinds: seq<Kind>, set_: AssetSet)
    requires KeepsNames(kinds) && DistinctKinds(kinds) && Accepted(kinds, set_).Some?
    ensures ByKey(Accepted(kinds, set_).value) == ReadByKey(kinds, set_)
  {
    hide Accepted, At, KindOf;
    forall key ensures At(Accepted(kinds, set_).value, key) == ReadAt(kinds, set_, key) {
      AtAccepted(kinds, set_, key);
    }
  }

  /** Where names are distinct, a set is valid by what it holds under each key, its default, and nothing else. */
  lemma PassesByKey(kinds: seq<Kind>, checks: Checks, stored: AssetSet, set_: AssetSet)
    requires KeepsNames(kinds) && DistinctKinds(kinds) && Named(kinds, set_)
    ensures Passes(kinds, checks, stored, set_) <==>
        (forall k :: k in kinds ==> KindFits(k, set_)) && checks(ReadByKey(kinds, set_), ByKey(stored))
  {
    hide Accepted, Named, ByKey, ReadByKey, KindFits;
    AcceptedByKey(kinds, set_);
    if Accepted(kinds, set_).Some? { AcceptedIsRead(kinds, set_); }
  }

  /** Two sets that hold the same under every key, with defaults that fit equally, are both valid or both not. */
  lemma SameKeysSameVerdict(kinds: seq<Kind>, checks: Checks, stored: AssetSet, a: AssetSet, b: AssetSet)
    requires KeepsNames(kinds) && DistinctKinds(kinds) && Named(kinds, a) && Named(kinds, b)
    requires forall key :: At(a, key) == At(b, key)
    requires forall k :: k in kinds && k.holdsDefault ==>
        a.default == b.default || (DefaultHeld(a, k) && DefaultHeld(b, k))
    ensures Accepted(kinds, a).Some? <==> Accepted(kinds, b).Some?
    ensures Passes(kinds, checks, stored, a) <==> Passes(kinds, checks, stored, b)
  {
    hide Accepted, Named, At, Passes, KindFits, ByKey, ReadByKey;
    AcceptedByKey(kinds, a);
    AcceptedByKey(kinds, b);
    PassesByKey(kinds, checks, stored, a);
    PassesByKey(kinds, checks, stored, b);
    SameRead(kinds, a, b);
    forall k | k in kinds ensures KindFits(k, a) <==> KindFits(k, b) {
      SameKind(k, a, b);
    }
  }

  lemma SameRead(kinds: seq<Kind>, a: AssetSet, b: AssetSet)
    requires forall key :: At(a, key) == At(b, key)
    ensures ReadByKey(kinds, a) == ReadByKey(kinds, b)
  {
    hide At;
    forall key ensures ReadAt(kinds, a, key) == ReadAt(kinds, b, key) { assert At(a, key) == At(b, key); }
  }

  predicate DefaultHeld(set_: AssetSet, kind: Kind)
  {
    set_.default.Some? && At(set_, Key(kind.id, set_.default.value)).Some?
  }

  lemma SameKind(kind: Kind, a: AssetSet, b: AssetSet)
    requires forall key :: At(a, key) == At(b, key)
    requires kind.holdsDefault ==> a.default == b.default || (DefaultHeld(a, kind) && DefaultHeld(b, kind))
    ensures KindFits(kind, a) <==> KindFits(kind, b)
  {
    hide At;
    assert Holds(a, kind.id) <==> Holds(b, kind.id) by {
      if name :| At(a, Key(kind.id, name)).Some? { assert At(b, Key(kind.id, name)).Some?; }
      if name :| At(b, Key(kind.id, name)).Some? { assert At(a, Key(kind.id, name)).Some?; }
    }
    if kind.holdsDefault && DefaultHeld(a, kind) { assert Holds(a, kind.id); }
    if kind.holdsDefault && DefaultHeld(b, kind) { assert Holds(b, kind.id); }
  }

  // ----- names of their own

  lemma {:induction false} StoredIsNamed(kinds: seq<Kind>, assets: seq<Asset>, default: Option<string>, kind: string)
    requires WellStored(kinds, assets)
    ensures AllNamed(Of(StoredSet(assets, default), kind))
  {
    if assets != [] {
      var front, last := assets[..|assets| - 1], assets[|assets| - 1];
      StoredIsNamed(kinds, front, default, kind);
      if kind == last.key.kind {
        AtStored(kinds, front, default, last.key);
        assert ConfigOf(front, last.key).None?;
        OneMoreNamed(Of(StoredSet(front, default), kind), last.config);
      }
    }
  }

  lemma OneMoreNamed(definitions: seq<Definition>, d: Definition)
    requires AllNamed(definitions) && d.name.Some? && Find(definitions, d.name.value).None?
    ensures AllNamed(definitions + [d])
  {
    var more := definitions + [d];
    assert forall x :: x in more <==> x in definitions || x == d;
    forall i, j | 0 <= i < j < |more| ensures more[i].name != more[j].name {
      assert more[i] == definitions[i] && definitions[i] in definitions;
    }
  }

  lemma {:induction false} WithoutIsNamed(definitions: seq<Definition>, name: string)
    requires AllNamed(definitions)
    ensures AllNamed(Without(definitions, name)) && forall d :: d in Without(definitions, name) ==> d in definitions
  {
    if definitions != [] {
      var head, rest := definitions[0], definitions[1..];
      assert AllNamed(rest) by { assert forall i :: 0 <= i < |rest| ==> rest[i] == definitions[i + 1]; }
      WithoutIsNamed(rest, name);
      var left := Without(rest, name);
      if head.name != Some(name) {
        FrontNamed(head, rest, left, definitions);
      } else {
        assert [] + left == left;
      }
    }
  }

  lemma FrontNamed(head: Definition, rest: seq<Definition>, left: seq<Definition>, definitions: seq<Definition>)
    requires definitions == [head] + rest && AllNamed(definitions) && AllNamed(left) && forall d :: d in left ==>
        d in rest
    ensures AllNamed([head] + left) && forall d :: d in [head] + left ==> d in definitions
  {
    var all := [head] + left;
    assert head in definitions && forall d :: d in rest ==> d in definitions;
    assert forall d :: d in all <==> d == head || d in left;
    forall i, j | 0 <= i < j < |all| ensures all[i].name != all[j].name {
      if i == 0 {
        assert all[j] == left[j - 1] && left[j - 1] in left;
        var k :| 0 <= k < |rest| && rest[k] == left[j - 1];
        assert definitions[0] == head && definitions[k + 1] == rest[k];
      } else {
        assert all[i] == left[i - 1] && all[j] == left[j - 1];
      }
    }
  }

  lemma {:induction false} LeftIsNamed(kinds: seq<Kind>, stored: AssetSet, items: seq<Item>, kind: string)
    requires KeepsNames(kinds) && Ready(kinds, items) && forall id :: AllNamed(Of(stored, id))
    ensures AllNamed(Of(LeftBy(kinds, stored, items), kind))
  {
    hide AllNamed;
    if items != [] {
      var front, item := items[..|items| - 1], items[|items| - 1];
      var left := LeftBy(kinds, stored, front);
      LeftIsNamed(kinds, stored, front, kind);
      if item.key.kind == kind {
        WithoutIsNamed(Of(left, kind), item.key.name);
        FindWithout(Of(left, kind), item.key.name, item.key.name);
        if item.Put? {
          var of_ := KindOf(kinds, item.key.kind).value;
          assert of_.prepare(At(stored, item.key), item.config).name == item.config.name;
          OneMoreNamed(Without(Of(left, kind), item.key.name), Prepared(kinds, stored, item));
        }
      }
    }
  }

  // ----- the order of a sync's items

  /** The same items in another order. */
  ghost predicate SameItems(items: seq<Item>, others: seq<Item>)
  {
    forall x :: x in items <==> x in others
  }

  /** At most one kind holds the default of the instance. */
  ghost predicate OneHoldsDefault(kinds: seq<Kind>)
  {
    forall a, b :: a in kinds && b in kinds && a.holdsDefault && b.holdsDefault ==> a == b
  }

  lemma SameItem(kinds: seq<Kind>, items: seq<Item>, others: seq<Item>, key: Key)
    requires Ready(kinds, items) && Ready(kinds, others) && SameItems(items, others)
    ensures ItemOf(items, key) == ItemOf(others, key)
  {
    if ItemOf(items, key).Some? { ItemOfIs(kinds, others, ItemOf(items, key).value); }
    if ItemOf(others, key).Some? { ItemOfIs(kinds, items, ItemOf(others, key).value); }
  }

  lemma SameLeft(kinds: seq<Kind>, stored: AssetSet, items: seq<Item>, others: seq<Item>, key: Key)
    requires KeepsNames(kinds) && Ready(kinds, items) && Ready(kinds, others) && SameItems(items, others)
    ensures At(LeftBy(kinds, stored, items), key) == At(LeftBy(kinds, stored, others), key)
  {
    AtLeft(kinds, stored, items, key);
    AtLeft(kinds, stored, others, key);
    SameItem(kinds, items, others, key);
  }

  /** The same kinds have definitions. */
  ghost predicate SameKinds(a: AssetSet, b: AssetSet)
  {
    forall id :: Of(a, id) == [] <==> Of(b, id) == []
  }

  /** The stored set and what two orders of a batch leave of it: named throughout, and the same under every key. */
  lemma LeftAgree(kinds: seq<Kind>, assets: seq<Asset>, default: Option<string>, items: seq<Item>, others: seq<Item>)
    requires KeepsNames(kinds) && WellStored(kinds, assets) && Ready(kinds, items) && Ready(kinds, others)
        && SameItems(items, others)
    ensures var stored := StoredSet(assets, default);
            var a, b := LeftBy(kinds, stored, items), LeftBy(kinds, stored, others);
            && (forall id :: AllNamed(Of(a, id)) && AllNamed(Of(b, id)))
            && (forall key :: At(a, key) == At(b, key))
            && SameKinds(a, b)
  {
    hide AllNamed, At, LeftBy;
    var stored := StoredSet(assets, default);
    var a, b := LeftBy(kinds, stored, items), LeftBy(kinds, stored, others);
    forall id ensures AllNamed(Of(stored, id)) { StoredIsNamed(kinds, assets, default, id); }
    forall id ensures AllNamed(Of(a, id)) && AllNamed(Of(b, id)) {
      LeftIsNamed(kinds, stored, items, id);
      LeftIsNamed(kinds, stored, others, id);
    }
    forall key ensures At(a, key) == At(b, key) { SameLeft(kinds, stored, items, others, key); }
    forall id ensures Of(a, id) == [] <==> Of(b, id) == [] {
      HoldsAny(a, id);
      HoldsAny(b, id);
      if name :| At(a, Key(id, name)).Some? { assert At(b, Key(id, name)).Some?; }
      if name :| At(b, Key(id, name)).Some? { assert At(a, Key(id, name)).Some?; }
    }
  }

  /** The batch makes the first definition of a kind its default: there was none, and it puts some. */
  predicate MakesDefault(stored: AssetSet, left: AssetSet, items: seq<Item>, kind: Kind)
  {
    kind.holdsDefault && Of(stored, kind.id) == [] && stored.default.None? && Of(left, kind.id) != []
        && FirstPut(items, kind.id).Some?
  }

  lemma {:induction false} SomePut(items: seq<Item>, kind: string)
    ensures FirstPut(items, kind).Some? <==> exists x :: x in items && x.Put? && x.key.kind == kind
  {
    if items != [] {
      assert forall x :: x in items <==> x == items[0] || x in items[1..];
      SomePut(items[1..], kind);
      if items[0].Put? && items[0].key.kind == kind { assert items[0] in items; }
    }
  }

  lemma SamePut(items: seq<Item>, others: seq<Item>, kind: string)
    requires SameItems(items, others)
    ensures FirstPut(items, kind).Some? <==> FirstPut(others, kind).Some?
  {
    SomePut(items, kind);
    SomePut(others, kind);
  }

  /** The change of the default, in whatever order the items come. */
  lemma {:induction false} ChangeOf(kinds: seq<Kind>, rest: seq<Kind>, stored: AssetSet, a: AssetSet, b: AssetSet,
      items: seq<Item>, others: seq<Item>)
    requires Ready(kinds, items) && Ready(kinds, others) && SameItems(items, others)
    requires SameKinds(a, b)
    requires forall k :: k in rest ==> k in kinds
    ensures var change, other := DefaultChange(rest, stored, a, items), DefaultChange(rest, stored, b, others);
            || change == other
            || exists k :: k in rest && MakesDefault(stored, a, items, k)
                           && change == Some(Some(FirstPut(items, k.id).value.key.name))
                           && FirstPut(others, k.id).Some? && other == Some(Some(FirstPut(others, k.id).value.key.name))
  {
    if rest != [] {
      hide ItemOf, FirstPut;
      var kind := rest[0];
      SamePut(items, others, kind.id);
      SameItem(kinds, items, others, Key(kind.id, if stored.default.Some? then stored.default.value else ""));
      assert forall k :: k in rest[1..] ==> k in rest;
      ChangeOf(kinds, rest[1..], stored, a, b, items, others);
    }
  }

  lemma PutIsLeft(kinds: seq<Kind>, stored: AssetSet, items: seq<Item>, x: Item)
    requires KeepsNames(kinds) && Ready(kinds, items) && x in items && x.Put?
    ensures At(LeftBy(kinds, stored, items), x.key).Some?
  {
    ItemOfIs(kinds, items, x);
    AtLeft(kinds, stored, items, x.key);
  }

  lemma CandidateIsLeft(kinds: seq<Kind>, stored: AssetSet, items: seq<Item>)
    requires KeepsNames(kinds) && Ready(kinds, items)
    ensures var left, candidate := LeftBy(kinds, stored, items), SyncCandidate(kinds, stored, items);
            && candidate.definitions == left.definitions
            && var change := DefaultChange(kinds, stored, left, items);
               candidate.default == if change.None? then stored.default else change.value
  {
    AtLeft(kinds, stored, items, Key("", ""));
  }

  lemma SameDefinitions(a: AssetSet, b: AssetSet)
    requires a.definitions == b.definitions
    ensures forall id :: Of(a, id) == Of(b, id)
    ensures forall key :: At(a, key) == At(b, key)
  {
  }

  /** The defaults of two orders are one, or both are of definitions the batch puts. */
  lemma DefaultsAgree(kinds: seq<Kind>, assets: seq<Asset>, default: Option<string>, items: seq<Item>,
      others: seq<Item>)
    requires KeepsNames(kinds) && WellStored(kinds, assets) && Ready(kinds, items) && Ready(kinds, others)
        && SameItems(items, others)
    requires OneHoldsDefault(kinds)
    ensures var stored := StoredSet(assets, default);
            var a, b := SyncCandidate(kinds, stored, items), SyncCandidate(kinds, stored, others);
            forall k :: k in kinds && k.holdsDefault ==>
                a.default == b.default || (DefaultHeld(a, k) && DefaultHeld(b, k))
  {
    hide AllNamed, LeftBy, ItemOf, FirstPut, SyncCandidate, DefaultChange, At;
    var stored := StoredSet(assets, default);
    var left, right := LeftBy(kinds, stored, items), LeftBy(kinds, stored, others);
    var a, b := SyncCandidate(kinds, stored, items), SyncCandidate(kinds, stored, others);
    CandidateIsLeft(kinds, stored, items);
    CandidateIsLeft(kinds, stored, others);
    SameDefinitions(a, left);
    SameDefinitions(b, right);
    LeftAgree(kinds, assets, default, items, others);
    ChangeOf(kinds, kinds, stored, left, right, items, others);
    if a.default != b.default {
      var k :| k in kinds && MakesDefault(stored, left, items, k)
               && DefaultChange(kinds, stored, left, items) == Some(Some(FirstPut(items, k.id).value.key.name))
               && FirstPut(others, k.id).Some? && DefaultChange(kinds, stored, right, others)
                   == Some(Some(FirstPut(others, k.id).value.key.name));
      PutIsLeft(kinds, stored, items, FirstPut(items, k.id).value);
      PutIsLeft(kinds, stored, others, FirstPut(others, k.id).value);
    }
  }

  /** Whether a sync is valid does not depend on the order of its items. */
  lemma SyncVerdictIsFree(kinds: seq<Kind>, checks: Checks, assets: seq<Asset>, default: Option<string>,
      items: seq<Item>, others: seq<Item>)
    requires KeepsNames(kinds) && DistinctKinds(kinds) && WellStored(kinds, assets) && Ready(kinds, items)
        && Ready(kinds, others) && SameItems(items, others)
    requires OneHoldsDefault(kinds)
    ensures var stored := StoredSet(assets, default);
            && (Accepted(kinds, SyncCandidate(kinds, stored, items)).Some? <==>
                Accepted(kinds, SyncCandidate(kinds, stored, others)).Some?)
            && (Passes(kinds, checks, stored, SyncCandidate(kinds, stored, items)) <==>
                Passes(kinds, checks, stored, SyncCandidate(kinds, stored, others)))
  {
    hide AllNamed, Accepted, Passes, LeftBy, SyncCandidate, DefaultChange, At, DefaultHeld;
    var stored := StoredSet(assets, default);
    var a, b := SyncCandidate(kinds, stored, items), SyncCandidate(kinds, stored, others);
    CandidateIsLeft(kinds, stored, items);
    CandidateIsLeft(kinds, stored, others);
    SameDefinitions(a, LeftBy(kinds, stored, items));
    SameDefinitions(b, LeftBy(kinds, stored, others));
    LeftAgree(kinds, assets, default, items, others);
    DefaultsAgree(kinds, assets, default, items, others);
    SameKeysSameVerdict(kinds, checks, stored, a, b);
  }

  /** What a sync stores does not depend on the order of its items. */
  lemma SyncOrderIsFree(kinds: seq<Kind>, assets: seq<Asset>, default: Option<string>, items: seq<Item>,
      others: seq<Item>)
    requires KeepsNames(kinds) && DistinctKinds(kinds) && WellStored(kinds, assets) && Ready(kinds, items)
        && Ready(kinds, others)
    requires SameItems(items, others) && OneHoldsDefault(kinds)
    requires Accepted(kinds, SyncCandidate(kinds, StoredSet(assets, default), items)).Some?
    ensures Accepted(kinds, SyncCandidate(kinds, StoredSet(assets, default), others)).Some?
    ensures var stored := StoredSet(assets, default);
            var a := Accepted(kinds, SyncCandidate(kinds, stored, items)).value;
            var b := Accepted(kinds, SyncCandidate(kinds, stored, others)).value;
            && (forall x :: x in items && x.Put? ==> At(a, x.key).Some?)
                && (forall x :: x in others && x.Put? ==> At(b, x.key).Some?)
            && AppliedAll(StoredOf(assets, default), SyncMutations(kinds, stored, items, a)).assets
               == AppliedAll(StoredOf(assets, default), SyncMutations(kinds, stored, others, b)).assets
  {
    SyncVerdictIsFree(kinds, (accepted, stored) => true, assets, default, items, others);
    hide Accepted, SyncCandidate, At, AppliedAll, SyncMutations;
    var stored := StoredSet(assets, default);
    var a, b := Accepted(kinds, SyncCandidate(kinds, stored, items)).value,
        Accepted(kinds, SyncCandidate(kinds, stored, others)).value;
    PutsAreAccepted(kinds, assets, default, items);
    PutsAreAccepted(kinds, assets, default, others);
    var x := AppliedAll(StoredOf(assets, default), SyncMutations(kinds, stored, items, a)).assets;
    var y := AppliedAll(StoredOf(assets, default), SyncMutations(kinds, stored, others, b)).assets;
    forall key ensures HeldAt(x, key) == HeldAt(y, key) {
      SyncedAt(kinds, assets, default, items, key);
      SyncedAt(kinds, assets, default, others, key);
      SameItem(kinds, items, others, key);
    }
    SameHeld(x, y);
  }

  lemma SameHeld(x: map<Key, Definition>, y: map<Key, Definition>)
    requires forall key :: HeldAt(x, key) == HeldAt(y, key)
    ensures x == y
  {
    forall key: Key ensures (key in x <==> key in y) && (key in x ==> x[key] == y[key]) {
      assert HeldAt(x, key) == HeldAt(y, key);
    }
  }
  // ----- where the default follows the order

  /** The default a sync stores. */
  function DefaultAfter(kinds: seq<Kind>, stored: AssetSet, items: seq<Item>): Option<string>
    requires Ready(kinds, items)
  {
    var change := DefaultChange(kinds, stored, LeftBy(kinds, stored, items), items);
    if change.None? then stored.default else change.value
  }

  /** The batch makes a definition the default, and puts another one of that kind too. */
  ghost predicate DefaultIsOpen(kinds: seq<Kind>, stored: AssetSet, items: seq<Item>)
    requires Ready(kinds, items)
  {
    exists k, x, y :: k in kinds && MakesDefault(stored, LeftBy(kinds, stored, items), items, k)
                      && PutOf(items, k.id, x) && PutOf(items, k.id, y) && x != y
  }

  predicate PutOf(items: seq<Item>, kind: string, x: Item) { x in items && x.Put? && x.key.kind == kind }

  lemma {:induction false} OneChange(kinds: seq<Kind>, rest: seq<Kind>, stored: AssetSet, left: AssetSet,
      items: seq<Item>, kind: Kind)
    requires OneHoldsDefault(kinds) && kind in rest && MakesDefault(stored, left, items, kind)
    requires forall k :: k in rest ==> k in kinds
    ensures DefaultChange(rest, stored, left, items) == Some(Some(FirstPut(items, kind.id).value.key.name))
  {
    assert rest[0] in rest;
    if !rest[0].holdsDefault {
      assert kind in rest[1..];
      assert forall k :: k in rest[1..] ==> k in rest;
      OneChange(kinds, rest[1..], stored, left, items, kind);
    } else {
      assert rest[0] == kind;
    }
  }

  function WithoutItem(items: seq<Item>, x: Item): seq<Item>
  {
    if items == [] then [] else (if items[0] == x then [] else [items[0]]) + WithoutItem(items[1..], x)
  }

  lemma {:induction false} WithoutItemKeeps(items: seq<Item>, x: Item)
    ensures forall y :: y in WithoutItem(items, x) <==> y in items && y != x
  {
    if items != [] {
      WithoutItemKeeps(items[1..], x);
      assert forall y :: y in items <==> y == items[0] || y in items[1..];
    }
  }

  lemma {:induction false} WithoutItemReady(kinds: seq<Kind>, items: seq<Item>, x: Item)
    requires Ready(kinds, items)
    ensures Ready(kinds, WithoutItem(items, x))
  {
    if items != [] {
      var rest := WithoutItem(items[1..], x);
      assert Ready(kinds, items[1..]) by { assert forall i :: 0 <= i < |items[1..]| ==> items[1..][i] == items[i + 1]; }
      WithoutItemReady(kinds, items[1..], x);
      WithoutItemKeeps(items[1..], x);
      if items[0] != x { ItemInFront(kinds, items, items[0], rest); }
    }
  }

  lemma ItemInFront(kinds: seq<Kind>, items: seq<Item>, first: Item, rest: seq<Item>)
    requires Ready(kinds, items) && Ready(kinds, rest) && first in items && first !in rest && forall y ::
        y in rest ==> y in items
    ensures Ready(kinds, [first] + rest)
  {
    var all := [first] + rest;
    forall i, j | 0 <= i < j < |all| ensures all[i].key != all[j].key {
      if i == 0 {
        assert rest[j - 1] in rest && all[j] == rest[j - 1];
        ItemOfIs(kinds, items, first);
        ItemOfIs(kinds, items, rest[j - 1]);
      } else {
        assert all[i] == rest[i - 1] && all[j] == rest[j - 1];
      }
    }
  }

  /** The items with one of them first. */
  lemma PutFirst(kinds: seq<Kind>, items: seq<Item>, x: Item) returns (others: seq<Item>)
    requires Ready(kinds, items) && x in items && x.Put?
    ensures Ready(kinds, others) && SameItems(items, others) && FirstPut(others, x.key.kind) == Some(x)
  {
    WithoutItemReady(kinds, items, x);
    WithoutItemKeeps(items, x);
    others := [x] + WithoutItem(items, x);
    ItemInFront(kinds, items, x, WithoutItem(items, x));
  }

  /** Every order of these items stores the same default. */
  ghost predicate DefaultIsFree(kinds: seq<Kind>, stored: AssetSet, items: seq<Item>)
    requires Ready(kinds, items)
  {
    forall others :: Ready(kinds, others) && SameItems(items, others) ==>
        DefaultAfter(kinds, stored, others) == DefaultAfter(kinds, stored, items)
  }

  /** The default follows the order of the items exactly where it is open: the first put of several then becomes it. */
  lemma DefaultFollowsOrder(kinds: seq<Kind>, assets: seq<Asset>, default: Option<string>, items: seq<Item>)
    requires KeepsNames(kinds) && WellStored(kinds, assets) && Ready(kinds, items) && OneHoldsDefault(kinds)
    ensures DefaultIsFree(kinds, StoredSet(assets, default), items) <==>
        !DefaultIsOpen(kinds, StoredSet(assets, default), items)
  {
    hide LeftBy, DefaultChange, FirstPut, MakesDefault;
    var stored := StoredSet(assets, default);
    if k, x, y :| k in kinds && MakesDefault(stored, LeftBy(kinds, stored, items), items, k)
                  && PutOf(items, k.id, x) && PutOf(items, k.id, y) && x != y {
      var a := PutFirst(kinds, items, x);
      var b := PutFirst(kinds, items, y);
      FirstDecides(kinds, assets, default, items, a, k);
      FirstDecides(kinds, assets, default, items, b, k);
      ItemOfIs(kinds, items, x);
      ItemOfIs(kinds, items, y);
      assert DefaultAfter(kinds, stored, a) != DefaultAfter(kinds, stored, b);
    }
    if others :|
        Ready(kinds, others) && SameItems(items, others)
        && DefaultAfter(kinds, stored, others) != DefaultAfter(kinds, stored, items)
    {
      OtherDefault(kinds, assets, default, items, others);
    }
  }

  lemma FirstDecides(kinds: seq<Kind>, assets: seq<Asset>, default: Option<string>, items: seq<Item>,
      others: seq<Item>, kind: Kind)
    requires KeepsNames(kinds) && WellStored(kinds, assets) && Ready(kinds, items) && Ready(kinds, others)
        && SameItems(items, others)
    requires OneHoldsDefault(kinds) && kind in kinds
    requires MakesDefault(StoredSet(assets, default), LeftBy(kinds, StoredSet(assets, default), items), items, kind)
    ensures FirstPut(others, kind.id).Some?
    ensures DefaultAfter(kinds, StoredSet(assets, default), others) == Some(FirstPut(others, kind.id).value.key.name)
  {
    hide LeftBy, DefaultChange, FirstPut, AllNamed;
    var stored := StoredSet(assets, default);
    LeftAgree(kinds, assets, default, items, others);
    SamePut(items, others, kind.id);
    OneChange(kinds, kinds, stored, LeftBy(kinds, stored, others), others, kind);
  }

  lemma OtherDefault(kinds: seq<Kind>, assets: seq<Asset>, default: Option<string>, items: seq<Item>, others: seq<Item>)
    requires KeepsNames(kinds) && WellStored(kinds, assets) && Ready(kinds, items) && Ready(kinds, others)
        && SameItems(items, others)
    requires DefaultAfter(kinds, StoredSet(assets, default), others)
        != DefaultAfter(kinds, StoredSet(assets, default), items)
    ensures DefaultIsOpen(kinds, StoredSet(assets, default), items)
  {
    hide LeftBy, DefaultChange, FirstPut, AllNamed, At;
    var stored := StoredSet(assets, default);
    var left, right := LeftBy(kinds, stored, items), LeftBy(kinds, stored, others);
    LeftAgree(kinds, assets, default, items, others);
    ChangeOf(kinds, kinds, stored, left, right, items, others);
    var k :| k in kinds && MakesDefault(stored, left, items, k)
             && DefaultChange(kinds, stored, left, items) == Some(Some(FirstPut(items, k.id).value.key.name))
             && FirstPut(others, k.id).Some? && DefaultChange(kinds, stored, right, others)
                 == Some(Some(FirstPut(others, k.id).value.key.name));
    assert PutOf(items, k.id, FirstPut(items, k.id).value) && PutOf(items, k.id, FirstPut(others, k.id).value);
  }

  // ----- the second validation

  /** A kind reads again what it has read. */
  ghost predicate ReadsAgain(kinds: seq<Kind>)
  {
    forall k, d :: k in kinds && k.read(d).Some? ==> k.read(k.read(d).value).Some?
  }

  /** A kind reads what it has read as the same. */
  ghost predicate ReadsTheSame(kinds: seq<Kind>)
  {
    forall k, d :: k in kinds && k.read(d).Some? ==> k.read(k.read(d).value) == k.read(d)
  }

  /** What the replay holds under a key: a put as it was accepted, everything else as the candidate has it. */
  ghost predicate ReplayedAt(kinds: seq<Kind>, puts: iset<Key>, candidate: AssetSet, again: AssetSet, key: Key)
  {
    if key in puts then
      At(candidate, key).Some? && At(again, key).Some? && At(again, key) == ReadAt(kinds, candidate, key)
    else At(again, key) == At(candidate, key)
  }

  ghost predicate Replays(kinds: seq<Kind>, puts: iset<Key>, candidate: AssetSet, again: AssetSet)
  {
    candidate.default == again.default && forall key :: ReplayedAt(kinds, puts, candidate, again, key)
  }

  /** Each definition that was put is read again as it was accepted. */
  ghost predicate PutsReadAgain(kinds: seq<Kind>, puts: iset<Key>, again: AssetSet)
  {
    forall key :: key in puts ==> ReadAt(kinds, again, key).Some?
  }

  /**
   A set is validated a second time with its puts as they were accepted, however it is listed. It is
   accepted if and only if each put is read again; and where kinds read what they have read as the
   same, it is valid where the first was.
   */
  lemma ValidatedAgain(kinds: seq<Kind>, checks: Checks, stored: AssetSet, puts: iset<Key>, candidate: AssetSet,
      again: AssetSet)
    requires KeepsNames(kinds) && DistinctKinds(kinds) && Named(kinds, candidate) && Named(kinds, again)
    requires Accepted(kinds, candidate).Some? && Replays(kinds, puts, candidate, again)
    ensures Accepted(kinds, again).Some? <==> PutsReadAgain(kinds, puts, again)
    ensures Passes(kinds, checks, stored, again) <==>
        PutsReadAgain(kinds, puts, again) && checks(ReadByKey(kinds, again), ByKey(stored))
    ensures ReadsAgain(kinds) ==> Accepted(kinds, again).Some?
    ensures ReadsTheSame(kinds) ==>
        (Passes(kinds, checks, stored, again) <==> Passes(kinds, checks, stored, candidate))
  {
    hide Accepted, Named, At, KindFits, Passes, ByKey, ReadByKey;
    AcceptedByKey(kinds, candidate);
    AcceptedByKey(kinds, again);
    PassesByKey(kinds, checks, stored, candidate);
    PassesByKey(kinds, checks, stored, again);
    if PutsReadAgain(kinds, puts, again) {
      forall k | k in kinds ensures KindFits(k, again) { KindStillFits(kinds, puts, candidate, again, k); }
    }
    if forall k :: k in kinds ==> KindFits(k, again) { FittingReadsAgain(kinds, puts, candidate, again); }
    if ReadsAgain(kinds) { AllReadAgain(kinds, puts, candidate, again); }
    if ReadsTheSame(kinds) {
      AllReadAgain(kinds, puts, candidate, again);
      ReadTheSame(kinds, puts, candidate, again);
    }
  }

  lemma FittingReadsAgain(kinds: seq<Kind>, puts: iset<Key>, candidate: AssetSet, again: AssetSet)
    requires DistinctKinds(kinds) && Replays(kinds, puts, candidate, again)
    requires forall k :: k in kinds ==> KindFits(k, again)
    ensures PutsReadAgain(kinds, puts, again)
  {
    hide At;
    forall key | key in puts ensures ReadAt(kinds, again, key).Some? {
      assert ReplayedAt(kinds, puts, candidate, again, key);
      var kind := KindOf(kinds, key.kind).value;
      assert KindFits(kind, again) && key == Key(kind.id, key.name);
    }
  }

  lemma AllReadAgain(kinds: seq<Kind>, puts: iset<Key>, candidate: AssetSet, again: AssetSet)
    requires (ReadsAgain(kinds) || ReadsTheSame(kinds)) && Replays(kinds, puts, candidate, again)
    ensures PutsReadAgain(kinds, puts, again)
  {
    hide At;
    forall key | key in puts ensures ReadAt(kinds, again, key).Some? {
      assert ReplayedAt(kinds, puts, candidate, again, key);
      assert KindOf(kinds, key.kind).value in kinds;
    }
  }

  lemma ReadTheSame(kinds: seq<Kind>, puts: iset<Key>, candidate: AssetSet, again: AssetSet)
    requires ReadsTheSame(kinds) && Replays(kinds, puts, candidate, again)
    ensures ReadByKey(kinds, again) == ReadByKey(kinds, candidate)
  {
    hide At;
    forall key ensures ReadAt(kinds, again, key) == ReadAt(kinds, candidate, key) {
      assert ReplayedAt(kinds, puts, candidate, again, key);
    }
  }

  lemma KindStillFits(kinds: seq<Kind>, puts: iset<Key>, candidate: AssetSet, again: AssetSet, kind: Kind)
    requires DistinctKinds(kinds) && kind in kinds && Replays(kinds, puts, candidate, again)
    requires KindFits(kind, candidate) && PutsReadAgain(kinds, puts, again)
    ensures KindFits(kind, again)
  {
    hide At;
    KindIsItself(kinds, kind);
    forall name
      ensures At(again, Key(kind.id, name)).Some? <==> At(candidate, Key(kind.id, name)).Some?
      ensures At(again, Key(kind.id, name)).Some? ==> kind.read(At(again, Key(kind.id, name)).value).Some?
    {
      assert ReplayedAt(kinds, puts, candidate, again, Key(kind.id, name));
    }
    assert Holds(candidate, kind.id) <==> Holds(again, kind.id) by {
      if name :| At(candidate, Key(kind.id, name)).Some? { assert At(again, Key(kind.id, name)).Some?; }
      if name :| At(again, Key(kind.id, name)).Some? { assert At(candidate, Key(kind.id, name)).Some?; }
    }
  }

  lemma KindIsItself(kinds: seq<Kind>, kind: Kind)
    requires DistinctKinds(kinds) && kind in kinds
    ensures KindOf(kinds, kind.id) == Some(kind)
  {
    var found := KindOf(kinds, kind.id).value;
    var i :| 0 <= i < |kinds| && kinds[i] == kind;
    var j :| 0 <= j < |kinds| && kinds[j] == found;
  }

  /** What the writer builds of the mutations it is given: what they leave, under each key, however it is listed. */
  ghost predicate ReplayOf(after: Stored, again: AssetSet)
  {
    again.default == after.default && forall key :: At(again, key) == HeldAt(after.assets, key)
  }

  ghost function PutKeys(items: seq<Item>): iset<Key> { iset x | x in items && x.Put? :: x.key }

  /** The second validation of a sync. */
  lemma SecondValidation(kinds: seq<Kind>, checks: Checks, assets: seq<Asset>, default: Option<string>,
      items: seq<Item>, again: AssetSet)
    requires KeepsNames(kinds) && DistinctKinds(kinds) && WellStored(kinds, assets) && Ready(kinds, items)
    requires Accepted(kinds, SyncCandidate(kinds, StoredSet(assets, default), items)).Some?
    requires forall x :: x in items && x.Put? ==>
        At(Accepted(kinds, SyncCandidate(kinds, StoredSet(assets, default), items)).value, x.key).Some?
    requires Named(kinds, again)
    requires ReplayOf(AppliedAll(StoredOf(assets, default), SyncMutations(kinds, StoredSet(assets, default), items,
                                   Accepted(kinds, SyncCandidate(kinds, StoredSet(assets, default), items)).value)),
                      again)
    ensures Accepted(kinds, again).Some? <==> PutsReadAgain(kinds, PutKeys(items), again)
    ensures var stored := StoredSet(assets, default);
            ReadsTheSame(kinds) ==> (Passes(kinds, checks, stored, again) <==>
                Passes(kinds, checks, stored, SyncCandidate(kinds, stored, items)))
  {
    hide Accepted, SyncMutations, AppliedAll, SyncCandidate, Named, At, Find, Passes;
    var stored := StoredSet(assets, default);
    var candidate := SyncCandidate(kinds, stored, items);
    CandidateIsNamed(kinds, assets, default, items);
    forall key ensures ReplayedAt(kinds, PutKeys(items), candidate, again, key) {
      SyncedAt(kinds, assets, default, items, key);
      AtSynced(kinds, assets, default, items, key);
      KeptAsStored(kinds, assets, default, items, key);
      AtAccepted(kinds, candidate, key);
      PutIsItem(kinds, items, key);
    }
    AtAccepted(kinds, candidate, Key("", ""));
    SyncedAt(kinds, assets, default, items, Key("", ""));
    ValidatedAgain(kinds, checks, stored, PutKeys(items), candidate, again);
  }

  lemma PutIsItem(kinds: seq<Kind>, items: seq<Item>, key: Key)
    requires Ready(kinds, items)
    ensures key in PutKeys(items) <==> ItemOf(items, key).Some? && ItemOf(items, key).value.Put?
    ensures ItemOf(items, key).Some? ==> KindOf(kinds, key.kind).Some?
  {
    if x :| x in items && x.Put? && x.key == key { ItemOfIs(kinds, items, x); }
  }

  lemma KeptAsStored(kinds: seq<Kind>, assets: seq<Asset>, default: Option<string>, items: seq<Item>, key: Key)
    requires KeepsNames(kinds) && DistinctKinds(kinds) && WellStored(kinds, assets) && Ready(kinds, items)
    ensures var item, candidate := ItemOf(items, key), SyncCandidate(kinds, StoredSet(assets, default), items);
            At(candidate, key) == if item.None? then ConfigOf(assets, key) else if item.value.Remove? then None
                                  else Some(Prepared(kinds, StoredSet(assets, default), item.value))
  {
    hide LeftBy, DefaultChange, ItemOf;
    AtLeft(kinds, StoredSet(assets, default), items, key);
    AtStored(kinds, assets, default, key);
  }

  lemma CandidateIsNamed(kinds: seq<Kind>, assets: seq<Asset>, default: Option<string>, items: seq<Item>)
    requires KeepsNames(kinds) && WellStored(kinds, assets) && Ready(kinds, items)
    ensures Named(kinds, SyncCandidate(kinds, StoredSet(assets, default), items))
  {
    hide AllNamed, LeftBy, DefaultChange;
    var stored := StoredSet(assets, default);
    forall id ensures AllNamed(Of(stored, id)) { StoredIsNamed(kinds, assets, default, id); }
    forall k | k in kinds ensures AllNamed(Of(SyncCandidate(kinds, stored, items), k.id)) {
      LeftIsNamed(kinds, stored, items, k.id);
    }
  }

  ghost function SentKeys(kinds: seq<Kind>, assets: seq<Asset>, release: Release): iset<Key>
  {
    iset key: Key | IsSent(kinds, release.bundle, key) && Remains(kinds, assets, release, key)
  }

  /** The second validation of a release: of what `ReplaceAssets` makes of a candidate it accepts. */
  lemma SecondValidationOfRelease(kinds: seq<Kind>, checks: Checks, assets: seq<Asset>, default: Option<string>,
      release: Release, candidate: AssetSet, r: Replacement, again: AssetSet)
    requires KeepsNames(kinds) && DistinctKinds(kinds) && WellStored(kinds, assets)
    requires Accepted(kinds, candidate) == Some(r.accepted) && forall key ::
        CandidateAt(kinds, assets, release, candidate, key)
    requires forall key :: ReplacedAt(kinds, assets, default, release, r, key)
    requires AppliedAll(StoredOf(assets, default), r.mutations).default == r.accepted.default
    requires Named(kinds, again) && ReplayOf(AppliedAll(StoredOf(assets, default), r.mutations), again)
    ensures Accepted(kinds, again).Some? <==> PutsReadAgain(kinds, SentKeys(kinds, assets, release), again)
    ensures var stored := StoredSet(assets, default);
            ReadsTheSame(kinds) ==>
                (Passes(kinds, checks, stored, again) <==> Passes(kinds, checks, stored, candidate))
  {
    hide Accepted, AppliedAll, Named, At, Find, Passes, Remains, IsSent;
    AcceptedIsNamed(kinds, candidate);
    var puts := SentKeys(kinds, assets, release);
    forall key ensures ReplayedAt(kinds, puts, candidate, again, key) {
      assert ReplacedAt(kinds, assets, default, release, r, key) && CandidateAt(kinds, assets, release, candidate, key);
      AtAccepted(kinds, candidate, key);
      assert HeldAt(StoredOf(assets, default).assets, key) == ConfigOf(assets, key);
      if IsSent(kinds, release.bundle, key) { SentIsOfKind(kinds, release.bundle, key); }
    }
    AtAccepted(kinds, candidate, Key("", ""));
    ValidatedAgain(kinds, checks, StoredSet(assets, default), puts, candidate, again);
  }

  lemma SentIsOfKind(kinds: seq<Kind>, bundle: Bundle, key: Key)
    requires IsSent(kinds, bundle, key)
    ensures KindOf(kinds, key.kind).Some?
  {
  }

  /** What every kind accepts has names of its own. */
  lemma AcceptedIsNamed(kinds: seq<Kind>, set_: AssetSet)
    requires KeepsNames(kinds) && DistinctKinds(kinds) && Accepted(kinds, set_).Some?
    ensures Named(kinds, set_)
  {
    hide AllNamed;
    forall k | k in kinds ensures AllNamed(Of(set_, k.id)) { KindIsNamed(kinds, set_, k); }
  }

  lemma {:induction false} KindIsNamed(kinds: seq<Kind>, set_: AssetSet, kind: Kind)
    requires KeepsNames(kinds) && Accepted(kinds, set_).Some? && kind in kinds
    ensures AllNamed(Of(set_, kind.id))
  {
    if kind == kinds[0] {
      ReadsAll(kind, Of(set_, kind.id));
      ReadIsNamed(kind, Of(set_, kind.id));
    } else {
      KindIsNamed(kinds[1..], set_, kind);
    }
  }

  lemma ReadIsNamed(kind: Kind, definitions: seq<Definition>)
    requires forall d :: kind.read(d).Some? ==> d.name.Some? && kind.read(d).value.name == d.name
    requires ReadAll(kind, definitions).Some? && DistinctNames(ReadAll(kind, definitions).value)
    ensures AllNamed(definitions)
  {
    ReadsAll(kind, definitions);
    var read := ReadAll(kind, definitions).value;
    forall i | 0 <= i < |definitions| ensures definitions[i].name.Some? && read[i].name == definitions[i].name {
      assert definitions[i] in definitions;
    }
  }
}
