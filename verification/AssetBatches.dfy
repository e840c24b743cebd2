/**
 The three batches that write config assets: the sync of a Namespace, and a release that mirrors
 or merges a bundle. For each, the mutation list built from the validated set leaves that set.
 */
module AssetBatches {
  import opened Optional
  import opened AssetWrites

  /**
   What every batch promises: replayed over what is stored, its mutations leave the names of the
   validated set, the accepted definition at each written name, everything else as it was stored,
   and the same default.
   */
  ghost predicate Leaves(stored: Stored, mutations: seq<Mutation>, accepted: AssetSet, written: iset<Key>)
  {
    var after := AppliedAll(stored, mutations);
    && after.default == accepted.default
    && forall key :: LeavesAt(stored, after, accepted, written, key)
  }

  ghost predicate LeavesAt(stored: Stored, after: Stored, accepted: AssetSet, written: iset<Key>, key: Key)
  {
    && (HeldAt(after.assets, key).Some? <==> At(accepted, key).Some?)
    && (HeldAt(after.assets, key).Some? ==>
          HeldAt(after.assets, key) == if key in written then At(accepted, key) else HeldAt(stored.assets, key))
  }

  // ----- the sync of a Namespace

  datatype Item = Put(key: Key, config: Definition) | Remove(key: Key)

  /** Items that passed the checks of their own input: registered kinds, their own names, each key once. */
  predicate Ready(kinds: seq<Kind>, items: seq<Item>)
  {
    && (forall i :: 0 <= i < |items| ==>
        KindOf(kinds, items[i].key.kind).Some? && (items[i].Put? ==> items[i].config.name == Some(items[i].key.name)))
    && forall i, j :: 0 <= i < j < |items| ==> items[i].key != items[j].key
  }

  function Prepared(kinds: seq<Kind>, stored: AssetSet, item: Item): Definition
    requires item.Put? && KindOf(kinds, item.key.kind).Some?
  {
    KindOf(kinds, item.key.kind).value.prepare(At(stored, item.key), item.config)
  }

  /** `leftByItems`: the set as the items would leave it. */
  function LeftBy(kinds: seq<Kind>, stored: AssetSet, items: seq<Item>): AssetSet
    requires Ready(kinds, items)
  {
    if items == [] then stored
    else
      var left, item := LeftBy(kinds, stored, items[..|items| - 1]), items[|items| - 1];
      if item.Remove? then WithoutDefinition(left, item.key)
          else WithDefinition(left, item.key, Prepared(kinds, stored, item))
  }

  function ItemOf(items: seq<Item>, key: Key): (r: Option<Item>)
    ensures r.Some? ==> r.value in items && r.value.key == key
    ensures r.None? ==> forall x :: x in items ==> x.key != key
  {
    if items == [] then None
    else
      assert items == items[..|items| - 1] + [items[|items| - 1]];
      if items[|items| - 1].key == key then Some(items[|items| - 1]) else ItemOf(items[..|items| - 1], key)
  }

  lemma {:induction false} AtLeft(kinds: seq<Kind>, stored: AssetSet, items: seq<Item>, key: Key)
    requires KeepsNames(kinds) && Ready(kinds, items)
    ensures var item := ItemOf(items, key);
            At(LeftBy(kinds, stored, items), key) ==
            if item.None? then At(stored, key) else if item.value.Remove? then None
                else Some(Prepared(kinds, stored, item.value))
    ensures LeftBy(kinds, stored, items).default == stored.default
  {
    if items != [] {
      var front, item := items[..|items| - 1], items[|items| - 1];
      AtLeft(kinds, stored, front, key);
      var left := LeftBy(kinds, stored, front);
      if item.Remove? {
        AtWithout(left, item.key, key);
      } else {
        var kind := KindOf(kinds, item.key.kind).value;
        assert kind.prepare(At(stored, item.key), item.config).name == item.config.name;
        AtWith(left, item.key, Prepared(kinds, stored, item), key);
      }
    }
  }

  /** `planDefaultChange`: the first asset of a kind with a default becomes it, and the last one takes it away. */
  function DefaultChange(kinds: seq<Kind>, stored: AssetSet, candidate: AssetSet,
      items: seq<Item>): Option<Option<string>>
  {
    if kinds == [] then None
    else
      var kind := kinds[0];
      var put, last := FirstPut(items, kind.id),
          ItemOf(items, Key(kind.id, if stored.default.Some? then stored.default.value else ""));
      if !kind.holdsDefault then DefaultChange(kinds[1..], stored, candidate, items)
      else if Of(stored, kind.id) == [] && stored.default.None? && Of(candidate, kind.id) != []
          && put.Some? then Some(Some(put.value.key.name))
      else if Of(candidate, kind.id) == [] && stored.default.Some? && last.Some? && last.value.Remove? then Some(None)
      else DefaultChange(kinds[1..], stored, candidate, items)
  }

  function FirstPut(items: seq<Item>, kind: string): (r: Option<Item>)
    ensures r.Some? ==> r.value in items && r.value.Put? && r.value.key.kind == kind
  {
    if items == [] then None
    else if items[0].Put? && items[0].key.kind == kind then Some(items[0])
    else FirstPut(items[1..], kind)
  }

  /** The candidate of a sync, with its change of the default. */
  function SyncCandidate(kinds: seq<Kind>, stored: AssetSet, items: seq<Item>): AssetSet
    requires Ready(kinds, items)
  {
    var left := LeftBy(kinds, stored, items);
    var change := DefaultChange(kinds, stored, left, items);
    if change.None? then left else left.(default := change.value)
  }

  function MutationOf(accepted: AssetSet, item: Item): Mutation
    requires item.Put? ==> At(accepted, item.key).Some?
  {
    if item.Remove? then Delete(item.key) else Upsert(item.key, At(accepted, item.key).value)
  }

  function ItemMutations(accepted: AssetSet, items: seq<Item>): seq<Mutation>
    requires forall x :: x in items && x.Put? ==> At(accepted, x.key).Some?
  {
    if items == [] then []
    else
      assert items == items[..|items| - 1] + [items[|items| - 1]];
      ItemMutations(accepted, items[..|items| - 1]) + [MutationOf(accepted, items[|items| - 1])]
  }

  function SyncMutations(kinds: seq<Kind>, stored: AssetSet, items: seq<Item>, accepted: AssetSet): seq<Mutation>
    requires Ready(kinds, items) && forall x :: x in items && x.Put? ==> At(accepted, x.key).Some?
  {
    var change := DefaultChange(kinds, stored, LeftBy(kinds, stored, items), items);
    ItemMutations(accepted, items) + (if change.None? then [] else [SetDefault(change.value)])
  }

  lemma {:induction false} LastOfItems(accepted: AssetSet, items: seq<Item>, key: Key, default: Option<string>)
    requires forall x :: x in items && x.Put? ==> At(accepted, x.key).Some?
    ensures var item := ItemOf(items, key);
            LastOf(ItemMutations(accepted, items), key) == if item.None? then None
                else Some(MutationOf(accepted, item.value))
    ensures LastDefault(ItemMutations(accepted, items), default) == default
  {
    if items != [] {
      var front := items[..|items| - 1];
      assert items == front + [items[|items| - 1]];
      LastOfItems(accepted, front, key, default);
      var ms := ItemMutations(accepted, items);
      assert ms[..|ms| - 1] == ItemMutations(accepted, front);
    }
  }

  /** What the validated sync holds under a key: a put is prepared against what is stored under it. */
  lemma AtSynced(kinds: seq<Kind>, assets: seq<Asset>, default: Option<string>, items: seq<Item>, key: Key)
    requires KeepsNames(kinds) && DistinctKinds(kinds) && WellStored(kinds, assets) && Ready(kinds, items)
    requires Accepted(kinds, SyncCandidate(kinds, StoredSet(assets, default), items)).Some?
    ensures var stored, item := StoredSet(assets, default), ItemOf(items, key);
            var accepted := At(Accepted(kinds, SyncCandidate(kinds, stored, items)).value, key);
            && (item.Some? && item.value.Put? ==>
                && accepted.Some?
                && var kind := KindOf(kinds, key.kind).value;
                   accepted == kind.read(kind.prepare(ConfigOf(assets, key), item.value.config)))
            && (item.Some? && item.value.Remove? ==> accepted.None?)
            && (item.None? ==> (accepted.Some? <==> ConfigOf(assets, key).Some?))
  {
    var stored := StoredSet(assets, default);
    var candidate := SyncCandidate(kinds, stored, items);
    AtAccepted(kinds, candidate, key);
    AtLeft(kinds, stored, items, key);
    AtStored(kinds, assets, default, key);
    assert At(candidate, key) == At(LeftBy(kinds, stored, items), key);
    if ConfigOf(assets, key).Some? { StoredIsRegistered(kinds, assets, key); }
  }

  lemma StoredIsRegistered(kinds: seq<Kind>, assets: seq<Asset>, key: Key)
    requires WellStored(kinds, assets) && ConfigOf(assets, key).Some?
    ensures KindOf(kinds, key.kind).Some?
  {
  }

  /** Only one kind holds the default of the instance. */
  ghost predicate HoldsDefaultAlone(kinds: seq<Kind>, kind: Kind)
  {
    kind in kinds && kind.holdsDefault && forall k :: k in kinds && k.holdsDefault ==> k == kind
  }

  /**
   A planned change of the default is one the validation accepts: the default it sets is among the
   definitions the batch leaves, and it sets none only where none are left.
   */
  lemma {:induction false} PlannedDefaultFits(kinds: seq<Kind>, rest: seq<Kind>, kind: Kind, stored: AssetSet,
      items: seq<Item>)
    requires KeepsNames(kinds) && Ready(kinds, items) && HoldsDefaultAlone(kinds, kind) && forall k :: k in rest ==>
        k in kinds
    ensures var left := LeftBy(kinds, stored, items);
            var change := DefaultChange(rest, stored, left, items);
            change.Some? ==> DefaultFits(Of(left, kind.id), change.value)
  {
    if rest != [] {
      var left, first := LeftBy(kinds, stored, items), rest[0];
      PlannedDefaultFits(kinds, rest[1..], kind, stored, items);
      var put := FirstPut(items, kind.id);
      if first.holdsDefault && put.Some? {
        assert first == kind;
        ItemOfIs(kinds, items, put.value);
        AtLeft(kinds, stored, items, put.value.key);
        assert Find(Of(left, kind.id), put.value.key.name).Some?;
      }
    }
  }

  predicate IsPut(item: Item, kind: string) { item.Put? && item.key.kind == kind }

  lemma {:induction false} FirstPutIsFirst(items: seq<Item>, kind: string)
    ensures FirstPut(items, kind).Some? <==> exists i :: 0 <= i < |items| && IsPut(items[i], kind)
    ensures forall i :: 0 <= i < |items| && IsPut(items[i], kind) && (forall j :: 0 <= j < i ==> !IsPut(items[j], kind))
              ==> FirstPut(items, kind) == Some(items[i])
  {
    if items != [] {
      var rest := items[1..];
      FirstPutIsFirst(rest, kind);
      assert forall i :: 0 <= i < |rest| ==> rest[i] == items[i + 1];
      if !IsPut(items[0], kind) {
        if i :| 0 <= i < |rest| && IsPut(rest[i], kind) { assert IsPut(items[i + 1], kind); }
        forall i | 0 <= i < |items| && IsPut(items[i], kind) && forall j :: 0 <= j < i ==> !IsPut(items[j], kind)
          ensures FirstPut(items, kind) == Some(items[i])
        {
          assert rest[i - 1] == items[i];
        }
      }
    }
  }

  /** The change of the default that a batch brings with it, told by what was stored, what it leaves and its items. */
  ghost predicate PlansDefault(kind: string, stored: AssetSet, left: AssetSet, items: seq<Item>,
      change: Option<Option<string>>)
  {
    if Of(stored, kind) == [] && stored.default.None? && Of(left, kind) != []
        && exists i :: 0 <= i < |items| && IsPut(items[i], kind) then
      exists i :: 0 <= i < |items| && IsPut(items[i], kind) && (forall j :: 0 <= j < i ==> !IsPut(items[j], kind))
                  && change == Some(Some(items[i].key.name))
    else if Of(left, kind) == [] && stored.default.Some? && Remove(Key(kind, stored.default.value)) in items then
      change == Some(None)
    else change == None
  }

  /**
   The first definition of the kind becomes the default: that of the first put, where there was
   neither a definition nor a default. The default goes with the last definition, where the batch
   deletes it. No other batch changes it.
   */
  lemma PlannedDefault(kinds: seq<Kind>, kind: Kind, stored: AssetSet, items: seq<Item>)
    requires Ready(kinds, items) && HoldsDefaultAlone(kinds, kind)
    ensures var left := LeftBy(kinds, stored, items);
            PlansDefault(kind.id, stored, left, items, DefaultChange(kinds, stored, left, items))
  {
    hide LeftBy, ItemOf, FirstPut;
    var left := LeftBy(kinds, stored, items);
    FirstPutIsFirst(items, kind.id);
    OnlyKindPlans(kinds, kinds, kind, stored, left, items);
    if stored.default.Some? {
      var key := Key(kind.id, stored.default.value);
      if Remove(key) in items { ItemOfIs(kinds, items, Remove(key)); }
    }
    if FirstPut(items, kind.id).Some? {
      var i := FirstPutAt(items, kind.id);
    }
  }

  lemma FirstPutAt(items: seq<Item>, kind: string) returns (i: nat)
    requires FirstPut(items, kind).Some?
    ensures i < |items| && IsPut(items[i], kind) && forall j :: 0 <= j < i ==> !IsPut(items[j], kind)
    ensures FirstPut(items, kind) == Some(items[i])
  {
    FirstPutIsFirst(items, kind);
    i := 0;
    while !IsPut(items[i], kind)
      invariant 0 <= i < |items| && forall j :: 0 <= j < i ==> !IsPut(items[j], kind)
      decreases |items| - i
    {
      i := i + 1;
    }
  }

  lemma {:induction false} OnlyKindPlans(kinds: seq<Kind>, rest: seq<Kind>, kind: Kind, stored: AssetSet,
      left: AssetSet, items: seq<Item>)
    requires HoldsDefaultAlone(kinds, kind) && forall k :: k in rest ==> k in kinds
    ensures DefaultChange(rest, stored, left, items)
        == if kind in rest then DefaultChange([kind], stored, left, items) else None
  {
    if rest != [] {
      assert [kind][1..] == [] && rest[0] in rest;
      assert forall k :: k in rest[1..] ==> k in rest;
      OnlyKindPlans(kinds, rest[1..], kind, stored, left, items);
    }
  }

  /** Every put of a validated sync has its definition in the validated set. */
  lemma PutsAreAccepted(kinds: seq<Kind>, assets: seq<Asset>, default: Option<string>, items: seq<Item>)
    requires KeepsNames(kinds) && DistinctKinds(kinds) && WellStored(kinds, assets) && Ready(kinds, items)
    requires Accepted(kinds, SyncCandidate(kinds, StoredSet(assets, default), items)).Some?
    ensures var accepted := Accepted(kinds, SyncCandidate(kinds, StoredSet(assets, default), items)).value;
            forall x :: x in items && x.Put? ==> At(accepted, x.key).Some?
  {
    var accepted := Accepted(kinds, SyncCandidate(kinds, StoredSet(assets, default), items)).value;
    forall x | x in items && x.Put? ensures At(accepted, x.key).Some? {
      AtSynced(kinds, assets, default, items, x.key);
      ItemOfIs(kinds, items, x);
    }
  }

  lemma ItemOfIs(kinds: seq<Kind>, items: seq<Item>, x: Item)
    requires Ready(kinds, items) && x in items
    ensures ItemOf(items, x.key) == Some(x)
  {
    var other := ItemOf(items, x.key).value;
    var i :| 0 <= i < |items| && items[i] == x;
    var j :| 0 <= j < |items| && items[j] == other;
  }

  /** A sync leaves the set it was validated as; a put is stored as its kind reads the prepared definition. */
  lemma SyncLeaves(kinds: seq<Kind>, assets: seq<Asset>, default: Option<string>, items: seq<Item>)
    requires KeepsNames(kinds) && DistinctKinds(kinds) && WellStored(kinds, assets) && Ready(kinds, items)
    requires Accepted(kinds, SyncCandidate(kinds, StoredSet(assets, default), items)).Some?
    ensures var stored := StoredSet(assets, default);
            var accepted := Accepted(kinds, SyncCandidate(kinds, stored, items)).value;
            && (forall x :: x in items && x.Put? ==> At(accepted, x.key).Some?)
            && Leaves(StoredOf(assets, default), SyncMutations(kinds, stored, items, accepted), accepted,
                iset x | x in items :: x.key)
  {
    var set_ := StoredSet(assets, default);
    var accepted := Accepted(kinds, SyncCandidate(kinds, set_, items)).value;
    PutsAreAccepted(kinds, assets, default, items);
    var stored, ms := StoredOf(assets, default), SyncMutations(kinds, set_, items, accepted);
    var after := AppliedAll(stored, ms);
    var written := iset x | x in items :: x.key;
    forall key ensures LeavesAt(stored, after, accepted, written, key) {
      SyncedAt(kinds, assets, default, items, key);
    }
    SyncedAt(kinds, assets, default, items, Key("", ""));
  }

  lemma SyncedAt(kinds: seq<Kind>, assets: seq<Asset>, default: Option<string>, items: seq<Item>, key: Key)
    requires KeepsNames(kinds) && DistinctKinds(kinds) && WellStored(kinds, assets) && Ready(kinds, items)
    requires Accepted(kinds, SyncCandidate(kinds, StoredSet(assets, default), items)).Some?
    requires forall x :: x in items && x.Put? ==>
        At(Accepted(kinds, SyncCandidate(kinds, StoredSet(assets, default), items)).value, x.key).Some?
    ensures var stored, item := StoredSet(assets, default), ItemOf(items, key);
            var accepted := Accepted(kinds, SyncCandidate(kinds, stored, items)).value;
            var after := AppliedAll(StoredOf(assets, default), SyncMutations(kinds, stored, items, accepted));
            && after.default == accepted.default
            && HeldAt(after.assets, key)
                == (if item.None? then ConfigOf(assets, key) else if item.value.Remove? then None
                    else
                      var kind := KindOf(kinds, key.kind).value;
                      kind.read(kind.prepare(ConfigOf(assets, key), item.value.config)))
            && (HeldAt(after.assets, key).Some? <==> At(accepted, key).Some?)
            && (item.Some? && item.value.Put? ==> HeldAt(after.assets, key) == At(accepted, key))
  {
    hide Accepted, KeepsNames, LeftBy, DefaultChange, ItemMutations;
    var set_ := StoredSet(assets, default);
    var candidate := SyncCandidate(kinds, set_, items);
    var accepted := Accepted(kinds, candidate).value;
    var change := DefaultChange(kinds, set_, LeftBy(kinds, set_, items), items);
    var setDefault := if change.None? then [] else [SetDefault(change.value)];
    AtSynced(kinds, assets, default, items, key);
    LastOfItems(accepted, items, key, default);
    LastApart(ItemMutations(accepted, items), setDefault, key, default);
    LastDecides(StoredOf(assets, default), SyncMutations(kinds, set_, items, accepted), key);
    AtAccepted(kinds, candidate, key);
    AtLeft(kinds, set_, items, key);
  }

  // ----- a release that mirrors or merges a bundle

  datatype Bundle = Bundle(default: Option<string>, definitions: map<string, seq<Definition>>)

  /** `setsDefault`: the caller sent the default it started from, so the one it sends stands even where it is none. */
  datatype Release = Release(bundle: Bundle, merge: bool, setsDefault: bool, deletes: seq<Key>)

  function Sent(kind: Kind, bundle: Bundle): seq<Definition>
  {
    if kind.bundled && kind.id in bundle.definitions then bundle.definitions[kind.id] else []
  }

  function NamesOf(definitions: seq<Definition>): set<Option<string>> { set d | d in definitions :: d.name }

  predicate IsSent(kinds: seq<Kind>, bundle: Bundle, key: Key)
  {
    var kind := KindOf(kinds, key.kind);
    kind.Some? && kind.value.bundled && key.kind in bundle.definitions
        && Some(key.name) in NamesOf(bundle.definitions[key.kind])
  }

  function WithoutNames(definitions: seq<Definition>, names: set<Option<string>>): seq<Definition>
  {
    if definitions == [] then []
    else (if definitions[0].name in names then [] else [definitions[0]]) + WithoutNames(definitions[1..], names)
  }

  /**
   A kind of a release: what is sent of a bundled kind, over what a merge keeps of it; another kind
   as it is stored.
   */
  function ReleasedKind(kind: Kind, stored: AssetSet, release: Release): seq<Definition>
  {
    var sent := Sent(kind, release.bundle);
    if !kind.bundled then Of(stored, kind.id)
    else if release.merge then WithoutNames(Of(stored, kind.id), NamesOf(sent)) + sent
    else sent
  }

  /** `mergeIntoSet`, and `assetSetOfBundle` over the stored set. */
  method ReleaseKinds(kinds: seq<Kind>, stored: AssetSet, release: Release) returns (r: AssetSet)
    requires DistinctKinds(kinds)
    ensures forall key :: At(r, key) == ReleasedAt(kinds, stored, release, key)
    ensures r.default == if release.merge && release.bundle.default.None? then stored.default
        else release.bundle.default
  {
    var definitions := stored.definitions;
    assert kinds[..0] == [];
    for i := 0 to |kinds|
      invariant forall id :: Of(AssetSet(None, definitions), id) == ReleasedUpTo(kinds[..i], stored, release, id)
    {
      assert kinds[..i + 1][..i] == kinds[..i];
      if kinds[i].bundled { definitions := definitions[kinds[i].id := ReleasedKind(kinds[i], stored, release)]; }
    }
    assert kinds[..|kinds|] == kinds;
    r := AssetSet(if release.merge && release.bundle.default.None? then stored.default
        else release.bundle.default, definitions);
    forall key: Key ensures At(r, key) == ReleasedAt(kinds, stored, release, key) {
      assert Of(r, key.kind) == Of(AssetSet(None, definitions), key.kind);
      ReleasedIsOfKind(kinds, stored, release, key.kind);
    }
  }

  /** The definitions of one kind once the loop is through these kinds. */
  function ReleasedUpTo(kinds: seq<Kind>, stored: AssetSet, release: Release, id: string): seq<Definition>
  {
    if kinds == [] then Of(stored, id)
    else
      var last := kinds[|kinds| - 1];
      if last.bundled && last.id == id then ReleasedKind(last, stored, release)
          else ReleasedUpTo(kinds[..|kinds| - 1], stored, release, id)
  }

  lemma {:induction false} ReleasedIsOfKind(kinds: seq<Kind>, stored: AssetSet, release: Release, id: string)
    requires DistinctKinds(kinds)
    ensures ReleasedUpTo(kinds, stored, release, id) ==
            if KindOf(kinds, id).None? then Of(stored, id) else ReleasedKind(KindOf(kinds, id).value, stored, release)
  {
    if kinds != [] {
      var front, last := kinds[..|kinds| - 1], kinds[|kinds| - 1];
      assert kinds == front + [last];
      ReleasedIsOfKind(front, stored, release, id);
      KindOfApart(front, last, id);
    }
  }

  lemma {:induction false} KindOfApart(front: seq<Kind>, last: Kind, id: string)
    requires DistinctKinds(front + [last])
    ensures KindOf(front + [last], id) == if last.id == id then Some(last) else KindOf(front, id)
  {
    var kinds := front + [last];
    if front != [] {
      assert kinds[1..] == front[1..] + [last] && kinds[0] == front[0];
      assert forall i :: 0 <= i < |kinds[1..]| ==> kinds[1..][i] == kinds[i + 1];
      KindOfApart(front[1..], last, id);
      assert kinds[0].id != kinds[|front|].id;
    }
  }

  function ReleasedAt(kinds: seq<Kind>, stored: AssetSet, release: Release, key: Key): Option<Definition>
  {
    var kind := KindOf(kinds, key.kind);
    if kind.None? then At(stored, key) else Find(ReleasedKind(kind.value, stored, release), key.name)
  }

  function OwnedOf(assets: seq<Asset>, key: Key): Option<Definition>
  {
    if assets == [] then None
    else
      var last := assets[|assets| - 1];
      if last.owned && last.key == key then Some(last.config) else OwnedOf(assets[..|assets| - 1], key)
  }

  /** `withWorkspaceOwned`: what workspaces own is put back where the set does not carry its name. */
  method WithOwned(kinds: seq<Kind>, set_: AssetSet, assets: seq<Asset>) returns (r: AssetSet)
    requires WellStored(kinds, assets)
    ensures r.default == set_.default
    ensures forall key :: At(r, key) == if At(set_, key).Some? then At(set_, key) else OwnedOf(assets, key)
  {
    r := set_;
    for i := 0 to |assets|
      invariant r.default == set_.default
      invariant forall key :: At(r, key) == if At(set_, key).Some? then At(set_, key) else OwnedOf(assets[..i], key)
    {
      hide At, WithDefinitions, ConfigOf, WellStored;
      var asset := assets[i];
      assert assets[..i + 1][..i] == assets[..i];
      StoredNames(kinds, assets, i);
      if asset.owned && At(set_, asset.key).None? {
        PutBack(r, asset);
        r := WithDefinitions(r, asset.key.kind, Of(r, asset.key.kind) + [asset.config]);
      }
    }
    assert assets[..|assets|] == assets;
  }

  lemma StoredNames(kinds: seq<Kind>, assets: seq<Asset>, i: nat)
    requires WellStored(kinds, assets) && i < |assets|
    ensures assets[i].config.name == Some(assets[i].key.name) && OwnedOf(assets[..i], assets[i].key).None?
  {
    OwnedIsThere(assets[..i], assets[i].key);
  }

  lemma PutBack(set_: AssetSet, asset: Asset)
    requires asset.config.name == Some(asset.key.name) && At(set_, asset.key).None?
    ensures var r := WithDefinitions(set_, asset.key.kind, Of(set_, asset.key.kind) + [asset.config]);
            forall key :: At(r, key) == if key == asset.key then Some(asset.config) else At(set_, key)
  {
    var r := WithDefinitions(set_, asset.key.kind, Of(set_, asset.key.kind) + [asset.config]);
    forall key ensures At(r, key) == if key == asset.key then Some(asset.config) else At(set_, key) {
      FindApart(Of(set_, asset.key.kind), [asset.config], key.name);
    }
  }

  lemma {:induction false} OwnedIsThere(assets: seq<Asset>, key: Key)
    ensures OwnedOf(assets, key).Some? ==> exists i :: 0 <= i < |assets| && assets[i].key == key
  {
    if assets != [] {
      OwnedIsThere(assets[..|assets| - 1], key);
    }
  }

  lemma {:induction false} OwnedIsStored(kinds: seq<Kind>, assets: seq<Asset>, key: Key)
    requires WellStored(kinds, assets)
    ensures OwnedOf(assets, key).Some? ==> OwnedOf(assets, key) == ConfigOf(assets, key)
  {
    if assets != [] {
      var front, last := assets[..|assets| - 1], assets[|assets| - 1];
      OwnedIsStored(kinds, front, key);
      if last.key == key { OwnedIsThere(front, key); }
    }
  }

  // ----- the mutations of a release

  predicate SetsNoDefault(ms: seq<Mutation>) { forall i :: 0 <= i < |ms| ==> !ms[i].SetDefault? }

  lemma {:induction false} DefaultIsLeft(ms: seq<Mutation>, default: Option<string>)
    requires SetsNoDefault(ms)
    ensures LastDefault(ms, default) == default
  {
    if ms != [] {
      DefaultIsLeft(ms[..|ms| - 1], default);
    }
  }

  function DeletedAsGone(assets: seq<Asset>, accepted: AssetSet, key: Key): Option<Mutation>
  {
    if ConfigOf(assets, key).Some? && At(accepted, key).None? then Some(Delete(key)) else None
  }

  /** The stored assets a mirror no longer has. */
  method DeletesOfGone(assets: seq<Asset>, accepted: AssetSet) returns (ms: seq<Mutation>)
    ensures SetsNoDefault(ms) && forall key :: LastOf(ms, key) == DeletedAsGone(assets, accepted, key)
  {
    ms := [];
    for i := 0 to |assets|
      invariant SetsNoDefault(ms) && forall key :: LastOf(ms, key) == DeletedAsGone(assets[..i], accepted, key)
    {
      assert assets[..i + 1][..i] == assets[..i];
      if At(accepted, assets[i].key).None? {
        ghost var before := ms;
        ms := ms + [Delete(assets[i].key)];
        assert ms[..|ms| - 1] == before;
      }
    }
    assert assets[..|assets|] == assets;
  }

  method DeletesAsked(deletes: seq<Key>) returns (ms: seq<Mutation>)
    ensures SetsNoDefault(ms) && forall key :: LastOf(ms, key) == if key in deletes then Some(Delete(key)) else None
  {
    ms := [];
    for i := 0 to |deletes|
      invariant SetsNoDefault(ms) && forall key ::
          LastOf(ms, key) == if key in deletes[..i] then Some(Delete(key)) else None
    {
      assert deletes[..i + 1] == deletes[..i] + [deletes[i]];
      ghost var before := ms;
      ms := ms + [Delete(deletes[i])];
      assert ms[..|ms| - 1] == before;
    }
    assert deletes[..|deletes|] == deletes;
  }

  function UpsertOf(kind: Kind, definitions: seq<Definition>, names: set<Option<string>>, key: Key): Option<Mutation>
  {
    var found := Find(definitions, key.name);
    if key.kind == kind.id && Some(key.name) in names && found.Some? then Some(Upsert(key, found.value)) else None
  }

  method UpsertsOfKind(kind: Kind, definitions: seq<Definition>, names: set<Option<string>>) returns (ms: seq<Mutation>)
    requires DistinctNames(definitions)
    ensures SetsNoDefault(ms) && forall key :: LastOf(ms, key) == UpsertOf(kind, definitions, names, key)
  {
    ms := [];
    for i := 0 to |definitions|
      invariant SetsNoDefault(ms) && forall key :: LastOf(ms, key) == UpsertOf(kind, definitions[..i], names, key)
    {
      var d := definitions[i];
      ghost var before := ms;
      hide LastOf, UpsertOf, DistinctNames;
      if d.name.Some? && d.name in names {
        ms := ms + [Upsert(Key(kind.id, d.name.value), d)];
        forall key
            ensures LastOf(ms, key) == if Touches(ms[|before|], key) then Some(ms[|before|])
            else LastOf(before, key) {
          LastOfOne(before, ms[|before|], key);
        }
      }
      forall key ensures LastOf(ms, key) == UpsertOf(kind, definitions[..i + 1], names, key) {
        UpsertOn(kind, definitions, i, names, key);
      }
    }
    assert definitions[..|definitions|] == definitions;
  }

  lemma LastOfOne(ms: seq<Mutation>, m: Mutation, key: Key)
    ensures LastOf(ms + [m], key) == if Touches(m, key) then Some(m) else LastOf(ms, key)
  {
    assert (ms + [m])[..|ms|] == ms;
  }

  lemma UpsertOn(kind: Kind, definitions: seq<Definition>, i: nat, names: set<Option<string>>, key: Key)
    requires DistinctNames(definitions) && i < |definitions|
    ensures var d := definitions[i];
            UpsertOf(kind, definitions[..i + 1], names, key) ==
            if d.name.Some? && d.name in names && key == Key(kind.id, d.name.value) then Some(Upsert(key, d))
            else UpsertOf(kind, definitions[..i], names, key)
  {
    FoundWithNext(definitions, i);
    hide Find, DistinctNames;
  }

  lemma FoundWithNext(definitions: seq<Definition>, i: nat)
    requires i < |definitions| && DistinctNames(definitions)
    ensures forall name :: Find(definitions[..i + 1], name) ==
                           if definitions[i].name == Some(name) then Some(definitions[i])
                               else Find(definitions[..i], name)
  {
  }

  /** What the release sends of each kind, as it was accepted. */
  function UpsertSent(kinds: seq<Kind>, accepted: AssetSet, bundle: Bundle, key: Key): Option<Mutation>
  {
    if IsSent(kinds, bundle, key) && At(accepted, key).Some? then Some(Upsert(key, At(accepted, key).value)) else None
  }

  method UpsertsSent(kinds: seq<Kind>, accepted: AssetSet, bundle: Bundle) returns (ms: seq<Mutation>)
    requires DistinctKinds(kinds) && forall k :: k in kinds ==> DistinctNames(Of(accepted, k.id))
    ensures SetsNoDefault(ms) && forall key :: LastOf(ms, key) == UpsertSent(kinds, accepted, bundle, key)
  {
    ms := [];
    for i := 0 to |kinds|
      invariant SetsNoDefault(ms) && forall key :: LastOf(ms, key) == UpsertSent(kinds[..i], accepted, bundle, key)
    {
      var kind := kinds[i];
      var more := UpsertsOfKind(kind, Of(accepted, kind.id), NamesOf(Sent(kind, bundle)));
      forall key ensures LastOf(ms + more, key) == UpsertSent(kinds[..i + 1], accepted, bundle, key) {
        LastApart(ms, more, key, None);
        assert kinds[..i + 1] == kinds[..i] + [kind];
        KindOfApart(kinds[..i], kind, key.kind);
        assert forall k :: 0 <= k < i ==> kinds[k].id != kind.id;
      }
      ms := ms + more;
    }
    assert kinds[..|kinds|] == kinds;
  }

  // ----- the release

  datatype Replacement = Replacement(accepted: AssetSet, mutations: seq<Mutation>)

  /**
   Whether a release leaves a name: what it sends, and of the stored rest what its mode keeps,
   unless it deletes it.
   */
  predicate Remains(kinds: seq<Kind>, assets: seq<Asset>, release: Release, key: Key)
  {
    var kind := KindOf(kinds, key.kind);
    && key !in release.deletes
    && (|| IsSent(kinds, release.bundle, key)
        || (ConfigOf(assets, key).Some?
            && (release.merge || (kind.Some? && !kind.value.bundled) || OwnedOf(assets, key).Some?)))
  }

  /** What the candidate of a release holds under a key. */
  ghost predicate CandidateAt(kinds: seq<Kind>, assets: seq<Asset>, release: Release, candidate: AssetSet, key: Key)
  {
    && (At(candidate, key).Some? <==> Remains(kinds, assets, release, key))
    && (At(candidate, key).Some? && IsSent(kinds, release.bundle, key) ==>
          At(candidate, key) == Find(Sent(KindOf(kinds, key.kind).value, release.bundle), key.name))
    && (At(candidate, key).Some? && !IsSent(kinds, release.bundle, key) ==> At(candidate, key) == ConfigOf(assets, key))
  }

  lemma {:induction false} FindWithoutNames(definitions: seq<Definition>, names: set<Option<string>>, name: string)
    ensures Find(WithoutNames(definitions, names), name) == if Some(name) in names then None
        else Find(definitions, name)
  {
    if definitions != [] {
      FindWithoutNames(definitions[1..], names, name);
      var head, rest := definitions[0], WithoutNames(definitions[1..], names);
      if head.name !in names {
        assert ([head] + rest)[1..] == rest;
      } else {
        assert [] + rest == rest;
      }
    }
  }

  lemma ReleasedFinds(kinds: seq<Kind>, assets: seq<Asset>, default: Option<string>, release: Release, key: Key)
    requires WellStored(kinds, assets)
    ensures var kind, found := KindOf(kinds, key.kind), ReleasedAt(kinds, StoredSet(assets, default), release, key);
            && (IsSent(kinds, release.bundle, key) ==>
                found.Some? && found == Find(Sent(kind.value, release.bundle), key.name))
            && (!IsSent(kinds, release.bundle, key) ==>
                  found == if kind.Some? && kind.value.bundled && !release.merge then None else ConfigOf(assets, key))
  {
    var kind, stored := KindOf(kinds, key.kind), StoredSet(assets, default);
    AtStored(kinds, assets, default, key);
    if kind.Some? {
      var sent := Sent(kind.value, release.bundle);
      FindWithoutNames(Of(stored, key.kind), NamesOf(sent), key.name);
      FindApart(WithoutNames(Of(stored, key.kind), NamesOf(sent)), sent, key.name);
      if IsSent(kinds, release.bundle, key) {
        var d :| d in sent && d.name == Some(key.name);
      }
    }
  }

  method ReleaseCandidate(kinds: seq<Kind>, assets: seq<Asset>, default: Option<string>, release: Release)
      returns (candidate: AssetSet)
    requires DistinctKinds(kinds) && WellStored(kinds, assets)
    ensures forall key :: CandidateAt(kinds, assets, release, candidate, key)
    ensures candidate.default == if release.merge && release.bundle.default.None?
        && !release.setsDefault then default else release.bundle.default
  {
    hide At, Remains;
    candidate := ReleaseKinds(kinds, StoredSet(assets, default), release);
    ghost var kept := candidate;
    if !release.merge { candidate := WithOwned(kinds, candidate, assets); }
    ghost var whole := candidate;
    candidate := DropAll(candidate, release.deletes);
    ghost var dropped := candidate;
    if release.setsDefault { candidate := candidate.(default := release.bundle.default); }
    forall key ensures CandidateAt(kinds, assets, release, candidate, key) {
      SameDefinitions(dropped, candidate, key);
      CandidateHolds(kinds, assets, default, release, kept, whole, candidate, key);
    }
  }

  lemma SameDefinitions(a: AssetSet, b: AssetSet, key: Key)
    requires a.definitions == b.definitions
    ensures At(a, key) == At(b, key)
  {
  }

  lemma CandidateHolds(kinds: seq<Kind>, assets: seq<Asset>, default: Option<string>, release: Release,
                       kept: AssetSet, whole: AssetSet, candidate: AssetSet, key: Key)
    requires WellStored(kinds, assets) && At(kept, key) == ReleasedAt(kinds, StoredSet(assets, default), release, key)
    requires At(whole, key) == if release.merge || At(kept, key).Some? then At(kept, key) else OwnedOf(assets, key)
    requires At(candidate, key) == if key in release.deletes then None else At(whole, key)
    ensures CandidateAt(kinds, assets, release, candidate, key)
  {
    hide At, ReleasedAt;
    ReleasedFinds(kinds, assets, default, release, key);
    OwnedIsThere(assets, key);
    OwnedIsStored(kinds, assets, key);
    if ConfigOf(assets, key).Some? { StoredIsRegistered(kinds, assets, key); }
  }

  method DropAll(set_: AssetSet, deletes: seq<Key>) returns (r: AssetSet)
    ensures r.default == set_.default
    ensures forall key :: At(r, key) == if key in deletes then None else At(set_, key)
  {
    r := set_;
    for i := 0 to |deletes|
      invariant r.default == set_.default
      invariant forall key :: At(r, key) == if key in deletes[..i] then None else At(set_, key)
    {
      ghost var before := r;
      r := WithoutDefinition(r, deletes[i]);
      forall key ensures At(r, key) == if key == deletes[i] then None else At(before, key) {
        AtWithout(before, deletes[i], key);
      }
      assert deletes[..i + 1] == deletes[..i] + [deletes[i]];
    }
    assert deletes[..|deletes|] == deletes;
  }

  lemma {:induction false} AcceptedNamesAreDistinct(kinds: seq<Kind>, set_: AssetSet, kind: Kind)
    requires DistinctKinds(kinds) && Accepted(kinds, set_).Some? && kind in kinds
    ensures DistinctNames(Of(Accepted(kinds, set_).value, kind.id))
  {
    if kind != kinds[0] {
      assert kind in kinds[1..];
      AcceptedNamesAreDistinct(kinds[1..], set_, kind);
    }
  }

  /**
   `replaceAssets`: refused where the set it would leave is not valid, and otherwise its mutations
   leave that set. The names left are those it sends and those its mode keeps.
   */
  method ReplaceAssets(kinds: seq<Kind>, assets: seq<Asset>, default: Option<string>, release: Release)
      returns (r: Option<Replacement>)
    requires KeepsNames(kinds) && DistinctKinds(kinds) && WellStored(kinds, assets)
    requires forall key :: key in release.deletes ==> KindOf(kinds, key.kind).Some?
    ensures r.Some? ==> AppliedAll(StoredOf(assets, default), r.value.mutations).default == r.value.accepted.default
    ensures r.Some? ==> forall key :: ReplacedAt(kinds, assets, default, release, r.value, key)
    ensures r.Some? ==>
        exists candidate :: Accepted(kinds, candidate) == Some(r.value.accepted) && forall key ::
        CandidateAt(kinds, assets, release, candidate, key)
    ensures r.None? ==>
        exists candidate :: Accepted(kinds, candidate).None? && forall key ::
        CandidateAt(kinds, assets, release, candidate, key)
  {
    hide At, Remains, Accepted, AppliedAll;
    var candidate := ReleaseCandidate(kinds, assets, default, release);
    var validated := Accepted(kinds, candidate);
    if validated.None? { return None; }
    var accepted := validated.value;
    forall k | k in kinds ensures DistinctNames(Of(accepted, k.id)) { AcceptedNamesAreDistinct(kinds, candidate, k); }
    var gone: seq<Mutation> := [];
    if !release.merge { gone := DeletesOfGone(assets, accepted); }
    var asked := DeletesAsked(release.deletes);
    var sent := UpsertsSent(kinds, accepted, release.bundle);
    var change := if !release.merge || release.bundle.default.Some?
        || release.setsDefault then [SetDefault(release.bundle.default)] else [];
    var mutations := gone + asked + sent + change;
    r := Some(Replacement(accepted, mutations));
    LastOfAll(StoredOf(assets, default), gone, asked, sent, change, Key("", ""));
    AtAccepted(kinds, candidate, Key("", ""));
    forall key ensures ReplacedAt(kinds, assets, default, release, r.value, key) {
      AtAccepted(kinds, candidate, key);
      assert CandidateAt(kinds, assets, release, candidate, key);
      LastOfAll(StoredOf(assets, default), gone, asked, sent, change, key);
      ReplacementHolds(kinds, assets, default, release, candidate, r.value, gone, asked, sent, key);
    }
  }

  /**
   A release leaves exactly the names that remain: each name it sends as its kind reads what was
   sent, and every other one as it was stored. The validated set has the same names.
   */
  ghost predicate ReplacedAt(kinds: seq<Kind>, assets: seq<Asset>, default: Option<string>, release: Release,
      r: Replacement, key: Key)
  {
    var stored, after, kind := StoredOf(assets, default), AppliedAll(StoredOf(assets, default), r.mutations),
        KindOf(kinds, key.kind);
    && (At(r.accepted, key).Some? <==> Remains(kinds, assets, release, key))
    && HeldAt(after.assets, key) ==
       (if !Remains(kinds, assets, release, key) then None
        else if IsSent(kinds, release.bundle, key) then At(r.accepted, key)
        else HeldAt(stored.assets, key))
    && (Remains(kinds, assets, release, key) && IsSent(kinds, release.bundle, key) ==>
          At(r.accepted, key) == kind.value.read(Find(Sent(kind.value, release.bundle), key.name).value))
  }

  lemma ReplacementHolds(kinds: seq<Kind>, assets: seq<Asset>, default: Option<string>, release: Release,
      candidate: AssetSet, r: Replacement, gone: seq<Mutation>, asked: seq<Mutation>, sent: seq<Mutation>, key: Key)
    requires WellStored(kinds, assets) && CandidateAt(kinds, assets, release, candidate, key)
    requires forall k :: k in release.deletes ==> KindOf(kinds, k.kind).Some?
    requires var kind, found := KindOf(kinds, key.kind), At(candidate, key);
             && At(r.accepted, key) == (if kind.None? || found.None? then None else kind.value.read(found.value))
             && (kind.Some? ==> (At(r.accepted, key).Some? <==> found.Some?))
    requires LastOf(gone, key) == if release.merge then None else DeletedAsGone(assets, r.accepted, key)
    requires LastOf(asked, key) == if key in release.deletes then Some(Delete(key)) else None
    requires LastOf(sent, key) == UpsertSent(kinds, r.accepted, release.bundle, key)
    requires var last := if LastOf(sent, key).Some? then LastOf(sent, key) else if LastOf(asked, key).Some?
        then LastOf(asked, key) else LastOf(gone, key);
             HeldAt(AppliedAll(StoredOf(assets, default), r.mutations).assets, key) ==
             if last.None? then HeldAt(StoredMap(assets), key) else if last.value.Upsert?
                 then Some(last.value.config) else None
    ensures ReplacedAt(kinds, assets, default, release, r, key)
  {
    hide At, LastOf, AppliedAll, StoredMap;
    if ConfigOf(assets, key).Some? { StoredIsRegistered(kinds, assets, key); }
  }

  lemma LastOfAll(stored: Stored, gone: seq<Mutation>, asked: seq<Mutation>, sent: seq<Mutation>,
      change: seq<Mutation>, key: Key)
    requires SetsNoDefault(gone) && SetsNoDefault(asked) && SetsNoDefault(sent)
    requires change == [] || (|change| == 1 && change[0].SetDefault?)
    ensures var after := AppliedAll(stored, gone + asked + sent + change);
            var last := if LastOf(sent, key).Some? then LastOf(sent, key) else if LastOf(asked, key).Some?
                then LastOf(asked, key) else LastOf(gone, key);
            && HeldAt(after.assets, key)
                == (if last.None? then HeldAt(stored.assets, key) else if last.value.Upsert?
                then Some(last.value.config) else None)
            && after.default == if change == [] then stored.default else change[0].agent
  {
    LastApart(gone, asked, key, stored.default);
    LastApart(gone + asked, sent, key, stored.default);
    LastApart(gone + asked + sent, change, key, stored.default);
    DefaultIsLeft(gone, stored.default);
    DefaultIsLeft(asked, stored.default);
    DefaultIsLeft(sent, stored.default);
    LastDecides(stored, gone + asked + sent + change, key);
  }
}
