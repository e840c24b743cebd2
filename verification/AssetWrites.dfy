/**
 Writing the config assets of an instance. What a write would leave is computed once as a set of
 definitions and validated; the change is then built a second time as a list of mutations, and the
 writer and the store each replay that list. All of them must mean the same set.
 */
module AssetWrites {
  import opened Optional

  datatype Key = Key(kind: string, name: string)

  /** `name` is what `readDefinitionName` finds; a definition may be anything. */
  datatype Definition = Definition(name: Option<string>, body: string)

  /** A registered kind: what it reads a definition as, and how it prepares an interactive save. */
  datatype Kind = Kind(id: string, bundled: bool, holdsDefault: bool, read: Definition -> Option<Definition>,
                       prepare: (Option<Definition>, Definition) -> Definition)

  datatype AssetSet = AssetSet(default: Option<string>, definitions: map<string, seq<Definition>>)

  /** An active asset as it is stored. */
  datatype Asset = Asset(key: Key, owned: bool, config: Definition)

  datatype Mutation = Upsert(key: Key, config: Definition) | Delete(key: Key) | SetDefault(agent: Option<string>)

  // ----- sets

  function Of(set_: AssetSet, kind: string): seq<Definition>
  {
    if kind in set_.definitions then set_.definitions[kind] else []
  }

  function Find(definitions: seq<Definition>, name: string): (r: Option<Definition>)
    ensures r.Some? ==> r.value in definitions && r.value.name == Some(name)
    ensures r.None? <==> forall d :: d in definitions ==> d.name != Some(name)
  {
    if definitions == [] then None
    else if definitions[0].name == Some(name) then Some(definitions[0])
    else Find(definitions[1..], name)
  }

  /** What the set holds under a key. */
  function At(set_: AssetSet, key: Key): Option<Definition> { Find(Of(set_, key.kind), key.name) }

  function Without(definitions: seq<Definition>, name: string): seq<Definition>
  {
    if definitions == [] then []
    else (if definitions[0].name == Some(name) then [] else [definitions[0]]) + Without(definitions[1..], name)
  }

  function WithDefinitions(set_: AssetSet, kind: string, definitions: seq<Definition>): AssetSet
  {
    set_.(definitions := set_.definitions[kind := definitions])
  }

  function WithDefinition(set_: AssetSet, key: Key, definition: Definition): AssetSet
  {
    WithDefinitions(set_, key.kind, Without(Of(set_, key.kind), key.name) + [definition])
  }

  function WithoutDefinition(set_: AssetSet, key: Key): AssetSet
  {
    WithDefinitions(set_, key.kind, Without(Of(set_, key.kind), key.name))
  }

  function StoredSet(assets: seq<Asset>, default: Option<string>): AssetSet
  {
    AssetSet(default, OfAssets(assets))
  }

  function OfAssets(assets: seq<Asset>): map<string, seq<Definition>>
  {
    if assets == [] then map[]
    else
      var rest, last := OfAssets(assets[..|assets| - 1]), assets[|assets| - 1];
      rest[last.key.kind := (if last.key.kind in rest then rest[last.key.kind] else []) + [last.config]]
  }

  lemma {:induction false} FindWithout(definitions: seq<Definition>, name: string, other: string)
    ensures Find(Without(definitions, name), other) == if other == name then None else Find(definitions, other)
  {
    if definitions != [] {
      FindWithout(definitions[1..], name, other);
      var head, rest := definitions[0], Without(definitions[1..], name);
      if head.name != Some(name) {
        assert ([head] + rest)[1..] == rest;
      } else {
        assert [] + rest == rest;
      }
    }
  }

  lemma {:induction false} FindApart(a: seq<Definition>, b: seq<Definition>, name: string)
    ensures Find(a + b, name) == if Find(a, name).Some? then Find(a, name) else Find(b, name)
  {
    if a == [] {
      assert a + b == b;
    } else {
      assert (a + b)[0] == a[0] && (a + b)[1..] == a[1..] + b;
      FindApart(a[1..], b, name);
    }
  }

  lemma AtWith(set_: AssetSet, key: Key, definition: Definition, other: Key)
    requires definition.name == Some(key.name)
    ensures At(WithDefinition(set_, key, definition), other) == if other == key then Some(definition)
        else At(set_, other)
  {
    FindWithout(Of(set_, key.kind), key.name, other.name);
    FindApart(Without(Of(set_, key.kind), key.name), [definition], other.name);
  }

  lemma AtWithout(set_: AssetSet, key: Key, other: Key)
    ensures At(WithoutDefinition(set_, key), other) == if other == key then None else At(set_, other)
  {
    FindWithout(Of(set_, key.kind), key.name, other.name);
  }

  // ----- stored assets

  /** Stored assets have distinct keys, carry their own name, and are of registered kinds. */
  predicate WellStored(kinds: seq<Kind>, assets: seq<Asset>)
  {
    && (forall i :: 0 <= i < |assets| ==>
        assets[i].config.name == Some(assets[i].key.name) && KindOf(kinds, assets[i].key.kind).Some?)
    && forall i, j :: 0 <= i < j < |assets| ==> assets[i].key != assets[j].key
  }

  function KindOf(kinds: seq<Kind>, id: string): (r: Option<Kind>)
    ensures r.Some? ==> r.value in kinds && r.value.id == id
    ensures r.None? <==> forall k :: k in kinds ==> k.id != id
  {
    if kinds == [] then None else if kinds[0].id == id then Some(kinds[0]) else KindOf(kinds[1..], id)
  }

  function ConfigOf(assets: seq<Asset>, key: Key): (r: Option<Definition>)
    ensures r.None? <==> forall a :: a in assets ==> a.key != key
    ensures r.Some? ==> exists a :: a in assets && a.key == key && a.config == r.value
  {
    if assets == [] then None
    else
      assert assets == assets[..|assets| - 1] + [assets[|assets| - 1]];
      if assets[|assets| - 1].key == key then
        assert assets[|assets| - 1] in assets;
        Some(assets[|assets| - 1].config)
      else ConfigOf(assets[..|assets| - 1], key)
  }

  lemma {:induction false} AtStored(kinds: seq<Kind>, assets: seq<Asset>, default: Option<string>, key: Key)
    requires WellStored(kinds, assets)
    ensures At(StoredSet(assets, default), key) == ConfigOf(assets, key)
  {
    if assets != [] {
      var front, last := assets[..|assets| - 1], assets[|assets| - 1];
      AtStored(kinds, front, default, key);
      var before := Of(StoredSet(front, default), last.key.kind);
      if key.kind == last.key.kind {
        FindApart(before, [last.config], key.name);
        if key == last.key {
          assert ConfigOf(front, key).None?;
        }
      }
    }
  }

  // ----- validation

  /** A kind keeps the name of what it reads, and prepares nothing under another name. */
  ghost predicate KeepsNames(kinds: seq<Kind>)
  {
    forall k :: k in kinds ==>
                  && (forall d :: k.read(d).Some? ==> d.name.Some? && k.read(d).value.name == d.name)
                  && (forall current, d :: k.prepare(current, d).name == d.name)
  }

  predicate DistinctKinds(kinds: seq<Kind>)
  {
    forall i, j :: 0 <= i < j < |kinds| ==> kinds[i].id != kinds[j].id
  }

  function ReadAll(kind: Kind, definitions: seq<Definition>): Option<seq<Definition>>
  {
    if definitions == [] then Some([])
    else
      var head, rest := kind.read(definitions[0]), ReadAll(kind, definitions[1..]);
      if head.None? || rest.None? then None else Some([head.value] + rest.value)
  }

  predicate DistinctNames(definitions: seq<Definition>)
  {
    forall i, j :: 0 <= i < j < |definitions| ==> definitions[i].name != definitions[j].name
  }

  /** `findDefaultAgentReferenceIssues`: a default where there are agents, and one of them. */
  predicate DefaultFits(definitions: seq<Definition>, default: Option<string>)
  {
    if definitions == [] then default.None? else default.Some? && Find(definitions, default.value).Some?
  }

  /** The validated set: every definition of a registered kind as that kind reads it. */
  function Accepted(kinds: seq<Kind>, set_: AssetSet): Option<AssetSet>
  {
    if kinds == [] then Some(AssetSet(set_.default, map[]))
    else
      var rest, kind := Accepted(kinds[1..], set_), kinds[0];
      var read := ReadAll(kind, Of(set_, kind.id));
      if rest.None? || read.None? || !DistinctNames(read.value)
          || (kind.holdsDefault && !DefaultFits(read.value, set_.default)) then None
      else Some(rest.value.(definitions := rest.value.definitions[kind.id := read.value]))
  }

  lemma {:induction false} FindRead(kind: Kind, definitions: seq<Definition>, name: string)
    requires forall d :: kind.read(d).Some? ==> d.name.Some? && kind.read(d).value.name == d.name
    requires ReadAll(kind, definitions).Some?
    ensures var found := Find(definitions, name);
            Find(ReadAll(kind, definitions).value, name) == if found.None? then None else kind.read(found.value)
  {
    if definitions != [] {
      FindRead(kind, definitions[1..], name);
      var rest := ReadAll(kind, definitions[1..]).value;
      assert kind.read(definitions[0]).Some?;
      assert ([kind.read(definitions[0]).value] + rest)[1..] == rest;
    }
  }

  /** The accepted set holds, under each key of a registered kind, what the kind reads the candidate's definition as. */
  lemma {:induction false} AtAccepted(kinds: seq<Kind>, set_: AssetSet, key: Key)
    requires KeepsNames(kinds) && DistinctKinds(kinds) && Accepted(kinds, set_).Some?
    ensures var kind, found := KindOf(kinds, key.kind), At(set_, key);
            At(Accepted(kinds, set_).value, key) == if kind.None?
                || found.None? then None else kind.value.read(found.value)
    ensures KindOf(kinds, key.kind).Some? ==> (At(Accepted(kinds, set_).value, key).Some? <==> At(set_, key).Some?)
    ensures Accepted(kinds, set_).value.default == set_.default
  {
    if kinds != [] {
      AtAccepted(kinds[1..], set_, key);
      var kind := kinds[0];
      if kind.id == key.kind {
        assert kind in kinds;
        FindRead(kind, Of(set_, kind.id), key.name);
        if At(set_, key).Some? { AllRead(kind, Of(set_, kind.id), key.name); }
      }
    }
  }

  lemma {:induction false} AllRead(kind: Kind, definitions: seq<Definition>, name: string)
    requires ReadAll(kind, definitions).Some? && Find(definitions, name).Some?
    ensures kind.read(Find(definitions, name).value).Some?
  {
    if definitions[0].name != Some(name) {
      AllRead(kind, definitions[1..], name);
    }
  }

  // ----- replaying mutations

  /** What the store holds: its transaction upserts, deletes and sets the default in order. */
  datatype Stored = Stored(assets: map<Key, Definition>, default: Option<string>)

  function Applied(stored: Stored, m: Mutation): Stored
  {
    match m
    case Upsert(key, config) => stored.(assets := stored.assets[key := config])
    case Delete(key) => stored.(assets := stored.assets - {key})
    case SetDefault(agent) => stored.(default := agent)
  }

  function AppliedAll(stored: Stored, mutations: seq<Mutation>): Stored
  {
    if mutations == [] then stored
        else Applied(AppliedAll(stored, mutations[..|mutations| - 1]), mutations[|mutations| - 1])
  }

  predicate Touches(m: Mutation, key: Key) { !m.SetDefault? && m.key == key }

  /** The last mutation of a key decides what becomes of it. */
  function LastOf(mutations: seq<Mutation>, key: Key): Option<Mutation>
  {
    if mutations == [] then None
    else if Touches(mutations[|mutations| - 1], key) then Some(mutations[|mutations| - 1])
    else LastOf(mutations[..|mutations| - 1], key)
  }

  function LastDefault(mutations: seq<Mutation>, default: Option<string>): Option<string>
  {
    if mutations == [] then default
    else if mutations[|mutations| - 1].SetDefault? then mutations[|mutations| - 1].agent
    else LastDefault(mutations[..|mutations| - 1], default)
  }

  function HeldAt(assets: map<Key, Definition>, key: Key): Option<Definition>
  {
    if key in assets then Some(assets[key]) else None
  }

  lemma {:induction false} LastDecides(stored: Stored, mutations: seq<Mutation>, key: Key)
    ensures var last, after := LastOf(mutations, key), AppliedAll(stored, mutations);
            && HeldAt(after.assets, key)
                == (if last.None? then HeldAt(stored.assets, key) else if last.value.Upsert?
                then Some(last.value.config) else None)
            && after.default == LastDefault(mutations, stored.default)
  {
    if mutations != [] {
      LastDecides(stored, mutations[..|mutations| - 1], key);
    }
  }

  lemma {:induction false} LastApart(a: seq<Mutation>, b: seq<Mutation>, key: Key, default: Option<string>)
    ensures LastOf(a + b, key) == if LastOf(b, key).Some? then LastOf(b, key) else LastOf(a, key)
    ensures LastDefault(a + b, default) == LastDefault(b, LastDefault(a, default))
    decreases |b|
  {
    if b == [] {
      assert a + b == a;
    } else {
      assert (a + b)[..|a + b| - 1] == a + b[..|b| - 1];
      LastApart(a, b[..|b| - 1], key, default);
    }
  }

  /** Definitions by kind and name, as the writer keeps them. */
  type Nested = map<string, map<string, Definition>>

  function NestedAt(nested: Nested, key: Key): Option<Definition>
  {
    if key.kind in nested && key.name in nested[key.kind] then Some(nested[key.kind][key.name]) else None
  }

  function OfKind(nested: Nested, kind: string): map<string, Definition> {
    if kind in nested then nested[kind] else map[]
  }

  function WithEntry(nested: Nested, key: Key, entry: Option<Definition>): (r: Nested)
    ensures forall other :: NestedAt(r, other) == if other == key then entry else NestedAt(nested, other)
  {
    var ofKind := OfKind(nested, key.kind);
    nested[key.kind := if entry.None? then ofKind - {key.name} else ofKind[key.name := entry.value]]
  }

  /** What is stored, by key. */
  function StoredMap(assets: seq<Asset>): (m: map<Key, Definition>)
    ensures forall key :: HeldAt(m, key) == ConfigOf(assets, key)
  {
    if assets == [] then map[]
        else StoredMap(assets[..|assets| - 1])[assets[|assets| - 1].key := assets[|assets| - 1].config]
  }

  function StoredOf(assets: seq<Asset>, default: Option<string>): Stored { Stored(StoredMap(assets), default) }

  /**
   `applyValidatedConfigAssetMutations`: the candidate the writer validates holds what the store's
   transaction leaves.
   */
  method ReplayMutations(kinds: seq<Kind>, assets: seq<Asset>, default: Option<string>, mutations: seq<Mutation>)
    returns (candidate: Nested, agent: Option<string>)
    requires WellStored(kinds, assets)
    ensures agent == AppliedAll(StoredOf(assets, default), mutations).default
    ensures forall key ::
        NestedAt(candidate, key) == HeldAt(AppliedAll(StoredOf(assets, default), mutations).assets, key)
  {
    candidate := NestStored(kinds, assets);
    agent := default;
    assert mutations[..0] == [];
    for i := 0 to |mutations|
      invariant agent == AppliedAll(StoredOf(assets, default), mutations[..i]).default
      invariant forall key ::
          NestedAt(candidate, key) == HeldAt(AppliedAll(StoredOf(assets, default), mutations[..i]).assets, key)
    {
      var m := mutations[i];
      assert mutations[..i + 1][..i] == mutations[..i];
      match m
      case SetDefault(name) => agent := name;
      case Delete(key) => candidate := WithEntry(candidate, key, None);
      case Upsert(key, config) => candidate := WithEntry(candidate, key, Some(config));
    }
    assert mutations[..|mutations|] == mutations;
  }

  method NestStored(kinds: seq<Kind>, assets: seq<Asset>) returns (candidate: Nested)
    requires WellStored(kinds, assets)
    ensures forall key :: NestedAt(candidate, key) == ConfigOf(assets, key)
  {
    candidate := map[];
    for i := 0 to |assets|
      invariant forall key :: NestedAt(candidate, key) == ConfigOf(assets[..i], key)
    {
      var asset := assets[i];
      assert assets[..i + 1][..i] == assets[..i];
      candidate := WithEntry(candidate, Key(asset.key.kind, asset.config.name.value), Some(asset.config));
    }
    assert assets[..|assets|] == assets;
  }
}
