/**
 The named schemas of the API document. Two loops close a set under references: the schemas that
 are wider on input, and the components a document needs. Every reference of the document resolves.
 */
module OpenApiDocument {
  import opened SetSizes

  datatype Json = Text(s: string) | Bool(b: bool) | Number(n: int) | Null | List(items: seq<Json>)
      | Object(entries: seq<Entry>)

  datatype Entry = Entry(key: string, value: Json)

  const PREFIX := "#/components/schemas/"

  predicate IsReference(e: Entry) { e.key == "$ref" && e.value.Text? }

  // ----- references

  /** `referencedNames` */
  function References(node: Json): seq<string>
    decreases node, 0
  {
    match node
    case List(items) => ReferencesOfAll(items)
    case Object(entries) => ReferencesOfEntries(entries)
    case _ => []
  }

  function ReferencesOfAll(items: seq<Json>): seq<string>
    decreases items, 1
  {
    if items == [] then [] else References(items[0]) + ReferencesOfAll(items[1..])
  }

  function Referenced(e: Entry): seq<string>
  {
    if IsReference(e) && PREFIX <= e.value.s then [e.value.s[|PREFIX|..]] else []
  }

  function ReferencesOfEntries(entries: seq<Entry>): seq<string>
    decreases entries, 1
  {
    if entries == [] then []
    else Referenced(entries[0]) + References(entries[0].value) + ReferencesOfEntries(entries[1..])
  }

  /** What stands behind the last slash. */
  function AfterSlash(s: string): (r: string)
  {
    if s == "" then ""
    else if '/' in s[1..] then AfterSlash(s[1..])
    else if s[0] == '/' then s[1..] else s
  }

  /** `renameReferences` */
  function Renamed(node: Json, rename: string -> string): Json
    decreases node, 0
  {
    match node
    case List(items) => List(RenamedAll(items, rename))
    case Object(entries) => Object(RenamedEntries(entries, rename))
    case _ => node
  }

  function RenamedAll(items: seq<Json>, rename: string -> string): seq<Json>
    decreases items, 1
  {
    if items == [] then [] else [Renamed(items[0], rename)] + RenamedAll(items[1..], rename)
  }

  function RenamedEntries(entries: seq<Entry>, rename: string -> string): seq<Entry>
    decreases entries, 1
  {
    if entries == [] then []
    else
      var e := entries[0];
      var value := if IsReference(e) then Text(PREFIX + rename(AfterSlash(e.value.s))) else Renamed(e.value, rename);
      [Entry(e.key, value)] + RenamedEntries(entries[1..], rename)
  }

  /** Every reference is one to a component whose name has no slash. */
  predicate Plain(node: Json)
    decreases node, 0
  {
    match node
    case List(items) => forall i :: 0 <= i < |items| ==> Plain(items[i])
    case Object(entries) =>
      forall i :: 0 <= i < |entries| ==>
                    (IsReference(entries[i]) ==>
                        PREFIX <= entries[i].value.s && '/' !in entries[i].value.s[|PREFIX|..])
                        && Plain(entries[i].value)
    case _ => true
  }

  function Map(names: seq<string>, rename: string -> string): seq<string>
  {
    if names == [] then [] else [rename(names[0])] + Map(names[1..], rename)
  }

  lemma {:induction false} MapApart(a: seq<string>, b: seq<string>, rename: string -> string)
    ensures Map(a + b, rename) == Map(a, rename) + Map(b, rename)
  {
    if a == [] {
      assert a + b == b;
    } else {
      assert (a + b)[0] == a[0] && (a + b)[1..] == a[1..] + b;
      MapApart(a[1..], b, rename);
    }
  }

  lemma {:induction false} BehindPrefix(prefix: string, name: string)
    requires '/' !in name && (prefix == "" || prefix[|prefix| - 1] == '/')
    ensures AfterSlash(prefix + name) == name
  {
    if prefix != "" {
      var s := prefix + name;
      assert s[1..] == prefix[1..] + name;
      if |prefix| > 1 {
        assert s[1..][|prefix| - 2] == '/';
        BehindPrefix(prefix[1..], name);
      } else {
        assert s[1..] == name;
      }
    } else {
      assert prefix + name == name;
    }
  }

  /** Renaming a schema renames exactly its references. */
  lemma {:induction false} RenamesReferences(node: Json, rename: string -> string)
    requires Plain(node)
    ensures References(Renamed(node, rename)) == Map(References(node), rename)
    decreases node, 0
  {
    match node
    case List(items) => RenamesAll(items, rename);
    case Object(entries) => RenamesEntries(entries, rename);
    case _ =>
  }

  lemma {:induction false} RenamesAll(items: seq<Json>, rename: string -> string)
    requires forall i :: 0 <= i < |items| ==> Plain(items[i])
    ensures ReferencesOfAll(RenamedAll(items, rename)) == Map(ReferencesOfAll(items), rename)
    decreases items, 1
  {
    if items != [] {
      RenamesReferences(items[0], rename);
      RenamesAll(items[1..], rename);
      MapApart(References(items[0]), ReferencesOfAll(items[1..]), rename);
      assert RenamedAll(items, rename)[1..] == RenamedAll(items[1..], rename);
    }
  }

  lemma {:induction false} RenamesEntries(entries: seq<Entry>, rename: string -> string)
    requires Plain(Object(entries))
    ensures ReferencesOfEntries(RenamedEntries(entries, rename)) == Map(ReferencesOfEntries(entries), rename)
    decreases entries, 1
  {
    if entries != [] {
      var e, rest := entries[0], entries[1..];
      assert Plain(Object(rest)) by { assert forall i :: 0 <= i < |rest| ==> rest[i] == entries[i + 1]; }
      RenamesEntries(rest, rename);
      var renamed := RenamedEntries(entries, rename);
      assert renamed[1..] == RenamedEntries(rest, rename);
      RenamesEntry(e, renamed[0], rename);
      MapApart(Referenced(e) + References(e.value), ReferencesOfEntries(rest), rename);
    }
  }

  lemma RenamesEntry(e: Entry, renamed: Entry, rename: string -> string)
    requires Plain(e.value) && (IsReference(e) ==> PREFIX <= e.value.s && '/' !in e.value.s[|PREFIX|..])
    requires renamed
        == Entry(e.key, if IsReference(e) then Text(PREFIX + rename(AfterSlash(e.value.s)))
        else Renamed(e.value, rename))
    ensures Referenced(renamed) + References(renamed.value) == Map(Referenced(e) + References(e.value), rename)
    decreases e, 2
  {
    if IsReference(e) {
      var name := e.value.s[|PREFIX|..];
      assert e.value.s == PREFIX + name && PREFIX[|PREFIX| - 1] == '/';
      BehindPrefix(PREFIX, name);
      assert (PREFIX + rename(name))[|PREFIX|..] == rename(name);
      assert Referenced(e) + References(e.value) == [name];
    } else {
      RenamesReferences(e.value, rename);
      assert [] + References(e.value) == References(e.value)
          && [] + References(renamed.value) == References(renamed.value);
    }
  }

  /** The entry at a path of indices through lists and objects. */
  ghost predicate HasEntry(node: Json, path: seq<nat>, e: Entry)
    decreases |path|
  {
    && path != []
    && match node
       case List(items) => path[0] < |items| && HasEntry(items[path[0]], path[1..], e)
       case Object(entries) =>
         && path[0] < |entries|
         && ((entries[path[0]] == e && |path| == 1) || HasEntry(entries[path[0]].value, path[1..], e))
       case _ => false
  }

  ghost predicate RefersAt(node: Json, path: seq<nat>, name: string)
  {
    exists e :: HasEntry(node, path, e) && e.key == "$ref" && e.value == Text(PREFIX + name)
  }

  /** Somewhere in it, at any depth. */
  ghost predicate Refers(node: Json, name: string) { exists path :: RefersAt(node, path, name) }

  /** The references of a node are those anywhere in it. */
  lemma {:induction false} ReferencesAreAll(node: Json, name: string)
    ensures name in References(node) <==> Refers(node, name)
    decreases node, 0
  {
    match node
    case List(items) =>
      ReferencesOfItems(items, name);
      forall i | 0 <= i < |items| ensures name in References(items[i]) <==> Refers(items[i], name) {
        ReferencesAreAll(items[i], name);
      }
      ItemsRefer(items, name);
    case Object(entries) =>
      ReferencesOfEach(entries, name);
      forall i | 0 <= i < |entries| ensures name in References(entries[i].value) <==> Refers(entries[i].value, name) {
        ReferencesAreAll(entries[i].value, name);
      }
      EntriesRefer(entries, name);
    case _ =>
  }

  lemma {:induction false} ReferencesOfItems(items: seq<Json>, name: string)
    ensures name in ReferencesOfAll(items) <==> exists i :: 0 <= i < |items| && name in References(items[i])
    decreases items
  {
    if items != [] {
      ReferencesOfItems(items[1..], name);
      assert forall i :: 0 <= i < |items[1..]| ==> items[1..][i] == items[i + 1];
      assert name in References(items[0]) + ReferencesOfAll(items[1..])
          <==> name in References(items[0]) || name in ReferencesOfAll(items[1..]);
    }
  }

  predicate Holds(e: Entry, name: string) { name in Referenced(e) || name in References(e.value) }

  lemma {:induction false} ReferencesOfEach(entries: seq<Entry>, name: string)
    ensures name in ReferencesOfEntries(entries) <==> exists i :: 0 <= i < |entries| && Holds(entries[i], name)
    decreases entries
  {
    if entries != [] {
      ReferencesOfEach(entries[1..], name);
      assert forall i :: 0 <= i < |entries[1..]| ==> entries[1..][i] == entries[i + 1];
      assert name in ReferencesOfEntries(entries)
          <==> Holds(entries[0], name) || name in ReferencesOfEntries(entries[1..]);
    }
  }

  lemma ItemsRefer(items: seq<Json>, name: string)
    ensures Refers(List(items), name) <==> exists i :: 0 <= i < |items| && Refers(items[i], name)
  {
    if path :| RefersAt(List(items), path, name) {
      assert RefersAt(items[path[0]], path[1..], name);
    }
    if i :| 0 <= i < |items| && Refers(items[i], name) {
      var path :| RefersAt(items[i], path, name);
      var e :| HasEntry(items[i], path, e) && e.key == "$ref" && e.value == Text(PREFIX + name);
      assert ([i] + path)[1..] == path && HasEntry(List(items), [i] + path, e);
      assert RefersAt(List(items), [i] + path, name);
    }
  }

  lemma EntriesRefer(entries: seq<Entry>, name: string)
    ensures Refers(Object(entries), name) <==>
        exists i :: 0 <= i < |entries| && (name in Referenced(entries[i]) || Refers(entries[i].value, name))
  {
    if path :| RefersAt(Object(entries), path, name) {
      var e :| HasEntry(Object(entries), path, e) && e.key == "$ref" && e.value == Text(PREFIX + name);
      if entries[path[0]] == e && |path| == 1 {
        ReferencedIs(e, name);
      } else {
        assert RefersAt(entries[path[0]].value, path[1..], name);
      }
    }
    if i :| 0 <= i < |entries| && (name in Referenced(entries[i]) || Refers(entries[i].value, name)) {
      if name in Referenced(entries[i]) {
        ReferencedIs(entries[i], name);
        assert HasEntry(Object(entries), [i], entries[i]);
        assert RefersAt(Object(entries), [i], name);
      } else {
        var path :| RefersAt(entries[i].value, path, name);
        var e :| HasEntry(entries[i].value, path, e) && e.key == "$ref" && e.value == Text(PREFIX + name);
        assert ([i] + path)[1..] == path && HasEntry(Object(entries), [i] + path, e);
        assert RefersAt(Object(entries), [i] + path, name);
      }
    }
  }

  lemma ReferencedIs(e: Entry, name: string)
    ensures name in Referenced(e) <==> e.key == "$ref" && e.value == Text(PREFIX + name)
  {
    if e.value.Text? && PREFIX <= e.value.s {
      assert e.value.s == PREFIX + e.value.s[|PREFIX|..];
    }
    assert (PREFIX + name)[|PREFIX|..] == name;
  }

  /** A node whose references all keep their names stays as it is: nothing else is touched. */
  lemma {:induction false} RenamesNothingElse(node: Json, rename: string -> string)
    requires Plain(node) && forall r :: r in References(node) ==> rename(r) == r
    ensures Renamed(node, rename) == node
    decreases node, 0
  {
    match node
    case List(items) => KeepsItems(items, rename);
    case Object(entries) => KeepsEntries(entries, rename);
    case _ =>
  }

  lemma {:induction false} KeepsItems(items: seq<Json>, rename: string -> string)
    requires forall i :: 0 <= i < |items| ==> Plain(items[i])
    requires forall r :: r in ReferencesOfAll(items) ==> rename(r) == r
    ensures RenamedAll(items, rename) == items
    decreases items, 1
  {
    if items != [] {
      assert forall r :: r in References(items[0]) || r in ReferencesOfAll(items[1..]) ==> r in ReferencesOfAll(items);
      RenamesNothingElse(items[0], rename);
      KeepsItems(items[1..], rename);
    }
  }

  lemma {:induction false} KeepsEntries(entries: seq<Entry>, rename: string -> string)
    requires Plain(Object(entries)) && forall r :: r in ReferencesOfEntries(entries) ==> rename(r) == r
    ensures RenamedEntries(entries, rename) == entries
    decreases entries, 1
  {
    if entries != [] {
      var e, rest := entries[0], entries[1..];
      assert forall r :: r in Referenced(e) || r in References(e.value) || r in ReferencesOfEntries(rest) ==>
          r in ReferencesOfEntries(entries);
      assert Plain(Object(rest)) by { assert forall i :: 0 <= i < |rest| ==> rest[i] == entries[i + 1]; }
      if IsReference(e) {
        var name := e.value.s[|PREFIX|..];
        assert e.value.s == PREFIX + name && PREFIX[|PREFIX| - 1] == '/';
        BehindPrefix(PREFIX, name);
        ReferencedIs(e, name);
      } else {
        RenamesNothingElse(e.value, rename);
      }
      KeepsEntries(rest, rename);
    }
  }

  // ----- schemas that are wider on input

  /** `openObjects`: an answered object is not called closed. */
  function Opened(node: Json): Json
    decreases node, 0
  {
    match node
    case List(items) => List(OpenedAll(items))
    case Object(entries) => Object(OpenedEntries(entries))
    case _ => node
  }

  function OpenedAll(items: seq<Json>): seq<Json>
    decreases items, 1
  {
    if items == [] then [] else [Opened(items[0])] + OpenedAll(items[1..])
  }

  function OpenedEntries(entries: seq<Entry>): seq<Entry>
    decreases entries, 1
  {
    if entries == [] then []
    else
      var e := entries[0];
      var first := if e.key == "additionalProperties" && e.value == Bool(false) then []
                   else [Entry(e.key, Opened(e.value))];
      first + OpenedEntries(entries[1..])
  }

  /** An object that takes no other fields is called so by this entry. */
  predicate Closes(e: Entry) { e.key == "additionalProperties" && e.value == Bool(false) }

  /** `answered` is the node without those entries, at any depth, and otherwise the same. */
  ghost predicate OnlyOpened(node: Json, answered: Json)
    decreases node, 0
  {
    match node
    case List(items) =>
      answered.List? && |answered.items| == |items|
      && forall i :: 0 <= i < |items| ==> OnlyOpened(items[i], answered.items[i])
    case Object(entries) => answered.Object? && OnlyOpenedEntries(entries, answered.entries)
    case _ => answered == node
  }

  ghost predicate OnlyOpenedEntries(entries: seq<Entry>, answered: seq<Entry>)
    decreases entries, 1
  {
    if entries == [] then answered == []
    else if Closes(entries[0]) then OnlyOpenedEntries(entries[1..], answered)
    else
      && answered != [] && answered[0].key == entries[0].key && OnlyOpened(entries[0].value, answered[0].value)
      && OnlyOpenedEntries(entries[1..], answered[1..])
  }

  /** An answered object is not called closed, at any depth, and nothing else of it changes. */
  lemma {:induction false} OpensObjects(node: Json)
    ensures OnlyOpened(node, Opened(node))
    decreases node, 0
  {
    match node
    case List(items) => OpensItems(items);
    case Object(entries) => OpensEntries(entries);
    case _ =>
  }

  lemma {:induction false} OpensItems(items: seq<Json>)
    ensures |OpenedAll(items)| == |items|
    ensures forall i :: 0 <= i < |items| ==> OnlyOpened(items[i], OpenedAll(items)[i])
    decreases items, 1
  {
    if items != [] {
      OpensObjects(items[0]);
      OpensItems(items[1..]);
      assert forall i :: 0 < i < |items| ==> items[i] == items[1..][i - 1];
    }
  }

  lemma {:induction false} OpensEntries(entries: seq<Entry>)
    ensures OnlyOpenedEntries(entries, OpenedEntries(entries))
    decreases entries, 1
  {
    if entries != [] {
      OpensObjects(entries[0].value);
      OpensEntries(entries[1..]);
      var first, rest := Entry(entries[0].key, Opened(entries[0].value)), OpenedEntries(entries[1..]);
      assert ([first] + rest)[1..] == rest && [] + rest == rest;
    }
  }

  type Schemas = map<string, Json>

  function RefsOf(schemas: Schemas, name: string): seq<string> {
    if name in schemas then References(schemas[name]) else []
  }

  predicate Differs(input: Schemas, output: Schemas, name: string)
    requires name in input
  {
    name !in output || Opened(input[name]) != output[name]
  }

  /** A schema differs itself, or leads in at most `n` references to one that does. */
  ghost predicate LeadsToWider(input: Schemas, output: Schemas, name: string, n: nat)
    decreases n
  {
    && name in input
    && (|| Differs(input, output, name)
        || (n > 0 && exists r :: r in RefsOf(input, name) && LeadsToWider(input, output, r, n - 1)))
  }

  ghost predicate IsWider(input: Schemas, output: Schemas, name: string) {
    exists n: nat :: LeadsToWider(input, output, name, n)
  }

  predicate Qualifies(input: Schemas, output: Schemas, wider: set<string>, name: string)
    requires name in input
  {
    Differs(input, output, name) || exists r :: r in RefsOf(input, name) && r in wider
  }

  lemma QualifiesIsWider(input: Schemas, output: Schemas, wider: set<string>, name: string)
    requires name in input && Qualifies(input, output, wider, name) && forall w :: w in wider ==>
        IsWider(input, output, w)
    ensures IsWider(input, output, name)
  {
    if Differs(input, output, name) {
      assert LeadsToWider(input, output, name, 0);
    } else {
      var r :| r in RefsOf(input, name) && r in wider;
      var n: nat :| LeadsToWider(input, output, r, n);
      assert LeadsToWider(input, output, name, n + 1);
    }
  }

  lemma {:induction false} ClosedHoldsWider(input: Schemas, output: Schemas, wider: set<string>, name: string, n: nat)
    requires forall x :: x in input && Qualifies(input, output, wider, x) ==> x in wider
    requires LeadsToWider(input, output, name, n)
    ensures name in wider
    decreases n
  {
    if !Differs(input, output, name) {
      var r :| r in RefsOf(input, name) && LeadsToWider(input, output, r, n - 1);
      ClosedHoldsWider(input, output, wider, r, n - 1);
      assert Qualifies(input, output, wider, name);
    }
  }

  /**
   The loop that grows the set until nothing is added: in any order it finds exactly the schemas
   that lead to a difference.
   */
  method WiderOnInput(input: Schemas, output: Schemas, order: seq<string>) returns (wider: set<string>)
    requires forall name :: name in order <==> name in input
    ensures forall name :: name in wider <==> IsWider(input, output, name)
  {
    wider := {};
    var grew := true;
    while grew
      invariant wider <= input.Keys && forall w :: w in wider ==> IsWider(input, output, w)
      invariant !grew ==> forall x :: x in input && Qualifies(input, output, wider, x) ==> x in wider
      decreases |input.Keys - wider|, grew
    {
      ghost var before := wider;
      grew := false;
      for i := 0 to |order|
        invariant before <= wider <= input.Keys && forall w :: w in wider ==> IsWider(input, output, w)
        invariant !grew ==>
            wider == before && forall k :: 0 <= k < i && Qualifies(input, output, wider, order[k]) ==>
            order[k] in wider
        invariant grew ==> before < wider
      {
        var name := order[i];
        if name !in wider && Qualifies(input, output, wider, name) {
          QualifiesIsWider(input, output, wider, name);
          wider := wider + {name};
          grew := true;
        }
      }
      if grew { FewerLeft(input.Keys, before, wider); }
    }
    forall name | IsWider(input, output, name) ensures name in wider {
      var n: nat :| LeadsToWider(input, output, name, n);
      ClosedHoldsWider(input, output, wider, name, n);
    }
  }

  lemma FewerLeft(all: set<string>, a: set<string>, b: set<string>)
    requires a < b <= all
    ensures |all - b| < |all - a|
  {
    var x :| x in b && x !in a;
    assert x in all - a && x !in all - b;
    SubsetIsSmaller(all - b, all - a);
  }

  // ----- the components a document needs

  ghost predicate ReachedIn(components: Schemas, roots: seq<string>, name: string, n: nat)
    decreases n
  {
    if n == 0 then name in roots
    else exists from :: ReachedIn(components, roots, from, n - 1) && name in RefsOf(components, from)
  }

  ghost predicate Reached(components: Schemas, roots: seq<string>, name: string) {
    exists n: nat :: ReachedIn(components, roots, name, n)
  }

  lemma ReachedOn(components: Schemas, roots: seq<string>, from: string, name: string)
    requires Reached(components, roots, from) && name in RefsOf(components, from)
    ensures Reached(components, roots, name)
  {
    var n: nat :| ReachedIn(components, roots, from, n);
    assert ReachedIn(components, roots, name, n + 1);
  }

  lemma {:induction false} ClosedHoldsReached(components: Schemas, roots: seq<string>, used: set<string>,
      name: string, n: nat)
    requires (forall r :: r in roots ==> r in used) && forall u, r :: u in used && r in RefsOf(components, u) ==>
        r in used
    requires ReachedIn(components, roots, name, n)
    ensures name in used
    decreases n
  {
    if n > 0 {
      var from :| ReachedIn(components, roots, from, n - 1) && name in RefsOf(components, from);
      ClosedHoldsReached(components, roots, used, from, n - 1);
    }
  }

  /** Every name that is mentioned anywhere. */
  function Mentioned(components: Schemas, roots: seq<string>): set<string>
  {
    (set r | r in roots) + (set name, r | name in components && r in References(components[name]) :: r)
  }

  /** `usedComponents`: the worklist ends with exactly the names the document leads to. */
  method UsedComponents(components: Schemas, root: Json) returns (used: set<string>)
    ensures forall name :: name in used <==> Reached(components, References(root), name)
  {
    var roots := References(root);
    var pending := roots;
    used := {};
    RootsAreReached(components, roots);
    hide Reached, Mentioned, RefsOf;
    while pending != []
      invariant Working(components, roots, used, pending)
      decreases |Mentioned(components, roots) - used|, |pending|
    {
      ghost var before := used;
      var name := pending[|pending| - 1];
      var rest := pending[..|pending| - 1];
      assert pending == rest + [name];
      if name in used {
        pending := rest;
      } else {
        TakesOne(components, roots, used, rest, name);
        used := used + {name};
        pending := rest + RefsOf(components, name);
        FewerLeft(Mentioned(components, roots), before, used);
      }
    }
    AllReached(components, roots, used);
  }

  /**
   What the worklist keeps: everything known is reached, and everything reached is known or leads
   from what is pending.
   */
  ghost predicate Working(components: Schemas, roots: seq<string>, used: set<string>, pending: seq<string>)
  {
    && (forall p :: p in used || p in pending ==> p in Mentioned(components, roots) && Reached(components, roots, p))
    && (forall r :: r in roots ==> r in used || r in pending)
    && forall u, r :: u in used && r in RefsOf(components, u) ==> r in used || r in pending
  }

  lemma RootsAreReached(components: Schemas, roots: seq<string>)
    ensures Working(components, roots, {}, roots)
  {
    forall r | r in roots ensures Reached(components, roots, r) { assert ReachedIn(components, roots, r, 0); }
  }

  lemma TakesOne(components: Schemas, roots: seq<string>, used: set<string>, rest: seq<string>, name: string)
    requires Working(components, roots, used, rest + [name])
    ensures Working(components, roots, used + {name}, rest + RefsOf(components, name))
        && name in Mentioned(components, roots)
    ensures used + {name} <= Mentioned(components, roots)
  {
    assert forall p :: p in rest + [name] <==> p in rest || p == name;
    forall r | r in RefsOf(components, name)
        ensures r in Mentioned(components, roots) && Reached(components, roots, r) {
      ReachedOn(components, roots, name, r);
    }
  }

  lemma AllReached(components: Schemas, roots: seq<string>, used: set<string>)
    requires Working(components, roots, used, [])
    ensures forall name :: name in used <==> Reached(components, roots, name)
  {
    forall name | Reached(components, roots, name) ensures name in used {
      var n: nat :| ReachedIn(components, roots, name, n);
      ClosedHoldsReached(components, roots, used, name, n);
    }
  }

  // ----- the document

  function InputName(wider: set<string>, name: string): string { if name in wider then name + "Input" else name }

  /** The components: each schema as it is answered, and where input is wider also as it is accepted. */
  function Components(input: Schemas, output: Schemas, wider: set<string>): Schemas
    requires wider <= input.Keys
  {
    output + map w | w in (set name | name in wider :: name + "Input") ::
      Renamed(input[w[..|w| - 5]], name => InputName(wider, name))
  }

  lemma {:induction false} MapHolds(names: seq<string>, rename: string -> string, r: string)
    requires r in Map(names, rename)
    ensures exists name :: name in names && r == rename(name)
  {
    if r == rename(names[0]) {
      assert names[0] in names;
    } else {
      MapHolds(names[1..], rename, r);
    }
  }

  predicate Closed(components: Schemas)
  {
    forall name, r :: name in components && r in References(components[name]) ==> r in components
  }

  /** Every reference of a component is to a component: in an input form, to the input form where there is one. */
  lemma ComponentsResolve(input: Schemas, output: Schemas, wider: set<string>)
    requires wider <= input.Keys && Closed(output)
    requires forall name, r :: name in input && r in References(input[name]) ==> r in output
    requires forall name :: name in input ==> Plain(input[name])
    ensures Closed(Components(input, output, wider))
  {
    var components := Components(input, output, wider);
    forall name, r | name in components && r in References(components[name]) ensures r in components {
      if name in (set w | w in wider :: w + "Input") {
        var w :| w in wider && name == w + "Input";
        assert name[..|name| - 5] == w;
        var rename := x => InputName(wider, x);
        RenamesReferences(input[w], rename);
        assert References(components[name]) == Map(References(input[w]), rename);
        MapHolds(References(input[w]), rename, r);
        var referenced :| referenced in References(input[w]) && r == rename(referenced);
        if referenced in wider { assert r in (set x | x in wider :: x + "Input"); }
      }
    }
  }

  /** Each schema is a component as it is answered. */
  lemma AnsweredFormsHold(input: Schemas, output: Schemas, wider: set<string>, name: string)
    requires wider <= input.Keys && name in output && forall w :: w in wider ==> name != w + "Input"
    ensures name in Components(input, output, wider) && Components(input, output, wider)[name] == output[name]
  {
  }

  /**
   A wider schema is also a component as it is accepted, which refers to the accepted form of every
   wider schema, and to all others as they are.
   */
  lemma AcceptedFormsHold(input: Schemas, output: Schemas, wider: set<string>, name: string)
    requires wider <= input.Keys && name in wider && Plain(input[name])
    ensures var components := Components(input, output, wider);
            && name + "Input" in components
            && References(components[name + "Input"])
                == Map(References(input[name]), r => if r in wider then r + "Input" else r)
  {
    hide Renamed, References, Map, Plain;
    var rename := x => InputName(wider, x);
    assert (name + "Input")[..|name + "Input"| - 5] == name;
    RenamesReferences(input[name], rename);
    SameMap(References(input[name]), rename, r => if r in wider then r + "Input" else r);
  }

  lemma {:induction false} SameMap(names: seq<string>, f: string -> string, g: string -> string)
    requires forall r :: f(r) == g(r)
    ensures Map(names, f) == Map(names, g)
  {
    if names != [] {
      SameMap(names[1..], f, g);
    }
  }

  /** A document with the components its worklist finds refers to nothing else. */
  lemma DocumentResolves(components: Schemas, root: Json, used: set<string>)
    requires Closed(components) && forall r :: r in References(root) ==> r in components
    requires forall name :: name in used <==> Reached(components, References(root), name)
    ensures used <= components.Keys && forall r :: r in References(root) ==> r in used
    ensures forall name, r :: name in used && r in References(components[name]) ==> r in used
  {
    forall r | r in References(root) ensures r in used { assert ReachedIn(components, References(root), r, 0); }
    forall name | name in used ensures name in components {
      var n: nat :| ReachedIn(components, References(root), name, n);
    }
    forall name, r | name in used && r in References(components[name]) ensures r in used {
      ReachedOn(components, References(root), name, r);
    }
  }
}
