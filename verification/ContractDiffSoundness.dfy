/**
 What the absence of findings means. In the request direction every value the old schema accepts,
 carrying only fields it lists, is accepted by the new one; in the response direction every value
 of the new schema is accepted by the old one.
 */
module ContractDiffSoundness {
  import opened Optional
  import opened JsonSchema
  import opened ContractDiff

  type Meaning = (string, string, Value) -> bool

  datatype Setting = Setting(docs: Documents, direction: Direction, meaning: Meaning) {
    function NarrowReading(): Reading
    {
      Reading(Narrow(direction, docs.before, docs.after), direction.Request?, meaning)
    }

    function WideReading(): Reading
    {
      Reading(Wide(direction, docs.before, docs.after), false, meaning)
    }

    function NarrowOf(before: Schema, after: Schema): Schema { Narrow(direction, before, after) }

    function WideOf(before: Schema, after: Schema): Schema { Wide(direction, before, after) }
  }

  /** Every value of the narrow side is a value of the wide side. */
  ghost predicate Included(st: Setting, before: Schema, after: Schema)
  {
    forall v :: Accepts(st.NarrowReading(), st.NarrowOf(before, after), v) ==>
                  Accepts(st.WideReading(), st.WideOf(before, after), v)
  }

  // ----- what the comparison must not have skipped

  predicate AllowsType(node: Schema, t: string)
  {
    node.types.Some? ==> t in node.types.value
  }

  predicate ListsNoMore(these: seq<Property>, than: seq<Property>)
  {
    forall i :: 0 <= i < |these| ==> Declared(than, these[i].name).Some?
  }

  /** Nothing stands beside the alternatives of the node. */
  predicate OnlyAlternatives(node: Schema)
  {
    node == ANYTHING.(anyOf := node.anyOf) || node == ANYTHING.(oneOf := node.oneOf)
  }

  predicate OnlyReference(schema: Schema)
  {
    schema.ref.Some? ==> schema == ANYTHING.(ref := schema.ref)
  }

  predicate RegularFields(direction: Direction, narrow: Schema, wide: Schema)
  {
    match direction
    case Request =>
      && (narrow.additional.Values? ==> ListsNoMore(PropertiesOf(wide), PropertiesOf(narrow)))
      && (narrow.additional.Open? && narrow.properties.None? ==>
            PropertiesOf(wide) == [] && !wide.additional.Values?)
    case Response =>
      && !wide.additional.Refused?
      && (forall name :: name in wide.required ==> Declared(PropertiesOf(wide), name).Some?)
      && (wide.additional.Values? ==>
            !narrow.additional.Open? && ListsNoMore(PropertiesOf(narrow), PropertiesOf(wide)))
  }

  /**
   Nothing that matters is skipped between the two nodes. What the comparison does not read are the
   siblings of a wide reference or of alternatives, `items` and map values only one side has, and
   fields a map gains. The theorem asks for this only along the pairs that a comparison without
   findings meets.
   */
  predicate Regular(direction: Direction, before: Schema, after: Schema)
  {
    var narrow, wide := Narrow(direction, before, after), Wide(direction, before, after);
    if Alternatives(narrow).Some? || Alternatives(wide).Some? then
      Alternatives(wide).Some? ==> OnlyAlternatives(wide)
    else
      && (wide.enumeration.None? || wide.constant.None?)
      && (AllowsType(narrow, "array") && wide.items.Some? ==> narrow.items.Some?)
      && (AllowsType(narrow, "object") ==> RegularFields(direction, narrow, wide))
  }

  ghost predicate ResolvesTo(components: Components, schema: Schema, node: Schema)
  {
    exists fuel: nat :: Resolve(components, schema, fuel) == Node(node)
  }

  /** Some comparison of the two nodes ends without a finding. */
  ghost predicate Passes(st: Setting, before: Schema, after: Schema)
  {
    exists fuel: nat, compared: set<string>, where: string, marked: set<string> ::
      CompareResolved(st.docs, st.direction, fuel, compared, before, after, where) == Done([], marked)
  }

  /** The pairs a comparison of two nodes goes on to. */
  ghost predicate LeadsOnlyTo(st: Setting, before: Schema, after: Schema, pairs: iset<(Schema, Schema)>)
  {
    var narrow, wide := st.NarrowOf(before, after), st.WideOf(before, after);
    if Alternatives(narrow).Some? || Alternatives(wide).Some? then
      forall option, candidate :: option in Options(narrow) && candidate in Options(wide) ==>
                                    (st.NarrowOf(option, candidate), st.WideOf(option, candidate)) in pairs
    else
      forall where, t :: t in NodeTasks(st.direction, before, after, where) && t.Descend? ==>
          (t.before, t.after) in pairs
  }

  /**
   A set of pairs that holds, with a pair it meets, every pair the comparison goes on to from
   there, as long as the comparison can pass; and all of them are regular.
   */
  ghost predicate RegularPairs(st: Setting, pairs: iset<(Schema, Schema)>)
  {
    && (forall name :: name in st.WideReading().components ==> OnlyReference(st.WideReading().components[name]))
    && (forall before, after :: (before, after) in pairs ==>
          && OnlyReference(st.WideOf(before, after))
          && (before.ref.Some? && after.ref.Some? ==> ' ' !in before.ref.value))
    && (forall before, after, beforeNode, afterNode ::
          (before, after) in pairs
          && ResolvesTo(st.docs.before, before, beforeNode) && ResolvesTo(st.docs.after, after, afterNode)
          && Passes(st, beforeNode, afterNode) ==>
            Regular(st.direction, beforeNode, afterNode) && LeadsOnlyTo(st, beforeNode, afterNode, pairs))
  }

  // ----- inclusion up to a depth of values and a number of steps

  predicate UpTo(depth: nat, steps: nat, v: Value, h: nat)
  {
    Depth(v) < depth || (Depth(v) == depth && h <= steps)
  }

  ghost predicate CoversSides(st: Setting, depth: nat, steps: nat, narrow: Schema, wide: Schema)
  {
    forall v, h: nat :: UpTo(depth, steps, v, h) && AcceptsWithin(st.NarrowReading(), h, narrow, v) ==>
                          Accepts(st.WideReading(), wide, v)
  }

  /** A reference without what stands beside it. */
  function Bare(schema: Schema): Schema
  {
    if schema.ref.Some? then ANYTHING.(ref := schema.ref) else schema
  }

  /** What stands beside a narrow reference only takes values away, so the wide side covers the bare one. */
  ghost predicate Covers(st: Setting, depth: nat, steps: nat, before: Schema, after: Schema)
  {
    CoversSides(st, depth, steps, Bare(st.NarrowOf(before, after)), st.WideOf(before, after))
  }

  lemma BareAccepts(r: Reading, h: nat, schema: Schema, v: Value)
    requires AcceptsWithin(r, h, schema, v)
    ensures AcceptsWithin(r, h, Bare(schema), v)
  {
    if schema.ref.Some? {
      NothingDemanded(r, Bare(schema), v);
      assert AcceptsHere(r, Bare(schema), v);
    }
  }

  lemma CoversMore(st: Setting, depth: nat, steps: nat, before: Schema, after: Schema)
    requires Covers(st, depth, steps, before, after)
    ensures CoversSides(st, depth, steps, st.NarrowOf(before, after), st.WideOf(before, after))
  {
    forall v, h: nat | UpTo(depth, steps, v, h) && AcceptsWithin(st.NarrowReading(), h, st.NarrowOf(before, after), v)
      ensures Accepts(st.WideReading(), st.WideOf(before, after), v)
    {
      BareAccepts(st.NarrowReading(), h, st.NarrowOf(before, after), v);
    }
  }

  /** The pairs of named schemas that a key stands for, where both are references of the two schemas. */
  ghost predicate CoversKeys(st: Setting, pairs: iset<(Schema, Schema)>, depth: nat, steps: nat, keys: set<string>)
  {
    forall before, after ::
      (before, after) in pairs && before.ref.Some? && after.ref.Some?
          && PairKey(before.ref.value, after.ref.value) in keys ==>
        Covers(st, depth, steps, before, after)
  }

  lemma SmallerBounds(st: Setting, pairs: iset<(Schema, Schema)>, depth: nat, steps: nat, d: nat, h: nat,
      keys: set<string>)
    requires d < depth || (d == depth && h <= steps)
    requires CoversKeys(st, pairs, depth, steps, keys)
    ensures CoversKeys(st, pairs, d, h, keys)
  {
  }

  /** Without spaces in the first reference, a key names one pair of references. */
  lemma {:induction false} KeyNamesOnePair(b: string, a: string, b': string, a': string)
    requires ' ' !in b && ' ' !in b' && PairKey(b, a) == PairKey(b', a')
    ensures b == b' && a == a'
  {
    var key := PairKey(b, a);
    assert forall i :: 0 <= i < |b| ==> key[i] == b[i] && b[i] != ' ';
    assert forall i :: 0 <= i < |b'| ==> key[i] == b'[i] && b'[i] != ' ';
    assert key[|b|] == ' ' && key[|b'|] == ' ';
    assert b == key[..|b|] && a == key[|b| + 1..];
    assert b' == key[..|b'|] && a' == key[|b'| + 1..];
  }

  // ----- resolving references

  lemma {:induction false} ResolveKeepsAccepted(r: Reading, schema: Schema, fuel: nat, node: Schema, h: nat,
      v: Value) returns (h': nat)
    requires Resolve(r.components, schema, fuel) == Node(node)
    requires AcceptsWithin(r, h, schema, v)
    ensures h' <= h && (schema.ref.Some? ==> h' < h) && AcceptsWithin(r, h', node, v)
    decreases fuel
  {
    h' := h;
    if schema.ref.Some? {
      h' := ResolveKeepsAccepted(r, r.components[RefName(schema.ref.value)], fuel - 1, node, h - 1, v);
    }
  }

  lemma BareResolves(components: Components, schema: Schema, fuel: nat)
    ensures Resolve(components, Bare(schema), fuel) == Resolve(components, schema, fuel)
        || Resolve(components, schema, fuel).NotDefined?
  {
  }

  lemma {:induction false} ReferenceAccepts(r: Reading, schema: Schema, fuel: nat, node: Schema, v: Value)
    requires Resolve(r.components, schema, fuel) == Node(node)
    requires OnlyReference(schema) && forall name :: name in r.components ==> OnlyReference(r.components[name])
    requires Accepts(r, node, v)
    ensures Accepts(r, schema, v)
    decreases fuel
  {
    if schema.ref.Some? {
      var target := r.components[RefName(schema.ref.value)];
      ReferenceAccepts(r, target, fuel - 1, node, v);
      var steps: nat :| AcceptsWithin(r, steps, target, v);
      assert AcceptsHere(r, schema, v) by { assert schema.others == [] && schema.bounds == map[]; }
      assert AcceptsParts(r, schema, v) by { NothingDemanded(r, schema, v); }
      assert AcceptsWithin(r, steps + 1, schema, v);
    }
  }

  lemma NothingDemanded(r: Reading, schema: Schema, v: Value)
    requires schema.items.None? && schema.properties.None? && schema.additional.Open?
    ensures AcceptsParts(r, schema, v)
  {
  }

  lemma AlternativeAccepts(r: Reading, node: Schema, option: Schema, v: Value)
    requires Alternatives(node).Some? && OnlyAlternatives(node) && option in Options(node)
    requires Accepts(r, option, v)
    ensures Accepts(r, node, v)
  {
    var steps: nat :| AcceptsWithin(r, steps, option, v);
    assert AcceptsHere(r, node, v) by { assert node.others == [] && node.bounds == map[]; }
    NothingDemanded(r, node, v);
    var i :| 0 <= i < |Options(node)| && Options(node)[i] == option;
    assert AcceptsWithin(r, steps + 1, node, v);
  }

  // ----- one pair of nodes

  lemma HasMember(tasks: seq<Task>)
    ensures tasks == [] || tasks[0] in tasks
  {
  }

  lemma LastIsMember(tasks: seq<Task>)
    ensures tasks == [] || tasks[|tasks| - 1] in tasks
  {
  }

  lemma PrefixedEmpty(findings: seq<Finding>, outcome: Outcome, marked: set<string>)
    requires Prefixed(findings, outcome) == Done([], marked)
    ensures findings == [] && outcome == Done([], marked)
  {
  }

  lemma StepsTaken(r: Reading, schema: Schema, v: Value) returns (h: nat)
    requires Accepts(r, schema, v)
    ensures AcceptsWithin(r, h, schema, v)
  {
    h :| AcceptsWithin(r, h, schema, v);
  }

  lemma NoReports(tasks: seq<Task>, docs: Documents, direction: Direction, fuel: nat, compared: set<string>)
    requires RunTasks(docs, direction, fuel, compared, tasks).Done?
    requires RunTasks(docs, direction, fuel, compared, tasks).findings == []
    ensures forall t :: t in tasks ==> t.Descend?
    decreases |tasks|
  {
  }

  /** No report among the field tasks: every listed field is kept and goes on to be compared. */
  lemma {:induction false} FieldsKept(direction: Direction, fields: seq<Property>, before: Schema, after: Schema,
      where: string, name: string)
    requires forall t :: t in FieldTasks(direction, fields, before, after, where) ==> t.Descend?
    requires Declared(fields, name).Some?
    ensures Declared(PropertiesOf(after), name).Some?
    ensures Descend(Declared(fields, name).value, Declared(PropertiesOf(after), name).value, where + "." + name)
            in FieldTasks(direction, fields, before, after, where)
    ensures direction.Response? && name in before.required ==> name in after.required
  {
    var head, tail := FieldTask(direction, fields[0], before, after, where),
        FieldTasks(direction, fields[1..], before, after, where);
    assert FieldTasks(direction, fields, before, after, where) == head + tail;
    assert forall t :: t in head + tail <==> t in head || t in tail;
    if fields[0].name == name {
      assert head[0] in head;
      LastIsMember(head);
    } else {
      FieldsKept(direction, fields[1..], before, after, where, name);
    }
  }

  lemma EveryBound(b: Bound)
    ensures b in LOWER_BOUNDS || b in UPPER_BOUNDS
  {
  }

  /** The constraints on the value itself carry over. */
  lemma HereIncluded(st: Setting, before: Schema, after: Schema, v: Value)
    requires TypesKept(st.NarrowOf(before, after), st.WideOf(before, after))
    requires KeptHere(st.direction, before, after)
        && (st.WideOf(before, after).enumeration.None? || st.WideOf(before, after).constant.None?)
    requires forall name :: name in st.WideOf(before, after).required ==> name in st.NarrowOf(before, after).required
    requires AcceptsHere(st.NarrowReading(), st.NarrowOf(before, after), v)
    ensures AcceptsHere(st.WideReading(), st.WideOf(before, after), v)
  {
    var narrow, wide := st.NarrowOf(before, after), st.WideOf(before, after);
    if wide.types.Some? {
      var i :| 0 <= i < |narrow.types.value| && HasType(v, narrow.types.value[i]);
      assert narrow.types.value[i] in wide.types.value;
    }
    if ValuesOf(wide).Some? {
      assert v in ValuesOf(narrow).value;
      assert Includes(ValuesOf(wide).value, v);
    }
    forall b | b in wide.bounds ensures WithinBound(v, b, wide.bounds[b]) {
      EveryBound(b);
      assert BoundKept(b, narrow, wide);
      assert WithinBound(v, b, narrow.bounds[b]);
    }
    assert forall name :: KeywordText(wide.others, name).Some? ==>
        st.meaning(name, KeywordText(wide.others, name).value, v);
  }

  ghost predicate CoversTasks(st: Setting, depth: nat, steps: nat, tasks: seq<Task>)
  {
    forall t :: t in tasks && t.Descend? ==> Covers(st, depth, steps, t.before, t.after)
  }

  lemma CoveredChild(st: Setting, depth: nat, steps: nat, before: Schema, after: Schema, v: Value)
    requires Covers(st, depth, steps, before, after) && Depth(v) < depth
    requires Accepts(st.NarrowReading(), st.NarrowOf(before, after), v)
    ensures Accepts(st.WideReading(), st.WideOf(before, after), v)
  {
    var h := StepsTaken(st.NarrowReading(), st.NarrowOf(before, after), v);
    BareAccepts(st.NarrowReading(), h, st.NarrowOf(before, after), v);
    assert UpTo(depth, steps, v, h);
  }

  lemma TasksApart(direction: Direction, before: Schema, after: Schema, where: string)
    requires forall t :: t in NodeTasks(direction, before, after, where) ==> t.Descend?
    ensures KeptHere(direction, before, after)
    ensures direction.Request? ==> RequestTasks(before, after, where) == []
    ensures forall t :: t in FieldTasks(direction, PropertiesOf(before), before, after, where) ==>
              t.Descend? && t in NodeTasks(direction, before, after, where)
    ensures forall t :: t in PartTasks(before, after, where) ==> t in NodeTasks(direction, before, after, where)
  {
    var here, fields := HereTasks(direction, before, after, where),
        FieldTasks(direction, PropertiesOf(before), before, after, where);
    var request, parts := if direction.Request? then RequestTasks(before, after, where)
        else [], PartTasks(before, after, where);
    assert NodeTasks(direction, before, after, where) == here + fields + request + parts;
    assert forall t :: t in here + fields + request + parts <==> t in here || t in fields || t in request || t in parts;
    HasMember(here);
    HasMember(request);
  }

  lemma RequiredKept(st: Setting, before: Schema, after: Schema, where: string, name: string)
    requires forall t :: t in NodeTasks(st.direction, before, after, where) ==> t.Descend?
    requires st.direction.Response? ==> Declared(PropertiesOf(before), name).Some?
    requires name in st.WideOf(before, after).required
    ensures name in st.NarrowOf(before, after).required
  {
    TasksApart(st.direction, before, after, where);
    if st.direction.Response? {
      FieldsKept(st.direction, PropertiesOf(before), before, after, where, name);
    }
  }

  /** A field of the value as the wide side reads it. */
  lemma FieldIncluded(st: Setting, before: Schema, after: Schema, where: string, depth: nat, steps: nat, v: Value,
      i: nat)
    requires forall t :: t in NodeTasks(st.direction, before, after, where) ==> t.Descend?
    requires CoversTasks(st, depth, steps, NodeTasks(st.direction, before, after, where))
    requires RegularFields(st.direction, st.NarrowOf(before, after), st.WideOf(before, after))
    requires v.Object? && i < |v.fields| && Depth(v) <= depth
    requires AcceptsParts(st.NarrowReading(), st.NarrowOf(before, after), v)
    ensures var wide := st.WideOf(before, after);
            var declared := Declared(PropertiesOf(wide), v.fields[i].name);
            if declared.Some? then Accepts(st.WideReading(), declared.value, v.fields[i].value)
            else match wide.additional
              case Open => true
              case Refused => false
              case Values(schema) => Accepts(st.WideReading(), schema, v.fields[i].value)
  {
    var narrow, wide := st.NarrowOf(before, after), st.WideOf(before, after);
    var name, inner := v.fields[i].name, v.fields[i].value;
    assert Depth(inner) < depth by { assert FieldsDepth(v.fields) >= Depth(v.fields[i].value); }
    TasksApart(st.direction, before, after, where);
    if Declared(PropertiesOf(before), name).Some? {
      FieldsKept(st.direction, PropertiesOf(before), before, after, where, name);
      CoveredChild(st, depth, steps, Declared(PropertiesOf(before), name).value,
          Declared(PropertiesOf(after), name).value, inner);
    } else if Declared(PropertiesOf(after), name).Some? {
      var j :| 0 <= j < |PropertiesOf(after)| && PropertiesOf(after)[j].name == name;
    } else if before.additional.Values? && after.additional.Values? {
      assert Descend(before.additional.schema, after.additional.schema, where + ".*")
          in PartTasks(before, after, where);
      CoveredChild(st, depth, steps, before.additional.schema, after.additional.schema, inner);
    }
  }

  lemma NodeIncluded(st: Setting, before: Schema, after: Schema, where: string, depth: nat, steps: nat, v: Value,
      h: nat)
    requires Alternatives(before).None? && Alternatives(after).None? && before.ref.None? && after.ref.None?
    requires TypesKept(st.NarrowOf(before, after), st.WideOf(before, after)) && Regular(st.direction, before, after)
    requires forall t :: t in NodeTasks(st.direction, before, after, where) ==> t.Descend?
    requires CoversTasks(st, depth, steps, NodeTasks(st.direction, before, after, where))
    requires Depth(v) <= depth && AcceptsWithin(st.NarrowReading(), h, st.NarrowOf(before, after), v)
    ensures Accepts(st.WideReading(), st.WideOf(before, after), v)
  {
    var narrow, wide := st.NarrowOf(before, after), st.WideOf(before, after);
    TasksApart(st.direction, before, after, where);
    assert AcceptsHere(st.WideReading(), wide, v) by {
      if v.Object? {
        forall name | name in wide.required ensures name in narrow.required {
          RequiredKept(st, before, after, where, name);
        }
        HereIncluded(st, before, after, v);
      } else {
        HereIncludedApart(st, before, after, v);
      }
    }
    if v.Object? {
      forall i | 0 <= i < |v.fields| {
        FieldIncluded(st, before, after, where, depth, steps, v, i);
      }
    }
    if v.Array? && wide.items.Some? {
      assert Descend(before.items.value, after.items.value, where + "[]") in PartTasks(before, after, where);
      forall i | 0 <= i < |v.elements| ensures Accepts(st.WideReading(), wide.items.value, v.elements[i]) {
        assert ElementsDepth(v.elements) >= Depth(v.elements[i]);
        CoveredChild(st, depth, steps, before.items.value, after.items.value, v.elements[i]);
      }
    }
    assert AcceptsParts(st.WideReading(), wide, v);
    assert AcceptsWithin(st.WideReading(), 1, wide, v);
  }

  /** As `HereIncluded`, for a value that has no fields. */
  lemma HereIncludedApart(st: Setting, before: Schema, after: Schema, v: Value)
    requires TypesKept(st.NarrowOf(before, after), st.WideOf(before, after))
    requires KeptHere(st.direction, before, after)
        && (st.WideOf(before, after).enumeration.None? || st.WideOf(before, after).constant.None?)
    requires !v.Object? && AcceptsHere(st.NarrowReading(), st.NarrowOf(before, after), v)
    ensures AcceptsHere(st.WideReading(), st.WideOf(before, after), v)
  {
    var b, a := before.(required := []), after.(required := []);
    assert KeptHere(st.direction, b, a);
    HereIncluded(st, b, a, v);
  }

  // ----- the run of a comparison

  /**
   The heart of the argument: if the pairs compared before are covered up to a bound, a run
   without findings covers its own pair and every pair it has marked, up to the same bound. A pair
   met again inside its own comparison is covered up to less, because the narrow side has taken
   a reference since.
   */
  lemma {:induction false} RunCovers(st: Setting, pairs: iset<(Schema, Schema)>, depth: nat, steps: nat, fuel: nat,
      compared: set<string>, before: Schema, after: Schema, where: string, marked: set<string>)
    requires RegularPairs(st, pairs) && (before, after) in pairs
    requires CompareNodes(st.docs, st.direction, fuel, compared, before, after, where) == Done([], marked)
    requires CoversKeys(st, pairs, depth, steps, compared)
    ensures Covers(st, depth, steps, before, after) && CoversKeys(st, pairs, depth, steps, marked)
    decreases depth, steps, fuel, 1, 0
  {
    if before.ref.Some? && after.ref.Some? && PairKey(before.ref.value, after.ref.value) in compared {
      return;
    }
    RunStep(st, fuel, compared, before, after, where, marked);
    var inner := Marked(compared, before, after);
    var beforeNode := Resolve(st.docs.before, before, fuel).schema;
    var afterNode := Resolve(st.docs.after, after, fuel).schema;
    assert ResolvesTo(st.docs.before, before, beforeNode) && ResolvesTo(st.docs.after, after, afterNode);
    hide CompareNodes, CompareResolved, Resolve, AcceptsWithin, CoversKeys, Marked;
    forall v, h: nat | UpTo(depth, steps, v, h)
        && AcceptsWithin(st.NarrowReading(), h, Bare(st.NarrowOf(before, after)), v)
      ensures Accepts(st.WideReading(), st.WideOf(before, after), v)
    {
      SmallerBounds(st, pairs, depth, steps, Depth(v), h, compared);
      RunCoversValue(st, pairs, v, h, fuel, compared, before, after, where, marked);
    }
    if before.ref.Some? && after.ref.Some? {
      MarkedCovers(st, pairs, depth, steps, compared, before, after);
    }
    ResolvedRunCovers(st, pairs, depth, steps, fuel - 1, inner, before, after, beforeNode, afterNode, where, marked);
  }

  /** A run without findings that has not met its pair before is the run of the resolved nodes. */
  lemma RunStep(st: Setting, fuel: nat, compared: set<string>, before: Schema, after: Schema, where: string,
      marked: set<string>)
    requires CompareNodes(st.docs, st.direction, fuel, compared, before, after, where) == Done([], marked)
    requires !(before.ref.Some? && after.ref.Some? && PairKey(before.ref.value, after.ref.value) in compared)
    ensures fuel > 0 && Resolve(st.docs.before, before, fuel).Node? && Resolve(st.docs.after, after, fuel).Node?
    ensures CompareResolved(st.docs, st.direction, fuel - 1, Marked(compared, before, after),
                            Resolve(st.docs.before, before, fuel).schema, Resolve(st.docs.after, after, fuel).schema,
                                where) == Done([], marked)
  {
  }

  /** One value, where the pair was not compared before. */
  lemma {:induction false} RunCoversValue(st: Setting, pairs: iset<(Schema, Schema)>, v: Value, h: nat, fuel: nat,
      compared: set<string>, before: Schema, after: Schema, where: string, marked: set<string>)
    requires RegularPairs(st, pairs) && (before, after) in pairs
    requires CompareNodes(st.docs, st.direction, fuel, compared, before, after, where) == Done([], marked)
    requires !(before.ref.Some? && after.ref.Some? && PairKey(before.ref.value, after.ref.value) in compared)
    requires CoversKeys(st, pairs, Depth(v), h, compared)
    requires AcceptsWithin(st.NarrowReading(), h, Bare(st.NarrowOf(before, after)), v)
    ensures Accepts(st.WideReading(), st.WideOf(before, after), v)
    decreases Depth(v), h, fuel, 0, 0
  {
    RunStep(st, fuel, compared, before, after, where, marked);
    hide CompareNodes, CompareResolved, Resolve, AcceptsWithin, CoversKeys, Marked;
    var beforeNode := Resolve(st.docs.before, before, fuel).schema;
    var afterNode := Resolve(st.docs.after, after, fuel).schema;
    assert ResolvesTo(st.docs.before, before, beforeNode) && ResolvesTo(st.docs.after, after, afterNode);
    var narrowNode, wideNode := st.NarrowOf(beforeNode, afterNode), st.WideOf(beforeNode, afterNode);
    BareResolves(st.NarrowReading().components, st.NarrowOf(before, after), fuel);
    var h' := ResolveKeepsAccepted(st.NarrowReading(), Bare(st.NarrowOf(before, after)), fuel, narrowNode, h, v);
    SmallerBounds(st, pairs, Depth(v), h, Depth(v), h', compared);
    if before.ref.Some? && after.ref.Some? {
      RunCovers(st, pairs, Depth(v), h', fuel, compared, before, after, where, marked);
      MarkedCovers(st, pairs, Depth(v), h', compared, before, after);
    }
    ResolvedRunCovers(st, pairs, Depth(v), h', fuel - 1, Marked(compared, before, after), before, after, beforeNode,
        afterNode, where, marked);
    assert UpTo(Depth(v), h', v, h');
    ReferenceAccepts(st.WideReading(), st.WideOf(before, after), fuel, wideNode, v);
  }

  lemma MarkedCovers(st: Setting, pairs: iset<(Schema, Schema)>, depth: nat, steps: nat, compared: set<string>,
      before: Schema, after: Schema)
    requires RegularPairs(st, pairs) && (before, after) in pairs && before.ref.Some? && after.ref.Some?
    requires CoversKeys(st, pairs, depth, steps, compared) && Covers(st, depth, steps, before, after)
    ensures CoversKeys(st, pairs, depth, steps, Marked(compared, before, after))
  {
    forall b, a | (b, a) in pairs && b.ref.Some? && a.ref.Some?
                  && PairKey(b.ref.value, a.ref.value) in Marked(compared, before, after)
      ensures Covers(st, depth, steps, b, a)
    {
      if PairKey(b.ref.value, a.ref.value) !in compared {
        KeyNamesOnePair(b.ref.value, a.ref.value, before.ref.value, after.ref.value);
        assert Bare(st.NarrowOf(b, a)) == Bare(st.NarrowOf(before, after))
            && st.WideOf(b, a) == st.WideOf(before, after);
      }
    }
  }

  lemma {:induction false} ResolvedRunCovers(st: Setting, pairs: iset<(Schema, Schema)>, depth: nat, steps: nat,
      fuel: nat, compared: set<string>, before: Schema, after: Schema, beforeNode: Schema, afterNode: Schema,
      where: string, marked: set<string>)
    requires RegularPairs(st, pairs) && (before, after) in pairs
    requires ResolvesTo(st.docs.before, before, beforeNode) && ResolvesTo(st.docs.after, after, afterNode)
    requires CompareResolved(st.docs, st.direction, fuel, compared, beforeNode, afterNode, where) == Done([], marked)
    requires CoversKeys(st, pairs, depth, steps, compared)
    ensures CoversSides(st, depth, steps, st.NarrowOf(beforeNode, afterNode), st.WideOf(beforeNode, afterNode))
    ensures CoversKeys(st, pairs, depth, steps, marked)
    decreases depth, steps, fuel, 5, 0
  {
    assert Passes(st, beforeNode, afterNode);
    ResolvedIsNoReference(st.docs.before, before, beforeNode);
    ResolvedIsNoReference(st.docs.after, after, afterNode);
    if Alternatives(st.NarrowOf(beforeNode, afterNode)).Some? || Alternatives(st.WideOf(beforeNode, afterNode)).Some? {
      OptionsRunCovers(st, pairs, depth, steps, fuel, compared, beforeNode, afterNode, where, marked);
    } else {
      TasksRunCovers(st, pairs, depth, steps, fuel, compared, beforeNode, afterNode, where, marked);
    }
  }

  lemma {:induction false} OptionsRunCovers(st: Setting, pairs: iset<(Schema, Schema)>, depth: nat, steps: nat,
      fuel: nat, compared: set<string>, before: Schema, after: Schema, where: string, marked: set<string>)
    requires RegularPairs(st, pairs) && LeadsOnlyTo(st, before, after, pairs) && Regular(st.direction, before, after)
    requires Alternatives(st.NarrowOf(before, after)).Some? || Alternatives(st.WideOf(before, after)).Some?
    requires CompareResolved(st.docs, st.direction, fuel, compared, before, after, where) == Done([], marked)
    requires CoversKeys(st, pairs, depth, steps, compared)
    ensures CoversSides(st, depth, steps, st.NarrowOf(before, after), st.WideOf(before, after))
    ensures CoversKeys(st, pairs, depth, steps, marked)
    decreases depth, steps, fuel, 4, 0
  {
    var narrow, wide := st.NarrowOf(before, after), st.WideOf(before, after);
    assert Options(narrow)[0..] == Options(narrow);
    OptionsCovered(st, pairs, depth, steps, fuel, compared, Options(narrow), 0, Options(wide), where, marked);
    OptionsInclude(st, depth, steps, narrow, wide);
  }

  lemma {:induction false} TasksRunCovers(st: Setting, pairs: iset<(Schema, Schema)>, depth: nat, steps: nat,
      fuel: nat, compared: set<string>, before: Schema, after: Schema, where: string, marked: set<string>)
    requires RegularPairs(st, pairs) && LeadsOnlyTo(st, before, after, pairs) && Regular(st.direction, before, after)
    requires Alternatives(before).None? && Alternatives(after).None? && before.ref.None? && after.ref.None?
    requires CompareResolved(st.docs, st.direction, fuel, compared, before, after, where) == Done([], marked)
    requires CoversKeys(st, pairs, depth, steps, compared)
    ensures CoversSides(st, depth, steps, st.NarrowOf(before, after), st.WideOf(before, after))
    ensures CoversKeys(st, pairs, depth, steps, marked)
    decreases depth, steps, fuel, 4, 0
  {
    var tasks := NodeTasks(st.direction, before, after, where);
    NoReports(tasks, st.docs, st.direction, fuel, compared);
    TasksCovered(st, pairs, depth, steps, fuel, compared, tasks, marked);
    TasksInclude(st, depth, steps, before, after, where);
  }

  lemma TasksInclude(st: Setting, depth: nat, steps: nat, before: Schema, after: Schema, where: string)
    requires Alternatives(before).None? && Alternatives(after).None? && before.ref.None? && after.ref.None?
    requires TypesKept(st.NarrowOf(before, after), st.WideOf(before, after)) && Regular(st.direction, before, after)
    requires forall t :: t in NodeTasks(st.direction, before, after, where) ==> t.Descend?
    requires CoversTasks(st, depth, steps, NodeTasks(st.direction, before, after, where))
    ensures CoversSides(st, depth, steps, st.NarrowOf(before, after), st.WideOf(before, after))
  {
    forall v, h: nat | UpTo(depth, steps, v, h) && AcceptsWithin(st.NarrowReading(), h, st.NarrowOf(before, after), v)
      ensures Accepts(st.WideReading(), st.WideOf(before, after), v)
    {
      NodeIncluded(st, before, after, where, depth, steps, v, h);
    }
  }

  lemma OptionsInclude(st: Setting, depth: nat, steps: nat, narrow: Schema, wide: Schema)
    requires Alternatives(wide).Some? ==> OnlyAlternatives(wide)
    requires forall option :: option in Options(narrow) ==>
                                exists candidate ::
                                    candidate in Options(wide) && CoversSides(st, depth, steps, option, candidate)
    ensures CoversSides(st, depth, steps, narrow, wide)
  {
    forall v, h: nat | UpTo(depth, steps, v, h) && AcceptsWithin(st.NarrowReading(), h, narrow, v)
      ensures Accepts(st.WideReading(), wide, v)
    {
      var option, h' := OptionTaken(st.NarrowReading(), narrow, h, v);
      var candidate :| candidate in Options(wide) && CoversSides(st, depth, steps, option, candidate);
      assert UpTo(depth, steps, v, h');
      if Alternatives(wide).Some? {
        AlternativeAccepts(st.WideReading(), wide, candidate, v);
      }
    }
  }

  lemma {:induction false} ResolvedIsNoReference(components: Components, schema: Schema, node: Schema)
    requires ResolvesTo(components, schema, node)
    ensures node.ref.None?
  {
    var fuel: nat :| Resolve(components, schema, fuel) == Node(node);
    ResolveEndsAtNode(components, schema, fuel);
  }

  lemma {:induction false} ResolveEndsAtNode(components: Components, schema: Schema, fuel: nat)
    ensures Resolve(components, schema, fuel).Node? ==> Resolve(components, schema, fuel).schema.ref.None?
    decreases fuel
  {
    if schema.ref.Some? && RefName(schema.ref.value) in components && fuel > 0 {
      ResolveEndsAtNode(components, components[RefName(schema.ref.value)], fuel - 1);
    }
  }

  lemma OptionTaken(r: Reading, node: Schema, h: nat, v: Value) returns (option: Schema, h': nat)
    requires AcceptsWithin(r, h, node, v)
    ensures option in Options(node) && h' <= h && AcceptsWithin(r, h', option, v)
  {
    if Alternatives(node).Some? {
      var i :| 0 <= i < |Options(node)| && AcceptsWithin(r, h - 1, Options(node)[i], v);
      option, h' := Options(node)[i], h - 1;
    } else {
      option, h' := node, h;
    }
  }

  lemma {:induction false} OptionsCovered(st: Setting, pairs: iset<(Schema, Schema)>, depth: nat, steps: nat,
      fuel: nat, compared: set<string>, narrow: seq<Schema>, index: nat, wide: seq<Schema>, where: string,
      marked: set<string>)
    requires RegularPairs(st, pairs) && index <= |narrow|
    requires forall option, candidate :: option in narrow && candidate in wide ==>
                                           (st.NarrowOf(option, candidate), st.WideOf(option, candidate)) in pairs
    requires CompareOptions(st.docs, st.direction, fuel, compared, narrow, index, wide, where) == Done([], marked)
    requires CoversKeys(st, pairs, depth, steps, compared)
    ensures marked == compared
    ensures forall option :: option in narrow[index..] ==>
                               exists candidate :: candidate in wide && CoversSides(st, depth, steps, option, candidate)
    decreases depth, steps, fuel, 3, |narrow| - index
  {
    if index < |narrow| {
      var cover := CoveringOption(st.docs, st.direction, fuel, compared, narrow[index], wide, where);
      PrefixedEmpty(if cover.covered then [] else [Finding(where, AlternativeNotCovered(index))],
                    CompareOptions(st.docs, st.direction, fuel, compared, narrow, index + 1, wide, where), marked);
      OptionCovered(st, pairs, depth, steps, fuel, compared, narrow[index], wide, where);
      OptionsCovered(st, pairs, depth, steps, fuel, compared, narrow, index + 1, wide, where, marked);
      assert narrow[index..] == [narrow[index]] + narrow[index + 1..];
    }
  }

  lemma {:induction false} OptionCovered(st: Setting, pairs: iset<(Schema, Schema)>, depth: nat, steps: nat,
      fuel: nat, compared: set<string>, option: Schema, candidates: seq<Schema>, where: string)
    requires RegularPairs(st, pairs)
    requires forall candidate :: candidate in candidates ==>
        (st.NarrowOf(option, candidate), st.WideOf(option, candidate)) in pairs
    requires CoveringOption(st.docs, st.direction, fuel, compared, option, candidates, where) == Covered(true)
    requires CoversKeys(st, pairs, depth, steps, compared)
    ensures exists candidate :: candidate in candidates && CoversSides(st, depth, steps, option, candidate)
    decreases depth, steps, fuel, 2, |candidates|
  {
    var before, after := st.NarrowOf(option, candidates[0]), st.WideOf(option, candidates[0]);
    var trial := CompareNodes(st.docs, st.direction, fuel, compared, before, after, where);
    assert candidates[0] in candidates;
    if trial.findings == [] {
      RunCovers(st, pairs, depth, steps, fuel, compared, before, after, where, trial.compared);
      CoversMore(st, depth, steps, before, after);
    } else {
      OptionCovered(st, pairs, depth, steps, fuel, compared, option, candidates[1..], where);
    }
  }

  lemma {:induction false} TasksCovered(st: Setting, pairs: iset<(Schema, Schema)>, depth: nat, steps: nat,
      fuel: nat, compared: set<string>, tasks: seq<Task>, marked: set<string>)
    requires RegularPairs(st, pairs)
    requires forall t :: t in tasks ==> t.Descend? && (t.before, t.after) in pairs
    requires RunTasks(st.docs, st.direction, fuel, compared, tasks) == Done([], marked)
    requires CoversKeys(st, pairs, depth, steps, compared)
    ensures CoversTasks(st, depth, steps, tasks) && CoversKeys(st, pairs, depth, steps, marked)
    decreases depth, steps, fuel, 2, |tasks|
  {
    if tasks != [] {
      var task := tasks[0];
      assert task in tasks;
      var first := CompareNodes(st.docs, st.direction, fuel, compared, task.before, task.after, task.where);
      RunCovers(st, pairs, depth, steps, fuel, compared, task.before, task.after, task.where, first.compared);
      TasksCovered(st, pairs, depth, steps, fuel, first.compared, tasks[1..], marked);
    }
  }

  /** A comparison that ends without a finding, over regular pairs, has shown the inclusion. */
  lemma NoFindingMeansIncluded(st: Setting, pairs: iset<(Schema, Schema)>, fuel: nat, before: Schema, after: Schema,
      where: string)
    requires RegularPairs(st, pairs) && (before, after) in pairs
    requires CompareSchemas(st.docs, st.direction, fuel, before, after, where).Done?
    requires CompareSchemas(st.docs, st.direction, fuel, before, after, where).findings == []
    ensures Included(st, before, after)
  {
    var marked := CompareSchemas(st.docs, st.direction, fuel, before, after, where).compared;
    forall v | Accepts(st.NarrowReading(), st.NarrowOf(before, after), v)
      ensures Accepts(st.WideReading(), st.WideOf(before, after), v)
    {
      var h := StepsTaken(st.NarrowReading(), st.NarrowOf(before, after), v);
      RunCovers(st, pairs, Depth(v), h, fuel, {}, before, after, where, marked);
      CoversMore(st, Depth(v), h, before, after);
      assert UpTo(Depth(v), h, v, h);
    }
  }
}
