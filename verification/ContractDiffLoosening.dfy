/**
 What the comparison must not report: a change that only makes the wide side looser or the narrow
 side tighter. Looser and tighter are told by what schemas say, at any depth, and not by what the
 comparison asks.
 */
module ContractDiffLoosening {
  import opened Optional
  import opened JsonSchema
  import opened ContractDiff
  import opened ContractDiffSoundness
  import opened ContractDiffLimits
  import opened ContractDiffTermination

  /** A change of schemas: which may stand in the place of which. */
  type Change = iset<(Schema, Schema)>

  /** The document before and after, seen as the narrow and the wide side. */
  function Before<T>(direction: Direction, narrow: T, wide: T): T { Narrow(direction, narrow, wide) }

  function After<T>(direction: Direction, narrow: T, wide: T): T { Wide(direction, narrow, wide) }

  // ----- looser and tighter schemas

  predicate LooserBounds(than: map<Bound, real>, b: map<Bound, real>)
  {
    forall k :: k in b ==> k in than && if k in LOWER_BOUNDS then b[k] <= than[k] else than[k] <= b[k]
  }

  predicate LooserTypes(than: Option<seq<string>>, b: Option<seq<string>>)
  {
    b.Some? ==> than.Some? && forall t :: t in than.value ==> t in b.value
  }

  predicate LooserValues(than: Option<seq<Value>>, b: Option<seq<Value>>)
  {
    b.Some? ==> than.Some? && forall v :: v in than.value ==> v in b.value
  }

  /** What a node says of a value by itself, apart from the keywords the comparison does not read, which stay. */
  predicate LooserHere(s: Schema, l: Schema)
  {
    && LooserTypes(s.types, l.types) && LooserValues(ValuesOf(s), ValuesOf(l)) && LooserBounds(s.bounds, l.bounds)
    && l.others == s.others
    && (forall name :: name in l.required ==> name in s.required)
    && (l.additional.Refused? ==> s.additional.Refused?)
  }

  /** Parts that both have, or neither. */
  ghost predicate PartsChange(s: Schema, t: Schema, change: Change)
  {
    && (s.items.Some? <==> t.items.Some?) && (s.items.Some? ==> (s.items.value, t.items.value) in change)
    && (s.additional.Values? <==> t.additional.Values?)
    && (s.additional.Values? ==> (s.additional.schema, t.additional.schema) in change)
  }

  /** The same fields in the same order. */
  ghost predicate FieldsChange(s: seq<Property>, t: seq<Property>, change: Change)
  {
    && |s| == |t|
    && forall i :: 0 <= i < |s| ==> t[i].name == s[i].name && (s[i].schema, t[i].schema) in change
  }

  /** Every field that was listed still is, and others may be. */
  ghost predicate FieldsGrow(s: seq<Property>, t: seq<Property>, change: Change)
  {
    forall name :: Declared(s, name).Some? ==>
        Declared(t, name).Some? && (Declared(s, name).value, Declared(t, name).value) in change
  }

  /**
   The wide side comes to be looser. In a request it is the new document, which may come to list more
   fields; in a response it is the old one.
   */
  ghost predicate Loosens(direction: Direction, loose: Change)
  {
    forall s, l :: (s, l) in loose ==>
        l.ref == s.ref && (s.ref.None? ==>
            if Alternatives(s).Some? || Alternatives(l).Some? then
              Alternatives(s).Some? && Alternatives(l).Some?
              && forall o :: o in Options(s) ==> exists p :: p in Options(l) && (o, p) in loose
            else
              LooserHere(s, l) && PartsChange(s, l, loose)
              && if direction.Request? then FieldsGrow(PropertiesOf(s), PropertiesOf(l), loose)
                 else FieldsChange(PropertiesOf(s), PropertiesOf(l), loose))
  }

  /** The narrow side comes to be tighter. */
  ghost predicate Tightens(direction: Direction, tight: Change)
  {
    forall s, t :: (s, t) in tight ==>
        t.ref == s.ref && (s.ref.None? ==>
            if Alternatives(s).Some? || Alternatives(t).Some? then
              Alternatives(s).Some? && Alternatives(t).Some?
              && forall p :: p in Options(t) ==> exists o :: o in Options(s) && (o, p) in tight
            else
              LooserHere(t, s) && PartsChange(s, t, tight)
              && if direction.Request? then FieldsChange(PropertiesOf(s), PropertiesOf(t), tight)
                 else FieldsGrow(PropertiesOf(s), PropertiesOf(t), tight))
  }

  /** What a schema refers to changes with it. */
  ghost predicate ComponentsChange(from: Components, to: Components, change: Change)
  {
    forall s, t :: (s, t) in change && s.ref.Some? && RefName(s.ref.value) in from ==>
        && RefName(s.ref.value) in to
        && (from[RefName(s.ref.value)], to[RefName(s.ref.value)]) in change
  }

  /** Both sides of a comparison and how they come to be milder. */
  datatype Milder = Milder(direction: Direction, narrow: Components, wide: Components, tighter: Components,
      looser: Components, ghost tight: Change, ghost loose: Change)
  {
    function Docs(): Documents { Documents(Before(direction, narrow, wide), After(direction, narrow, wide)) }

    function MilderDocs(): Documents
    {
      Documents(Before(direction, tighter, looser), After(direction, tighter, looser))
    }

    ghost predicate Valid()
    {
      && Tightens(direction, tight) && Loosens(direction, loose)
      && ComponentsChange(narrow, tighter, tight) && ComponentsChange(wide, looser, loose)
    }

    /** No schema of either side has alternatives, of which a milder one may try others first. */
    ghost predicate Plain()
    {
      && (forall s, t :: (s, t) in tight ==> Alternatives(s).None?)
      && (forall s, l :: (s, l) in loose ==> Alternatives(s).None?)
    }

    ghost predicate Stands(n: Schema, w: Schema, t: Schema, l: Schema) { (n, t) in tight && (w, l) in loose }

    ghost function Compare(fuel: nat, compared: set<string>, n: Schema, w: Schema, where: string): Outcome
    {
      CompareNodes(Docs(), direction, fuel, compared, Before(direction, n, w), After(direction, n, w), where)
    }

    ghost function CompareMilder(fuel: nat, compared: set<string>, t: Schema, l: Schema, where: string): Outcome
    {
      CompareNodes(MilderDocs(), direction, fuel, compared, Before(direction, t, l), After(direction, t, l), where)
    }

    /** What the milder comparison may give where the other one has found nothing and marked `marked`. */
    ghost predicate AsSilent(milder: Outcome, marked: set<string>)
    {
      if milder.Done? then milder == Done([], marked) else !Plain()
    }
  }

  // ----- nodes

  ghost predicate KeepsRefs(change: Change)
  {
    forall s, t :: (s, t) in change ==> t.ref == s.ref
  }

  lemma {:induction false} ResolvesAlong(from: Components, to: Components, change: Change, s: Schema, t: Schema,
      fuel: nat)
    requires KeepsRefs(change) && ComponentsChange(from, to, change) && (s, t) in change
    requires Resolve(from, s, fuel).Node?
    ensures Resolve(to, t, fuel).Node?
    ensures (Resolve(from, s, fuel).schema, Resolve(to, t, fuel).schema) in change
    ensures Resolve(from, s, fuel).schema.ref.None?
    decreases fuel
  {
    if s.ref.Some? {
      var name := RefName(s.ref.value);
      ResolvesAlong(from, to, change, from[name], to[name], fuel - 1);
    }
  }

  lemma KeptAlong(direction: Direction, n: Schema, w: Schema, t: Schema, l: Schema)
    requires TypesKept(n, w) && KeptHere(direction, Before(direction, n, w), After(direction, n, w))
    requires LooserHere(t, n) && LooserHere(w, l)
    ensures TypesKept(t, l) && KeptHere(direction, Before(direction, t, l), After(direction, t, l))
  {
    assert ValuesKept(t, l);
    forall b ensures BoundKept(b, n, w) ==> BoundKept(b, t, l) {}
  }

  // ----- the steps of two nodes

  /** One descent in the place of another, to schemas that stand in the place of its own. */
  ghost predicate Alongside(m: Milder, task: Task, milder: Task)
  {
    && task.Descend? && milder.Descend? && milder.where == task.where
    && m.Stands(Narrow(m.direction, task.before, task.after), Wide(m.direction, task.before, task.after),
                Narrow(m.direction, milder.before, milder.after), Wide(m.direction, milder.before, milder.after))
  }

  ghost predicate AllAlongside(m: Milder, tasks: seq<Task>, milder: seq<Task>)
  {
    |tasks| == |milder| && forall i :: 0 <= i < |tasks| ==> Alongside(m, tasks[i], milder[i])
  }

  lemma AlongsideTogether(m: Milder, a: seq<Task>, b: seq<Task>, a': seq<Task>, b': seq<Task>)
    requires AllAlongside(m, a, a') && AllAlongside(m, b, b')
    ensures AllAlongside(m, a + b, a' + b')
  {
  }

  /** The two changes of a pair of documents, the old one's first. */
  ghost function ChangeBefore(m: Milder): Change { Before(m.direction, m.tight, m.loose) }

  ghost function ChangeAfter(m: Milder): Change { After(m.direction, m.tight, m.loose) }

  lemma {:induction false} FieldsAlong(m: Milder, fields: seq<Property>, others: seq<Property>, before: Schema,
      after: Schema, before': Schema, after': Schema, where: string)
    requires FieldsChange(fields, others, ChangeBefore(m))
    requires FieldsGrow(PropertiesOf(after), PropertiesOf(after'), ChangeAfter(m))
    requires m.direction.Response? ==> forall name :: name in before'.required ==> name in before.required
    requires m.direction.Response? ==> forall name :: name in after.required ==> name in after'.required
    requires forall t :: t in FieldTasks(m.direction, fields, before, after, where) ==> t.Descend?
    ensures AllAlongside(m, FieldTasks(m.direction, fields, before, after, where),
        FieldTasks(m.direction, others, before', after', where))
  {
    if fields != [] {
      var first, rest := FieldTask(m.direction, fields[0], before, after, where),
          FieldTasks(m.direction, fields[1..], before, after, where);
      var first', rest' := FieldTask(m.direction, others[0], before', after', where),
          FieldTasks(m.direction, others[1..], before', after', where);
      assert FieldTasks(m.direction, fields, before, after, where) == first + rest;
      assert FieldTasks(m.direction, others, before', after', where) == first' + rest';
      assert forall t :: t in first || t in rest ==> t in first + rest;
      FieldAlong(m, fields[0], others[0], before, after, before', after', where);
      FieldsAlong(m, fields[1..], others[1..], before, after, before', after', where);
      AlongsideTogether(m, first, rest, first', rest');
    }
  }

  lemma FieldAlong(m: Milder, field: Property, other: Property, before: Schema, after: Schema, before': Schema,
      after': Schema, where: string)
    requires other.name == field.name && (field.schema, other.schema) in ChangeBefore(m)
    requires FieldsGrow(PropertiesOf(after), PropertiesOf(after'), ChangeAfter(m))
    requires m.direction.Response? ==> forall name :: name in before'.required ==> name in before.required
    requires m.direction.Response? ==> forall name :: name in after.required ==> name in after'.required
    requires forall t :: t in FieldTask(m.direction, field, before, after, where) ==> t.Descend?
    ensures AllAlongside(m, FieldTask(m.direction, field, before, after, where),
        FieldTask(m.direction, other, before', after', where))
  {
    var tasks := FieldTask(m.direction, field, before, after, where);
    var kept := Declared(PropertiesOf(after), field.name);
    assert tasks != [] && tasks[0] in tasks && tasks[|tasks| - 1] in tasks;
    assert kept.Some?;
    assert (kept.value, Declared(PropertiesOf(after'), field.name).value) in ChangeAfter(m);
  }

  lemma PartsAlong(m: Milder, before: Schema, after: Schema, before': Schema, after': Schema, where: string)
    requires PartsChange(before, before', ChangeBefore(m)) && PartsChange(after, after', ChangeAfter(m))
    ensures AllAlongside(m, PartTasks(before, after, where), PartTasks(before', after', where))
  {
    var items := if before.items.Some? && after.items.Some?
        then [Descend(before.items.value, after.items.value, where + "[]")] else [];
    var items' := if before'.items.Some? && after'.items.Some?
        then [Descend(before'.items.value, after'.items.value, where + "[]")] else [];
    var values := if before.additional.Values? && after.additional.Values?
        then [Descend(before.additional.schema, after.additional.schema, where + ".*")] else [];
    var values' := if before'.additional.Values? && after'.additional.Values?
        then [Descend(before'.additional.schema, after'.additional.schema, where + ".*")] else [];
    AlongsideTogether(m, items, values, items', values');
  }

  /** Two nodes without alternatives, and the two that stand in their places. */
  ghost predicate PlainNodes(m: Milder, n: Schema, w: Schema, t: Schema, l: Schema)
  {
    && m.Valid() && m.Stands(n, w, t, l) && n.ref.None? && w.ref.None?
    && Alternatives(n).None? && Alternatives(w).None? && Alternatives(t).None? && Alternatives(l).None?
  }

  ghost predicate FieldsStand(m: Milder, before: Schema, after: Schema, before': Schema, after': Schema)
  {
    && FieldsChange(PropertiesOf(before), PropertiesOf(before'), ChangeBefore(m))
    && FieldsGrow(PropertiesOf(after), PropertiesOf(after'), ChangeAfter(m))
    && PartsChange(before, before', ChangeBefore(m)) && PartsChange(after, after', ChangeAfter(m))
  }

  lemma PlainNodesStand(m: Milder, n: Schema, w: Schema, t: Schema, l: Schema)
    requires PlainNodes(m, n, w, t, l)
    ensures LooserHere(t, n) && LooserHere(w, l)
    ensures FieldsStand(m, Before(m.direction, n, w), After(m.direction, n, w), Before(m.direction, t, l),
        After(m.direction, t, l))
  {
    hide LooserHere, FieldsChange, FieldsGrow, PartsChange;
  }

  lemma NodesAlong(m: Milder, n: Schema, w: Schema, t: Schema, l: Schema, where: string)
    requires PlainNodes(m, n, w, t, l) && TypesKept(n, w)
    requires forall task ::
        task in NodeTasks(m.direction, Before(m.direction, n, w), After(m.direction, n, w), where) ==> task.Descend?
    ensures TypesKept(t, l)
    ensures AllAlongside(m, NodeTasks(m.direction, Before(m.direction, n, w), After(m.direction, n, w), where),
        NodeTasks(m.direction, Before(m.direction, t, l), After(m.direction, t, l), where))
  {
    hide NodeTasks, FieldTasks, PartTasks, AllAlongside, KeptHere, FieldsChange, FieldsGrow, PartsChange, PlainNodes;
    var before, after := Before(m.direction, n, w), After(m.direction, n, w);
    var before', after' := Before(m.direction, t, l), After(m.direction, t, l);
    TasksApart(m.direction, before, after, where);
    PlainNodesStand(m, n, w, t, l);
    KeptAlong(m.direction, n, w, t, l);
    FieldsAlong(m, PropertiesOf(before), PropertiesOf(before'), before, after, before', after', where);
    PartsAlong(m, before, after, before', after', where);
    assert m.direction.Request? ==> RequestTasks(before', after', where) == [];
    AlongsideTogether(m, FieldTasks(m.direction, PropertiesOf(before), before, after, where),
        PartTasks(before, after, where), FieldTasks(m.direction, PropertiesOf(before'), before', after', where),
        PartTasks(before', after', where));
    OnlyFieldsAndParts(m.direction, before, after, where);
    OnlyFieldsAndParts(m.direction, before', after', where);
  }

  lemma OnlyFieldsAndParts(direction: Direction, before: Schema, after: Schema, where: string)
    requires KeptHere(direction, before, after)
    requires direction.Request? ==> RequestTasks(before, after, where) == []
    ensures NodeTasks(direction, before, after, where)
        == FieldTasks(direction, PropertiesOf(before), before, after, where) + PartTasks(before, after, where)
  {
    hide FieldTasks, PartTasks, KeptHere;
  }

  // ----- the comparison

  lemma RefsKept(m: Milder)
    requires m.Valid()
    ensures KeepsRefs(m.tight) && KeepsRefs(m.loose)
  {
  }

  lemma SkippedStep(docs: Documents, direction: Direction, fuel: nat, compared: set<string>, before: Schema,
      after: Schema, where: string)
    requires fuel > 0 && before.ref.Some? && after.ref.Some?
    requires PairKey(before.ref.value, after.ref.value) in compared
    ensures CompareNodes(docs, direction, fuel, compared, before, after, where) == Done([], compared)
  {
  }

  lemma SilentStep(docs: Documents, direction: Direction, fuel: nat, compared: set<string>, before: Schema,
      after: Schema, where: string)
    requires CompareNodes(docs, direction, fuel, compared, before, after, where).Done?
    ensures fuel > 0
    ensures (before.ref.Some? && after.ref.Some? && PairKey(before.ref.value, after.ref.value) in compared)
        || (Resolve(docs.before, before, fuel).Node? && Resolve(docs.after, after, fuel).Node?)
  {
  }

  /**
   A comparison that finds nothing finds nothing either, at the same place and with the same pairs
   marked, once its wide side is looser and its narrow side is tighter. It ends as well, unless
   alternatives that stand before the old ones are tried first.
   */
  lemma {:induction false} LooseningIsSilent(m: Milder, fuel: nat, compared: set<string>, n: Schema, w: Schema,
      t: Schema, l: Schema, where: string, marked: set<string>)
    requires m.Valid() && m.Stands(n, w, t, l)
    requires m.Compare(fuel, compared, n, w, where) == Done([], marked)
    ensures m.AsSilent(m.CompareMilder(fuel, compared, t, l, where), marked)
    decreases fuel, 1, 0
  {
    hide CompareNodes, CompareResolved, Resolve, Tightens, Loosens;
    var docs, docs' := m.Docs(), m.MilderDocs();
    var before, after := Before(m.direction, n, w), After(m.direction, n, w);
    var before', after' := Before(m.direction, t, l), After(m.direction, t, l);
    RefsKept(m);
    SilentStep(docs, m.direction, fuel, compared, before, after, where);
    if before.ref.Some? && after.ref.Some? && PairKey(before.ref.value, after.ref.value) in compared {
      SkippedStep(docs', m.direction, fuel, compared, before', after', where);
      SkippedStep(docs, m.direction, fuel, compared, before, after, where);
    } else {
      ResolvesAlong(docs.before, docs'.before, ChangeBefore(m), before, before', fuel);
      ResolvesAlong(docs.after, docs'.after, ChangeAfter(m), after, after', fuel);
      NodeStep(docs, m.direction, fuel, compared, before, after, where);
      NodeStep(docs', m.direction, fuel, compared, before', after', where);
      var b, a := Resolve(docs.before, before, fuel).schema, Resolve(docs.after, after, fuel).schema;
      var b', a' := Resolve(docs'.before, before', fuel).schema, Resolve(docs'.after, after', fuel).schema;
      NodesStaySilent(m, fuel - 1, Marked(compared, before, after), Narrow(m.direction, b, a), Wide(m.direction, b, a),
          Narrow(m.direction, b', a'), Wide(m.direction, b', a'), where, marked);
    }
  }

  lemma {:induction false} NodesStaySilent(m: Milder, fuel: nat, compared: set<string>, n: Schema, w: Schema,
      t: Schema, l: Schema, where: string, marked: set<string>)
    requires m.Valid() && m.Stands(n, w, t, l) && n.ref.None? && w.ref.None?
    requires CompareResolved(m.Docs(), m.direction, fuel, compared, Before(m.direction, n, w),
        After(m.direction, n, w), where) == Done([], marked)
    ensures m.AsSilent(CompareResolved(m.MilderDocs(), m.direction, fuel, compared, Before(m.direction, t, l),
        After(m.direction, t, l), where), marked)
    decreases fuel, 4, 0
  {
    hide RunTasks, CompareOptions, NodeTasks;
    if Alternatives(n).Some? || Alternatives(w).Some? || Alternatives(t).Some? || Alternatives(l).Some? {
      OptionsStaySilent(m, fuel, compared, Options(n), Options(w), Options(t), 0, Options(l), where, marked);
    } else {
      var tasks := NodeTasks(m.direction, Before(m.direction, n, w), After(m.direction, n, w), where);
      NoReports(tasks, m.Docs(), m.direction, fuel, compared);
      NodesAlong(m, n, w, t, l, where);
      TasksStaySilent(m, fuel, compared, tasks,
          NodeTasks(m.direction, Before(m.direction, t, l), After(m.direction, t, l), where), marked);
    }
  }

  lemma {:induction false} TasksStaySilent(m: Milder, fuel: nat, compared: set<string>, tasks: seq<Task>,
      milder: seq<Task>, marked: set<string>)
    requires m.Valid() && AllAlongside(m, tasks, milder)
    requires RunTasks(m.Docs(), m.direction, fuel, compared, tasks) == Done([], marked)
    ensures m.AsSilent(RunTasks(m.MilderDocs(), m.direction, fuel, compared, milder), marked)
    decreases fuel, 2, |tasks|
  {
    if tasks != [] {
      var a, b := tasks[0], milder[0];
      assert Alongside(m, a, b);
      var first := CompareNodes(m.Docs(), m.direction, fuel, compared, a.before, a.after, a.where);
      var then' := RunTasks(m.Docs(), m.direction, fuel, first.compared, tasks[1..]);
      assert first.Done? && then'.Done? && first.findings + then'.findings == [];
      LooseningIsSilent(m, fuel, compared, Narrow(m.direction, a.before, a.after),
          Wide(m.direction, a.before, a.after), Narrow(m.direction, b.before, b.after),
          Wide(m.direction, b.before, b.after), a.where, first.compared);
      assert forall i :: 0 <= i < |tasks[1..]| ==> tasks[1..][i] == tasks[i + 1] && milder[1..][i] == milder[i + 1];
      TasksStaySilent(m, fuel, first.compared, tasks[1..], milder[1..], marked);
    }
  }

  ghost function Trial(docs: Documents, direction: Direction, fuel: nat, compared: set<string>, option: Schema,
      candidate: Schema, where: string): Outcome
  {
    CompareNodes(docs, direction, fuel, compared, Before(direction, option, candidate),
        After(direction, option, candidate), where)
  }

  lemma {:induction false} CoveredBy(docs: Documents, direction: Direction, fuel: nat, compared: set<string>,
      option: Schema, candidates: seq<Schema>, where: string) returns (candidate: Schema)
    requires CoveringOption(docs, direction, fuel, compared, option, candidates, where) == Covered(true)
    ensures candidate in candidates
    ensures Trial(docs, direction, fuel, compared, option, candidate, where).Done?
    ensures Trial(docs, direction, fuel, compared, option, candidate, where).findings == []
    decreases |candidates|
  {
    if Trial(docs, direction, fuel, compared, option, candidates[0], where).findings == [] {
      candidate := candidates[0];
    } else {
      candidate := CoveredBy(docs, direction, fuel, compared, option, candidates[1..], where);
    }
  }

  lemma {:induction false} EachCovered(docs: Documents, direction: Direction, fuel: nat, compared: set<string>,
      options: seq<Schema>, index: nat, candidates: seq<Schema>, where: string, marked: set<string>)
    requires index <= |options|
    requires CompareOptions(docs, direction, fuel, compared, options, index, candidates, where) == Done([], marked)
    ensures marked == compared
    ensures forall i :: index <= i < |options| ==>
        CoveringOption(docs, direction, fuel, compared, options[i], candidates, where) == Covered(true)
    decreases |options| - index
  {
    hide CoveringOption;
    if index < |options| {
      assert CoveringOption(docs, direction, fuel, compared, options[index], candidates, where) == Covered(true);
      EachCovered(docs, direction, fuel, compared, options, index + 1, candidates, where, marked);
    }
  }

  lemma {:induction false} CoversUnlessBroken(docs: Documents, direction: Direction, fuel: nat, compared: set<string>,
      option: Schema, candidates: seq<Schema>, candidate: Schema, where: string)
    requires candidate in candidates
    requires var trial := Trial(docs, direction, fuel, compared, option, candidate, where);
             trial.Done? ==> trial.findings == []
    ensures var cover := CoveringOption(docs, direction, fuel, compared, option, candidates, where);
            cover.Covered? ==> cover.covered
    decreases |candidates|
  {
    hide CompareNodes;
    var trial := Trial(docs, direction, fuel, compared, option, candidates[0], where);
    if trial.Done? && trial.findings != [] {
      CoversUnlessBroken(docs, direction, fuel, compared, option, candidates[1..], candidate, where);
    }
  }

  /** The old options of the wide side stay among the new ones, and the new ones of the narrow side were there. */
  ghost predicate OptionsAlong(m: Milder, options: seq<Schema>, candidates: seq<Schema>, milder: seq<Schema>,
      looser: seq<Schema>)
  {
    && (forall p :: p in milder ==> exists o :: o in options && (o, p) in m.tight)
    && (forall o :: o in candidates ==> exists p :: p in looser && (o, p) in m.loose)
  }

  lemma {:induction false} OptionsStaySilent(m: Milder, fuel: nat, compared: set<string>, options: seq<Schema>,
      candidates: seq<Schema>, milder: seq<Schema>, index: nat, looser: seq<Schema>, where: string,
      marked: set<string>)
    requires m.Valid() && !m.Plain() && OptionsAlong(m, options, candidates, milder, looser) && index <= |milder|
    requires CompareOptions(m.Docs(), m.direction, fuel, compared, options, 0, candidates, where) == Done([], marked)
    ensures m.AsSilent(CompareOptions(m.MilderDocs(), m.direction, fuel, compared, milder, index, looser, where),
        marked)
    decreases fuel, 3, |milder| - index
  {
    hide CoveringOption, CompareNodes;
    EachCovered(m.Docs(), m.direction, fuel, compared, options, 0, candidates, where, marked);
    if index < |milder| {
      var p := milder[index];
      assert p in milder;
      var option :| option in options && (option, p) in m.tight;
      var candidate := CoveredBy(m.Docs(), m.direction, fuel, compared, option, candidates, where);
      var other :| other in looser && (candidate, other) in m.loose;
      LooseningIsSilent(m, fuel, compared, option, candidate, p, other, where,
          Trial(m.Docs(), m.direction, fuel, compared, option, candidate, where).compared);
      CoversUnlessBroken(m.MilderDocs(), m.direction, fuel, compared, p, looser, other, where);
      OptionsStaySilent(m, fuel, compared, options, candidates, milder, index + 1, looser, where, marked);
    }
  }

  // ----- compatible changes of one document

  /** A request may come to accept more, and an answer may come to hold less. */
  ghost predicate Compatible(direction: Direction, published: Components, proposed: Components, change: Change)
  {
    && (if direction.Request? then Loosens(direction, change) else Tightens(direction, change))
    && ComponentsChange(published, proposed, change)
  }

  ghost function Unchanged(known: iset<Schema>): Change { iset s | s in known :: (s, s) }

  ghost predicate NoAlternatives(known: iset<Schema>) { forall s :: s in known ==> Alternatives(s).None? }

  lemma UnchangedIsValid(direction: Direction, components: Components, known: iset<Schema>)
    requires WellFormed(components, known)
    ensures Loosens(direction, Unchanged(known)) && Tightens(direction, Unchanged(known))
    ensures ComponentsChange(components, components, Unchanged(known))
  {
    hide LooserHere, PartsChange, FieldsChange, FieldsGrow;
    forall s | s in known
      ensures LooserHere(s, s) && PartsChange(s, s, Unchanged(known))
      ensures FieldsChange(PropertiesOf(s), PropertiesOf(s), Unchanged(known))
      ensures FieldsGrow(PropertiesOf(s), PropertiesOf(s), Unchanged(known))
      ensures forall o :: o in Options(s) ==> (o, o) in Unchanged(known)
    {
      assert HoldsWell(known, s);
      UnchangedNode(known, s);
    }
    assert forall s :: s in known ==> RefersWell(components, known, s);
  }

  lemma UnchangedNode(known: iset<Schema>, s: Schema)
    requires HoldsWell(known, s)
    ensures LooserHere(s, s) && PartsChange(s, s, Unchanged(known))
    ensures FieldsChange(PropertiesOf(s), PropertiesOf(s), Unchanged(known))
    ensures FieldsGrow(PropertiesOf(s), PropertiesOf(s), Unchanged(known))
  {
  }

  /**
   A compatible change of a document is not reported. Wherever a schema compared with itself comes
   to an end, its comparison with what it has become finds nothing; and it comes to an end as well
   where no alternatives are met.
   */
  lemma CompatibleChangeIsSilent(direction: Direction, published: Components, proposed: Components, known: iset<Schema>,
      change: Change, enough: nat, fuel: nat, s: Schema, t: Schema, where: string)
    requires WellFormed(published, known) && s in known
    requires Compatible(direction, published, proposed, change) && (s, t) in change
    requires CompareSchemas(Documents(published, published), direction, enough, s, s, where).Done?
    ensures var r := CompareSchemas(Documents(published, proposed), direction, fuel, s, t, where);
        r.Done? ==> r.findings == []
    ensures NoAlternatives(known) && (forall a, b :: (a, b) in change ==> a in known) ==>
        EndsSilent(CompareSchemas(Documents(published, proposed), direction, enough, s, t, where))
  {
    hide CompareNodes, WellFormed, Loosens, Tightens, ComponentsChange;
    UnchangedIsValid(direction, published, known);
    var same := Unchanged(known);
    var m := if direction.Request? then Milder(direction, published, published, published, proposed, same, change)
             else Milder(direction, published, published, proposed, published, change, same);
    var was, now := Setting(Documents(published, published), direction, (name, text, v) => true),
        Setting(Documents(published, proposed), direction, (name, text, v) => true);
    assert m.Docs() == was.docs && m.MilderDocs() == now.docs;
    var t', l' := Before(direction, s, t), After(direction, s, t);
    SelfIsSilent(published, known, direction, enough, {}, s, where);
    var marked := CompareSchemas(was.docs, direction, enough, s, s, where).compared;
    LooseningIsSilent(m, enough, {}, s, s, t', l', where, marked);
    var most := if fuel < enough then enough else fuel;
    MoreFuelEndsSame(was, enough, most, {}, s, s, where);
    LooseningIsSilent(m, most, {}, s, s, t', l', where, marked);
    if CompareSchemas(now.docs, direction, fuel, s, t, where).Done? {
      MoreFuelEndsSame(now, fuel, most, {}, s, t, where);
    }
  }

  /** `l` says one thing less than `s`, or demands less of one thing. */
  ghost predicate LooserByOne(s: Schema, l: Schema)
  {
    || (exists b, limit {:trigger s.bounds[b := limit]} ::
          b in s.bounds && l == s.(bounds := s.bounds[b := limit])
          && if b in LOWER_BOUNDS then limit <= s.bounds[b] else s.bounds[b] <= limit)
    || (exists b: Bound :: l == s.(bounds := s.bounds - {b}))
    || l == s.(types := None)
    || (s.types.Some? && exists t :: l == s.(types := Some(s.types.value + [t])))
    || (s.enumeration.Some? && exists v :: l == s.(enumeration := Some(s.enumeration.value + [v])))
    || (exists i :: 0 <= i < |s.required| && l == s.(required := s.required[..i] + s.required[i + 1..]))
    || (s.additional.Refused? && l == s.(additional := Open))
    || (s.anyOf.Some? && exists o :: l == s.(anyOf := Some(s.anyOf.value + [o])))
    || (s.anyOf.None? && s.oneOf.Some? && exists o :: l == s.(oneOf := Some(s.oneOf.value + [o])))
  }

  /** `l` lists one more field. */
  ghost predicate OneMoreField(s: Schema, l: Schema)
  {
    exists f: Property :: Declared(PropertiesOf(s), f.name).None? && l == s.(properties := Some(PropertiesOf(s) + [f]))
  }

  /** The ordinary change of one schema: a request demands less, an answer holds less, or either lists a new field. */
  ghost predicate OrdinaryChange(direction: Direction, s: Schema, t: Schema)
  {
    || OneMoreField(s, t)
    || (if direction.Request? then LooserByOne(s, t) else LooserByOne(t, s))
  }

  lemma {:induction false} DeclaredStays(fields: seq<Property>, f: Property, name: string)
    requires Declared(fields, name).Some?
    ensures Declared(fields + [f], name) == Declared(fields, name)
  {
    assert (fields + [f])[1..] == fields[1..] + [f];
    if fields[0].name != name {
      DeclaredStays(fields[1..], f, name);
    }
  }

  lemma OneMoreGrows(known: iset<Schema>, s: Schema, t: Schema)
    requires HoldsWell(known, s) && OneMoreField(s, t)
    ensures FieldsGrow(PropertiesOf(s), PropertiesOf(t), Unchanged(known))
    ensures t == s.(properties := t.properties)
  {
    UnchangedNode(known, s);
    var f: Property :| Declared(PropertiesOf(s), f.name).None? && t == s.(properties := Some(PropertiesOf(s) + [f]));
    forall name | Declared(PropertiesOf(s), name).Some?
      ensures Declared(PropertiesOf(t), name) == Declared(PropertiesOf(s), name)
    {
      DeclaredStays(PropertiesOf(s), f, name);
    }
  }

  /** What becomes looser by one thing keeps its reference, fields, items and options. */
  lemma LooserByOneMeans(s: Schema, l: Schema)
    requires LooserByOne(s, l)
    ensures l.ref == s.ref && l.properties == s.properties && l.items == s.items && LooserHere(s, l)
    ensures l.additional == s.additional || (s.additional.Refused? && l.additional.Open?)
    ensures Alternatives(s).Some? <==> Alternatives(l).Some?
    ensures Alternatives(s).Some? ==> forall o :: o in Options(s) ==> o in Options(l)
  {
  }

  /** The sides of an ordinary change: the looser one, which a request becomes and an answer was, and the other. */
  ghost predicate Eases(direction: Direction, s: Schema, t: Schema)
  {
    && LooserHere(Narrow(direction, s, t), Wide(direction, s, t))
    && (Alternatives(s).Some? <==> Alternatives(t).Some?)
    && (Alternatives(s).Some? ==>
          forall o :: o in Options(Narrow(direction, s, t)) ==> o in Options(Wide(direction, s, t)))
  }

  lemma OrdinaryChangeEases(direction: Direction, known: iset<Schema>, s: Schema, t: Schema)
    requires HoldsWell(known, s) && OrdinaryChange(direction, s, t)
    ensures t.ref == s.ref && Eases(direction, s, t)
    ensures PartsChange(s, t, Unchanged(known)) && FieldsGrow(PropertiesOf(s), PropertiesOf(t), Unchanged(known))
  {
    hide LooserByOne, OneMoreField;
    UnchangedNode(known, s);
    if OneMoreField(s, t) {
      OneMoreGrows(known, s, t);
    } else {
      LooserByOneMeans(Narrow(direction, s, t), Wide(direction, s, t));
    }
  }

  ghost function WithChange(known: iset<Schema>, s: Schema, t: Schema): Change { Unchanged(known) + iset{(s, t)} }

  lemma OrdinaryChangeIsCompatible(direction: Direction, published: Components, name: string, t: Schema,
      known: iset<Schema>)
    requires WellFormed(published, known) && name in published && published[name] in known
    requires OrdinaryChange(direction, published[name], t)
    ensures Compatible(direction, published, published[name := t], WithChange(known, published[name], t))
  {
    hide LooserHere, OrdinaryChange, PartsChange, FieldsGrow, FieldsChange, WellFormed;
    var s, change := published[name], WithChange(known, published[name], t);
    UnchangedIsValid(direction, published, known);
    assert HoldsWell(known, s) by { KnownHoldsWell(published, known, s); }
    OrdinaryChangeEases(direction, known, s, t);
    forall a, b | PartsChange(a, b, Unchanged(known)) ensures PartsChange(a, b, change) {
      PartsOfMore(known, a, b, s, t);
    }
    forall a, b | FieldsGrow(a, b, Unchanged(known)) ensures FieldsGrow(a, b, change) {
      FieldsOfMore(known, a, b, s, t);
    }
    forall o | Alternatives(s).Some? && o in Options(s) ensures (o, o) in change {}
  }

  lemma KnownHoldsWell(components: Components, known: iset<Schema>, s: Schema)
    requires WellFormed(components, known) && s in known
    ensures HoldsWell(known, s) && RefersWell(components, known, s)
  {
  }

  lemma PartsOfMore(known: iset<Schema>, a: Schema, b: Schema, s: Schema, t: Schema)
    requires PartsChange(a, b, Unchanged(known))
    ensures PartsChange(a, b, WithChange(known, s, t))
  {
  }

  lemma FieldsOfMore(known: iset<Schema>, a: seq<Property>, b: seq<Property>, s: Schema, t: Schema)
    requires FieldsGrow(a, b, Unchanged(known))
    ensures FieldsGrow(a, b, WithChange(known, s, t))
  {
  }

  /**
   The ordinary compatible change: one named schema of a document gets a higher upper or a lower
   lower bound, loses a bound or a requirement, gains a type, a value, an alternative or a field.
   No comparison with the document as it was finds anything.
   */
  lemma OrdinaryChangeIsSilent(direction: Direction, published: Components, name: string, t: Schema,
      known: iset<Schema>, enough: nat, fuel: nat, s: Schema, where: string)
    requires WellFormed(published, known) && name in published && published[name] in known && s in known
    requires OrdinaryChange(direction, published[name], t)
    requires CompareSchemas(Documents(published, published), direction, enough, s, s, where).Done?
    ensures var r := CompareSchemas(Documents(published, published[name := t]), direction, fuel, s, s, where);
        r.Done? ==> r.findings == []
    ensures NoAlternatives(known) ==>
        EndsSilent(CompareSchemas(Documents(published, published[name := t]), direction, enough, s, s, where))
  {
    hide Compatible, OrdinaryChange, WellFormed, CompareNodes;
    OrdinaryChangeIsCompatible(direction, published, name, t, known);
    CompatibleChangeIsSilent(direction, published, published[name := t], known,
        WithChange(known, published[name], t), enough, fuel, s, s, where);
  }
}
