/**
 What the comparison says of a document compared with itself; and, for each thing it does not
 read, two schemas it takes as compatible although a value tells them apart.

 What it does not read are the siblings of alternatives and of references, the items of one side
 alone, some of the required, mapped and listed fields, a constant beside an enumeration, and the
 space in a name.
 */
module ContractDiffLimits {
  import opened Optional
  import opened JsonSchema
  import opened ContractDiff
  import opened ContractDiffSoundness

  // ----- a document compared with itself

  /**
   A set of schemas that holds with each schema what it consists of and refers to. Every
   reference in it is defined, a field is listed once and every listed value is found again.
   */
  ghost predicate WellFormed(components: Components, known: iset<Schema>)
  {
    forall s {:trigger RefersWell(components, known, s)} {:trigger HoldsWell(known, s)} ::
      s in known ==> RefersWell(components, known, s) && HoldsWell(known, s)
  }

  ghost predicate RefersWell(components: Components, known: iset<Schema>, s: Schema)
  {
    s.ref.Some? ==> RefName(s.ref.value) in components && components[RefName(s.ref.value)] in known
  }

  ghost predicate HoldsWell(known: iset<Schema>, s: Schema)
  {
    && (s.enumeration.Some? ==> forall v :: v in s.enumeration.value ==> Primitive(v))
    && (s.constant.Some? ==> Primitive(s.constant.value))
    && (forall i :: 0 <= i < |PropertiesOf(s)| ==>
                      && PropertiesOf(s)[i].schema in known
                      && Declared(PropertiesOf(s), PropertiesOf(s)[i].name) == Some(PropertiesOf(s)[i].schema))
    && (s.items.Some? ==> s.items.value in known)
    && (s.additional.Values? ==> s.additional.schema in known)
    && (forall option :: option in Options(s) ==> option in known)
  }

  lemma {:induction false} ResolvesWell(components: Components, known: iset<Schema>, s: Schema, fuel: nat)
    requires WellFormed(components, known) && s in known
    ensures var r := Resolve(components, s, fuel);
            r.Endless? || (r.Node? && r.schema in known)
    decreases fuel
  {
    assert RefersWell(components, known, s);
    if s.ref.Some? && fuel > 0 {
      ResolvesWell(components, known, components[RefName(s.ref.value)], fuel - 1);
    }
  }

  lemma NodeStep(docs: Documents, direction: Direction, fuel: nat, compared: set<string>, before: Schema,
      after: Schema, where: string)
    requires fuel > 0 && Resolve(docs.before, before, fuel).Node? && Resolve(docs.after, after, fuel).Node?
    requires !(before.ref.Some? && after.ref.Some? && PairKey(before.ref.value, after.ref.value) in compared)
    ensures CompareNodes(docs, direction, fuel, compared, before, after, where)
            == CompareResolved(docs, direction, fuel - 1, Marked(compared, before, after),
                               Resolve(docs.before, before, fuel).schema, Resolve(docs.after, after, fuel).schema,
                                   where)
  {
  }

  /** The schemas of each document. */
  datatype Known = Known(before: iset<Schema>, after: iset<Schema>)

  ghost predicate BothWellFormed(docs: Documents, known: Known)
  {
    WellFormed(docs.before, known.before) && WellFormed(docs.after, known.after)
  }

  lemma DescendsWell(docs: Documents, known: Known, direction: Direction, before: Schema, after: Schema,
      where: string, t: Task)
    requires BothWellFormed(docs, known) && before in known.before && after in known.after
    requires t in NodeTasks(direction, before, after, where) && t.Descend?
    ensures t.before in known.before && t.after in known.after
  {
    assert HoldsWell(known.before, before) && HoldsWell(known.after, after);
    NodeTaskOf(direction, before, after, where, t);
    if t in FieldTasks(direction, PropertiesOf(before), before, after, where) {
      FieldTaskOf(direction, PropertiesOf(before), before, after, where, t);
      var name :| Declared(PropertiesOf(after), name) == Some(t.after);
    }
  }

  lemma NodeTaskOf(direction: Direction, before: Schema, after: Schema, where: string, t: Task)
    requires t in NodeTasks(direction, before, after, where)
    ensures t in FieldTasks(direction, PropertiesOf(before), before, after, where)
        || t in PartTasks(before, after, where)
            || (t.Report? && t in HereTasks(direction, before, after, where))
                || (t.Report? && t in RequestTasks(before, after, where))
  {
  }

  lemma {:induction false} FieldTaskOf(direction: Direction, fields: seq<Property>, before: Schema, after: Schema,
      where: string, t: Task)
    requires t in FieldTasks(direction, fields, before, after, where) && t.Descend?
    ensures exists i :: 0 <= i < |fields| && t.before == fields[i].schema
                        && Declared(PropertiesOf(after), fields[i].name) == Some(t.after)
  {
    if t in FieldTask(direction, fields[0], before, after, where) {
      assert t.before == fields[0].schema;
    } else {
      FieldTaskOf(direction, fields[1..], before, after, where, t);
      var i :| 0 <= i < |fields[1..]| && t.before == fields[1..][i].schema
               && Declared(PropertiesOf(after), fields[1..][i].name) == Some(t.after);
      assert fields[1..][i] == fields[i + 1];
    }
  }

  /** A comparison of well-formed schemas never meets a reference to nothing. */
  lemma {:induction false} NothingMissing(docs: Documents, known: Known, direction: Direction, fuel: nat,
      compared: set<string>, before: Schema, after: Schema, where: string)
    requires BothWellFormed(docs, known) && before in known.before && after in known.after
    ensures !CompareNodes(docs, direction, fuel, compared, before, after, where).Missing?
    decreases fuel, 1, 0
  {
    hide CompareNodes, CompareResolved, Resolve, WellFormed;
    ResolvesWell(docs.before, known.before, before, fuel);
    ResolvesWell(docs.after, known.after, after, fuel);
    if CompareNodes(docs, direction, fuel, compared, before, after, where).Missing? {
      MissingBelow(docs, direction, fuel, compared, before, after, where);
      NothingMissingInNodes(docs, known, direction, fuel - 1, Marked(compared, before, after),
                            Resolve(docs.before, before, fuel).schema, Resolve(docs.after, after, fuel).schema, where);
    }
  }

  lemma MissingBelow(docs: Documents, direction: Direction, fuel: nat, compared: set<string>, before: Schema,
      after: Schema, where: string)
    requires CompareNodes(docs, direction, fuel, compared, before, after, where).Missing?
    requires !Resolve(docs.before, before, fuel).NotDefined? && !Resolve(docs.after, after, fuel).NotDefined?
    ensures fuel > 0 && Resolve(docs.before, before, fuel).Node? && Resolve(docs.after, after, fuel).Node?
    ensures CompareResolved(docs, direction, fuel - 1, Marked(compared, before, after),
                            Resolve(docs.before, before, fuel).schema, Resolve(docs.after, after, fuel).schema,
                                where).Missing?
  {
  }

  lemma {:induction false} NothingMissingInNodes(docs: Documents, known: Known, direction: Direction, fuel: nat,
      compared: set<string>, before: Schema, after: Schema, where: string)
    requires BothWellFormed(docs, known) && before in known.before && after in known.after
    ensures !CompareResolved(docs, direction, fuel, compared, before, after, where).Missing?
    decreases fuel, 4, 0
  {
    var narrow, wide := Narrow(direction, before, after), Wide(direction, before, after);
    assert HoldsWell(known.before, before) && HoldsWell(known.after, after);
    if Alternatives(narrow).Some? || Alternatives(wide).Some? {
      NothingMissingInOptions(docs, known, direction, fuel, compared, Options(narrow), 0, Options(wide), where);
    } else {
      var tasks := NodeTasks(direction, before, after, where);
      forall t | t in tasks && t.Descend? ensures t.before in known.before && t.after in known.after {
        DescendsWell(docs, known, direction, before, after, where, t);
      }
      NothingMissingInTasks(docs, known, direction, fuel, compared, tasks);
    }
  }

  lemma {:induction false} NothingMissingInTasks(docs: Documents, known: Known, direction: Direction, fuel: nat,
      compared: set<string>, tasks: seq<Task>)
    requires BothWellFormed(docs, known)
    requires forall t :: t in tasks && t.Descend? ==> t.before in known.before && t.after in known.after
    ensures !RunTasks(docs, direction, fuel, compared, tasks).Missing?
    decreases fuel, 2, |tasks|
  {
    if tasks != [] {
      var next := compared;
      if tasks[0].Descend? {
        NothingMissing(docs, known, direction, fuel, compared, tasks[0].before, tasks[0].after, tasks[0].where);
        var first := CompareNodes(docs, direction, fuel, compared, tasks[0].before, tasks[0].after, tasks[0].where);
        if first.Done? { next := first.compared; }
      }
      NothingMissingInTasks(docs, known, direction, fuel, next, tasks[1..]);
    }
  }

  ghost predicate KnownOptions(known: Known, direction: Direction, narrow: seq<Schema>, wide: seq<Schema>)
  {
    && (forall s :: s in narrow ==> s in Narrow(direction, known.before, known.after))
    && (forall s :: s in wide ==> s in Wide(direction, known.before, known.after))
  }

  lemma {:induction false} NothingMissingInOptions(docs: Documents, known: Known, direction: Direction, fuel: nat,
      compared: set<string>, narrow: seq<Schema>, index: nat, wide: seq<Schema>, where: string)
    requires BothWellFormed(docs, known) && index <= |narrow| && KnownOptions(known, direction, narrow, wide)
    ensures !CompareOptions(docs, direction, fuel, compared, narrow, index, wide, where).Missing?
    decreases fuel, 3, |narrow| - index
  {
    if index < |narrow| {
      NothingMissingInTrials(docs, known, direction, fuel, compared, narrow[index], wide, where);
      NothingMissingInOptions(docs, known, direction, fuel, compared, narrow, index + 1, wide, where);
    }
  }

  lemma {:induction false} NothingMissingInTrials(docs: Documents, known: Known, direction: Direction, fuel: nat,
      compared: set<string>, option: Schema, candidates: seq<Schema>, where: string)
    requires BothWellFormed(docs, known) && KnownOptions(known, direction, [option], candidates)
    ensures var cover := CoveringOption(docs, direction, fuel, compared, option, candidates, where);
            cover.Broken? ==> cover.outcome.OutOfFuel?
    decreases fuel, 2, |candidates|
  {
    if candidates != [] {
      assert option in [option] && candidates[0] in candidates;
      NothingMissing(docs, known, direction, fuel, compared,
                     Narrow(direction, option, candidates[0]), Wide(direction, option, candidates[0]), where);
      NothingMissingInTrials(docs, known, direction, fuel, compared, option, candidates[1..], where);
    }
  }

  /** A comparison that either has nothing to say or has not ended within its fuel. */
  predicate Silent(outcome: Outcome)
  {
    outcome.OutOfFuel? || (outcome.Done? && outcome.findings == [])
  }

  /**
   Nothing is ever found between a document and itself, self-referring documents included:
   whatever has been compared before, a comparison that ends says nothing.
   */
  lemma {:induction false} SelfIsSilent(components: Components, known: iset<Schema>, direction: Direction, fuel: nat,
      compared: set<string>, s: Schema, where: string)
    requires WellFormed(components, known) && s in known
    ensures Silent(CompareNodes(Documents(components, components), direction, fuel, compared, s, s, where))
    decreases fuel, 1, 0
  {
    if fuel > 0 {
      ResolvesWell(components, known, s, fuel);
      var r := Resolve(components, s, fuel);
      if r.Node? && !(s.ref.Some? && PairKey(s.ref.value, s.ref.value) in compared) {
        NodeStep(Documents(components, components), direction, fuel, compared, s, s, where);
        SelfNodeIsSilent(components, known, direction, fuel - 1, Marked(compared, s, s), r.schema, where);
      }
    }
  }

  lemma {:induction false} SelfNodeIsSilent(components: Components, known: iset<Schema>, direction: Direction,
      fuel: nat, compared: set<string>, s: Schema, where: string)
    requires WellFormed(components, known) && s in known
    ensures Silent(CompareResolved(Documents(components, components), direction, fuel, compared, s, s, where))
    decreases fuel, 4, 0
  {
    assert HoldsWell(known, s);
    if Alternatives(s).Some? {
      SelfOptionsAreSilent(components, known, direction, fuel, compared, Options(s), 0, where);
    } else {
      SelfTasks(components, known, direction, s, where);
      SelfTasksAreSilent(components, known, direction, fuel, compared, NodeTasks(direction, s, s, where));
    }
  }

  ghost predicate OnlySelf(known: iset<Schema>, tasks: seq<Task>)
  {
    forall t :: t in tasks ==> t.Descend? && t.before == t.after && t.before in known
  }

  lemma SelfTasks(components: Components, known: iset<Schema>, direction: Direction, s: Schema, where: string)
    requires WellFormed(components, known) && s in known
    ensures OnlySelf(known, NodeTasks(direction, s, s, where))
  {
    var fields := PropertiesOf(s);
    assert HoldsWell(known, s);
    SelfFieldTasks(known, direction, s, fields, where);
    SelfIsKept(direction, s);
    forall t | t in NodeTasks(direction, s, s, where) ensures t.Descend? && t.before == t.after && t.before in known {
      NodeTaskOf(direction, s, s, where, t);
    }
  }

  lemma SelfIsKept(direction: Direction, s: Schema)
    requires s.enumeration.Some? ==> forall v :: v in s.enumeration.value ==> Primitive(v)
    requires s.constant.Some? ==> Primitive(s.constant.value)
    ensures KeptHere(direction, s, s)
  {
  }

  lemma {:induction false} SelfFieldTasks(known: iset<Schema>, direction: Direction, s: Schema,
      fields: seq<Property>, where: string)
    requires forall i :: 0 <= i < |fields| ==>
                           fields[i].schema in known && Declared(PropertiesOf(s), fields[i].name)
                               == Some(fields[i].schema)
    ensures OnlySelf(known, FieldTasks(direction, fields, s, s, where))
  {
    if fields != [] {
      SelfFieldTasks(known, direction, s, fields[1..], where);
    }
  }

  lemma {:induction false} SelfTasksAreSilent(components: Components, known: iset<Schema>, direction: Direction,
      fuel: nat, compared: set<string>, tasks: seq<Task>)
    requires WellFormed(components, known) && OnlySelf(known, tasks)
    ensures Silent(RunTasks(Documents(components, components), direction, fuel, compared, tasks))
    decreases fuel, 2, |tasks|
  {
    if tasks != [] {
      var t := tasks[0];
      assert t in tasks;
      SelfIsSilent(components, known, direction, fuel, compared, t.before, t.where);
      var first :=
          CompareNodes(Documents(components, components), direction, fuel, compared, t.before, t.after, t.where);
      if first.Done? {
        SelfTasksAreSilent(components, known, direction, fuel, first.compared, tasks[1..]);
      }
    }
  }

  lemma {:induction false} SelfOptionsAreSilent(components: Components, known: iset<Schema>, direction: Direction,
      fuel: nat, compared: set<string>, options: seq<Schema>, index: nat, where: string)
    requires WellFormed(components, known) && index <= |options|
    requires forall s :: s in options ==> s in known
    ensures Silent(CompareOptions(Documents(components, components), direction, fuel, compared, options, index,
        options, where))
    decreases fuel, 3, |options| - index
  {
    if index < |options| {
      SelfTrialIsSilent(components, known, direction, fuel, compared, options[index], options, where);
      SelfOptionsAreSilent(components, known, direction, fuel, compared, options, index + 1, where);
    }
  }

  /** An option is covered by itself, unless a candidate before it covers it or takes all the fuel. */
  lemma {:induction false} SelfTrialIsSilent(components: Components, known: iset<Schema>, direction: Direction,
      fuel: nat, compared: set<string>, option: Schema, candidates: seq<Schema>, where: string)
    requires WellFormed(components, known) && option in candidates
    requires forall s :: s in candidates ==> s in known
    ensures CoversOrRunsOut(CoveringOption(Documents(components, components), direction, fuel, compared, option,
        candidates, where))
    decreases fuel, 2, |candidates|
  {
    var docs, first := Documents(components, components), candidates[0];
    assert first in candidates;
    if option == first {
      SelfIsSilent(components, known, direction, fuel, compared, option, where);
      SilentTrialCovers(docs, direction, fuel, compared, option, candidates, where);
    } else {
      NothingMissing(docs, Known(known, known), direction, fuel, compared, Narrow(direction, option, first),
          Wide(direction, option, first), where);
      SelfTrialIsSilent(components, known, direction, fuel, compared, option, candidates[1..], where);
      OtherTrialGoesOn(docs, direction, fuel, compared, option, candidates, where);
    }
  }

  predicate CoversOrRunsOut(cover: Cover) { cover == Covered(true) || cover == Broken(OutOfFuel) }

  lemma SilentTrialCovers(docs: Documents, direction: Direction, fuel: nat, compared: set<string>, option: Schema,
      candidates: seq<Schema>, where: string)
    requires candidates != [] && candidates[0] == option
    requires Silent(CompareNodes(docs, direction, fuel, compared, option, option, where))
    ensures CoversOrRunsOut(CoveringOption(docs, direction, fuel, compared, option, candidates, where))
  {
  }

  lemma OtherTrialGoesOn(docs: Documents, direction: Direction, fuel: nat, compared: set<string>, option: Schema,
      candidates: seq<Schema>, where: string)
    requires candidates != []
    requires !CompareNodes(docs, direction, fuel, compared, Narrow(direction, option, candidates[0]),
        Wide(direction, option, candidates[0]), where).Missing?
    requires CoversOrRunsOut(CoveringOption(docs, direction, fuel, compared, option, candidates[1..], where))
    ensures CoversOrRunsOut(CoveringOption(docs, direction, fuel, compared, option, candidates, where))
  {
    hide CompareNodes;
  }

  // ----- what the comparison does not read

  function ReferenceTo(name: string): Schema { ANYTHING.(ref := Some(name)) }

  const ANY_TEXT := ANYTHING.(types := Some(["string"]))
  const ANY_OBJECT := ANYTHING.(types := Some(["object"]))
  const ANY_LIST := ANYTHING.(types := Some(["array"]))

  ghost predicate FindsNothing(st: Setting, before: Schema, after: Schema)
  {
    exists fuel: nat :: EndsSilent(CompareSchemas(st.docs, st.direction, fuel, before, after, ""))
  }

  predicate EndsSilent(outcome: Outcome) { outcome.Done? && outcome.findings == [] }

  lemma FoundNothing(st: Setting, fuel: nat, before: Schema, after: Schema)
    requires EndsSilent(CompareNodes(st.docs, st.direction, fuel, {}, before, after, ""))
    ensures FindsNothing(st, before, after)
  {
    assert EndsSilent(CompareSchemas(st.docs, st.direction, fuel, before, after, ""));
  }

  /** The comparison finds nothing, yet the narrow side accepts a value that the wide side refuses. */
  ghost predicate Misled(st: Setting, before: Schema, after: Schema, v: Value)
  {
    && FindsNothing(st, before, after)
    && Accepts(st.NarrowReading(), st.NarrowOf(before, after), v)
    && !Accepts(st.WideReading(), st.WideOf(before, after), v)
  }

  lemma NothingToDo(docs: Documents, direction: Direction, fuel: nat, compared: set<string>, before: Schema,
      after: Schema)
    requires before.ref.None? && after.ref.None? && Alternatives(before).None? && Alternatives(after).None?
    requires TypesKept(Narrow(direction, before, after), Wide(direction, before, after)) && fuel > 0
    requires NodeTasks(direction, before, after, "") == []
    ensures CompareNodes(docs, direction, fuel, compared, before, after, "") == Done([], compared)
  {
    assert Resolve(docs.before, before, fuel) == Node(before) && Resolve(docs.after, after, fuel) == Node(after);
    NodeStep(docs, direction, fuel, compared, before, after, "");
    assert CompareResolved(docs, direction, fuel - 1, compared, before, after, "")
        == RunTasks(docs, direction, fuel - 1, compared, []);
  }

  lemma PlainMisled(st: Setting, before: Schema, after: Schema, v: Value)
    requires before.ref.None? && after.ref.None? && Alternatives(before).None? && Alternatives(after).None?
    requires TypesKept(st.NarrowOf(before, after), st.WideOf(before, after))
        && NodeTasks(st.direction, before, after, "") == []
    requires Accepts(st.NarrowReading(), st.NarrowOf(before, after), v)
    requires !AcceptsHere(st.WideReading(), st.WideOf(before, after), v)
        || !AcceptsParts(st.WideReading(), st.WideOf(before, after), v)
    ensures Misled(st, before, after, v)
  {
    var fuel: nat :| fuel > 0;
    NothingToDo(st.docs, st.direction, fuel, {}, before, after);
    FoundNothing(st, fuel, before, after);
    assert !Accepts(st.WideReading(), st.WideOf(before, after), v);
  }

  lemma PlainAccepts(r: Reading, s: Schema, v: Value)
    requires s.ref.None? && Alternatives(s).None?
        && (s.types.Some? ==> |s.types.value| == 1 && HasType(v, s.types.value[0]))
    requires AcceptsHere(r, s.(types := None), v) && AcceptsParts(r, s, v)
    ensures Accepts(r, s, v)
  {
    assert AcceptsHere(r, s, v);
    assert AcceptsWithin(r, 1, s, v);
  }

  lemma RefusedHere(r: Reading, s: Schema, v: Value)
    requires !AcceptsHere(r, s, v)
    ensures !Accepts(r, s, v)
  {
  }

  function Plain(direction: Direction, meaning: Meaning): Setting
  {
    Setting(Documents(map[], map[]), direction, meaning)
  }

  lemma TextKept(direction: Direction)
    ensures NodeTasks(direction, ANY_TEXT, ANY_TEXT, "") == []
  {
    SelfIsKept(direction, ANY_TEXT);
  }

  const TEXT_OR_LONGER := ANYTHING.(anyOf := Some([ANY_TEXT]), bounds := map[MinLength := 1.0])

  /** The empty text, where the new side asks for one character beside what it compares. */
  lemma EmptyTextMisled(st: Setting, after: Schema)
    requires st.direction.Request? && FindsNothing(st, ANY_TEXT, after)
    requires MinLength in after.bounds && after.bounds[MinLength] == 1.0
    ensures Misled(st, ANY_TEXT, after, Text(""))
  {
    PlainAccepts(st.NarrowReading(), ANY_TEXT, Text(""));
    assert !WithinBound(Text(""), MinLength, after.bounds[MinLength]);
    RefusedHere(st.WideReading(), after, Text(""));
  }

  /** A constraint beside alternatives. */
  lemma SiblingOfAlternativesUnread(meaning: Meaning)
    ensures Misled(Plain(Request, meaning), ANY_TEXT, TEXT_OR_LONGER, Text(""))
  {
    AlternativesPass(Plain(Request, meaning));
    EmptyTextMisled(Plain(Request, meaning), TEXT_OR_LONGER);
  }

  lemma AlternativesPass(st: Setting)
    requires st.direction.Request?
    ensures FindsNothing(st, ANY_TEXT, TEXT_OR_LONGER)
  {
    var fuel: nat :| fuel > 0;
    TextKept(Request);
    NothingToDo(st.docs, Request, fuel, {}, ANY_TEXT, ANY_TEXT);
    assert Resolve(st.docs.before, ANY_TEXT, fuel + 1) == Node(ANY_TEXT)
        && Resolve(st.docs.after, TEXT_OR_LONGER, fuel + 1) == Node(TEXT_OR_LONGER);
    NodeStep(st.docs, Request, fuel + 1, {}, ANY_TEXT, TEXT_OR_LONGER, "");
    OneOption(st.docs, fuel, {}, ANY_TEXT);
    FoundNothing(st, fuel + 1, ANY_TEXT, TEXT_OR_LONGER);
  }

  lemma OneOption(docs: Documents, fuel: nat, compared: set<string>, s: Schema)
    requires CompareNodes(docs, Request, fuel, compared, s, s, "") == Done([], compared)
    ensures CompareOptions(docs, Request, fuel, compared, [s], 0, [s], "") == Done([], compared)
  {
  }

  const LONGER_TEXT := ReferenceTo("X").(bounds := map[MinLength := 1.0])

  /** A constraint beside a reference. */
  lemma SiblingOfReferenceUnread(meaning: Meaning)
    ensures Misled(Setting(Documents(map[], map["X" := ANY_TEXT]), Request, meaning), ANY_TEXT, LONGER_TEXT, Text(""))
  {
    var st := Setting(Documents(map[], map["X" := ANY_TEXT]), Request, meaning);
    assert RefName("X") == "X";
    ReferencePasses(st);
    EmptyTextMisled(st, LONGER_TEXT);
  }

  lemma ReferencePasses(st: Setting)
    requires st.direction.Request? && RefName("X") in st.docs.after && st.docs.after[RefName("X")] == ANY_TEXT
    ensures FindsNothing(st, ANY_TEXT, LONGER_TEXT)
  {
    ResolvesOn(st.docs.after, LONGER_TEXT, 2);
    TextPasses(st, LONGER_TEXT, 2);
  }

  lemma ResolvesOn(components: Components, schema: Schema, fuel: nat)
    requires schema.ref.Some? && RefName(schema.ref.value) in components && fuel > 0
    ensures Resolve(components, schema, fuel) == Resolve(components, components[RefName(schema.ref.value)], fuel - 1)
  {
  }

  /** A schema that resolves to that of any text is taken as compatible with it. */
  lemma TextPasses(st: Setting, after: Schema, fuel: nat)
    requires st.direction.Request? && fuel > 0 && Resolve(st.docs.after, after, fuel) == Node(ANY_TEXT)
    ensures FindsNothing(st, ANY_TEXT, after)
  {
    assert Resolve(st.docs.before, ANY_TEXT, fuel) == Node(ANY_TEXT);
    NodeStep(st.docs, Request, fuel, {}, ANY_TEXT, after, "");
    hide NodeTasks, CompareNodes, Resolve, FindsNothing;
    TextKept(Request);
    assert CompareResolved(st.docs, Request, fuel - 1, {}, ANY_TEXT, ANY_TEXT, "")
        == RunTasks(st.docs, Request, fuel - 1, {}, []);
    FoundNothing(st, fuel, ANY_TEXT, after);
  }

  /** A constraint beside a reference of a component that is itself referred to. */
  lemma SiblingBehindReferenceUnread(meaning: Meaning)
    ensures var after := map["X" := ANY_TEXT, "L" := LONGER_TEXT];
            Misled(Setting(Documents(map[], after), Request, meaning), ANY_TEXT, ReferenceTo("L"), Text(""))
  {
    var after := map["X" := ANY_TEXT, "L" := LONGER_TEXT];
    var st := Setting(Documents(map[], after), Request, meaning);
    NameIsItself("X");
    NameIsItself("L");
    ChainPasses(st);
    PlainAccepts(st.NarrowReading(), ANY_TEXT, Text(""));
    assert !WithinBound(Text(""), MinLength, LONGER_TEXT.bounds[MinLength]);
    RefusedHere(st.WideReading(), LONGER_TEXT, Text(""));
    NameAccepts(st.WideReading(), "L", Text(""));
  }

  lemma ChainPasses(st: Setting)
    requires st.direction.Request? && RefName("X") in st.docs.after && st.docs.after[RefName("X")] == ANY_TEXT
    requires RefName("L") in st.docs.after && st.docs.after[RefName("L")] == LONGER_TEXT
    ensures FindsNothing(st, ANY_TEXT, ReferenceTo("L"))
  {
    ResolvesOn(st.docs.after, ReferenceTo("L"), 3);
    ResolvesOn(st.docs.after, LONGER_TEXT, 2);
    TextPasses(st, ReferenceTo("L"), 3);
  }

  /** Two schemas that state a type, and of what they hold nothing both sides describe. */
  predicate SayLittle(before: Schema, after: Schema)
  {
    && StatesLittle(before) && StatesLittle(after) && PropertiesOf(before) == []
    && (before.items.None? || after.items.None?)
    && (!before.additional.Values? || !after.additional.Values?)
  }

  predicate StatesLittle(s: Schema)
  {
    s.ref.None? && Alternatives(s).None? && s.enumeration.None? && s.constant.None? && s.bounds == map[]
        && s.others == []
  }

  lemma LittleToCompare(direction: Direction, before: Schema, after: Schema)
    requires SayLittle(before, after)
    requires direction.Request? ==> after.required == [] && (after.additional.Refused? ==> before.additional.Refused?)
    ensures NodeTasks(direction, before, after, "") == []
  {
    assert KeptHere(direction, before, after);
    assert HereTasks(direction, before, after, "") == [];
    hide HereTasks, KeptHere;
  }

  /** A value that the narrow side accepts and the wide side refuses, where little is compared. */
  lemma LittleMisled(st: Setting, before: Schema, after: Schema, v: Value)
    requires SayLittle(before, after) && before.types == after.types
    requires st.direction.Request? ==>
        after.required == [] && (after.additional.Refused? ==> before.additional.Refused?)
    requires Accepts(st.NarrowReading(), st.NarrowOf(before, after), v)
    requires !AcceptsHere(st.WideReading(), st.WideOf(before, after), v)
        || !AcceptsParts(st.WideReading(), st.WideOf(before, after), v)
    ensures Misled(st, before, after, v)
  {
    LittleToCompare(st.direction, before, after);
    hide NodeTasks, Accepts, AcceptsHere, AcceptsParts;
    PlainMisled(st, before, after, v);
  }

  const TEXTS := ANY_LIST.(items := Some(ANY_TEXT))

  /** `items` where the other side has none. */
  lemma ItemsOfOneSideUnread(meaning: Meaning)
    ensures Misled(Plain(Request, meaning), ANY_LIST, TEXTS, Array([Null]))
  {
    var st := Plain(Request, meaning);
    hide NodeTasks, FindsNothing, Misled;
    PlainAccepts(st.NarrowReading(), ANY_LIST, Array([Null]));
    RefusedHere(st.WideReading(), ANY_TEXT, Null);
    assert Array([Null]).elements[0] == Null;
    LittleMisled(st, ANY_LIST, TEXTS, Array([Null]));
  }

  const NEEDS_A := ANY_OBJECT.(required := ["a"])

  /** A required field of an answer that no property declares. */
  lemma UndeclaredRequirementUnread(meaning: Meaning)
    ensures Misled(Plain(Response, meaning), NEEDS_A, ANY_OBJECT, Object([]))
  {
    var st := Plain(Response, meaning);
    hide NodeTasks, FindsNothing, Misled;
    PlainAccepts(st.NarrowReading(), ANY_OBJECT, Object([]));
    assert "a" in NEEDS_A.required && !HasField(Object([]), "a");
    LittleMisled(st, NEEDS_A, ANY_OBJECT, Object([]));
  }

  const TEXT_MAP := ANY_OBJECT.(additional := Values(ANY_TEXT))
  const LIST_FIELD := ANY_OBJECT.(properties := Some([Property("a", ANY_LIST)]))

  function FieldA(v: Value): Value { Object([Field("a", v)]) }

  /** The field `a` decides over an object that holds nothing else. */
  lemma FieldDecides(r: Reading, s: Schema, v: Value)
    ensures AcceptsParts(r, s, FieldA(v)) <==>
              var declared := Declared(PropertiesOf(s), "a");
              if declared.Some? then Accepts(r, declared.value, v)
              else match s.additional
                case Open => !(r.closed && s.properties.Some?)
                case Refused => false
                case Values(schema) => Accepts(r, schema, v)
  {
    var o := FieldA(v);
    assert o.fields[0].name == "a" && o.fields[0].value == v;
    hide Accepts, Declared;
  }

  lemma AnyObjectAccepts(r: Reading, s: Schema, v: Value)
    requires StatesLittle(s) && s.types == ANY_OBJECT.types && s.required == [] && AcceptsParts(r, s, FieldA(v))
    ensures Accepts(r, s, FieldA(v))
  {
    hide AcceptsParts;
    PlainAccepts(r, s, FieldA(v));
  }

  lemma AcceptsOwnType(r: Reading)
    ensures Accepts(r, ANY_TEXT, Text("")) && !Accepts(r, ANY_TEXT, Null) && !Accepts(r, ANY_TEXT, Array([]))
    ensures Accepts(r, ANY_LIST, Array([])) && !Accepts(r, ANY_LIST, Text(""))
  {
    PlainAccepts(r, ANY_TEXT, Text(""));
    PlainAccepts(r, ANY_LIST, Array([]));
    RefusedHere(r, ANY_TEXT, Null);
    RefusedHere(r, ANY_TEXT, Array([]));
    RefusedHere(r, ANY_LIST, Text(""));
  }

  /** An object with a field `a` that one side accepts and the other refuses. */
  lemma FieldMisled(st: Setting, before: Schema, after: Schema, v: Value)
    requires SayLittle(before, after) && before.types == after.types == ANY_OBJECT.types
        && before.required == after.required == []
    requires st.direction.Request? ==> after.additional.Refused? ==> before.additional.Refused?
    requires AcceptsParts(st.NarrowReading(), st.NarrowOf(before, after), FieldA(v))
    requires !AcceptsParts(st.WideReading(), st.WideOf(before, after), FieldA(v))
    ensures Misled(st, before, after, FieldA(v))
  {
    hide AcceptsParts, NodeTasks, Misled;
    AnyObjectAccepts(st.NarrowReading(), st.NarrowOf(before, after), v);
    LittleMisled(st, before, after, FieldA(v));
  }

  /** A map that becomes an object with a field of another type. */
  lemma MapThatListsAFieldUnread(meaning: Meaning)
    ensures Misled(Plain(Request, meaning), TEXT_MAP, LIST_FIELD, FieldA(Text("")))
  {
    var st := Plain(Request, meaning);
    hide AcceptsParts, Accepts, Misled;
    AcceptsOwnType(st.NarrowReading());
    AcceptsOwnType(st.WideReading());
    FieldDecides(st.NarrowReading(), TEXT_MAP, Text(""));
    FieldDecides(st.WideReading(), LIST_FIELD, Text(""));
    FieldMisled(st, TEXT_MAP, LIST_FIELD, Text(""));
  }

  /** An object that lists nothing and gains a field. */
  lemma FieldOfAnyObjectUnread(meaning: Meaning)
    ensures Misled(Plain(Request, meaning), ANY_OBJECT, LIST_FIELD, FieldA(Text("")))
  {
    var st := Plain(Request, meaning);
    hide AcceptsParts, Accepts, Misled;
    AcceptsOwnType(st.WideReading());
    FieldDecides(st.NarrowReading(), ANY_OBJECT, Text(""));
    FieldDecides(st.WideReading(), LIST_FIELD, Text(""));
    FieldMisled(st, ANY_OBJECT, LIST_FIELD, Text(""));
  }

  /** An object that lists nothing and becomes a map. */
  lemma MapOfAnyObjectUnread(meaning: Meaning)
    ensures Misled(Plain(Request, meaning), ANY_OBJECT, TEXT_MAP, FieldA(Null))
  {
    var st := Plain(Request, meaning);
    hide AcceptsParts, Accepts, Misled;
    AcceptsOwnType(st.WideReading());
    FieldDecides(st.NarrowReading(), ANY_OBJECT, Null);
    FieldDecides(st.WideReading(), TEXT_MAP, Null);
    FieldMisled(st, ANY_OBJECT, TEXT_MAP, Null);
  }

  const EMPTY_OBJECT := ANY_OBJECT.(additional := Refused)

  /** An answer that refused unknown fields and holds some now. */
  lemma RefusalOfAnswerUnread(meaning: Meaning)
    ensures Misled(Plain(Response, meaning), EMPTY_OBJECT, ANY_OBJECT, FieldA(Null))
  {
    var st := Plain(Response, meaning);
    hide AcceptsParts, Accepts, Misled;
    FieldDecides(st.NarrowReading(), ANY_OBJECT, Null);
    FieldDecides(st.WideReading(), EMPTY_OBJECT, Null);
    FieldMisled(st, EMPTY_OBJECT, ANY_OBJECT, Null);
  }

  /** An answer that was a map and may hold anything now. */
  lemma MapOfAnswerUnread(meaning: Meaning)
    ensures Misled(Plain(Response, meaning), TEXT_MAP, ANY_OBJECT, FieldA(Null))
  {
    var st := Plain(Response, meaning);
    hide AcceptsParts, Accepts, Misled;
    AcceptsOwnType(st.WideReading());
    FieldDecides(st.NarrowReading(), ANY_OBJECT, Null);
    FieldDecides(st.WideReading(), TEXT_MAP, Null);
    FieldMisled(st, TEXT_MAP, ANY_OBJECT, Null);
  }

  /** An answer that was a map and lists a field of another type now, and no others. */
  lemma FieldOfAnswerMapUnread(meaning: Meaning)
    ensures Misled(Plain(Response, meaning), TEXT_MAP, LIST_FIELD.(additional := Refused), FieldA(Array([])))
  {
    var st, after := Plain(Response, meaning), LIST_FIELD.(additional := Refused);
    hide AcceptsParts, Accepts, Misled;
    AcceptsOwnType(st.NarrowReading());
    AcceptsOwnType(st.WideReading());
    FieldDecides(st.NarrowReading(), after, Array([]));
    FieldDecides(st.WideReading(), TEXT_MAP, Array([]));
    FieldMisled(st, TEXT_MAP, after, Array([]));
  }

  const NULL_LISTED := ANYTHING.(enumeration := Some([Null]))
  const NULL_AND_CONSTANT := ANYTHING.(enumeration := Some([Null]), constant := Some(Text("")))

  /** A constant beside an enumeration. */
  lemma ConstantBesideEnumerationUnread(meaning: Meaning)
    ensures Misled(Plain(Request, meaning), NULL_LISTED, NULL_AND_CONSTANT, Null)
  {
    var st := Plain(Request, meaning);
    ConstantPasses();
    hide NodeTasks, Misled;
    PlainAccepts(st.NarrowReading(), NULL_LISTED, Null);
    PlainMisled(st, NULL_LISTED, NULL_AND_CONSTANT, Null);
  }

  lemma ConstantPasses()
    ensures NodeTasks(Request, NULL_LISTED, NULL_AND_CONSTANT, "") == []
  {
    assert KeptHere(Request, NULL_LISTED, NULL_AND_CONSTANT);
    assert HereTasks(Request, NULL_LISTED, NULL_AND_CONSTANT, "") == [];
    hide HereTasks, KeptHere;
  }

  // ----- names that are joined by a space

  const SPACED := Documents(map["A B" := ANY_TEXT, "A" := ANY_TEXT], map["C" := ANY_TEXT, "B C" := ANY_LIST])

  function TwoFields(p: string, q: string): Schema
  {
    ANY_OBJECT.(properties := Some([Property("p", ReferenceTo(p)), Property("q", ReferenceTo(q))]))
  }

  /** Two pairs of names with the same text, where names may hold a space: the second pair is not compared. */
  lemma SpaceInNameUnread(meaning: Meaning)
    ensures Misled(Setting(SPACED, Request, meaning), TwoFields("A B", "A"), TwoFields("C", "B C"),
        Object([Field("q", Text(""))]))
  {
    var st, v := Setting(SPACED, Request, meaning), Object([Field("q", Text(""))]);
    var before, after := TwoFields("A B", "A"), TwoFields("C", "B C");
    hide Accepts, AcceptsWithin, FindsNothing, Declared;
    SpacedFindsNothing(st);
    SpacedFields(before);
    SpacedFields(after);
    assert v.fields[0].name == "q" && v.fields[0].value == Text("");
    NameAccepts(st.NarrowReading(), "A", Text(""));
    NameAccepts(st.WideReading(), "B C", Text(""));
    AcceptsOwnType(st.NarrowReading());
    AcceptsOwnType(st.WideReading());
    assert AcceptsParts(st.NarrowReading(), before, v);
    PlainAccepts(st.NarrowReading(), before, v);
    assert !AcceptsParts(st.WideReading(), after, v);
    RefusedParts(st.WideReading(), after, v);
  }

  lemma SpacedFields(s: Schema)
    requires s.properties.Some? && |s.properties.value| == 2 && s.properties.value[0].name == "p"
        && s.properties.value[1].name == "q"
    ensures Declared(PropertiesOf(s), "p") == Some(s.properties.value[0].schema)
    ensures Declared(PropertiesOf(s), "q") == Some(s.properties.value[1].schema)
  {
    assert PropertiesOf(s)[1..][0].name == "q";
  }

  lemma RefusedParts(r: Reading, s: Schema, v: Value)
    requires !AcceptsParts(r, s, v)
    ensures !Accepts(r, s, v)
  {
  }

  lemma NameIsItself(name: string)
    requires '/' !in name
    ensures RefName(name) == name
  {
  }

  lemma ReferenceResolves(components: Components, name: string, fuel: nat)
    requires RefName(name) in components && components[RefName(name)].ref.None? && fuel > 0
    ensures Resolve(components, ReferenceTo(name), fuel) == Node(components[RefName(name)])
  {
  }

  lemma NameAccepts(r: Reading, name: string, v: Value)
    requires '/' !in name && name in r.components
    ensures Accepts(r, ReferenceTo(name), v) <==> Accepts(r, r.components[name], v)
  {
    NameIsItself(name);
    var s := ReferenceTo(name);
    NothingDemanded(r, s, v);
    if Accepts(r, s, v) {
      var steps := StepsTaken(r, s, v);
      assert AcceptsWithin(r, steps - 1, r.components[name], v);
    }
    if Accepts(r, r.components[name], v) {
      var steps := StepsTaken(r, r.components[name], v);
      assert AcceptsHere(r, s, v);
      assert AcceptsWithin(r, steps + 1, s, v);
    }
  }

  lemma SpacedFindsNothing(st: Setting)
    requires st.docs == SPACED && st.direction.Request?
    ensures FindsNothing(st, TwoFields("A B", "A"), TwoFields("C", "B C"))
  {
    var before, after, fuel: nat := TwoFields("A B", "A"), TwoFields("C", "B C"), 9;
    var first, second, key := FieldDescent("A B", "C", "p"), FieldDescent("A", "B C", "q"), PairKey("A B", "C");
    SameKey();
    hide CompareNodes, PairKey, NodeTasks, RunTasks, FindsNothing;
    FirstPairMarks(fuel - 1, first);
    SecondPairSkipped(fuel - 1, key, second);
    TwoFieldTasks("A B", "A", "C", "B C");
    hide FieldDescent;
    SpacedRun(fuel - 1, {key}, first, second);
    TasksAreRun(fuel, before, after);
    FoundNothing(st, fuel, before, after);
  }

  lemma SameKey()
    ensures PairKey("A B", "C") == PairKey("A", "B C")
  {
    assert PairKey("A B", "C") == "A B C";
  }

  function FieldDescent(b: string, a: string, name: string): Task {
    Descend(ReferenceTo(b), ReferenceTo(a), "" + "." + name)
  }

  lemma TasksAreRun(fuel: nat, before: Schema, after: Schema)
    requires fuel > 0 && StatesLittle(before) && StatesLittle(after) && before.types == after.types
    ensures CompareNodes(SPACED, Request, fuel, {}, before, after, "")
            == RunTasks(SPACED, Request, fuel - 1, {}, NodeTasks(Request, before, after, ""))
  {
    NodeStep(SPACED, Request, fuel, {}, before, after, "");
    hide NodeTasks;
  }

  lemma SpacedRun(fuel: nat, marked: set<string>, first: Task, second: Task)
    requires first.Descend? && second.Descend?
    requires CompareNodes(SPACED, Request, fuel, {}, first.before, first.after, first.where) == Done([], marked)
    requires CompareNodes(SPACED, Request, fuel, marked, second.before, second.after, second.where) == Done([], marked)
    ensures RunTasks(SPACED, Request, fuel, {}, [first, second]) == Done([], marked)
  {
    hide CompareNodes;
    assert [first, second][1..] == [second] && [second][1..] == [];
    assert RunTasks(SPACED, Request, fuel, marked, [second]) == Done([], marked);
  }

  lemma TwoFieldTasks(p: string, q: string, p': string, q': string)
    ensures NodeTasks(Request, TwoFields(p, q), TwoFields(p', q'), "")
        == [FieldDescent(p, p', "p"), FieldDescent(q, q', "q")]
  {
    var before, after := TwoFields(p, q), TwoFields(p', q');
    var fields := PropertiesOf(before);
    OnlyFieldTasks(before, after);
    EachFieldTask(p, q, p', q');
    TasksOfTwo(before, after, fields[0], fields[1]);
    hide FieldTask, FieldTasks, NodeTasks, FieldDescent;
    assert fields == [fields[0], fields[1]];
  }

  lemma TasksOfTwo(before: Schema, after: Schema, first: Property, second: Property)
    ensures FieldTasks(Request, [first, second], before, after, "")
            == FieldTask(Request, first, before, after, "") + FieldTask(Request, second, before, after, "")
  {
    hide FieldTask;
    assert [first, second][1..] == [second] && [second][1..] == [];
    assert FieldTasks(Request, [second], before, after, "") == FieldTask(Request, second, before, after, "") + [];
  }

  lemma OnlyFieldTasks(before: Schema, after: Schema)
    requires StatesLittle(before) && StatesLittle(after) && after.required == [] && after.additional.Open?
    requires before.items.None? || after.items.None?
    ensures NodeTasks(Request, before, after, "") == FieldTasks(Request, PropertiesOf(before), before, after, "")
  {
    assert KeptHere(Request, before, after);
    assert HereTasks(Request, before, after, "") == [];
    assert RequestTasks(before, after, "") == [] && PartTasks(before, after, "") == [];
    hide HereTasks, KeptHere, FieldTasks, RequestTasks, PartTasks;
  }

  lemma EachFieldTask(p: string, q: string, p': string, q': string)
    ensures FieldTask(Request, Property("p", ReferenceTo(p)), TwoFields(p, q), TwoFields(p', q'), "")
        == [FieldDescent(p, p', "p")]
    ensures FieldTask(Request, Property("q", ReferenceTo(q)), TwoFields(p, q), TwoFields(p', q'), "")
        == [FieldDescent(q, q', "q")]
  {
    SpacedFields(TwoFields(p', q'));
    hide Declared;
  }

  /** The first pair: two names of the same text schema. */
  lemma FirstPairMarks(fuel: nat, t: Task)
    requires fuel > 1 && t.Descend? && t.before == ReferenceTo("A B") && t.after == ReferenceTo("C")
    ensures CompareNodes(SPACED, Request, fuel, {}, t.before, t.after, t.where) == Done([], {PairKey("A B", "C")})
  {
    NameIsItself("A B");
    NameIsItself("C");
    assert "A B" in SPACED.before && SPACED.before["A B"] == ANY_TEXT && "C" in SPACED.after
        && SPACED.after["C"] == ANY_TEXT;
    ReferenceResolves(SPACED.before, "A B", fuel);
    ReferenceResolves(SPACED.after, "C", fuel);
    NodeStep(SPACED, Request, fuel, {}, t.before, t.after, t.where);
    SelfIsKept(Request, ANY_TEXT);
    assert NodeTasks(Request, ANY_TEXT, ANY_TEXT, t.where) == [];
    assert Marked({}, t.before, t.after) == {PairKey("A B", "C")};
    hide NodeTasks, CompareNodes;
  }

  lemma SecondPairSkipped(fuel: nat, key: string, t: Task)
    requires fuel > 0 && t.Descend? && t.before == ReferenceTo("A") && t.after == ReferenceTo("B C")
        && key == PairKey("A", "B C")
    ensures CompareNodes(SPACED, Request, fuel, {key}, t.before, t.after, t.where) == Done([], {key})
  {
  }
}
