/**
 The comparison of two schema graphs, as functions: what `compareNodes` reports and which pairs
 of named schemas it marks as compared. A comparison may never end, so it runs on `fuel`, the
 depth of calls it may nest; a result other than `OutOfFuel` is the result of the comparison.
 */
module ContractDiff {
  import opened Optional
  import opened JsonSchema

  datatype Direction = Request | Response

  datatype Documents = Documents(before: Components, after: Components)

  datatype What =
    | AlternativeNotCovered(index: nat)
    | TypeChanged
    | ValuesNarrowed
    | BoundNarrowed(bound: Bound)
    | KeywordChanged(keyword: string)
    | FieldRemoved(field: string)
    | FieldMayBeAbsent(field: string)
    | FieldRequired(field: string)
    | UnknownFieldsRefused

  datatype Finding = Finding(where: string, what: What)

  /** `Missing`: a reference to a component the document does not define, which is thrown. */
  datatype Outcome = Done(findings: seq<Finding>, compared: set<string>) | Missing(ref: string) | OutOfFuel

  datatype Resolved = Node(schema: Schema) | NotDefined(ref: string) | Endless

  /** One step of a comparison below a pair of nodes, in the order it is made. */
  datatype Task = Report(finding: Finding) | Descend(before: Schema, after: Schema, where: string)

  const LOWER_BOUNDS := [Minimum, ExclusiveMinimum, MinLength, MinItems]
  const UPPER_BOUNDS := [Maximum, ExclusiveMaximum, MaxLength, MaxItems]

  function PairKey(beforeRef: string, afterRef: string): string { beforeRef + " " + afterRef }

  function Resolve(components: Components, schema: Schema, fuel: nat): Resolved
    decreases fuel
  {
    if schema.ref.None? then Node(schema)
    else if RefName(schema.ref.value) !in components then NotDefined(schema.ref.value)
    else if fuel == 0 then Endless
    else Resolve(components, components[RefName(schema.ref.value)], fuel - 1)
  }

  /** The side whose every value the other must still cover. */
  function Narrow<T>(direction: Direction, before: T, after: T): T
  {
    if direction.Request? then before else after
  }

  function Wide<T>(direction: Direction, before: T, after: T): T
  {
    if direction.Request? then after else before
  }

  function Alternatives(node: Schema): Option<seq<Schema>>
  {
    if node.anyOf.Some? then node.anyOf else node.oneOf
  }

  function ValuesOf(node: Schema): Option<seq<Value>>
  {
    if node.enumeration.Some? then node.enumeration
    else if node.constant.Some? then Some([node.constant.value]) else None
  }

  /** A value of the other side is found by identity, so an object or array is never found. */
  predicate Includes(values: seq<Value>, v: Value) { Primitive(v) && v in values }

  predicate TypesKept(narrow: Schema, wide: Schema)
  {
    wide.types.Some? ==>
      narrow.types.Some? && forall t :: t in narrow.types.value ==> t in wide.types.value
  }

  predicate ValuesKept(narrow: Schema, wide: Schema)
  {
    ValuesOf(wide).Some? ==>
      ValuesOf(narrow).Some? && forall v :: v in ValuesOf(narrow).value ==> Includes(ValuesOf(wide).value, v)
  }

  predicate BoundKept(bound: Bound, narrow: Schema, wide: Schema)
  {
    bound in wide.bounds ==>
      && bound in narrow.bounds
      && (if bound in LOWER_BOUNDS then wide.bounds[bound] <= narrow.bounds[bound]
          else narrow.bounds[bound] <= wide.bounds[bound])
  }

  function BoundTasks(bounds: seq<Bound>, narrow: Schema, wide: Schema, where: string): (r: seq<Task>)
    ensures forall t :: t in r ==> t.Report?
    ensures r == [] <==> forall b :: b in bounds ==> BoundKept(b, narrow, wide)
  {
    if bounds == [] then []
    else
      (if BoundKept(bounds[0], narrow, wide) then [] else [Report(Finding(where, BoundNarrowed(bounds[0])))])
      + BoundTasks(bounds[1..], narrow, wide, where)
  }

  function KeywordNames(keywords: seq<Keyword>): (r: seq<string>)
    ensures forall name :: name in r <==> KeywordText(keywords, name).Some?
  {
    if keywords == [] then [] else [keywords[0].name] + KeywordNames(keywords[1..])
  }

  /** The names of both sides, each once: in the order they are first met. */
  function KeywordTasks(names: seq<string>, seen: set<string>, before: Schema, after: Schema,
      where: string): (r: seq<Task>)
    ensures forall t :: t in r ==> t.Report?
    ensures r == [] <==> forall name :: name in names && name !in seen ==>
                           KeywordText(before.others, name) == KeywordText(after.others, name)
  {
    if names == [] then []
    else if names[0] in seen || KeywordText(before.others, names[0]) == KeywordText(after.others, names[0]) then
      KeywordTasks(names[1..], seen + {names[0]}, before, after, where)
    else
      [Report(Finding(where, KeywordChanged(names[0])))]
      + KeywordTasks(names[1..], seen + {names[0]}, before, after, where)
  }

  function FieldTasks(direction: Direction, fields: seq<Property>, before: Schema, after: Schema,
      where: string): seq<Task>
  {
    if fields == [] then []
    else
      FieldTask(direction, fields[0], before, after, where)
      + FieldTasks(direction, fields[1..], before, after, where)
  }

  function FieldTask(direction: Direction, field: Property, before: Schema, after: Schema, where: string): seq<Task>
  {
    var kept := Declared(PropertiesOf(after), field.name);
    if kept.None? then [Report(Finding(where, FieldRemoved(field.name)))]
    else
      [Descend(field.schema, kept.value, where + "." + field.name)]
      + (if direction.Response? && field.name in before.required && field.name !in after.required
         then [Report(Finding(where, FieldMayBeAbsent(field.name)))] else [])
  }

  function RequiredTasks(required: seq<string>, before: Schema, where: string): (r: seq<Task>)
    ensures forall t :: t in r ==> t.Report?
    ensures r == [] <==> forall name :: name in required ==> name in before.required
  {
    if required == [] then []
    else
      (if required[0] in before.required then [] else [Report(Finding(where, FieldRequired(required[0])))])
      + RequiredTasks(required[1..], before, where)
  }

  function RequestTasks(before: Schema, after: Schema, where: string): (r: seq<Task>)
    ensures forall t :: t in r ==> t.Report?
    ensures r == [] <==> (forall name :: name in after.required ==> name in before.required)
                         && (after.additional.Refused? ==> before.additional.Refused?)
  {
    RequiredTasks(after.required, before, where)
    + (if after.additional.Refused? && !before.additional.Refused?
       then [Report(Finding(where, UnknownFieldsRefused))] else [])
  }

  function PartTasks(before: Schema, after: Schema, where: string): seq<Task>
  {
    (if before.items.Some? && after.items.Some?
     then [Descend(before.items.value, after.items.value, where + "[]")] else [])
    + (if before.additional.Values? && after.additional.Values?
       then [Descend(before.additional.schema, after.additional.schema, where + ".*")] else [])
  }

  /** What the comparison says of two nodes whose types are kept, apart from what they hold. */
  function HereTasks(direction: Direction, before: Schema, after: Schema, where: string): (r: seq<Task>)
    ensures forall t :: t in r ==> t.Report?
    ensures r == [] <==> KeptHere(direction, before, after)
  {
    var narrow, wide := Narrow(direction, before, after), Wide(direction, before, after);
    (if ValuesKept(narrow, wide) then [] else [Report(Finding(where, ValuesNarrowed))])
    + BoundTasks(LOWER_BOUNDS, narrow, wide, where)
    + BoundTasks(UPPER_BOUNDS, narrow, wide, where)
    + KeywordTasks(KeywordNames(before.others) + KeywordNames(after.others), {}, before, after, where)
  }

  predicate KeptHere(direction: Direction, before: Schema, after: Schema)
  {
    var narrow, wide := Narrow(direction, before, after), Wide(direction, before, after);
    && ValuesKept(narrow, wide)
    && (forall b :: b in LOWER_BOUNDS ==> BoundKept(b, narrow, wide))
    && (forall b :: b in UPPER_BOUNDS ==> BoundKept(b, narrow, wide))
    && (forall name :: name in KeywordNames(before.others) + KeywordNames(after.others) ==>
                         KeywordText(before.others, name) == KeywordText(after.others, name))
  }

  function NodeTasks(direction: Direction, before: Schema, after: Schema, where: string): seq<Task>
  {
    HereTasks(direction, before, after, where)
    + FieldTasks(direction, PropertiesOf(before), before, after, where)
    + (if direction.Request? then RequestTasks(before, after, where) else [])
    + PartTasks(before, after, where)
  }

  // ----- the comparison

  function CompareNodes(docs: Documents, direction: Direction, fuel: nat, compared: set<string>,
                        before: Schema, after: Schema, where: string): Outcome
    decreases fuel, 0, 0
  {
    if fuel == 0 then OutOfFuel
    else if before.ref.Some? && after.ref.Some? && PairKey(before.ref.value, after.ref.value) in compared then
      Done([], compared)
    else
      var marked := Marked(compared, before, after);
      match Resolve(docs.before, before, fuel)
      case NotDefined(ref) => Missing(ref)
      case Endless => OutOfFuel
      case Node(beforeNode) =>
        match Resolve(docs.after, after, fuel)
        case NotDefined(ref) => Missing(ref)
        case Endless => OutOfFuel
        case Node(afterNode) =>
          CompareResolved(docs, direction, fuel - 1, marked, beforeNode, afterNode, where)
  }

  /** The pairs compared so far, with this one if both sides are named. */
  function Marked(compared: set<string>, before: Schema, after: Schema): set<string>
  {
    if before.ref.Some? && after.ref.Some?
    then compared + {PairKey(before.ref.value, after.ref.value)} else compared
  }

  function Options(node: Schema): seq<Schema>
  {
    if Alternatives(node).Some? then Alternatives(node).value else [node]
  }

  function CompareResolved(docs: Documents, direction: Direction, fuel: nat, compared: set<string>,
                           before: Schema, after: Schema, where: string): Outcome
    decreases fuel, 3, 0
  {
    var narrow, wide := Narrow(direction, before, after), Wide(direction, before, after);
    if Alternatives(narrow).Some? || Alternatives(wide).Some? then
      CompareOptions(docs, direction, fuel, compared, Options(narrow), 0, Options(wide), where)
    else if !TypesKept(narrow, wide) then
      Done([Finding(where, TypeChanged)], compared)
    else
      RunTasks(docs, direction, fuel, compared, NodeTasks(direction, before, after, where))
  }

  function RunTasks(docs: Documents, direction: Direction, fuel: nat, compared: set<string>, tasks: seq<Task>): Outcome
    decreases fuel, 1, |tasks|
  {
    if tasks == [] then Done([], compared)
    else match tasks[0]
      case Report(finding) => Prefixed([finding], RunTasks(docs, direction, fuel, compared, tasks[1..]))
      case Descend(before, after, where) =>
        var first := CompareNodes(docs, direction, fuel, compared, before, after, where);
        if !first.Done? then first
        else Prefixed(first.findings, RunTasks(docs, direction, fuel, first.compared, tasks[1..]))
  }

  function Prefixed(findings: seq<Finding>, outcome: Outcome): Outcome
  {
    if outcome.Done? then Done(findings + outcome.findings, outcome.compared) else outcome
  }

  /** Each option of the narrow side must be covered by one option of the wide side. */
  function CompareOptions(docs: Documents, direction: Direction, fuel: nat, compared: set<string>,
                          narrow: seq<Schema>, index: nat, wide: seq<Schema>, where: string): Outcome
    requires index <= |narrow|
    decreases fuel, 2, |narrow| - index
  {
    if index == |narrow| then Done([], compared)
    else match CoveringOption(docs, direction, fuel, compared, narrow[index], wide, where)
      case Broken(outcome) => outcome
      case Covered(covered) =>
        Prefixed(if covered then [] else [Finding(where, AlternativeNotCovered(index))],
                 CompareOptions(docs, direction, fuel, compared, narrow, index + 1, wide, where))
  }

  /** `Broken` carries an outcome that is no comparison: a missing component or no fuel left. */
  datatype Cover = Covered(covered: bool) | Broken(outcome: Outcome)

  /** Tries the candidates in order, each on a copy of the compared pairs, until one is free of findings. */
  function CoveringOption(docs: Documents, direction: Direction, fuel: nat, compared: set<string>,
                          option: Schema, candidates: seq<Schema>, where: string): (r: Cover)
    ensures r.Broken? ==> !r.outcome.Done?
    decreases fuel, 1, |candidates|
  {
    if candidates == [] then Covered(false)
    else
      var trial := CompareNodes(docs, direction, fuel, compared,
                                Narrow(direction, option, candidates[0]), Wide(direction, option, candidates[0]),
                                    where);
      if !trial.Done? then Broken(trial)
      else if trial.findings == [] then Covered(true)
      else CoveringOption(docs, direction, fuel, compared, option, candidates[1..], where)
  }

  function CompareSchemas(docs: Documents, direction: Direction, fuel: nat, before: Schema, after: Schema,
      where: string): Outcome
  {
    CompareNodes(docs, direction, fuel, {}, before, after, where)
  }
}
