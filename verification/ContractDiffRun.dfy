/**
 The comparison as it runs: an object that collects its findings and the pairs it has compared,
 walks both schemas in loops, and gives every candidate of an alternative a trial of its own on a
 copy of the pairs. It computes what the functions of `ContractDiff` say.

 The functions list the steps of two nodes first and run them afterwards; the object finds and
 runs them at once. So each loop below holds that what it has found, with what the functions say
 of the steps that are left, is what they say of all of them.
 */
module ContractDiffRun {
  import opened Optional
  import opened JsonSchema
  import opened ContractDiff

  /** How a call ends: in order, with a reference to nothing, or without fuel. */
  datatype End = Ended | Threw(ref: string) | Stopped

  /** What a run has done to its findings and pairs, against the outcome it should have. */
  ghost predicate Follows(outcome: Outcome, end: End, before: seq<Finding>, findings: seq<Finding>,
      compared: set<string>)
  {
    match outcome
    case Done(found, marked) => end.Ended? && findings == before + found && compared == marked
    case Missing(ref) => end == Threw(ref)
    case OutOfFuel => end.Stopped?
  }

  // ----- the steps of a list of tasks

  /** The outcome of all tasks, when `found` has been found and `rest` is left. */
  ghost predicate Continues(docs: Documents, direction: Direction, fuel: nat, total: Outcome, found: seq<Finding>,
      compared: set<string>, rest: seq<Task>)
  {
    total == Prefixed(found, RunTasks(docs, direction, fuel, compared, rest))
  }

  lemma {:induction false} ReportSteps(docs: Documents, direction: Direction, fuel: nat, total: Outcome,
      found: seq<Finding>, compared: set<string>, reports: seq<Task>, rest: seq<Task>)
    requires forall t :: t in reports ==> t.Report?
    requires Continues(docs, direction, fuel, total, found, compared, reports + rest)
    ensures Continues(docs, direction, fuel, total, found + Reported(reports), compared, rest)
    decreases |reports|
  {
    if reports == [] {
      assert reports + rest == rest && found + [] == found;
    } else {
      assert reports + rest == [Report(reports[0].finding)] + (reports[1..] + rest);
      ReportSteps(docs, direction, fuel, total, found + [reports[0].finding], compared, reports[1..], rest);
      assert found + Reported(reports) == (found + [reports[0].finding]) + Reported(reports[1..]);
    }
  }

  lemma DescendStep(docs: Documents, direction: Direction, fuel: nat, total: Outcome, found: seq<Finding>,
      compared: set<string>, before: Schema, after: Schema, where: string, rest: seq<Task>)
    requires Continues(docs, direction, fuel, total, found, compared, [Descend(before, after, where)] + rest)
    ensures var first := ContractDiff.CompareNodes(docs, direction, fuel, compared, before, after, where);
            if first.Done? then Continues(docs, direction, fuel, total, found + first.findings, first.compared, rest)
                else total == first
  {
    assert ([Descend(before, after, where)] + rest)[1..] == rest;
    var first := ContractDiff.CompareNodes(docs, direction, fuel, compared, before, after, where);
    if first.Done? {
      var next := RunTasks(docs, direction, fuel, first.compared, rest);
      if next.Done? {
        assert found + (first.findings + next.findings) == (found + first.findings) + next.findings;
      }
    }
  }

  function Reported(tasks: seq<Task>): seq<Finding>
    requires forall t :: t in tasks ==> t.Report?
  {
    if tasks == [] then [] else [tasks[0].finding] + Reported(tasks[1..])
  }

  lemma {:induction false} ReportedApart(a: seq<Task>, b: seq<Task>)
    requires (forall t :: t in a ==> t.Report?) && (forall t :: t in b ==> t.Report?)
    ensures Reported(a + b) == Reported(a) + Reported(b)
  {
    if a == [] {
      assert a + b == b;
    } else {
      assert (a + b)[0] == a[0] && (a + b)[1..] == a[1..] + b;
      ReportedApart(a[1..], b);
    }
  }

  // ----- the loops that only report

  lemma Regroup(a: seq<Finding>, b: seq<Finding>, c: seq<Finding>)
    ensures a + (b + c) == (a + b) + c
  {
  }

  lemma PrefixedTwice(a: seq<Finding>, b: seq<Finding>, outcome: Outcome)
    ensures Prefixed(a, Prefixed(b, outcome)) == Prefixed(a + b, outcome)
  {
  }

  lemma BoundStep(bounds: seq<Bound>, i: nat, narrow: Schema, wide: Schema, where: string, step: seq<Finding>)
    requires i < |bounds| && step == if BoundKept(bounds[i], narrow, wide) then []
        else [Finding(where, BoundNarrowed(bounds[i]))]
    ensures Reported(BoundTasks(bounds[i..], narrow, wide, where)) == step
        + Reported(BoundTasks(bounds[i + 1..], narrow, wide, where))
  {
    assert bounds[i..][1..] == bounds[i + 1..] && bounds[i..][0] == bounds[i];
    var tasks := if step == [] then [] else [Report(step[0])];
    ReportedApart(tasks, BoundTasks(bounds[i + 1..], narrow, wide, where));
  }

  method CompareBounds(bounds: seq<Bound>, narrow: Schema, wide: Schema, where: string) returns (found: seq<Finding>)
    ensures found == Reported(BoundTasks(bounds, narrow, wide, where))
  {
    found := [];
    assert bounds[0..] == bounds;
    ghost var all := Reported(BoundTasks(bounds, narrow, wide, where));
    for i := 0 to |bounds|
      invariant found + Reported(BoundTasks(bounds[i..], narrow, wide, where)) == all
    {
      var step := if BoundKept(bounds[i], narrow, wide) then [] else [Finding(where, BoundNarrowed(bounds[i]))];
      BoundStep(bounds, i, narrow, wide, where, step);
      Regroup(found, step, Reported(BoundTasks(bounds[i + 1..], narrow, wide, where)));
      found := found + step;
    }
    assert bounds[|bounds|..] == [];
  }

  method CompareKeywords(names: seq<string>, before: Schema, after: Schema, where: string) returns (found: seq<Finding>)
    ensures found == Reported(KeywordTasks(names, {}, before, after, where))
  {
    hide KeywordText;
    var seen := {};
    found := [];
    assert names[0..] == names;
    ghost var all := Reported(KeywordTasks(names, {}, before, after, where));
    for i := 0 to |names|
      invariant found + Reported(KeywordTasks(names[i..], seen, before, after, where)) == all
    {
      var step := if names[i] !in seen && KeywordText(before.others, names[i]) != KeywordText(after.others, names[i])
                  then [Finding(where, KeywordChanged(names[i]))] else [];
      Regroup(found, step, Reported(KeywordTasks(names[i + 1..], seen + {names[i]}, before, after, where)));
      found, seen := found + step, seen + {names[i]};
    }
    assert names[|names|..] == [];
  }

  lemma RequiredStep(required: seq<string>, i: nat, before: Schema, where: string, step: seq<Finding>)
    requires i < |required| && step == if required[i] in before.required then []
        else [Finding(where, FieldRequired(required[i]))]
    ensures Reported(RequiredTasks(required[i..], before, where)) == step
        + Reported(RequiredTasks(required[i + 1..], before, where))
  {
    assert required[i..][1..] == required[i + 1..] && required[i..][0] == required[i];
    var tasks := if step == [] then [] else [Report(step[0])];
    ReportedApart(tasks, RequiredTasks(required[i + 1..], before, where));
  }

  method CompareRequired(required: seq<string>, before: Schema, where: string) returns (found: seq<Finding>)
    ensures found == Reported(RequiredTasks(required, before, where))
  {
    found := [];
    assert required[0..] == required;
    ghost var all := Reported(RequiredTasks(required, before, where));
    for i := 0 to |required|
      invariant found + Reported(RequiredTasks(required[i..], before, where)) == all
    {
      var step := if required[i] in before.required then [] else [Finding(where, FieldRequired(required[i]))];
      RequiredStep(required, i, before, where, step);
      Regroup(found, step, Reported(RequiredTasks(required[i + 1..], before, where)));
      found := found + step;
    }
    assert required[|required|..] == [];
  }

  lemma TasksInOrder(direction: Direction, before: Schema, after: Schema, where: string, rest: seq<Task>)
    requires rest == (if direction.Request? then RequestTasks(before, after, where) else [])
        + PartTasks(before, after, where)
    ensures NodeTasks(direction, before, after, where)
            == HereTasks(direction, before, after, where)
                + (FieldTasks(direction, PropertiesOf(before), before, after, where) + rest)
  {
  }

  lemma NodeTasksInOrder(docs: Documents, direction: Direction, fuel: nat, compared: set<string>, before: Schema,
      after: Schema, where: string, rest: seq<Task>)
    requires rest == (if direction.Request? then RequestTasks(before, after, where) else [])
        + PartTasks(before, after, where)
    ensures Continues(docs, direction, fuel,
        RunTasks(docs, direction, fuel, compared, NodeTasks(direction, before, after, where)),
                      Reported(HereTasks(direction, before, after, where)), compared,
                          FieldTasks(direction, PropertiesOf(before), before, after, where) + rest)
  {
    var here, fields := HereTasks(direction, before, after, where),
        FieldTasks(direction, PropertiesOf(before), before, after, where);
    var total := RunTasks(docs, direction, fuel, compared, NodeTasks(direction, before, after, where));
    TasksInOrder(direction, before, after, where, rest);
    assert total.Done? ==> [] + total.findings == total.findings;
    ReportSteps(docs, direction, fuel, total, [], compared, here, fields + rest);
    assert [] + Reported(here) == Reported(here);
  }

  lemma FieldsFirst(direction: Direction, fields: seq<Property>, i: nat, before: Schema, after: Schema,
      where: string, rest: seq<Task>)
    requires i < |fields|
    ensures FieldTasks(direction, fields[i..], before, after, where) + rest
            == FieldTask(direction, fields[i], before, after, where)
                + (FieldTasks(direction, fields[i + 1..], before, after, where) + rest)
  {
  }

  class Comparison {
    const docs: Documents
    const direction: Direction
    var compared: set<string>
    var findings: seq<Finding>

    constructor (docs: Documents, direction: Direction, compared: set<string>)
      ensures this.docs == docs && this.direction == direction && this.compared == compared && findings == []
    {
      this.docs, this.direction, this.compared, this.findings := docs, direction, compared, [];
    }

    method CompareNodes(fuel: nat, before: Schema, after: Schema, where: string) returns (end: End)
      modifies this
      ensures Follows(ContractDiff.CompareNodes(docs, direction, fuel, old(compared), before, after, where),
                      end, old(findings), findings, compared)
      decreases fuel, 0
    {
      if fuel == 0 { return Stopped; }
      if before.ref.Some? && after.ref.Some? {
        var pair := PairKey(before.ref.value, after.ref.value);
        if pair in compared { return Ended; }
        compared := compared + {pair};
      }
      var beforeNode := Resolve(docs.before, before, fuel);
      if beforeNode.NotDefined? { return Threw(beforeNode.ref); }
      if beforeNode.Endless? { return Stopped; }
      var afterNode := Resolve(docs.after, after, fuel);
      if afterNode.NotDefined? { return Threw(afterNode.ref); }
      if afterNode.Endless? { return Stopped; }
      end := CompareResolved(fuel - 1, beforeNode.schema, afterNode.schema, where);
    }

    method CompareResolved(fuel: nat, before: Schema, after: Schema, where: string) returns (end: End)
      modifies this
      ensures Follows(ContractDiff.CompareResolved(docs, direction, fuel, old(compared), before, after, where),
                      end, old(findings), findings, compared)
      decreases fuel, 4
    {
      var narrow, wide := Narrow(direction, before, after), Wide(direction, before, after);
      if Alternatives(narrow).Some? || Alternatives(wide).Some? {
        end := CompareAlternatives(fuel, Options(narrow), Options(wide), where);
        return;
      }
      if !TypesKept(narrow, wide) {
        findings := findings + [Finding(where, TypeChanged)];
        return Ended;
      }
      end := CompareKept(fuel, before, after, where);
    }

    /** Two nodes without alternatives whose types are kept. */
    method CompareKept(fuel: nat, before: Schema, after: Schema, where: string) returns (end: End)
      modifies this
      ensures Follows(RunTasks(docs, direction, fuel, old(compared), NodeTasks(direction, before, after, where)),
                      end, old(findings), findings, compared)
      decreases fuel, 3
    {
      ghost var base := findings;
      ghost var total := RunTasks(docs, direction, fuel, compared, NodeTasks(direction, before, after, where));
      ghost var request := if direction.Request? then RequestTasks(before, after, where) else [];
      ghost var rest := request + PartTasks(before, after, where);
      ghost var found := Reported(HereTasks(direction, before, after, where));
      NodeTasksInOrder(docs, direction, fuel, compared, before, after, where, rest);
      ReportHere(Narrow(direction, before, after), Wide(direction, before, after), before, after, where);
      end, found := CompareFields(fuel, before, after, where, total, base, found, rest);
      if !end.Ended? { return; }
      if direction.Request? {
        ReportSteps(docs, direction, fuel, total, found, compared, request, PartTasks(before, after, where));
        Regroup(base, found, Reported(request));
        found := found + Reported(request);
        ReportRequest(before, after, where);
      } else {
        assert rest == PartTasks(before, after, where);
      }
      end := CompareParts(fuel, before, after, where, total, base, found);
    }

    method ReportHere(narrow: Schema, wide: Schema, before: Schema, after: Schema, where: string)
      requires narrow == Narrow(direction, before, after) && wide == Wide(direction, before, after)
      modifies this`findings
      ensures findings == old(findings) + Reported(HereTasks(direction, before, after, where))
    {
      ghost var values := if ValuesKept(narrow, wide) then [] else [Report(Finding(where, ValuesNarrowed))];
      ghost var lower, upper := BoundTasks(LOWER_BOUNDS, narrow, wide, where),
          BoundTasks(UPPER_BOUNDS, narrow, wide, where);
      ghost var keywords :=
          KeywordTasks(KeywordNames(before.others) + KeywordNames(after.others), {}, before, after, where);
      ReportedApart(values, lower);
      ReportedApart(values + lower, upper);
      ReportedApart(values + lower + upper, keywords);
      var changed := if ValuesKept(narrow, wide) then [] else [Finding(where, ValuesNarrowed)];
      assert changed == Reported(values);
      var tooLow := CompareBounds(LOWER_BOUNDS, narrow, wide, where);
      var tooHigh := CompareBounds(UPPER_BOUNDS, narrow, wide, where);
      var others := CompareKeywords(KeywordNames(before.others) + KeywordNames(after.others), before, after, where);
      findings := findings + (changed + tooLow + tooHigh + others);
    }

    method ReportRequest(before: Schema, after: Schema, where: string)
      modifies this`findings
      ensures findings == old(findings) + Reported(RequestTasks(before, after, where))
    {
      var found := CompareRequired(after.required, before, where);
      var refused := if after.additional.Refused? && !before.additional.Refused?
          then [Finding(where, UnknownFieldsRefused)] else [];
      ghost var refusal := if refused == [] then [] else [Report(refused[0])];
      assert RequestTasks(before, after, where) == RequiredTasks(after.required, before, where) + refusal;
      ReportedApart(RequiredTasks(after.required, before, where), refusal);
      assert Reported(refusal) == refused;
      findings := findings + (found + refused);
    }

    /** Walks the fields of the old schema; `rest` is what the comparison does after them. */
    method CompareFields(fuel: nat, before: Schema, after: Schema, where: string, ghost total: Outcome,
        ghost base: seq<Finding>, ghost already: seq<Finding>, ghost rest: seq<Task>)
      returns (end: End, ghost found: seq<Finding>)
      requires Continues(docs, direction, fuel, total, already, compared,
          FieldTasks(direction, PropertiesOf(before), before, after, where) + rest)
      requires findings == base + already
      modifies this
      ensures end.Ended? ==> findings == base + found && Continues(docs, direction, fuel, total, found, compared, rest)
      ensures !end.Ended? ==> Follows(total, end, [], [], {})
      decreases fuel, 2
    {
      var fields := PropertiesOf(before);
      end, found := Ended, already;
      assert fields[0..] == fields;
      for i := 0 to |fields|
        invariant end.Ended? && findings == base + found
        invariant Continues(docs, direction, fuel, total, found, compared,
            FieldTasks(direction, fields[i..], before, after, where) + rest)
      {
        ghost var tail := FieldTasks(direction, fields[i + 1..], before, after, where) + rest;
        FieldsFirst(direction, fields, i, before, after, where, rest);
        end, found := CompareField(fuel, fields[i], before, after, where, total, base, found, tail);
        if !end.Ended? { return; }
      }
      assert fields[|fields|..] == [];
      assert FieldTasks(direction, [], before, after, where) + rest == rest;
    }

    method CompareField(fuel: nat, field: Property, before: Schema, after: Schema, where: string,
        ghost total: Outcome, ghost base: seq<Finding>, ghost already: seq<Finding>, ghost rest: seq<Task>)
      returns (end: End, ghost found: seq<Finding>)
      requires Continues(docs, direction, fuel, total, already, compared,
          FieldTask(direction, field, before, after, where) + rest)
      requires findings == base + already
      modifies this
      ensures end.Ended? ==> findings == base + found && Continues(docs, direction, fuel, total, found, compared, rest)
      ensures !end.Ended? ==> Follows(total, end, [], [], {})
      decreases fuel, 1
    {
      end, found := Ended, already;
      var kept := Declared(PropertiesOf(after), field.name);
      if kept.None? {
        var removed := Finding(where, FieldRemoved(field.name));
        Regroup(base, already, [removed]);
        findings, found := findings + [removed], already + [removed];
        return;
      }
      var absent := if direction.Response? && field.name in before.required && field.name !in after.required
                    then [Finding(where, FieldMayBeAbsent(field.name))] else [];
      ghost var reports := if absent == [] then [] else [Report(absent[0])];
      ghost var path := where + "." + field.name;
      assert FieldTask(direction, field, before, after, where) + rest == [Descend(field.schema, kept.value, path)]
          + (reports + rest);
      DescendStep(docs, direction, fuel, total, already, compared, field.schema, kept.value, path, reports + rest);
      ghost var first := ContractDiff.CompareNodes(docs, direction, fuel, compared, field.schema, kept.value, path);
      end := CompareNodes(fuel, field.schema, kept.value, where + "." + field.name);
      if !end.Ended? { return; }
      found := already + first.findings;
      Regroup(base, already, first.findings);
      ReportSteps(docs, direction, fuel, total, found, compared, reports, rest);
      assert Reported(reports) == absent;
      Regroup(base, found, absent);
      findings, found := findings + absent, found + absent;
    }

    method CompareParts(fuel: nat, before: Schema, after: Schema, where: string,
                        ghost total: Outcome, ghost base: seq<Finding>, ghost already: seq<Finding>) returns (end: End)
      requires Continues(docs, direction, fuel, total, already, compared, PartTasks(before, after, where))
      requires findings == base + already
      modifies this
      ensures Follows(total, end, base, findings, compared)
      decreases fuel, 2
    {
      ghost var found := already;
      end := Ended;
      ghost var last := if before.additional.Values? && after.additional.Values?
                        then [Descend(before.additional.schema, after.additional.schema, where + ".*")] else [];
      if before.items.Some? && after.items.Some? {
        DescendStep(docs, direction, fuel, total, found, compared, before.items.value, after.items.value,
            where + "[]", last);
        ghost var first :=
            ContractDiff.CompareNodes(docs, direction, fuel, compared, before.items.value, after.items.value,
            where + "[]");
        end := CompareNodes(fuel, before.items.value, after.items.value, where + "[]");
        if !end.Ended? { return; }
        Regroup(base, found, first.findings);
        found := found + first.findings;
      } else {
        assert PartTasks(before, after, where) == last;
      }
      if before.additional.Values? && after.additional.Values? {
        assert last == last + [];
        DescendStep(docs, direction, fuel, total, found, compared, before.additional.schema, after.additional.schema,
            where + ".*", []);
        ghost var second :=
            ContractDiff.CompareNodes(docs, direction, fuel, compared, before.additional.schema,
            after.additional.schema, where + ".*");
        end := CompareNodes(fuel, before.additional.schema, after.additional.schema, where + ".*");
        if !end.Ended? { return; }
        Regroup(base, found, second.findings);
        found := found + second.findings;
      }
      assert found + [] == found;
    }

    method CompareAlternatives(fuel: nat, narrow: seq<Schema>, wide: seq<Schema>, where: string) returns (end: End)
      modifies this
      ensures Follows(CompareOptions(docs, direction, fuel, old(compared), narrow, 0, wide, where), end,
          old(findings), findings, compared)
      decreases fuel, 2
    {
      ghost var found: seq<Finding> := [];
      ghost var total := CompareOptions(docs, direction, fuel, compared, narrow, 0, wide, where);
      end := Ended;
      for index := 0 to |narrow|
        invariant end.Ended? && compared == old(compared) && findings == old(findings) + found
        invariant total == Prefixed(found, CompareOptions(docs, direction, fuel, compared, narrow, index, wide, where))
      {
        var covered;
        end, covered := Cover(fuel, narrow[index], wide, where);
        if !end.Ended? { return; }
        var step := if covered then [] else [Finding(where, AlternativeNotCovered(index))];
        PrefixedTwice(found, step, CompareOptions(docs, direction, fuel, compared, narrow, index + 1, wide, where));
        Regroup(old(findings), found, step);
        findings, found := findings + step, found + step;
      }
    }

    /** Whether one of the candidates covers the option, each tried on a copy of the compared pairs. */
    method Cover(fuel: nat, option: Schema, candidates: seq<Schema>, where: string) returns (end: End, covered: bool)
      ensures match CoveringOption(docs, direction, fuel, compared, option, candidates, where)
              case Covered(c) => end.Ended? && covered == c
              case Broken(outcome) => !end.Ended? && Follows(outcome, end, [], [], {})
      decreases fuel, 1
    {
      end, covered := Ended, false;
      var j := 0;
      ghost var total := CoveringOption(docs, direction, fuel, compared, option, candidates, where);
      assert candidates[0..] == candidates;
      while j < |candidates| && !covered
        invariant 0 <= j <= |candidates| && end.Ended?
        invariant total == if covered then Covered(true)
            else CoveringOption(docs, direction, fuel, compared, option, candidates[j..], where)
      {
        assert candidates[j..][1..] == candidates[j + 1..];
        var trial := new Comparison(docs, direction, compared);
        end := trial.CompareNodes(fuel, Narrow(direction, option, candidates[j]),
            Wide(direction, option, candidates[j]), where);
        if !end.Ended? { return; }
        covered := trial.findings == [];
        j := j + 1;
      }
    }
  }
}
