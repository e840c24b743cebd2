/**
 JSON values, the subset of JSON Schema that the contract comparison reads, and what it means
 for a schema of a document to accept a value.

 The meaning is a least fixed point: a chain of references and alternatives that never reaches
 a constraint accepts nothing. A value is a finite tree, so only the steps a schema takes at one
 and the same value have to be counted.
 */
module JsonSchema {
  import opened Optional

  datatype Value =
    | Null
    | Bool(b: bool)
    | Number(n: real)
    | Text(s: string)
    | Array(elements: seq<Value>)
    | Object(fields: seq<Field>)

  datatype Field = Field(name: string, value: Value)

  datatype Bound =
    | Minimum | ExclusiveMinimum | MinLength | MinItems
    | Maximum | ExclusiveMaximum | MaxLength | MaxItems

  /** `additionalProperties`: absent or `true`, `false`, or a schema for every other field. */
  datatype Additional = Open | Refused | Values(schema: Schema)

  datatype Property = Property(name: string, schema: Schema)

  /** A keyword the comparison does not read itself, with its JSON text. */
  datatype Keyword = Keyword(name: string, text: string)

  datatype Schema = Schema(
    ref: Option<string>,
    types: Option<seq<string>>,
    enumeration: Option<seq<Value>>,
    constant: Option<Value>,
    bounds: map<Bound, real>,
    properties: Option<seq<Property>>,
    required: seq<string>,
    additional: Additional,
    items: Option<Schema>,
    anyOf: Option<seq<Schema>>,
    oneOf: Option<seq<Schema>>,
    others: seq<Keyword>)

  const ANYTHING := Schema(None, None, None, None, map[], None, [], Open, None, None, None, [])

  type Components = map<string, Schema>

  /** The component name of a reference: what follows its last slash. */
  function RefName(ref: string): string
  {
    if ref == [] || '/' !in ref then ref else RefName(ref[1..])
  }

  lemma {:induction false} RefNameOf(prefix: string, name: string)
    requires '/' !in name
    ensures RefName(prefix + "/" + name) == name && RefName(name) == name
  {
    var ref := prefix + "/" + name;
    assert ref[|prefix|] == '/';
    if prefix == [] {
      assert ref[1..] == name;
    } else {
      assert ref[1..] == prefix[1..] + "/" + name;
      RefNameOf(prefix[1..], name);
    }
  }

  predicate Primitive(v: Value) { !v.Array? && !v.Object? }

  function PropertiesOf(s: Schema): seq<Property>
  {
    if s.properties.Some? then s.properties.value else []
  }

  /** The schema of a declared field; the first one, as an object has one entry for a name. */
  function Declared(properties: seq<Property>, name: string): (r: Option<Schema>)
    ensures r.Some? <==> exists i :: 0 <= i < |properties| && properties[i].name == name
    ensures r.Some? ==> exists i :: 0 <= i < |properties| && properties[i] == Property(name, r.value)
  {
    if properties == [] then None
    else if properties[0].name == name then
      assert properties[0] == Property(name, properties[0].schema);
      Some(properties[0].schema)
    else
      var rest := Declared(properties[1..], name);
      assert forall i :: 0 <= i < |properties[1..]| ==> properties[1..][i] == properties[i + 1];
      rest
  }

  function KeywordText(keywords: seq<Keyword>, name: string): (r: Option<string>)
    ensures r.Some? <==> exists i :: 0 <= i < |keywords| && keywords[i].name == name
    ensures r.Some? ==> exists i :: 0 <= i < |keywords| && keywords[i] == Keyword(name, r.value)
  {
    if keywords == [] then None
    else if keywords[0].name == name then
      assert keywords[0] == Keyword(name, keywords[0].text);
      Some(keywords[0].text)
    else
      assert forall i :: 0 <= i < |keywords[1..]| ==> keywords[1..][i] == keywords[i + 1];
      KeywordText(keywords[1..], name)
  }

  // ----- what a schema accepts

  /**
   How a document is read. `meaning` says what a keyword outside the comparison's own demands of
   a value; it does not depend on the document. A `closed` reading is one of values that carry no
   field beyond those their schema lists, where it lists any.
   */
  datatype Reading = Reading(components: Components, closed: bool, meaning: (string, string, Value) -> bool)

  predicate HasType(v: Value, t: string)
  {
    match v
    case Null => t == "null"
    case Bool(_) => t == "boolean"
    case Number(n) => t == "number" || (t == "integer" && n == n.Floor as real)
    case Text(_) => t == "string"
    case Array(_) => t == "array"
    case Object(_) => t == "object"
  }

  predicate WithinBound(v: Value, bound: Bound, limit: real)
  {
    match bound
    case Minimum => v.Number? ==> v.n >= limit
    case ExclusiveMinimum => v.Number? ==> v.n > limit
    case MinLength => v.Text? ==> |v.s| as real >= limit
    case MinItems => v.Array? ==> |v.elements| as real >= limit
    case Maximum => v.Number? ==> v.n <= limit
    case ExclusiveMaximum => v.Number? ==> v.n < limit
    case MaxLength => v.Text? ==> |v.s| as real <= limit
    case MaxItems => v.Array? ==> |v.elements| as real <= limit
  }

  ghost predicate HasField(v: Value, name: string)
    requires v.Object?
  {
    exists i :: 0 <= i < |v.fields| && v.fields[i].name == name
  }

  /** The constraints a schema states of the value itself, without what it holds. */
  ghost predicate AcceptsHere(r: Reading, s: Schema, v: Value)
  {
    && (s.types.Some? ==> exists i :: 0 <= i < |s.types.value| && HasType(v, s.types.value[i]))
    && (s.enumeration.Some? ==> v in s.enumeration.value)
    && (s.constant.Some? ==> v == s.constant.value)
    && (forall b :: b in s.bounds ==> WithinBound(v, b, s.bounds[b]))
    && (forall name :: KeywordText(s.others, name).Some? ==> r.meaning(name, KeywordText(s.others, name).value, v))
    && (v.Object? ==> forall name :: name in s.required ==> HasField(v, name))
  }

  /** What a schema demands of the elements and fields of a value. */
  ghost predicate AcceptsParts(r: Reading, s: Schema, v: Value)
    decreases v, 0, 0
  {
    && (v.Array? && s.items.Some? ==>
          forall i :: 0 <= i < |v.elements| ==> Accepts(r, s.items.value, v.elements[i]))
    && (v.Object? ==>
          forall i :: 0 <= i < |v.fields| ==>
                        var declared := Declared(PropertiesOf(s), v.fields[i].name);
                        if declared.Some? then Accepts(r, declared.value, v.fields[i].value)
                        else match s.additional
                          case Open => !(r.closed && s.properties.Some?)
                          case Refused => false
                          case Values(schema) => Accepts(r, schema, v.fields[i].value))
  }

  ghost predicate Accepts(r: Reading, s: Schema, v: Value)
    decreases v, 1, 0
  {
    exists steps: nat :: AcceptsWithin(r, steps, s, v)
  }

  /** Accepted with less than `steps` references and alternatives taken at this value. */
  ghost predicate AcceptsWithin(r: Reading, steps: nat, s: Schema, v: Value)
    decreases v, 0, steps
  {
    && steps > 0
    && AcceptsHere(r, s, v)
    && AcceptsParts(r, s, v)
    && (s.ref.Some? ==>
          && RefName(s.ref.value) in r.components
          && AcceptsWithin(r, steps - 1, r.components[RefName(s.ref.value)], v))
    && (s.anyOf.Some? ==>
          exists i :: 0 <= i < |s.anyOf.value| && AcceptsWithin(r, steps - 1, s.anyOf.value[i], v))
    && (s.oneOf.Some? ==>
          exists i :: 0 <= i < |s.oneOf.value| && AcceptsWithin(r, steps - 1, s.oneOf.value[i], v))
  }

  /** More steps accept no less. */
  lemma MoreStepsAccept(r: Reading, fewer: nat, more: nat, s: Schema, v: Value)
    requires fewer <= more && AcceptsWithin(r, fewer, s, v)
    ensures AcceptsWithin(r, more, s, v)
    decreases fewer
  {
    if s.ref.Some? {
      MoreStepsAccept(r, fewer - 1, more - 1, r.components[RefName(s.ref.value)], v);
    }
    if s.anyOf.Some? {
      var i :| 0 <= i < |s.anyOf.value| && AcceptsWithin(r, fewer - 1, s.anyOf.value[i], v);
      MoreStepsAccept(r, fewer - 1, more - 1, s.anyOf.value[i], v);
    }
    if s.oneOf.Some? {
      var i :| 0 <= i < |s.oneOf.value| && AcceptsWithin(r, fewer - 1, s.oneOf.value[i], v);
      MoreStepsAccept(r, fewer - 1, more - 1, s.oneOf.value[i], v);
    }
  }

  // ----- the depth of a value

  function Depth(v: Value): nat
  {
    match v
    case Array(elements) => 1 + ElementsDepth(elements)
    case Object(fields) => 1 + FieldsDepth(fields)
    case _ => 0
  }

  function ElementsDepth(elements: seq<Value>): (d: nat)
    ensures forall i :: 0 <= i < |elements| ==> Depth(elements[i]) <= d
  {
    if elements == [] then 0
    else
      var rest := ElementsDepth(elements[1..]);
      assert forall i :: 0 < i < |elements| ==> elements[i] == elements[1..][i - 1];
      if Depth(elements[0]) > rest then Depth(elements[0]) else rest
  }

  function FieldsDepth(fields: seq<Field>): (d: nat)
    ensures forall i :: 0 <= i < |fields| ==> Depth(fields[i].value) <= d
  {
    if fields == [] then 0
    else
      var rest := FieldsDepth(fields[1..]);
      assert forall i :: 0 < i < |fields| ==> fields[i] == fields[1..][i - 1];
      if Depth(fields[0].value) > rest then Depth(fields[0].value) else rest
  }
}
