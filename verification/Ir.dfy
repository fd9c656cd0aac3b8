/** The format-neutral schema and value trees, their validators and their navigation. */
module Ir {
  import opened Prelude
  import opened Decimals
  import opened Texts
  import opened Paths

  datatype ScalarType =
    | NullType | BooleanType | I32Type | I64Type | F32Type | F64Type | StringType | BytesType
    | DateType | TimeType | TimestampType | UuidType

  datatype SchemaNode = SchemaNode(nullable: bool, kind: SchemaKind)

  datatype SchemaKind =
    | ScalarKind(scalar: ScalarType)
    | DecimalKind(precision: nat, scale: nat)
    | ArrayKind(items: SchemaNode)
    | MapKind(values: SchemaNode)
    | RecordKind(fields: seq<SchemaField>)
    | CustomKind(typeId: string, value: SchemaNode)

  datatype SchemaField = SchemaField(name: string, schema: SchemaNode)

  datatype Scalar =
    | Boolean(flag: bool) | I32(number: int) | I64(number: int) | F32(bits: nat) | F64(bits: nat)
    | String(text: string) | ByteString(bytes: seq<byte>)
    | Date(text: string) | Time(text: string) | Timestamp(text: string) | Uuid(text: string)

  datatype Value =
    | Null
    | Scalar(scalar: Scalar)
    | Decimal(digits: string)
    | Array(items: seq<Value>)
    | Map(entries: seq<Entry>)
    | Record(fields: seq<Entry>)
    | Custom(typeId: string, value: Value)

  /** A map entry under its key, or a record field under its name. */
  datatype Entry = Entry(name: string, value: Value)

  datatype Limits = Limits(maxFields: nat, maxNestingDepth: nat)

  // ---------------------------------------------------------------------------
  // Names
  // ---------------------------------------------------------------------------

  function FieldNames(fields: seq<SchemaField>): (names: seq<string>)
    ensures |names| == |fields| && forall i :: 0 <= i < |fields| ==> names[i] == fields[i].name
  {
    seq(|fields|, i requires 0 <= i < |fields| => fields[i].name)
  }

  function EntryNames(entries: seq<Entry>): (names: seq<string>)
    ensures |names| == |entries| && forall i :: 0 <= i < |entries| ==> names[i] == entries[i].name
  {
    seq(|entries|, i requires 0 <= i < |entries| => entries[i].name)
  }

  predicate Distinct(names: seq<string>) {
    forall i, j :: 0 <= i < |names| && 0 <= j < |names| && names[i] == names[j] ==> i == j
  }

  predicate NonEmptyNames(names: seq<string>) {
    forall i :: 0 <= i < |names| ==> names[i] != []
  }

  /** Map keys in strictly ascending order, each compared with its predecessor. */
  predicate Ascending(names: seq<string>) {
    forall i :: 0 < i < |names| ==> CompareNames(names[i - 1], names[i]) == Less
  }

  /** The first position of `name`, or the length if there is none. */
  function Find(names: seq<string>, name: string): (i: nat)
    ensures i <= |names|
    ensures i < |names| ==> names[i] == name
    ensures forall k :: 0 <= k < i ==> names[k] != name
  {
    if names == [] || names[0] == name then 0 else 1 + Find(names[1..], name)
  }

  lemma {:induction false} AscendingOrdered(names: seq<string>, i: nat, j: nat)
    requires Ascending(names) && i < j < |names|
    ensures CompareNames(names[i], names[j]) == Less
  {
    if i + 1 < j {
      AscendingOrdered(names, i, j - 1);
      NamesTransitive(names[i], names[j - 1], names[j]);
    }
  }

  lemma AscendingDistinct(names: seq<string>)
    requires Ascending(names)
    ensures Distinct(names)
  {
    forall i, j | 0 <= i < |names| && 0 <= j < |names| && names[i] == names[j] ensures i == j {
      NamesOrdered(names[i], names[j]);
      if i < j { AscendingOrdered(names, i, j); }
      if j < i { AscendingOrdered(names, j, i); }
    }
  }

  // ---------------------------------------------------------------------------
  // Schemas
  // ---------------------------------------------------------------------------

  function Child(node: SchemaNode, segment: Segment): (c: Option<SchemaNode>)
    ensures c.Some? ==> c.value < node
  {
    match (node.kind, segment)
    case (ArrayKind(items), ArrayElement) => Some(items)
    case (MapKind(values), MapValue) => Some(values)
    case (RecordKind(fields), Field(name)) =>
      var i := Find(FieldNames(fields), name);
      if i < |fields| then Some(fields[i].schema) else None
    case (CustomKind(_, value), LogicalValue) => Some(value)
    case _ => None
  }

  function NodeAt(node: SchemaNode, path: Path): Option<SchemaNode>
    decreases |path|
  {
    if path == [] then Some(node)
    else
      var c := Child(node, path[0]);
      if c.None? then None else NodeAt(c.value, path[1..])
  }

  /** `node_at_path`. */
  method FindNode(root: SchemaNode, path: Path) returns (r: Option<SchemaNode>)
    ensures r == NodeAt(root, path)
  {
    var node := root;
    for i := 0 to |path|
      invariant NodeAt(root, path) == NodeAt(node, path[i..])
    {
      var c := Child(node, path[i]);
      assert path[i..][0] == path[i] && path[i..][1..] == path[i + 1..];
      if c.None? { return None; }
      node := c.value;
    }
    r := Some(node);
  }

  /** Everything `validate_inner` demands of a schema, the field budget apart. */
  predicate NodeValid(node: SchemaNode, depth: int)
    decreases node
  {
    && depth >= 0
    && !(node.nullable && node.kind == ScalarKind(NullType))
    && match node.kind
       case ScalarKind(_) => true
       case DecimalKind(precision, scale) => 0 < precision && scale <= precision
       case ArrayKind(items) => NodeValid(items, depth - 1)
       case MapKind(values) => NodeValid(values, depth - 1)
       case RecordKind(fields) =>
         && Distinct(FieldNames(fields)) && NonEmptyNames(FieldNames(fields))
         && forall i :: 0 <= i < |fields| ==> NodeValid(fields[i].schema, depth - 1)
       case CustomKind(typeId, value) => typeId != [] && NodeValid(value, depth - 1)
  }

  function FieldCount(node: SchemaNode): nat
    decreases node, 1
  {
    match node.kind
    case ScalarKind(_) => 0
    case DecimalKind(_, _) => 0
    case ArrayKind(items) => FieldCount(items)
    case MapKind(values) => FieldCount(values)
    case RecordKind(fields) => |fields| + FieldCounts(fields)
    case CustomKind(_, value) => FieldCount(value)
  }

  function FieldCounts(fields: seq<SchemaField>): nat
    decreases fields, 0
  {
    if fields == [] then 0 else FieldCounts(fields[..|fields| - 1]) + FieldCount(fields[|fields| - 1].schema)
  }

  predicate SchemaValid(root: SchemaNode, limits: Limits) {
    NodeValid(root, limits.maxNestingDepth) && FieldCount(root) <= limits.maxFields
  }

  /**
   `SchemaNode::validate_inner`, threading the running field count through the traversal. It
   accepts exactly the valid nodes whose fields fit what is left of the budget.
   */
  method ValidateNode(node: SchemaNode, limits: Limits, depth: nat, count: nat) returns (r: Option<nat>)
    requires count <= limits.maxFields
    ensures r.Some? <==> NodeValid(node, limits.maxNestingDepth - depth) && count + FieldCount(node) <= limits.maxFields
    ensures r.Some? ==> r.value == count + FieldCount(node)
    decreases node
  {
    if depth > limits.maxNestingDepth { return None; }
    if node.nullable && node.kind == ScalarKind(NullType) { return None; }
    match node.kind {
      case ScalarKind(_) => r := Some(count);
      case DecimalKind(precision, scale) => r := if precision == 0 || scale > precision then None else Some(count);
      case ArrayKind(items) => r := ValidateNode(items, limits, depth + 1, count);
      case MapKind(values) => r := ValidateNode(values, limits, depth + 1, count);
      case RecordKind(fields) =>
        if count + |fields| > limits.maxFields { return None; }
        r := ValidateFields(node, limits, depth, count + |fields|);
      case CustomKind(typeId, value) =>
        if typeId == [] { return None; }
        r := ValidateNode(value, limits, depth + 1, count);
    }
  }

  predicate FieldsValid(fields: seq<SchemaField>, n: nat, depth: int)
    requires n <= |fields|
  {
    forall i :: 0 <= i < n ==> NodeValid(fields[i].schema, depth)
  }

  /** The loop over the fields of a record, with its set of names seen. */
  method ValidateFields(node: SchemaNode, limits: Limits, depth: nat, count: nat) returns (r: Option<nat>)
    requires node.kind.RecordKind? && count <= limits.maxFields
    ensures var fields := node.kind.fields;
            r.Some? <==>
              && GoodNames(FieldNames(fields))
              && FieldsValid(fields, |fields|, limits.maxNestingDepth - depth - 1)
              && count + FieldCounts(fields) <= limits.maxFields
    ensures r.Some? ==> r.value == count + FieldCounts(node.kind.fields)
    decreases node, 0
  {
    var fields := node.kind.fields;
    var total := count;
    var names, seen: set<string> := FieldNames(fields), {};
    for n := 0 to |fields|
      invariant forall name :: name in seen <==> name in names[..n]
      invariant GoodNames(names[..n]) && FieldsValid(fields, n, limits.maxNestingDepth - depth - 1)
      invariant total == count + FieldCounts(fields[..n]) <= limits.maxFields
    {
      NextName(names, n);
      NextCount(fields, n);
      if names[n] == [] { return None; }
      if names[n] in seen { return None; }
      seen := seen + {names[n]};
      var next := ValidateNode(fields[n].schema, limits, depth + 1, total);
      if next.None? { return None; }
      total := next.value;
    }
    assert fields[..|fields|] == fields && names[..|names|] == names;
    r := Some(total);
  }

  predicate GoodNames(names: seq<string>) {
    Distinct(names) && NonEmptyNames(names)
  }

  /** An empty name or one seen before spoils the whole list; any other extends the good prefix. */
  lemma NextName(names: seq<string>, n: nat)
    requires n < |names| && GoodNames(names[..n])
    ensures names[..n + 1] == names[..n] + [names[n]]
    ensures if names[n] == [] || names[n] in names[..n] then !GoodNames(names) else GoodNames(names[..n + 1])
  {
    if names[n] in names[..n] {
      var i :| 0 <= i < n && names[..n][i] == names[n];
      assert names[i] == names[n];
    }
  }

  lemma NextCount(fields: seq<SchemaField>, n: nat)
    requires n < |fields|
    ensures FieldCounts(fields[..n + 1]) == FieldCounts(fields[..n]) + FieldCount(fields[n].schema)
    ensures FieldCounts(fields[..n + 1]) <= FieldCounts(fields)
  {
    FieldCountsGrow(fields, n + 1);
    assert fields[..n + 1][..n] == fields[..n];
  }

  lemma {:induction false} FieldCountsGrow(fields: seq<SchemaField>, n: nat)
    requires n <= |fields|
    ensures FieldCounts(fields[..n]) <= FieldCounts(fields)
    decreases |fields|
  {
    if n < |fields| {
      FieldCountsGrow(fields[..|fields| - 1], n);
      assert fields[..|fields| - 1][..n] == fields[..n];
    } else {
      assert fields[..n] == fields;
    }
  }

  // ---------------------------------------------------------------------------
  // Values
  // ---------------------------------------------------------------------------

  datatype Step = FieldNamed(name: string) | ArrayIndex(index: nat) | MapKey(key: string) | Logical

  type ValuePath = seq<Step>

  function Erase(step: Step): Segment {
    match step
    case FieldNamed(name) => Field(name)
    case ArrayIndex(_) => ArrayElement
    case MapKey(_) => MapValue
    case Logical => LogicalValue
  }

  function ErasePath(path: ValuePath): (r: Path)
    ensures |r| == |path|
  {
    if path == [] then [] else [Erase(path[0])] + ErasePath(path[1..])
  }

  function ValueChild(v: Value, step: Step): (c: Option<Value>)
    ensures c.Some? ==> c.value < v
  {
    match (v, step)
    case (Array(items), ArrayIndex(i)) => if i < |items| then Some(items[i]) else None
    case (Map(entries), MapKey(key)) =>
      var i := Find(EntryNames(entries), key);
      if i < |entries| then Some(entries[i].value) else None
    case (Record(fields), FieldNamed(name)) =>
      var i := Find(EntryNames(fields), name);
      if i < |fields| then Some(fields[i].value) else None
    case (Custom(_, value), Logical) => Some(value)
    case _ => None
  }

  function ValueAt(v: Value, path: ValuePath): Option<Value>
    decreases |path|
  {
    if path == [] then Some(v)
    else
      var c := ValueChild(v, path[0]);
      if c.None? then None else ValueAt(c.value, path[1..])
  }

  predicate TextValid(s: Scalar) {
    match s
    case Date(text) => ValidDate(text)
    case Time(text) => ValidTime(text)
    case Timestamp(text) => ValidTimestamp(text)
    case Uuid(text) => ValidUuid(text)
    case _ => true
  }

  /** `Value::validate_inner`: what a value must satisfy on its own, within `depth` levels. */
  predicate ValueWellFormed(v: Value, depth: int)
    decreases v
  {
    && depth >= 0
    && match v
       case Null => true
       case Scalar(s) => TextValid(s)
       case Decimal(digits) => ParseDecimal(digits).Some?
       case Array(items) => forall i :: 0 <= i < |items| ==> ValueWellFormed(items[i], depth - 1)
       case Map(entries) =>
         && Ascending(EntryNames(entries))
         && forall i :: 0 <= i < |entries| ==> ValueWellFormed(entries[i].value, depth - 1)
       case Record(fields) =>
         && Distinct(EntryNames(fields)) && NonEmptyNames(EntryNames(fields))
         && forall i :: 0 <= i < |fields| ==> ValueWellFormed(fields[i].value, depth - 1)
       case Custom(typeId, value) => typeId != [] && ValueWellFormed(value, depth - 1)
  }

  function TypeOf(s: Scalar): ScalarType {
    match s
    case Boolean(_) => BooleanType
    case I32(_) => I32Type
    case I64(_) => I64Type
    case F32(_) => F32Type
    case F64(_) => F64Type
    case String(_) => StringType
    case ByteString(_) => BytesType
    case Date(_) => DateType
    case Time(_) => TimeType
    case Timestamp(_) => TimestampType
    case Uuid(_) => UuidType
  }

  /** `validate_value_against_schema`. */
  predicate Matches(v: Value, node: SchemaNode)
    decreases v
  {
    match (v, node.kind)
    case (Null, kind) => node.nullable || kind == ScalarKind(NullType)
    case (Scalar(s), ScalarKind(t)) => TypeOf(s) == t
    case (Decimal(digits), DecimalKind(precision, scale)) =>
      var parts := ParseDecimal(digits);
      parts.Some? && parts.value.scale == scale && parts.value.precision <= precision
    case (Array(items), ArrayKind(schema)) => forall i :: 0 <= i < |items| ==> Matches(items[i], schema)
    case (Map(entries), MapKind(schema)) => forall i :: 0 <= i < |entries| ==> Matches(entries[i].value, schema)
    case (Record(values), RecordKind(fields)) =>
      && EntryNames(values) == FieldNames(fields)
      && forall i :: 0 <= i < |values| ==> Matches(values[i].value, fields[i].schema)
    case (Custom(id, value), CustomKind(typeId, schema)) => id == typeId && Matches(value, schema)
    case _ => false
  }

  /** `ValueIr::validate`. */
  predicate ValueValid(v: Value, root: SchemaNode, limits: Limits) {
    SchemaValid(root, limits) && ValueWellFormed(v, limits.maxNestingDepth) && Matches(v, root)
  }
}
