/** Schemas written as Avro schema JSON and read back. */
module AvroSchemas {
  import opened Prelude
  import opened Decimals
  import opened Ir

  /** The words that the format fixes; any other text in their place is `Unknown`. */
  datatype Word =
    | NullWord | BooleanWord | IntWord | LongWord | FloatWord | DoubleWord | BytesWord | StringWord
    | RecordWord | ArrayWord | MapWord
    | DateWord | TimeMillisWord | TimeMicrosWord | TimestampMillisWord | TimestampMicrosWord | TimestampNanosWord
    | UuidWord | DecimalWord | Unknown(text: string)

  /**
   Schema JSON. An object is given by the members that are ever looked up, `None` for a missing one;
   `Name` is a string in a place where names stand, and `Numbered(n)` the name `RecordName(n)` there.
   */
  datatype Json =
    | Text(word: Word)
    | Name(text: string)
    | Numbered(number: nat)
    | Number(value: nat)
    | List(elements: seq<Json>)
    | Object(kind: Option<Json>, logical: Option<Json>, precision: Option<Json>, scale: Option<Json>,
             fields: Option<Json>, items: Option<Json>, values: Option<Json>, name: Option<Json>)

  const U32_MAX: nat := 0xFFFF_FFFF

  function LogicalJson(word: Word, logical: Word): Json {
    Object(Some(Text(word)), Some(Text(logical)), None, None, None, None, None, None)
  }

  function DecimalJson(precision: nat, scale: nat): Json {
    Object(Some(Text(BytesWord)), Some(Text(DecimalWord)),
           Some(Number(precision)), Some(Number(scale)), None, None, None, None)
  }

  function ArrayJson(items: Json): Json {
    Object(Some(Text(ArrayWord)), None, None, None, None, Some(items), None, None)
  }

  function MapJson(values: Json): Json {
    Object(Some(Text(MapWord)), None, None, None, None, None, Some(values), None)
  }

  function RecordJson(number: nat, fields: seq<Json>): Json {
    Object(Some(Text(RecordWord)), None, None, None, Some(List(fields)), None, None, Some(Numbered(number)))
  }

  function FieldJson(name: string, kind: Json): Json {
    Object(Some(kind), None, None, None, None, None, None, Some(Name(name)))
  }

  // ---------------------------------------------------------------------------
  // Writing
  // ---------------------------------------------------------------------------

  /** `saturating_add(1)`. */
  function Next(records: nat): nat {
    if records < U32_MAX then records + 1 else U32_MAX
  }

  datatype Printed<T> = Printed(json: T, records: nat)

  function Nullable(nullable: bool, raw: Json): Json {
    if nullable then List([Text(NullWord), raw]) else raw
  }

  function ScalarJson(t: ScalarType): Json {
    match t
    case NullType => Text(NullWord)
    case BooleanType => Text(BooleanWord)
    case I32Type => Text(IntWord)
    case I64Type => Text(LongWord)
    case F32Type => Text(FloatWord)
    case F64Type => Text(DoubleWord)
    case StringType => Text(StringWord)
    case BytesType => Text(BytesWord)
    case DateType => LogicalJson(IntWord, DateWord)
    case TimeType => LogicalJson(LongWord, TimeMicrosWord)
    case TimestampType => LogicalJson(LongWord, TimestampMicrosWord)
    case UuidType => LogicalJson(StringWord, UuidWord)
  }

  /** `schema_node_to_json`, with the counter of records passed along. */
  function ToJson(node: SchemaNode, records: nat): Option<Printed<Json>>
    decreases node, 1
  {
    match node.kind
    case ScalarKind(t) => Some(Printed(Nullable(node.nullable, ScalarJson(t)), records))
    case DecimalKind(p, s) =>
      Some(Printed(Nullable(node.nullable, DecimalJson(p, s)), records))
    case ArrayKind(items) =>
      var r := ToJson(items, records);
      if r.None? then None
      else Some(Printed(Nullable(node.nullable, ArrayJson(r.value.json)), r.value.records))
    case MapKind(values) =>
      var r := ToJson(values, records);
      if r.None? then None
      else Some(Printed(Nullable(node.nullable, MapJson(r.value.json)), r.value.records))
    case RecordKind(fields) =>
      var r := FieldsToJson(fields, Next(records));
      if r.None? then None
      else Some(Printed(Nullable(node.nullable, RecordJson(records, r.value.json)), r.value.records))
    case CustomKind(_, _) => None
  }

  function FieldsToJson(fields: seq<SchemaField>, records: nat): (r: Option<Printed<seq<Json>>>)
    ensures r.Some? ==> |r.value.json| == |fields|
    decreases fields, 0
  {
    if fields == [] then Some(Printed([], records))
    else
      var last := fields[|fields| - 1];
      var front := FieldsToJson(fields[..|fields| - 1], records);
      if front.None? then None
      else
        var r := ToJson(last.schema, front.value.records);
        if r.None? then None
        else Some(Printed(front.value.json + [FieldJson(last.name, r.value.json)], r.value.records))
  }

  // ---------------------------------------------------------------------------
  // Reading
  // ---------------------------------------------------------------------------

  function Required(kind: SchemaKind): Option<SchemaNode> {
    Some(SchemaNode(false, kind))
  }

  /** `primitive_schema`. */
  function Primitive(word: Word): Option<SchemaNode> {
    match word
    case NullWord => Required(ScalarKind(NullType))
    case BooleanWord => Required(ScalarKind(BooleanType))
    case IntWord => Required(ScalarKind(I32Type))
    case LongWord => Required(ScalarKind(I64Type))
    case FloatWord => Required(ScalarKind(F32Type))
    case DoubleWord => Required(ScalarKind(F64Type))
    case BytesWord => Required(ScalarKind(BytesType))
    case StringWord => Required(ScalarKind(StringType))
    case _ => None
  }

  /** A number that fits 32 bits. */
  function AsU32(j: Option<Json>): Option<nat> {
    if j.Some? && j.value.Number? && j.value.value <= U32_MAX then Some(j.value.value) else None
  }

  function LogicalSchema(kind: Word, logical: Word, precision: Option<nat>, scale: Option<nat>): Option<SchemaNode> {
    match (kind, logical)
    case (IntWord, DateWord) => Required(ScalarKind(DateType))
    case (IntWord, TimeMillisWord) => Required(ScalarKind(TimeType))
    case (LongWord, TimeMicrosWord) => Required(ScalarKind(TimeType))
    case (LongWord, TimestampMillisWord) => Required(ScalarKind(TimestampType))
    case (LongWord, TimestampMicrosWord) => Required(ScalarKind(TimestampType))
    case (LongWord, TimestampNanosWord) => Required(ScalarKind(TimestampType))
    case (StringWord, UuidWord) => Required(ScalarKind(UuidType))
    case (BytesWord, DecimalWord) =>
      if precision.None? then None
      else Required(DecimalKind(precision.value, if scale.Some? then scale.value else 0))
    case _ => None
  }

  /** `schema_node_from_json`. */
  function FromJson(raw: Json): Option<SchemaNode>
    decreases raw, 1
  {
    match raw
    case Text(word) => Primitive(word)
    case Name(_) => None
    case Numbered(_) => None
    case Number(_) => None
    case List(variants) =>
      if |variants| != 2 || (variants[0] == Text(NullWord)) == (variants[1] == Text(NullWord)) then None
      else
        var node := FromJson(if variants[0] == Text(NullWord) then variants[1] else variants[0]);
        if node.None? || node.value.kind == ScalarKind(NullType) then None
        else Some(node.value.(nullable := true))
    case Object(kind, logical, precision, scale, fields, items, values, name) =>
      if kind.None? || !kind.value.Text? then None
      else if logical.Some? && logical.value.Text? then
        LogicalSchema(kind.value.word, logical.value.word, AsU32(precision), AsU32(scale))
      else
        match kind.value.word
        case RecordWord =>
          if fields.None? || !fields.value.List? then None
          else
            var r := FieldsFromJson(fields.value.elements);
            if r.None? then None else Required(RecordKind(r.value))
        case ArrayWord =>
          if items.None? then None
          else
            var r := FromJson(items.value);
            if r.None? then None else Required(ArrayKind(r.value))
        case MapWord =>
          if values.None? then None
          else
            var r := FromJson(values.value);
            if r.None? then None else Required(MapKind(r.value))
        case word => Primitive(word)
  }

  function FieldFromJson(field: Json): Option<SchemaField>
    decreases field, 2
  {
    match field
    case Object(kind, _, _, _, _, _, _, name) =>
      if kind.None? || name.None? || !name.value.Name? || name.value.text == [] then None
      else
        var r := FromJson(kind.value);
        if r.None? then None else Some(SchemaField(name.value.text, r.value))
    case _ => None
  }

  function FieldsFromJson(fields: seq<Json>): Option<seq<SchemaField>>
    decreases fields, 0
  {
    if fields == [] then Some([])
    else
      var front := FieldsFromJson(fields[..|fields| - 1]);
      var last := FieldFromJson(fields[|fields| - 1]);
      if front.None? || last.None? then None else Some(front.value + [last.value])
  }

  // ---------------------------------------------------------------------------
  // The round trip
  // ---------------------------------------------------------------------------

  /** No custom node, and decimals within the 32 bits of their fields. */
  predicate Printable(node: SchemaNode)
    decreases node
  {
    match node.kind
    case ScalarKind(_) => true
    case DecimalKind(p, s) => p <= U32_MAX && s <= U32_MAX
    case ArrayKind(items) => Printable(items)
    case MapKind(values) => Printable(values)
    case RecordKind(fields) => forall i :: 0 <= i < |fields| ==> Printable(fields[i].schema)
    case CustomKind(_, _) => false
  }

  /** Every valid schema without custom nodes is written, and read back as itself. */
  lemma {:induction false} SchemaRoundTrip(node: SchemaNode, records: nat, depth: int)
    requires NodeValid(node, depth) && Printable(node)
    ensures ToJson(node, records).Some? && FromJson(ToJson(node, records).value.json) == Some(node)
    decreases node, 1
  {
    match node.kind
    case ScalarKind(t) => ScalarReads(node.nullable, t);
    case DecimalKind(p, s) =>
    case ArrayKind(items) =>
      SchemaRoundTrip(items, records, depth - 1);
      ArrayReads(node.nullable, ToJson(items, records).value.json, items);
    case MapKind(values) =>
      SchemaRoundTrip(values, records, depth - 1);
      MapReads(node.nullable, ToJson(values, records).value.json, values);
    case RecordKind(fields) =>
      FieldsRoundTrip(fields, Next(records), depth - 1);
      RecordReads(node.nullable, records, FieldsToJson(fields, Next(records)).value.json, fields);
    case CustomKind(_, _) =>
  }

  lemma PlainReads(t: ScalarType)
    ensures FromJson(ScalarJson(t)) == Required(ScalarKind(t))
  {
  }

  lemma NullableReads(raw: Json, node: SchemaNode)
    requires FromJson(raw) == Some(node) && node.kind != ScalarKind(NullType)
    ensures FromJson(Nullable(true, raw)) == Some(node.(nullable := true))
  {
  }

  lemma ScalarReads(nullable: bool, t: ScalarType)
    requires !(nullable && t == NullType)
    ensures FromJson(Nullable(nullable, ScalarJson(t))) == Some(SchemaNode(nullable, ScalarKind(t)))
  {
    PlainReads(t);
    if nullable { NullableReads(ScalarJson(t), SchemaNode(false, ScalarKind(t))); }
  }

  lemma ArrayReads(nullable: bool, raw: Json, items: SchemaNode)
    requires FromJson(raw) == Some(items)
    ensures FromJson(Nullable(nullable, ArrayJson(raw))) == Some(SchemaNode(nullable, ArrayKind(items)))
  {
  }

  lemma MapReads(nullable: bool, raw: Json, values: SchemaNode)
    requires FromJson(raw) == Some(values)
    ensures FromJson(Nullable(nullable, MapJson(raw))) == Some(SchemaNode(nullable, MapKind(values)))
  {
  }

  lemma RecordReads(nullable: bool, number: nat, raw: seq<Json>, fields: seq<SchemaField>)
    requires FieldsFromJson(raw) == Some(fields)
    ensures FromJson(Nullable(nullable, RecordJson(number, raw))) == Some(SchemaNode(nullable, RecordKind(fields)))
  {
  }

  lemma FieldReads(front: seq<Json>, fields: seq<SchemaField>, field: SchemaField, raw: Json)
    requires FieldsFromJson(front) == Some(fields) && FromJson(raw) == Some(field.schema) && field.name != []
    ensures FieldsFromJson(front + [FieldJson(field.name, raw)]) == Some(fields + [field])
  {
    assert (front + [FieldJson(field.name, raw)])[..|front|] == front;
  }

  lemma {:induction false} FieldsRoundTrip(fields: seq<SchemaField>, records: nat, depth: int)
    requires forall i :: 0 <= i < |fields| ==>
               fields[i].name != [] && NodeValid(fields[i].schema, depth) && Printable(fields[i].schema)
    ensures FieldsToJson(fields, records).Some?
    ensures FieldsFromJson(FieldsToJson(fields, records).value.json) == Some(fields)
    decreases fields, 0
  {
    if fields != [] {
      var n := |fields| - 1;
      FieldsRoundTrip(fields[..n], records, depth);
      var front := FieldsToJson(fields[..n], records).value;
      SchemaRoundTrip(fields[n].schema, front.records, depth);
      FieldReads(front.json, fields[..n], fields[n], ToJson(fields[n].schema, front.records).value.json);
      assert fields == fields[..n] + [fields[n]];
    }
  }

  /** Only what can be written is ever read. */
  lemma {:induction false} ReadIsPrintable(raw: Json)
    requires FromJson(raw).Some?
    ensures Printable(FromJson(raw).value)
    decreases raw, 1
  {
    match raw
    case List(variants) => ReadIsPrintable(if variants[0] == Text(NullWord) then variants[1] else variants[0]);
    case Object(kind, logical, _, _, fields, items, values, _) =>
      if !(logical.Some? && logical.value.Text?) {
        match kind.value.word
        case RecordWord => FieldsPrintable(fields.value.elements);
        case ArrayWord => ReadIsPrintable(items.value);
        case MapWord => ReadIsPrintable(values.value);
        case _ =>
      }
    case _ =>
  }

  lemma {:induction false} FieldsPrintable(fields: seq<Json>)
    requires FieldsFromJson(fields).Some?
    ensures forall i :: 0 <= i < |FieldsFromJson(fields).value| ==> Printable(FieldsFromJson(fields).value[i].schema)
    decreases fields, 0
  {
    if fields != [] {
      FieldsPrintable(fields[..|fields| - 1]);
      FieldPrintable(fields[|fields| - 1]);
    }
  }

  lemma {:induction false} FieldPrintable(field: Json)
    requires FieldFromJson(field).Some?
    ensures Printable(FieldFromJson(field).value.schema)
    decreases field, 2
  {
    ReadIsPrintable(field.kind.value);
  }

  /** Whatever Avro schema is accepted, writing and reading it again changes nothing. */
  lemma AcceptedSchemasAreStable(raw: Json, limits: Limits)
    requires FromJson(raw).Some? && SchemaValid(FromJson(raw).value, limits)
    ensures ToJson(FromJson(raw).value, 0).Some?
    ensures FromJson(ToJson(FromJson(raw).value, 0).value.json) == FromJson(raw)
  {
    ReadIsPrintable(raw);
    SchemaRoundTrip(FromJson(raw).value, 0, limits.maxNestingDepth);
  }

  // ---------------------------------------------------------------------------
  // Record names
  // ---------------------------------------------------------------------------

  function RecordCount(node: SchemaNode): nat
    decreases node, 1
  {
    match node.kind
    case ArrayKind(items) => RecordCount(items)
    case MapKind(values) => RecordCount(values)
    case RecordKind(fields) => 1 + RecordCounts(fields)
    case CustomKind(_, value) => RecordCount(value)
    case _ => 0
  }

  function RecordCounts(fields: seq<SchemaField>): nat
    decreases fields, 0
  {
    if fields == [] then 0 else RecordCounts(fields[..|fields| - 1]) + RecordCount(fields[|fields| - 1].schema)
  }

  /** The numbered names that a schema's JSON declares, in document order. */
  function NamesOf(j: Json): seq<nat>
    decreases j, 1
  {
    match j
    case List(elements) => NamesOfAll(elements)
    case Object(kind, _, _, _, fields, items, values, name) =>
      (if kind == Some(Text(RecordWord)) && name.Some? && name.value.Numbered? then [name.value.number] else [])
      + (if kind.Some? then NamesOf(kind.value) else [])
      + (if fields.Some? then NamesOf(fields.value) else [])
      + (if items.Some? then NamesOf(items.value) else [])
      + (if values.Some? then NamesOf(values.value) else [])
    case _ => []
  }

  function NamesOfAll(js: seq<Json>): seq<nat>
    decreases js, 0
  {
    if js == [] then [] else NamesOfAll(js[..|js| - 1]) + NamesOf(js[|js| - 1])
  }

  function Saturated(n: nat): nat {
    if n <= U32_MAX then n else U32_MAX
  }

  /** `count` consecutive numbers from `first` on, the last one repeating for ever. */
  function Numbers(first: nat, count: nat): (numbers: seq<nat>)
    ensures |numbers| == count && forall i :: 0 <= i < count ==> numbers[i] == Saturated(first + i)
  {
    seq<nat>(count, i requires 0 <= i < count => Saturated(first + i))
  }

  lemma NamesOfNullable(nullable: bool, raw: Json)
    ensures NamesOf(Nullable(nullable, raw)) == NamesOf(raw)
  {
    if nullable {
      var js := [Text(NullWord), raw];
      assert js[..1] == [Text(NullWord)] && js[..1][..0] == [];
      assert NamesOfAll(js[..1]) == [];
    }
  }

  lemma NamesOfLeaf(nullable: bool, t: ScalarType, precision: nat, scale: nat)
    ensures NamesOf(Nullable(nullable, ScalarJson(t))) == []
    ensures NamesOf(Nullable(nullable, DecimalJson(precision, scale))) == []
  {
    NamesOfNullable(nullable, ScalarJson(t));
    NamesOfNullable(nullable, DecimalJson(precision, scale));
  }

  lemma NamesOfContainer(nullable: bool, raw: Json)
    ensures NamesOf(Nullable(nullable, ArrayJson(raw))) == NamesOf(raw)
    ensures NamesOf(Nullable(nullable, MapJson(raw))) == NamesOf(raw)
  {
    NamesOfNullable(nullable, ArrayJson(raw));
    NamesOfNullable(nullable, MapJson(raw));
  }

  lemma NamesOfRecord(nullable: bool, records: nat, raw: seq<Json>, count: nat)
    requires records <= U32_MAX && NamesOfAll(raw) == Numbers(Next(records), count)
    ensures NamesOf(Nullable(nullable, RecordJson(records, raw))) == Numbers(records, 1 + count)
  {
    NamesOfNullable(nullable, RecordJson(records, raw));
    assert Numbers(records, 1) == [records];
  }

  lemma NamesOfField(front: seq<Json>, name: string, raw: Json)
    requires raw != Text(RecordWord)
    ensures NamesOfAll(front + [FieldJson(name, raw)]) == NamesOfAll(front) + NamesOf(raw)
  {
    assert NamesOf(FieldJson(name, raw)) == NamesOf(raw);
    assert (front + [FieldJson(name, raw)])[..|front|] == front;
  }

  lemma {:induction false} CounterAdvances(node: SchemaNode, records: nat)
    requires records <= U32_MAX && ToJson(node, records).Some?
    ensures ToJson(node, records).value.records == Saturated(records + RecordCount(node))
    decreases node, 1
  {
    match node.kind
    case ArrayKind(items) => CounterAdvances(items, records);
    case MapKind(values) => CounterAdvances(values, records);
    case RecordKind(fields) => FieldsAdvance(fields, Next(records));
    case _ =>
  }

  lemma {:induction false} FieldsAdvance(fields: seq<SchemaField>, records: nat)
    requires records <= U32_MAX && FieldsToJson(fields, records).Some?
    ensures FieldsToJson(fields, records).value.records == Saturated(records + RecordCounts(fields))
    decreases fields, 0
  {
    if fields != [] {
      var n := |fields| - 1;
      FieldsAdvance(fields[..n], records);
      CounterAdvances(fields[n].schema, FieldsToJson(fields[..n], records).value.records);
    }
  }

  /** Records are numbered in document order. */
  lemma {:induction false} NamesPrinted(node: SchemaNode, records: nat)
    requires records <= U32_MAX && ToJson(node, records).Some?
    ensures NamesOf(ToJson(node, records).value.json) == Numbers(records, RecordCount(node))
    decreases node, 1
  {
    match node.kind
    case ScalarKind(t) => NamesOfLeaf(node.nullable, t, 0, 0);
    case DecimalKind(p, s) => NamesOfLeaf(node.nullable, NullType, p, s);
    case ArrayKind(items) =>
      NamesPrinted(items, records);
      NamesOfContainer(node.nullable, ToJson(items, records).value.json);
    case MapKind(values) =>
      NamesPrinted(values, records);
      NamesOfContainer(node.nullable, ToJson(values, records).value.json);
    case RecordKind(fields) =>
      FieldNamesPrinted(fields, Next(records));
      NamesOfRecord(node.nullable, records, FieldsToJson(fields, Next(records)).value.json, RecordCounts(fields));
  }

  lemma PrintedIsNoRecordWord(node: SchemaNode, records: nat)
    requires ToJson(node, records).Some?
    ensures ToJson(node, records).value.json != Text(RecordWord)
  {
  }

  lemma {:induction false} FieldNamesPrinted(fields: seq<SchemaField>, records: nat)
    requires records <= U32_MAX && FieldsToJson(fields, records).Some?
    ensures NamesOfAll(FieldsToJson(fields, records).value.json) == Numbers(records, RecordCounts(fields))
    decreases fields, 0
  {
    if fields != [] {
      var n := |fields| - 1;
      FieldsAdvance(fields[..n], records);
      FieldNamesPrinted(fields[..n], records);
      var front := FieldsToJson(fields[..n], records).value;
      NamesPrinted(fields[n].schema, front.records);
      PrintedIsNoRecordWord(fields[n].schema, front.records);
      NamesOfField(front.json, fields[n].name, ToJson(fields[n].schema, front.records).value.json);
    }
  }

  function RecordName(n: nat): string {
    "maskura_record_" + ToDigits(n)
  }

  function RecordNames(numbers: seq<nat>): (names: seq<string>)
    ensures |names| == |numbers| && forall i :: 0 <= i < |numbers| ==> names[i] == RecordName(numbers[i])
  {
    seq(|numbers|, i requires 0 <= i < |numbers| => RecordName(numbers[i]))
  }

  lemma SameNameSameNumber(n: nat, m: nat)
    requires RecordName(n) == RecordName(m)
    ensures n == m
  {
    assert RecordName(n)[15..] == ToDigits(n) && RecordName(m)[15..] == ToDigits(m);
    DigitsReadBack(n);
    DigitsReadBack(m);
  }

  /** The record names in a written schema are distinct exactly when the counter has not saturated. */
  lemma RecordNamesDistinct(node: SchemaNode)
    requires ToJson(node, 0).Some?
    ensures Distinct(RecordNames(NamesOf(ToJson(node, 0).value.json))) <==> RecordCount(node) <= U32_MAX + 1
  {
    NamesPrinted(node, 0);
    var numbers := NamesOf(ToJson(node, 0).value.json);
    var names := RecordNames(numbers);
    if RecordCount(node) <= U32_MAX + 1 {
      forall i, j | 0 <= i < |names| && 0 <= j < |names| && names[i] == names[j] ensures i == j {
        SameNameSameNumber(numbers[i], numbers[j]);
      }
    } else {
      assert names[U32_MAX] == names[U32_MAX + 1];
    }
  }

  /** Every record but the outermost is the schema of a field. */
  lemma {:induction false} RecordsWithinFields(node: SchemaNode)
    ensures RecordCount(node) <= 1 + FieldCount(node)
    decreases node, 1
  {
    match node.kind
    case ArrayKind(items) => RecordsWithinFields(items);
    case MapKind(values) => RecordsWithinFields(values);
    case RecordKind(fields) => FieldRecordsWithin(fields);
    case CustomKind(_, value) => RecordsWithinFields(value);
    case _ =>
  }

  lemma {:induction false} FieldRecordsWithin(fields: seq<SchemaField>)
    ensures RecordCounts(fields) <= |fields| + FieldCounts(fields)
    decreases fields, 0
  {
    if fields != [] {
      FieldRecordsWithin(fields[..|fields| - 1]);
      RecordsWithinFields(fields[|fields| - 1].schema);
    }
  }

  /** A schema that passed validation is always written under distinct record names. */
  lemma ValidNamesDistinct(node: SchemaNode, limits: Limits)
    requires SchemaValid(node, limits) && limits.maxFields <= U32_MAX && ToJson(node, 0).Some?
    ensures Distinct(RecordNames(NamesOf(ToJson(node, 0).value.json)))
  {
    RecordsWithinFields(node);
    RecordNamesDistinct(node);
  }
}
