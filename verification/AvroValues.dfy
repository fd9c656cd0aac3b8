/** Rows written as Avro values and read back. */
module AvroValues {
  import opened Prelude
  import opened Decimals
  import opened Texts
  import opened Paths
  import opened Ir

  /** What an Avro number of days, or of parts of a second, counts. */
  datatype Unit = Days | Millis | Micros | StampMillis | StampMicros | StampNanos

  /** `Plain` holds what Avro and the typed pipeline represent alike: booleans, numbers, strings, bytes. */
  datatype AvroValue =
    | AvroNull
    | Plain(scalar: Scalar)
    | AvroUuid(text: string)
    | AvroTime(unit: Unit, count: int)
    | AvroDecimal(bytes: seq<byte>)
    | AvroArray(items: seq<AvroValue>)
    | AvroMap(entries: map<string, AvroValue>)
    | AvroRecord(fields: seq<AvroField>)
    | AvroUnion(branch: nat, value: AvroValue)

  datatype AvroField = AvroField(name: string, value: AvroValue)

  function AvroNames(fields: seq<AvroField>): (names: seq<string>)
    ensures |names| == |fields| && forall i :: 0 <= i < |fields| ==> names[i] == fields[i].name
  {
    seq(|fields|, i requires 0 <= i < |fields| => fields[i].name)
  }

  predicate IsPlain(t: ScalarType) {
    t in {BooleanType, I32Type, I64Type, F32Type, F64Type, StringType, BytesType}
  }

  /**
   What the conversions take from elsewhere: the smallest number of bytes for a precision, and the
   calendar library, which reads a text as a count and prints a count as a text. Nothing is assumed of it.
   */
  datatype Codec = Codec(
    width: nat -> nat,
    daysOf: string -> Option<int>, dateOf: int -> Option<string>,
    microsOf: string -> Option<int>, timeOf: int -> Option<string>,
    stampOf: string -> Option<int>, stampOfMicros: int -> Option<string>, stampOfNanos: int -> Option<string>)

  function Counted(unit: Unit, count: Option<int>): Option<AvroValue> {
    if count.None? then None else Some(AvroTime(unit, count.value))
  }

  function Dated(text: Option<string>): Option<Value> {
    if text.None? then None else Some(Scalar(Date(text.value)))
  }

  function Timed(text: Option<string>): Option<Value> {
    if text.None? then None else Some(Scalar(Time(text.value)))
  }

  function Stamped(text: Option<string>): Option<Value> {
    if text.None? then None else Some(Scalar(Timestamp(text.value)))
  }

  // ---------------------------------------------------------------------------
  // Map keys in order
  // ---------------------------------------------------------------------------

  ghost predicate IsLeast(k: string, keys: set<string>) {
    k in keys && forall j :: j in keys ==> CompareNames(k, j) != Greater
  }

  lemma {:induction false} LeastExists(keys: set<string>)
    requires keys != {}
    ensures exists k :: IsLeast(k, keys)
    decreases |keys|
  {
    var x :| x in keys;
    var rest := keys - {x};
    NamesOrdered(x, x);
    if rest == {} {
      assert keys == {x};
      assert IsLeast(x, keys);
    } else {
      LeastExists(rest);
      var y :| IsLeast(y, rest);
      NamesOrdered(x, y);
      if CompareNames(x, y) == Less {
        forall j | j in keys ensures CompareNames(x, j) != Greater {
          if j != x { NamesTransitive(x, y, j); }
        }
        assert IsLeast(x, keys);
      } else {
        assert IsLeast(y, keys);
      }
    }
  }

  lemma LeastUnique(keys: set<string>, k: string, l: string)
    requires IsLeast(k, keys) && IsLeast(l, keys)
    ensures k == l
  {
    NamesOrdered(k, l);
  }

  /** The order in which a sorted map yields its keys. */
  ghost function SortedKeys(keys: set<string>): (s: seq<string>)
    ensures forall k :: k in s ==> k in keys
    decreases |keys|
  {
    if keys == {} then []
    else
      LeastExists(keys);
      var k :| IsLeast(k, keys);
      [k] + SortedKeys(keys - {k})
  }

  function KeySet(names: seq<string>): set<string> {
    set n | n in names
  }

  lemma {:induction false} AscendingIsSorted(names: seq<string>)
    requires Ascending(names)
    ensures SortedKeys(KeySet(names)) == names
    decreases |names|
  {
    if names != [] {
      var keys, rest := KeySet(names), names[1..];
      assert names[0] in keys;
      AscendingDistinct(names);
      forall j | j in keys ensures CompareNames(names[0], j) != Greater {
        var i :| 0 <= i < |names| && names[i] == j;
        NamesOrdered(j, j);
        if i > 0 { AscendingOrdered(names, 0, i); }
      }
      LeastExists(keys);
      forall k | IsLeast(k, keys) ensures k == names[0] { LeastUnique(keys, k, names[0]); }
      assert keys - {names[0]} == KeySet(rest);
      AscendingIsSorted(rest);
    }
  }

  // ---------------------------------------------------------------------------
  // Writing
  // ---------------------------------------------------------------------------

  /** `ir_value_to_avro`. */
  function ToAvro(v: Value, node: SchemaNode, c: Codec): Option<AvroValue>
    decreases v, 2
  {
    if !node.nullable then ToAvroRequired(v, node, c)
    else if v.Null? then Some(AvroUnion(0, AvroNull))
    else
      var r := ToAvroRequired(v, node, c);
      if r.None? then None else Some(AvroUnion(1, r.value))
  }

  /** `ir_value_to_avro_required`. */
  function ToAvroRequired(v: Value, node: SchemaNode, c: Codec): Option<AvroValue>
    decreases v, 1
  {
    match (node.kind, v)
    case (ScalarKind(NullType), Null) => Some(AvroNull)
    case (ScalarKind(UuidType), Scalar(Uuid(text))) => if ValidUuid(text) then Some(AvroUuid(text)) else None
    case (ScalarKind(DateType), Scalar(Date(text))) => Counted(Days, c.daysOf(text))
    case (ScalarKind(TimeType), Scalar(Time(text))) => Counted(Micros, c.microsOf(text))
    case (ScalarKind(TimestampType), Scalar(Timestamp(text))) => Counted(StampMicros, c.stampOf(text))
    case (ScalarKind(t), Scalar(s)) => if TypeOf(s) == t && IsPlain(t) then Some(Plain(s)) else None
    case (DecimalKind(precision, scale), Decimal(digits)) =>
      var unscaled := ToUnscaled(digits, scale);
      if unscaled.None? then None else Some(AvroDecimal(SignExtended(unscaled.value, c.width(precision))))
    case (ArrayKind(schema), Array(items)) =>
      var r := ItemsToAvro(items, schema, c);
      if r.None? then None else Some(AvroArray(r.value))
    case (MapKind(schema), Map(entries)) =>
      var r := EntriesToAvro(entries, schema, c);
      if r.None? then None else Some(AvroMap(r.value))
    case (RecordKind(schema), Record(fields)) =>
      var r := FieldsToAvro(fields, schema, c);
      if r.None? then None else Some(AvroRecord(r.value))
    case _ => None
  }

  function ItemsToAvro(items: seq<Value>, schema: SchemaNode, c: Codec): Option<seq<AvroValue>>
    decreases items, 0
  {
    if items == [] then Some([])
    else
      var front := ItemsToAvro(items[..|items| - 1], schema, c);
      var last := ToAvro(items[|items| - 1], schema, c);
      if front.None? || last.None? then None else Some(front.value + [last.value])
  }

  /** Entries collected into an unordered map. */
  function EntriesToAvro(entries: seq<Entry>, schema: SchemaNode, c: Codec): Option<map<string, AvroValue>>
    decreases entries, 0
  {
    if entries == [] then Some(map[])
    else
      var last := entries[|entries| - 1];
      var front := EntriesToAvro(entries[..|entries| - 1], schema, c);
      var value := ToAvro(last.value, schema, c);
      if front.None? || value.None? then None else Some(front.value[last.name := value.value])
  }

  /** The fields of the schema in its order, each found in the row by name. */
  function FieldsToAvro(values: seq<Entry>, fields: seq<SchemaField>, c: Codec): Option<seq<AvroField>>
    decreases values, 0, |fields|
  {
    if fields == [] then Some([])
    else
      var last := fields[|fields| - 1];
      var i := Find(EntryNames(values), last.name);
      if i == |values| then None
      else
        var front := FieldsToAvro(values, fields[..|fields| - 1], c);
        var value := ToAvro(values[i].value, last.schema, c);
        if front.None? || value.None? then None else Some(front.value + [AvroField(last.name, value.value)])
  }

  // ---------------------------------------------------------------------------
  // Reading
  // ---------------------------------------------------------------------------

  /** `avro_value_to_ir`. */
  ghost function FromAvro(a: AvroValue, node: SchemaNode, c: Codec): Option<Value>
    decreases a, 2
  {
    var inner := if a.AvroUnion? then a.value else a;
    if node.nullable && inner.AvroNull? then Some(Null) else FromAvroRequired(inner, node, c)
  }

  ghost function FromAvroRequired(a: AvroValue, node: SchemaNode, c: Codec): Option<Value>
    decreases a, 1
  {
    match (node.kind, a)
    case (ScalarKind(NullType), AvroNull) => Some(Null)
    case (ScalarKind(UuidType), AvroUuid(text)) => Some(Scalar(Uuid(text)))
    case (ScalarKind(DateType), AvroTime(Days, n)) => Dated(c.dateOf(n))
    case (ScalarKind(TimeType), AvroTime(Millis, n)) => Timed(c.timeOf(n * 1_000))
    case (ScalarKind(TimeType), AvroTime(Micros, n)) => Timed(c.timeOf(n))
    case (ScalarKind(TimestampType), AvroTime(StampMillis, n)) => Stamped(c.stampOfMicros(n * 1_000))
    case (ScalarKind(TimestampType), AvroTime(StampMicros, n)) => Stamped(c.stampOfMicros(n))
    case (ScalarKind(TimestampType), AvroTime(StampNanos, n)) => Stamped(c.stampOfNanos(n))
    case (ScalarKind(t), Plain(s)) => if TypeOf(s) == t && IsPlain(t) then Some(Scalar(s)) else None
    case (DecimalKind(_, scale), AvroDecimal(bytes)) => Some(Decimal(FromUnscaled(SignedValue(bytes), scale)))
    case (DecimalKind(_, scale), Plain(ByteString(bytes))) => Some(Decimal(FromUnscaled(SignedValue(bytes), scale)))
    case (ArrayKind(schema), AvroArray(items)) =>
      var r := ItemsFromAvro(items, schema, c);
      if r.None? then None else Some(Array(r.value))
    case (MapKind(schema), AvroMap(entries)) =>
      var r := EntriesFromAvro(a, SortedKeys(entries.Keys), schema, c);
      if r.None? then None else Some(Map(r.value))
    case (RecordKind(schema), AvroRecord(fields)) =>
      var r := FieldsFromAvro(fields, schema, c);
      if r.None? then None else Some(Record(r.value))
    case _ => None
  }

  ghost function ItemsFromAvro(items: seq<AvroValue>, schema: SchemaNode, c: Codec): Option<seq<Value>>
    decreases items, 0
  {
    if items == [] then Some([])
    else
      var front := ItemsFromAvro(items[..|items| - 1], schema, c);
      var last := FromAvro(items[|items| - 1], schema, c);
      if front.None? || last.None? then None else Some(front.value + [last.value])
  }

  ghost function EntriesFromAvro(a: AvroValue, keys: seq<string>, schema: SchemaNode, c: Codec): Option<seq<Entry>>
    requires a.AvroMap? && forall k :: k in keys ==> k in a.entries
    decreases a, 0, |keys|
  {
    if keys == [] then Some([])
    else
      var last := keys[|keys| - 1];
      var front := EntriesFromAvro(a, keys[..|keys| - 1], schema, c);
      var value := FromAvro(a.entries[last], schema, c);
      if front.None? || value.None? then None else Some(front.value + [Entry(last, value.value)])
  }

  ghost function FieldsFromAvro(values: seq<AvroField>, fields: seq<SchemaField>, c: Codec): Option<seq<Entry>>
    decreases values, 0, |fields|
  {
    if fields == [] then Some([])
    else
      var last := fields[|fields| - 1];
      var i := Find(AvroNames(values), last.name);
      if i == |values| then None
      else
        var front := FieldsFromAvro(values, fields[..|fields| - 1], c);
        var value := FromAvro(values[i].value, last.schema, c);
        if front.None? || value.None? then None else Some(front.value + [Entry(last.name, value.value)])
  }

  // ---------------------------------------------------------------------------
  // The round trip
  // ---------------------------------------------------------------------------

  predicate CustomFree(node: SchemaNode)
    decreases node
  {
    match node.kind
    case ScalarKind(_) => true
    case DecimalKind(_, _) => true
    case ArrayKind(items) => CustomFree(items)
    case MapKind(values) => CustomFree(values)
    case RecordKind(fields) => forall i :: 0 <= i < |fields| ==> CustomFree(fields[i].schema)
    case CustomKind(_, _) => false
  }

  /** A value that the validators accept against a schema without custom nodes. */
  ghost predicate Row(v: Value, node: SchemaNode, depth: int) {
    NodeValid(node, depth) && CustomFree(node) && ValueWellFormed(v, depth) && Matches(v, node)
  }

  ghost predicate ReturnsAs(v: Value, node: SchemaNode, c: Codec) {
    var a := ToAvro(v, node, c);
    a.Some? && FromAvro(a.value, node, c) == Some(v)
  }

  /** The calendar library prints a date or time back as the text it was read from. */
  predicate Stable(s: Scalar, c: Codec) {
    match s
    case Date(text) => c.daysOf(text).Some? && c.dateOf(c.daysOf(text).value) == Some(text)
    case Time(text) => c.microsOf(text).Some? && c.timeOf(c.microsOf(text).value) == Some(text)
    case Timestamp(text) => c.stampOf(text).Some? && c.stampOfMicros(c.stampOf(text).value) == Some(text)
    case _ => true
  }

  /** So it does for every date and time in the row. */
  predicate AllStable(v: Value, c: Codec)
    decreases v
  {
    match v
    case Scalar(s) => Stable(s, c)
    case Array(items) => forall i :: 0 <= i < |items| ==> AllStable(items[i], c)
    case Map(entries) => forall i :: 0 <= i < |entries| ==> AllStable(entries[i].value, c)
    case Record(fields) => forall i :: 0 <= i < |fields| ==> AllStable(fields[i].value, c)
    case Custom(_, value) => AllStable(value, c)
    case _ => true
  }

  lemma ItemRead(front: seq<AvroValue>, item: AvroValue, schema: SchemaNode, c: Codec)
    requires ItemsFromAvro(front, schema, c).Some? && FromAvro(item, schema, c).Some?
    ensures ItemsFromAvro(front + [item], schema, c)
            == Some(ItemsFromAvro(front, schema, c).value + [FromAvro(item, schema, c).value])
  {
    assert (front + [item])[..|front|] == front;
  }

  lemma {:induction false} ItemsReturn(items: seq<Value>, schema: SchemaNode, c: Codec)
    requires forall i :: 0 <= i < |items| ==> ReturnsAs(items[i], schema, c)
    ensures ItemsToAvro(items, schema, c).Some?
    ensures ItemsFromAvro(ItemsToAvro(items, schema, c).value, schema, c) == Some(items)
    decreases |items|
  {
    if items != [] {
      var n := |items| - 1;
      var front, last := items[..n], items[n];
      assert items == front + [last];
      assert ReturnsAs(last, schema, c);
      ItemsReturn(front, schema, c);
      ItemRead(ItemsToAvro(front, schema, c).value, ToAvro(last, schema, c).value, schema, c);
    }
  }

  /** The map holds exactly the entries, under their keys. */
  lemma {:induction false} EntriesMapped(entries: seq<Entry>, schema: SchemaNode, c: Codec)
    requires forall i :: 0 <= i < |entries| ==> ToAvro(entries[i].value, schema, c).Some?
    ensures EntriesToAvro(entries, schema, c).Some?
    ensures EntriesToAvro(entries, schema, c).value.Keys == KeySet(EntryNames(entries))
    decreases |entries|
  {
    if entries != [] {
      var n := |entries| - 1;
      EntriesMapped(entries[..n], schema, c);
      assert entries == entries[..n] + [entries[n]];
    }
  }

  lemma {:induction false} EntryMapped(entries: seq<Entry>, schema: SchemaNode, c: Codec, i: nat)
    requires i < |entries| && Distinct(EntryNames(entries)) && EntriesToAvro(entries, schema, c).Some?
    ensures var m := EntriesToAvro(entries, schema, c).value;
            entries[i].name in m && ToAvro(entries[i].value, schema, c) == Some(m[entries[i].name])
    decreases |entries|
  {
    var n := |entries| - 1;
    if i < n {
      assert EntryNames(entries)[i] != EntryNames(entries)[n];
      assert EntryNames(entries[..n]) == EntryNames(entries)[..n];
      EntryMapped(entries[..n], schema, c, i);
    }
  }

  lemma {:induction false} EntriesRead(a: AvroValue, entries: seq<Entry>, schema: SchemaNode, c: Codec)
    requires a.AvroMap? && forall k :: k in EntryNames(entries) ==> k in a.entries
    requires forall i :: 0 <= i < |entries| ==>
               entries[i].name in a.entries && FromAvro(a.entries[entries[i].name], schema, c) == Some(entries[i].value)
    ensures EntriesFromAvro(a, EntryNames(entries), schema, c) == Some(entries)
    decreases |entries|
  {
    if entries != [] {
      var n := |entries| - 1;
      assert EntryNames(entries)[..n] == EntryNames(entries[..n]);
      EntriesRead(a, entries[..n], schema, c);
      assert entries == entries[..n] + [entries[n]];
    }
  }

  lemma EntriesReturn(entries: seq<Entry>, schema: SchemaNode, c: Codec)
    requires Ascending(EntryNames(entries))
    requires forall i :: 0 <= i < |entries| ==> ReturnsAs(entries[i].value, schema, c)
    ensures EntriesToAvro(entries, schema, c).Some?
    ensures var m := EntriesToAvro(entries, schema, c).value;
            EntriesFromAvro(AvroMap(m), SortedKeys(m.Keys), schema, c) == Some(entries)
  {
    AscendingDistinct(EntryNames(entries));
    assert forall i :: 0 <= i < |entries| ==>
        ReturnsAs(entries[i].value, schema, c) ==> ToAvro(entries[i].value, schema, c).Some?;
    EntriesMapped(entries, schema, c);
    var m := EntriesToAvro(entries, schema, c).value;
    forall i | 0 <= i < |entries|
      ensures entries[i].name in m && FromAvro(m[entries[i].name], schema, c) == Some(entries[i].value)
    {
      EntryMapped(entries, schema, c, i);
      assert ReturnsAs(entries[i].value, schema, c);
    }
    AscendingIsSorted(EntryNames(entries));
    EntriesRead(AvroMap(m), entries, schema, c);
  }

  /** The written fields are the schema's, in order. */
  lemma {:induction false} FieldsWritten(values: seq<Entry>, fields: seq<SchemaField>, n: nat, c: Codec)
    requires n <= |fields| && EntryNames(values) == FieldNames(fields) && Distinct(FieldNames(fields))
    requires forall i :: 0 <= i < |values| ==> ToAvro(values[i].value, fields[i].schema, c).Some?
    ensures var r := FieldsToAvro(values, fields[..n], c);
            && r.Some? && |r.value| == n
            && forall i :: 0 <= i < n ==>
                 r.value[i] == AvroField(fields[i].name, ToAvro(values[i].value, fields[i].schema, c).value)
  {
    if n > 0 {
      FieldsWritten(values, fields, n - 1, c);
      assert fields[..n][..n - 1] == fields[..n - 1];
      assert EntryNames(values)[n - 1] == fields[n - 1].name;
    }
  }

  lemma {:induction false} FieldsRead(
    written: seq<AvroField>, values: seq<Entry>, fields: seq<SchemaField>, c: Codec, n: nat)
    requires n <= |fields| == |written| == |values| && Distinct(FieldNames(fields))
    requires EntryNames(values) == FieldNames(fields) == AvroNames(written)
    requires forall i :: 0 <= i < |fields| ==> FromAvro(written[i].value, fields[i].schema, c) == Some(values[i].value)
    ensures FieldsFromAvro(written, fields[..n], c) == Some(values[..n])
  {
    if n > 0 {
      FieldsRead(written, values, fields, c, n - 1);
      assert fields[..n][..n - 1] == fields[..n - 1];
      assert AvroNames(written)[n - 1] == fields[n - 1].name == EntryNames(values)[n - 1];
      assert values[..n] == values[..n - 1] + [values[n - 1]];
    }
  }

  lemma FieldsReturn(values: seq<Entry>, fields: seq<SchemaField>, c: Codec)
    requires EntryNames(values) == FieldNames(fields) && Distinct(FieldNames(fields))
    requires forall i :: 0 <= i < |values| ==> ReturnsAs(values[i].value, fields[i].schema, c)
    ensures FieldsToAvro(values, fields, c).Some?
    ensures FieldsFromAvro(FieldsToAvro(values, fields, c).value, fields, c) == Some(values)
  {
    var n := |fields|;
    assert |values| == |EntryNames(values)| == n;
    assert fields[..n] == fields && values[..n] == values;
    assert forall i :: 0 <= i < n ==>
        ReturnsAs(values[i].value, fields[i].schema, c) ==> ToAvro(values[i].value, fields[i].schema, c).Some?;
    FieldsWritten(values, fields, n, c);
    var written := FieldsToAvro(values, fields, c).value;
    assert AvroNames(written) == FieldNames(fields);
    FieldsRead(written, values, fields, c, n);
  }

  // ---------------------------------------------------------------------------
  // What is written and what is read, piece by piece
  // ---------------------------------------------------------------------------

  lemma {:induction false} ItemReadAt(items: seq<AvroValue>, schema: SchemaNode, c: Codec, i: nat)
    requires ItemsFromAvro(items, schema, c).Some? && i < |items|
    ensures |ItemsFromAvro(items, schema, c).value| == |items|
    ensures FromAvro(items[i], schema, c) == Some(ItemsFromAvro(items, schema, c).value[i])
    decreases |items|
  {
    var n := |items| - 1;
    if n > 0 { ItemReadAt(items[..n], schema, c, if i < n then i else 0); }
  }

  lemma {:induction false} ItemWrittenAt(items: seq<Value>, schema: SchemaNode, c: Codec, i: nat)
    requires ItemsToAvro(items, schema, c).Some? && i < |items|
    ensures |ItemsToAvro(items, schema, c).value| == |items|
    ensures ToAvro(items[i], schema, c) == Some(ItemsToAvro(items, schema, c).value[i])
    decreases |items|
  {
    var n := |items| - 1;
    if n > 0 { ItemWrittenAt(items[..n], schema, c, if i < n then i else 0); }
  }

  lemma {:induction false} EntryReadAt(a: AvroValue, keys: seq<string>, schema: SchemaNode, c: Codec, i: nat)
    requires a.AvroMap? && (forall k :: k in keys ==> k in a.entries)
    requires EntriesFromAvro(a, keys, schema, c).Some? && i < |keys|
    ensures var r := EntriesFromAvro(a, keys, schema, c).value;
            |r| == |keys| && r[i].name == keys[i] && FromAvro(a.entries[keys[i]], schema, c) == Some(r[i].value)
    decreases |keys|
  {
    var n := |keys| - 1;
    if n > 0 { EntryReadAt(a, keys[..n], schema, c, if i < n then i else 0); }
  }

  lemma {:induction false} FieldReadAt(values: seq<AvroField>, fields: seq<SchemaField>, c: Codec, i: nat)
    requires FieldsFromAvro(values, fields, c).Some? && i < |fields|
    ensures var r := FieldsFromAvro(values, fields, c).value;
            var k := Find(AvroNames(values), fields[i].name);
            && |r| == |fields| && r[i].name == fields[i].name
            && k < |values| && FromAvro(values[k].value, fields[i].schema, c) == Some(r[i].value)
    decreases |fields|
  {
    var n := |fields| - 1;
    if n > 0 { FieldReadAt(values, fields[..n], c, if i < n then i else 0); }
  }

  lemma {:induction false} FieldWrittenAt(values: seq<Entry>, fields: seq<SchemaField>, c: Codec, i: nat)
    requires FieldsToAvro(values, fields, c).Some? && i < |fields|
    ensures var r := FieldsToAvro(values, fields, c).value;
            var k := Find(EntryNames(values), fields[i].name);
            && |r| == |fields| && r[i].name == fields[i].name
            && k < |values| && ToAvro(values[k].value, fields[i].schema, c) == Some(r[i].value)
    decreases |fields|
  {
    var n := |fields| - 1;
    if n > 0 { FieldWrittenAt(values, fields[..n], c, if i < n then i else 0); }
  }

  // ---------------------------------------------------------------------------
  // A whole that returns has parts that return
  // ---------------------------------------------------------------------------

  lemma ItemReturned(items: seq<Value>, schema: SchemaNode, c: Codec, i: nat)
    requires i < |items| && ItemsToAvro(items, schema, c).Some?
    requires ItemsFromAvro(ItemsToAvro(items, schema, c).value, schema, c) == Some(items)
    ensures ReturnsAs(items[i], schema, c)
  {
    ItemWrittenAt(items, schema, c, i);
    ItemReadAt(ItemsToAvro(items, schema, c).value, schema, c, i);
  }

  lemma EntryReturned(entries: seq<Entry>, schema: SchemaNode, c: Codec, i: nat)
    requires i < |entries| && Ascending(EntryNames(entries)) && EntriesToAvro(entries, schema, c).Some?
    requires var m := EntriesToAvro(entries, schema, c).value;
             EntriesFromAvro(AvroMap(m), SortedKeys(m.Keys), schema, c) == Some(entries)
    ensures ReturnsAs(entries[i].value, schema, c)
  {
    var m := EntriesToAvro(entries, schema, c).value;
    AscendingDistinct(EntryNames(entries));
    EntryMapped(entries, schema, c, i);
    EntriesCounted(AvroMap(m), SortedKeys(m.Keys), schema, c);
    EntryReadAt(AvroMap(m), SortedKeys(m.Keys), schema, c, i);
  }

  lemma {:induction false} EntriesCounted(a: AvroValue, keys: seq<string>, schema: SchemaNode, c: Codec)
    requires a.AvroMap? && (forall k :: k in keys ==> k in a.entries) && EntriesFromAvro(a, keys, schema, c).Some?
    ensures |EntriesFromAvro(a, keys, schema, c).value| == |keys|
    decreases |keys|
  {
    if keys != [] { EntriesCounted(a, keys[..|keys| - 1], schema, c); }
  }

  lemma FieldReturned(values: seq<Entry>, fields: seq<SchemaField>, c: Codec, i: nat)
    requires i < |fields| == |values| && EntryNames(values) == FieldNames(fields) && Distinct(FieldNames(fields))
    requires FieldsToAvro(values, fields, c).Some?
    requires FieldsFromAvro(FieldsToAvro(values, fields, c).value, fields, c) == Some(values)
    ensures ReturnsAs(values[i].value, fields[i].schema, c)
  {
    var written := FieldsToAvro(values, fields, c).value;
    forall j | 0 <= j < |fields| ensures |written| == |fields| && written[j].name == fields[j].name {
      FieldWrittenAt(values, fields, c, j);
    }
    FieldWrittenAt(values, fields, c, i);
    FieldReadAt(written, fields, c, i);
    assert AvroNames(written) == FieldNames(fields);
    assert FieldNames(fields)[i] == fields[i].name;
  }

  // ---------------------------------------------------------------------------
  // Whole rows
  // ---------------------------------------------------------------------------

  ghost predicate ReturnsRequired(v: Value, node: SchemaNode, c: Codec) {
    var a := ToAvroRequired(v, node, c);
    a.Some? && FromAvroRequired(a.value, node, c) == Some(v)
  }

  /** The union around a nullable value is put on and stripped again. */
  lemma NullableReturns(v: Value, node: SchemaNode, c: Codec)
    requires v != Null
    ensures ReturnsAs(v, node, c) <==> ReturnsRequired(v, node, c)
  {
    var a := ToAvroRequired(v, node, c);
    assert a.Some? ==> !a.value.AvroUnion? && !a.value.AvroNull?;
  }

  lemma DecimalReturns(v: Value, node: SchemaNode, c: Codec)
    requires v.Decimal? && node.kind.DecimalKind? && Matches(v, node)
    ensures ReturnsRequired(v, node, c)
  {
    var scale := node.kind.scale;
    TextRoundTrip(v.digits, scale);
    SignExtensionDecodes(ToUnscaled(v.digits, scale).value, c.width(node.kind.precision));
  }

  predicate IsTemporal(s: Scalar) {
    s.Date? || s.Time? || s.Timestamp?
  }

  lemma TemporalReturns(s: Scalar, node: SchemaNode, c: Codec)
    requires IsTemporal(s) && node.kind == ScalarKind(TypeOf(s))
    ensures ReturnsRequired(Scalar(s), node, c) <==> Stable(s, c)
  {
  }

  lemma PlainReturns(s: Scalar, node: SchemaNode, c: Codec)
    requires !IsTemporal(s) && TextValid(s) && node.kind == ScalarKind(TypeOf(s))
    ensures ReturnsRequired(Scalar(s), node, c)
  {
  }

  lemma ArrayReturns(v: Value, node: SchemaNode, c: Codec)
    requires v.Array? && node.kind.ArrayKind?
    ensures ReturnsRequired(v, node, c)
            <==> forall i :: 0 <= i < |v.items| ==> ReturnsAs(v.items[i], node.kind.items, c)
  {
    var items, schema := v.items, node.kind.items;
    if forall i :: 0 <= i < |items| ==> ReturnsAs(items[i], schema, c) { ItemsReturn(items, schema, c); }
    if ReturnsRequired(v, node, c) {
      forall i | 0 <= i < |items| ensures ReturnsAs(items[i], schema, c) { ItemReturned(items, schema, c, i); }
    }
  }

  lemma MapUnfolds(v: Value, node: SchemaNode, c: Codec)
    requires v.Map? && node.kind.MapKind?
    ensures var written := EntriesToAvro(v.entries, node.kind.values, c);
            ReturnsRequired(v, node, c) <==>
              && written.Some?
              && EntriesFromAvro(AvroMap(written.value), SortedKeys(written.value.Keys), node.kind.values, c)
                 == Some(v.entries)
  {
  }

  lemma MapReturns(v: Value, node: SchemaNode, c: Codec)
    requires v.Map? && node.kind.MapKind? && Ascending(EntryNames(v.entries))
    ensures ReturnsRequired(v, node, c)
            <==> forall i :: 0 <= i < |v.entries| ==> ReturnsAs(v.entries[i].value, node.kind.values, c)
  {
    var entries, schema := v.entries, node.kind.values;
    MapUnfolds(v, node, c);
    if ReturnsRequired(v, node, c) {
      forall i | 0 <= i < |entries| ensures ReturnsAs(entries[i].value, schema, c) {
        EntryReturned(entries, schema, c, i);
      }
    } else if forall i :: 0 <= i < |entries| ==> ReturnsAs(entries[i].value, schema, c) {
      EntriesReturn(entries, schema, c);
    }
  }

  lemma RecordReturns(v: Value, node: SchemaNode, c: Codec)
    requires v.Record? && node.kind.RecordKind? && EntryNames(v.fields) == FieldNames(node.kind.fields)
    requires Distinct(FieldNames(node.kind.fields)) && |v.fields| == |node.kind.fields|
    ensures ReturnsRequired(v, node, c)
            <==> forall i :: 0 <= i < |v.fields| ==> ReturnsAs(v.fields[i].value, node.kind.fields[i].schema, c)
  {
    RecordUnfolds(v, node, c);
    if ReturnsRequired(v, node, c) {
      forall i | 0 <= i < |v.fields| ensures ReturnsAs(v.fields[i].value, node.kind.fields[i].schema, c) {
        FieldReturned(v.fields, node.kind.fields, c, i);
      }
    } else if forall i :: 0 <= i < |v.fields| ==> ReturnsAs(v.fields[i].value, node.kind.fields[i].schema, c) {
      FieldsReturn(v.fields, node.kind.fields, c);
    }
  }

  lemma RecordUnfolds(v: Value, node: SchemaNode, c: Codec)
    requires v.Record? && node.kind.RecordKind?
    ensures var written := FieldsToAvro(v.fields, node.kind.fields, c);
            ReturnsRequired(v, node, c) <==>
              written.Some? && FieldsFromAvro(written.value, node.kind.fields, c) == Some(v.fields)
  {
  }

  /**
   A valid row reads back as itself if and only if the calendar library prints each of its dates and
   times back, whatever the byte widths of its decimals and the order of its maps.
   */
  lemma {:induction false} ValueRoundTrip(v: Value, node: SchemaNode, depth: int, c: Codec)
    requires Row(v, node, depth)
    ensures ReturnsAs(v, node, c) <==> AllStable(v, c)
    decreases v
  {
    if !v.Null? { NullableReturns(v, node, c); }
    match v
    case Null =>
    case Scalar(s) => if IsTemporal(s) { TemporalReturns(s, node, c); } else { PlainReturns(s, node, c); }
    case Decimal(_) => DecimalReturns(v, node, c);
    case Array(items) =>
      forall i | 0 <= i < |items| ensures ReturnsAs(items[i], node.kind.items, c) <==> AllStable(items[i], c) {
        ValueRoundTrip(items[i], node.kind.items, depth - 1, c);
      }
      ArrayReturns(v, node, c);
    case Map(entries) =>
      forall i | 0 <= i < |entries|
        ensures ReturnsAs(entries[i].value, node.kind.values, c) <==> AllStable(entries[i].value, c)
      {
        ValueRoundTrip(entries[i].value, node.kind.values, depth - 1, c);
      }
      MapReturns(v, node, c);
    case Record(fields) => RecordRoundTrip(v, node, depth, c);
    case Custom(_, _) =>
  }

  lemma {:induction false} RecordRoundTrip(v: Value, node: SchemaNode, depth: int, c: Codec)
    requires v.Record? && Row(v, node, depth)
    ensures ReturnsRequired(v, node, c) <==> AllStable(v, c)
    decreases v, 0
  {
    var values, fields := v.fields, node.kind.fields;
    assert |values| == |EntryNames(values)| == |FieldNames(fields)| == |fields|;
    forall i | 0 <= i < |values|
      ensures ReturnsAs(values[i].value, fields[i].schema, c) <==> AllStable(values[i].value, c)
    {
      ValueRoundTrip(values[i].value, fields[i].schema, depth - 1, c);
    }
    RecordReturns(v, node, c);
  }

  // ---------------------------------------------------------------------------
  // Reading anything
  // ---------------------------------------------------------------------------

  /** What reading can promise of a value before it is validated: all of `Matches` but the decimal precision. */
  predicate Conforms(v: Value, node: SchemaNode)
    decreases v
  {
    match (v, node.kind)
    case (Null, kind) => node.nullable || kind == ScalarKind(NullType)
    case (Scalar(s), ScalarKind(t)) => TypeOf(s) == t
    case (Decimal(digits), DecimalKind(_, scale)) =>
      ParseDecimal(digits).Some? && ParseDecimal(digits).value.scale == scale
    case (Array(items), ArrayKind(schema)) => forall i :: 0 <= i < |items| ==> Conforms(items[i], schema)
    case (Map(entries), MapKind(schema)) =>
      Ascending(EntryNames(entries)) && forall i :: 0 <= i < |entries| ==> Conforms(entries[i].value, schema)
    case (Record(values), RecordKind(fields)) =>
      && EntryNames(values) == FieldNames(fields)
      && forall i :: 0 <= i < |values| ==> Conforms(values[i].value, fields[i].schema)
    case _ => false
  }

  lemma {:induction false} SortedKeysAscend(keys: set<string>)
    ensures Ascending(SortedKeys(keys))
    decreases |keys|
  {
    if keys != {} {
      var s := SortedKeys(keys);
      LeastExists(keys);
      assert IsLeast(s[0], keys) && s[1..] == SortedKeys(keys - {s[0]});
      SortedKeysAscend(keys - {s[0]});
      forall i | 0 < i < |s| ensures CompareNames(s[i - 1], s[i]) == Less {
        assert s[i] == s[1..][i - 1] && s[i] in keys - {s[0]};
        if i == 1 { NamesOrdered(s[0], s[1]); } else { assert s[i - 1] == s[1..][i - 2]; }
      }
    }
  }

  /** Whatever Avro value is read, the result has the shape its schema declares, with its map keys in order. */
  lemma {:induction false} ReadConforms(a: AvroValue, node: SchemaNode, c: Codec)
    requires FromAvro(a, node, c).Some?
    ensures Conforms(FromAvro(a, node, c).value, node)
    decreases a
  {
    var inner := if a.AvroUnion? then a.value else a;
    var v := FromAvro(a, node, c).value;
    match node.kind
    case DecimalKind(_, scale) =>
      if !v.Null? { PrintedParses(SignedValue(if inner.AvroDecimal? then inner.bytes else inner.scalar.bytes), scale); }
    case ArrayKind(schema) => if !v.Null? { ItemsConform(inner, schema, c); }
    case MapKind(schema) => if !v.Null? { EntriesConform(inner, schema, c); }
    case RecordKind(fields) => if !v.Null? { FieldsConform(inner, fields, c); }
    case _ =>
  }

  lemma {:induction false} ItemsConform(a: AvroValue, schema: SchemaNode, c: Codec)
    requires a.AvroArray? && ItemsFromAvro(a.items, schema, c).Some?
    ensures var r := ItemsFromAvro(a.items, schema, c).value;
            forall i :: 0 <= i < |r| ==> Conforms(r[i], schema)
    decreases a, 0
  {
    var r := ItemsFromAvro(a.items, schema, c).value;
    if a.items != [] { ItemReadAt(a.items, schema, c, 0); }
    forall i | 0 <= i < |r| ensures Conforms(r[i], schema) {
      ItemReadAt(a.items, schema, c, i);
      ReadConforms(a.items[i], schema, c);
    }
  }

  lemma {:induction false} EntriesConform(a: AvroValue, schema: SchemaNode, c: Codec)
    requires a.AvroMap? && EntriesFromAvro(a, SortedKeys(a.entries.Keys), schema, c).Some?
    ensures var r := EntriesFromAvro(a, SortedKeys(a.entries.Keys), schema, c).value;
            Ascending(EntryNames(r)) && forall i :: 0 <= i < |r| ==> Conforms(r[i].value, schema)
    decreases a, 0
  {
    var keys := SortedKeys(a.entries.Keys);
    var r := EntriesFromAvro(a, keys, schema, c).value;
    if keys != [] { EntryReadAt(a, keys, schema, c, 0); }
    forall i | 0 <= i < |r| ensures r[i].name == keys[i] && Conforms(r[i].value, schema) {
      EntryReadAt(a, keys, schema, c, i);
      ReadConforms(a.entries[keys[i]], schema, c);
    }
    assert EntryNames(r) == keys;
    SortedKeysAscend(a.entries.Keys);
  }

  lemma {:induction false} FieldsConform(a: AvroValue, fields: seq<SchemaField>, c: Codec)
    requires a.AvroRecord? && FieldsFromAvro(a.fields, fields, c).Some?
    ensures var r := FieldsFromAvro(a.fields, fields, c).value;
            EntryNames(r) == FieldNames(fields) && forall i :: 0 <= i < |r| ==> Conforms(r[i].value, fields[i].schema)
    decreases a, 0
  {
    var r := FieldsFromAvro(a.fields, fields, c).value;
    if fields != [] { FieldReadAt(a.fields, fields, c, 0); }
    forall i | 0 <= i < |fields| ensures r[i].name == fields[i].name && Conforms(r[i].value, fields[i].schema) {
      FieldReadAt(a.fields, fields, c, i);
      ReadConforms(a.fields[Find(AvroNames(a.fields), fields[i].name)].value, fields[i].schema, c);
    }
    assert EntryNames(r) == FieldNames(fields);
  }
}
